/**
 The sequential ledger that stack/init.sql and the two-statement batch describe: one
 batch at a time, applied wholly or not at all.
 */
module AtomicLedger {
  import opened Entities
  import opened Machine
  import opened Saldo
  import opened LastTen
  import opened SqlText
  import Utf8

  /** Tables cliente and transacao; rows of transacao stand in commit order. */
  datatype Ledger = Ledger(clientes: map<int, Cliente>, transacoes: seq<Row>)

  /** The server reads the pasted text as it was sent: valid in the encoding, and one whole constant. */
  ghost predicate TextAccepted(t: Transacao) {
    Utf8.Valid(t.descricao) && Pasted(t.descricao) == Literal(t.descricao, AFTER)
  }

  /** Columns `valor integer` and `descricao varchar(10)` hold the values. */
  predicate FitsColumns(t: Transacao) {
    IsInt32(t.valor) && Utf8.CountPoints(t.descricao) <= 10
  }

  /** The insert stores the transaction as it was sent. */
  ghost predicate Storable(t: Transacao) {
    TextAccepted(t) && FitsColumns(t)
  }

  /**
   What the server takes for descricao; None if it refuses the query string. For a text that
   closes its constant early there is no such value: what SQL makes of the rest (an operator, a
   comment, rows or statements of its own) is not parsed here, and no run sends such a text.
   */
  ghost predicate Reads(t: Transacao, texto: Option<string>) {
    var pasted := Pasted(t.descricao);
    if !Utf8.Valid(t.descricao) || pasted.Unterminated? then texto == None
    else if pasted.rest == AFTER then texto == Some(pasted.value)
    else false
  }

  /** The batch stays the two statements, or is refused: the text does not close its constant early. */
  ghost predicate StaysInPlace(text: string) {
    !Utf8.Valid(text) || Pasted(text).Unterminated? || EndsInPlace(text)
  }

  lemma ReadsDetermined(t: Transacao)
    ensures (exists texto :: Reads(t, texto)) <==> StaysInPlace(t.descricao)
    ensures forall a, b :: Reads(t, a) && Reads(t, b) ==> a == b
  {
    if StaysInPlace(t.descricao) {
      var pasted := Pasted(t.descricao);
      assert Reads(t, if !Utf8.Valid(t.descricao) || pasted.Unterminated? then None else Some(pasted.value));
    }
  }

  lemma ClosesEarly(t: Transacao, more: string)
    requires t.descricao == [QUOTE] + more && more != "" && more[0] != QUOTE && Utf8.Valid(t.descricao)
    ensures Pasted(t.descricao) == Literal("", more + CLOSE)
    ensures !StaysInPlace(t.descricao) && forall texto :: !Reads(t, texto)
  {
    ClosesAtOnce(more);
  }

  /** The transaction that the server works on. */
  function Taken(t: Transacao, texto: Option<string>): Transacao {
    if texto.Some? then t.(descricao := texto.value) else t
  }

  lemma TakenIsValid(t: Transacao, texto: Option<string>)
    requires ValidTransacao(t) && Reads(t, texto)
    ensures ValidTransacao(Taken(t, texto))
  {
    PastedText(t.descricao);
    if EndsInPlace(t.descricao) {
      ValueBounds(t.descricao);
    }
  }

  /** What the server can store: valor fits, and the text is valid with all quotes in pairs. */
  ghost predicate Insertable(t: Transacao) {
    IsInt32(t.valor) && Utf8.Valid(t.descricao) && Doubled(t.descricao)
  }

  /** The request alone decides whether it can be stored, and whether that is done as it was sent. */
  lemma ReadsByText(t: Transacao, texto: Option<string>)
    requires ValidTransacao(t) && Reads(t, texto)
    ensures StaysInPlace(t.descricao)
    ensures texto.Some? && FitsColumns(Taken(t, texto)) <==> Insertable(t)
    ensures Storable(t) <==> Insertable(t) && QUOTE !in t.descricao
    ensures texto.Some? ==> (Taken(t, texto) == t <==> QUOTE !in t.descricao)
  {
    PastedText(t.descricao);
    TakenIsValid(t, texto);
  }

  /** The batch of a transaction goes through; `taken` tells that the query string was not refused. */
  predicate Accepts(clientes: map<int, Cliente>, t: Transacao, taken: bool) {
    taken && t.idCliente in clientes && FitsColumns(t) && UpdateAccepted(clientes[t.idCliente], t)
  }

  /** Table cliente after the batch. */
  function Post(clientes: map<int, Cliente>, t: Transacao, taken: bool): map<int, Cliente> {
    if Accepts(clientes, t, taken) then
      var c := clientes[t.idCliente];
      clientes[t.idCliente := c.(saldo := SaldoSql(c.saldo, t))]
    else
      clientes
  }

  function Apply(l: Ledger, row: Row, taken: bool): Ledger {
    Ledger(Post(l.clientes, row.transacao, taken),
           if Accepts(l.clientes, row.transacao, taken) then l.transacoes + [row] else l.transacoes)
  }

  /** A database as init.sql leaves it: client rows that satisfy the table, no transactions. */
  predicate Initial(l: Ledger) {
    l.transacoes == [] && forall id :: id in l.clientes ==> ValidCliente(l.clientes[id])
  }

  /** The five clients of init.sql. */
  const INIT_SQL: Ledger := Ledger(
    map[1 := Cliente(100000, 0), 2 := Cliente(80000, 0), 3 := Cliente(1000000, 0), 4 := Cliente(10000000, 0),
        5 := Cliente(500000, 0)], [])

  /** The limit never moves, chk_saldo holds, and saldo is its initial value plus credits minus debits. */
  predicate ConservedRow(ini: Ledger, l: Ledger, id: int)
    requires id in l.clientes && id in ini.clientes
  {
    && ValidCliente(l.clientes[id])
    && l.clientes[id].limite == ini.clientes[id].limite
    && l.clientes[id].saldo == ini.clientes[id].saldo + Credits(l.transacoes, id) - Debits(l.transacoes, id)
  }

  /** What the tables of a ledger satisfy at all times. */
  predicate Conserved(ini: Ledger, l: Ledger) {
    && l.clientes.Keys == ini.clientes.Keys
    && (forall id :: id in l.clientes ==> ConservedRow(ini, l, id))
    && (forall row :: row in l.transacoes ==> ValidTransacao(row.transacao) && FitsColumns(row.transacao))
  }

  lemma ApplyConserves(ini: Ledger, l: Ledger, row: Row, taken: bool)
    requires Conserved(ini, l) && ValidTransacao(row.transacao)
    ensures Conserved(ini, Apply(l, row, taken))
  {
    if Accepts(l.clientes, row.transacao, taken) {
      forall id | id in l.clientes
        ensures ConservedRow(ini, Apply(l, row, taken), id)
      {
        assert ConservedRow(ini, l, id);
        SumsSnoc(l.transacoes, row, id);
      }
    }
  }
}
