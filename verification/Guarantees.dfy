/** What holds of the shared ledger in every reachable state, for any number of processes. */
module Guarantees {
  import opened Entities
  import opened Machine
  import opened Saldo
  import opened LastTen
  import opened AtomicLedger
  import opened SqlText
  import opened Protocol
  import opened ProtocolInvariant
  import opened ProtocolHistory

  function Tables(s: State): Ledger {
    Ledger(s.clientes, s.transacoes)
  }

  // Refinement.

  lemma EndRefines(ini: Ledger, s: State, c: nat, committed: bool)
    requires Core(ini, s) && RightEnd(s, c, committed)
    ensures var f := s.connections[c].flight;
            && End(s, c, committed).outcomes
               == s.outcomes + [Outcome(f.batch, Row(f.id, f.batch.Lida(), f.agora), committed)]
            && Tables(End(s, c, committed))
               == Apply(Tables(s), Row(f.id, f.batch.Lida(), f.agora), f.batch.texto.Some?)
  {
    assert ConnectionOk(ini, s, c);
  }

  /**
   Every action leaves the committed tables alone, except the one that ends a batch: that
   one does to them what the atomic ledger does with the whole batch.
   */
  lemma ActionRefines(ini: Ledger, n: nat, s: State, a: Action)
    requires Reachable(ini, n, s) && Enabled(s, a)
    ensures !Ends(s, a) ==> Tables(Do(s, a)) == Tables(s) && Do(s, a).outcomes == s.outcomes
    ensures Ends(s, a) ==>
              && |Do(s, a).outcomes| == |s.outcomes| + 1
              && var o := Do(s, a).outcomes[|s.outcomes|];
              && o.batch == s.connections[a.c].flight.batch && o.row.transacao == o.batch.Lida()
              && Tables(Do(s, a)) == Apply(Tables(s), o.row, o.batch.texto.Some?)
  {
    ReachableInv(ini, n, s);
    if Ends(s, a) {
      EndsRightly(ini, s, a);
      EndRefines(ini, s, a.c, a.Commit?);
    }
  }

  /** The server's verdict on batch k is that of the atomic ledger at that point. */
  ghost predicate Judged(ini: Ledger, outcomes: seq<Outcome>, k: nat)
    requires k < |outcomes|
  {
    var b := outcomes[k].batch;
    && outcomes[k].row.transacao == b.Lida() && Reads(b.transacao, b.texto)
    && (outcomes[k].committed <==> Accepts(Book(ini, outcomes[..k]).clientes, b.Lida(), b.texto.Some?))
  }

  /** The tables are those of the atomic ledger run on the batches in the order they ended. */
  lemma Refinement(ini: Ledger, n: nat, s: State)
    requires Reachable(ini, n, s)
    ensures Tables(s) == Book(ini, s.outcomes)
    ensures forall k :: 0 <= k < |s.outcomes| ==> Judged(ini, s.outcomes, k)
  {
    ReachableInv(ini, n, s);
    forall k | 0 <= k < |s.outcomes|
      ensures Judged(ini, s.outcomes, k)
    {
      assert OutcomeOk(ini, n, s.outcomes, k);
    }
  }

  // Conservation.

  function CommittedRows(outcomes: seq<Outcome>): seq<Row> {
    if outcomes == [] then []
    else
      var o := outcomes[|outcomes| - 1];
      CommittedRows(outcomes[..|outcomes| - 1]) + (if o.committed then [o.row] else [])
  }

  ghost predicate OutcomesOk(ini: Ledger, n: nat, outcomes: seq<Outcome>) {
    forall k :: 0 <= k < |outcomes| ==> OutcomeOk(ini, n, outcomes, k)
  }

  lemma OutcomesPrefix(ini: Ledger, n: nat, outcomes: seq<Outcome>, k: nat)
    requires OutcomesOk(ini, n, outcomes) && k <= |outcomes|
    ensures OutcomesOk(ini, n, outcomes[..k])
  {
    forall j | 0 <= j < k
      ensures OutcomeOk(ini, n, outcomes[..k], j)
    {
      assert outcomes[..k][..j] == outcomes[..j];
      assert OutcomeOk(ini, n, outcomes, j);
    }
  }

  lemma {:induction false} BookConserved(ini: Ledger, n: nat, outcomes: seq<Outcome>)
    requires Initial(ini) && OutcomesOk(ini, n, outcomes)
    ensures Conserved(ini, Book(ini, outcomes))
    ensures Book(ini, outcomes).transacoes == CommittedRows(outcomes)
  {
    if outcomes != [] {
      var k := |outcomes| - 1;
      OutcomesPrefix(ini, n, outcomes, k);
      BookConserved(ini, n, outcomes[..k]);
      assert OutcomeOk(ini, n, outcomes, k);
      ApplyConserves(ini, Book(ini, outcomes[..k]), outcomes[k].row, outcomes[k].batch.texto.Some?);
    }
  }

  /**
   Each client's committed saldo is its initial saldo plus committed credits minus committed
   debits and never below -limite; a batch that is pending or was aborted adds no row.
   */
  lemma Conservation(ini: Ledger, n: nat, s: State)
    requires Initial(ini) && Reachable(ini, n, s)
    ensures Conserved(ini, Tables(s))
    ensures s.transacoes == CommittedRows(s.outcomes)
  {
    ReachableInv(ini, n, s);
    BookConserved(ini, n, s.outcomes);
  }

  // Between a read and a later point of the run.

  lemma {:induction false} CommittedConcat(a: seq<Outcome>, b: seq<Outcome>)
    ensures CommittedRows(a + b) == CommittedRows(a) + CommittedRows(b)
  {
    if b == [] {
      assert a + b == a;
    } else {
      CommittedConcat(a, b[..|b| - 1]);
      assert (a + b)[..|a + b| - 1] == a + b[..|b| - 1];
    }
  }

  /** The balance at a later point is the one read plus what was committed in between. */
  lemma BalanceMoves(ini: Ledger, n: nat, outcomes: seq<Outcome>, id: int, visto: Cliente, lido: nat, k: nat)
    requires Initial(ini) && OutcomesOk(ini, n, outcomes)
    requires Seen(ini, outcomes, id, visto, lido) && lido <= k <= |outcomes|
    ensures id in Book(ini, outcomes[..k]).clientes && ValidCliente(visto)
    ensures Book(ini, outcomes[..k]).clientes[id]
            == Cliente(visto.limite, visto.saldo + Net(CommittedRows(outcomes[lido..k]), id))
  {
    OutcomesPrefix(ini, n, outcomes, lido);
    OutcomesPrefix(ini, n, outcomes, k);
    BookConserved(ini, n, outcomes[..lido]);
    BookConserved(ini, n, outcomes[..k]);
    assert ConservedRow(ini, Book(ini, outcomes[..lido]), id);
    assert ConservedRow(ini, Book(ini, outcomes[..k]), id);
    NetSplit(outcomes, lido, k, id);
  }

  lemma NetSplit(outcomes: seq<Outcome>, lido: nat, k: nat, id: int)
    requires lido <= k <= |outcomes|
    ensures Net(CommittedRows(outcomes[..k]), id)
            == Net(CommittedRows(outcomes[..lido]), id) + Net(CommittedRows(outcomes[lido..k]), id)
  {
    assert outcomes[..k] == outcomes[..lido] + outcomes[lido..k];
    CommittedConcat(outcomes[..lido], outcomes[lido..k]);
    NetConcat(CommittedRows(outcomes[..lido]), CommittedRows(outcomes[lido..k]), id);
  }

  predicate CommittedDebit(o: Outcome, id: int) {
    o.committed && o.row.transacao.idCliente == id && o.row.transacao.tipo == 'd'
  }

  lemma NetSnoc(outcomes: seq<Outcome>, o: Outcome, id: int)
    requires o.committed ==> ValidTransacao(o.row.transacao)
    ensures CommittedDebit(o, id) || Net(CommittedRows(outcomes + [o]), id) >= Net(CommittedRows(outcomes), id)
  {
    assert (outcomes + [o])[..|outcomes + [o]| - 1] == outcomes;
    if o.committed {
      assert CommittedRows(outcomes + [o]) == CommittedRows(outcomes) + [o.row];
      SumsSnoc(CommittedRows(outcomes), o.row, id);
    } else {
      assert CommittedRows(outcomes + [o]) == CommittedRows(outcomes);
    }
  }

  /** A balance only falls by a committed debit. */
  lemma {:induction false} FallNeedsDebit(ini: Ledger, n: nat, outcomes: seq<Outcome>, id: int, lido: nat, k: nat)
    returns (j: nat)
    requires OutcomesOk(ini, n, outcomes) && lido <= k <= |outcomes|
    requires Net(CommittedRows(outcomes[lido..k]), id) < 0
    ensures lido <= j < k && CommittedDebit(outcomes[j], id)
    decreases k
  {
    assert outcomes[k..k] == [];
    var o := outcomes[k - 1];
    assert OutcomeOk(ini, n, outcomes, k - 1);
    if CommittedDebit(o, id) {
      j := k - 1;
    } else {
      assert outcomes[lido..k] == outcomes[lido..k - 1] + [o];
      NetSnoc(outcomes[lido..k - 1], o, id);
      j := FallNeedsDebit(ini, n, outcomes, id, lido, k - 1);
    }
  }

  // Any number of processes: what a 200 promises.

  /** The row its process read, moved by what was committed since. */
  ghost function Moved(s: State, k: nat): Cliente
    requires k < |s.outcomes| && s.outcomes[k].batch.lido <= k
  {
    var b := s.outcomes[k].batch;
    Cliente(b.visto.limite, b.visto.saldo + Net(CommittedRows(s.outcomes[b.lido..k]), b.transacao.idCliente))
  }

  /** The row the batch met when it ended is the row its process read, moved. */
  lemma RowMet(ini: Ledger, n: nat, s: State, k: nat)
    requires Initial(ini) && Reachable(ini, n, s) && k < |s.outcomes|
    ensures s.outcomes[k].batch.lido <= k
    ensures var t := s.outcomes[k].batch.transacao; var met := Book(ini, s.outcomes[..k]).clientes;
            && s.outcomes[k].row.transacao == s.outcomes[k].batch.Lida()
            && t.idCliente in met && met[t.idCliente] == Moved(s, k) && ValidCliente(Moved(s, k))
            && (s.outcomes[k].committed
                <==> Accepts(met, s.outcomes[k].batch.Lida(), s.outcomes[k].batch.texto.Some?))
  {
    ReachableInv(ini, n, s);
    var b := s.outcomes[k].batch;
    assert OutcomeOk(ini, n, s.outcomes, k);
    assert s.outcomes[..k][..b.lido] == s.outcomes[..b.lido];
    BalanceMoves(ini, n, s.outcomes, b.transacao.idCliente, b.visto, b.lido, k);
    OutcomesPrefix(ini, n, s.outcomes, k);
    BookConserved(ini, n, s.outcomes[..k]);
    assert ConservedRow(ini, Book(ini, s.outcomes[..k]), b.transacao.idCliente);
  }

  /** A batch commits exactly when what the server reads fits the columns and the moved row admits it. */
  lemma VerdictFromRead(ini: Ledger, n: nat, s: State, k: nat)
    requires Initial(ini) && Reachable(ini, n, s) && k < |s.outcomes|
    ensures var b := s.outcomes[k].batch;
            && b.lido <= k
            && ValidTransacao(b.transacao) && ValidCliente(b.visto) && ValidCliente(Moved(s, k))
            && !LimiteExcedido(b.visto, b.transacao) && Reads(b.transacao, b.texto)
            && (s.outcomes[k].committed <==> b.Fits() && UpdateAccepted(Moved(s, k), b.transacao))
  {
    ReachableInv(ini, n, s);
    var b := s.outcomes[k].batch;
    assert OutcomeOk(ini, n, s.outcomes, k);
    RowMet(ini, n, s, k);
    assert s.outcomes[..k][..b.lido] == s.outcomes[..b.lido];
    BalanceMoves(ini, n, s.outcomes, b.transacao.idCliente, b.visto, b.lido, b.lido);
  }

  /**
   The request and the moved row alone decide: a batch commits exactly when valor fits its
   column, descricao is valid UTF-8 with all quotes in pairs, and the moved row admits it. It
   is stored as it was sent exactly when there is no quote.
   */
  lemma VerdictByText(ini: Ledger, n: nat, s: State, k: nat)
    requires Initial(ini) && Reachable(ini, n, s) && k < |s.outcomes|
    ensures s.outcomes[k].batch.lido <= k
    ensures var o := s.outcomes[k]; var t := o.batch.transacao;
            && StaysInPlace(t.descricao)
            && (o.committed <==> Insertable(t) && UpdateAccepted(Moved(s, k), t))
            && (o.committed ==> (o.row.transacao == t <==> QUOTE !in t.descricao))
  {
    VerdictFromRead(ini, n, s, k);
    ReadsByText(s.outcomes[k].batch.transacao, s.outcomes[k].batch.texto);
    RowMet(ini, n, s, k);
  }

  /** A credit answered 200 commits exactly when it can be stored and the balance stays a bigint. */
  lemma CreditCommits(ini: Ledger, n: nat, s: State, k: nat)
    requires Initial(ini) && Reachable(ini, n, s) && k < |s.outcomes|
    requires s.outcomes[k].batch.transacao.tipo == 'c'
    ensures s.outcomes[k].batch.lido <= k
    ensures var t := s.outcomes[k].batch.transacao;
            s.outcomes[k].committed <==> Insertable(t) && Moved(s, k).saldo + t.valor <= INT64_MAX
  {
    VerdictFromRead(ini, n, s, k);
    VerdictByText(ini, n, s, k);
  }

  /** A debit commits exactly when it can be stored, the balance stays a bigint and the limit holds. */
  lemma DebitCommits(ini: Ledger, n: nat, s: State, k: nat)
    requires Initial(ini) && Reachable(ini, n, s) && k < |s.outcomes|
    requires s.outcomes[k].batch.transacao.tipo == 'd'
    ensures s.outcomes[k].batch.lido <= k
    ensures var t := s.outcomes[k].batch.transacao; var left := Moved(s, k).saldo - t.valor;
            s.outcomes[k].committed <==> Insertable(t) && left >= INT64_MIN && left >= -Moved(s, k).limite
  {
    VerdictFromRead(ini, n, s, k);
    VerdictByText(ini, n, s, k);
  }

  /**
   A debit answered 200 that can be stored and stays a bigint on the row as read aborts only
   if another connection committed a debit on the same client after that read.
   */
  lemma DebitAbortNeedsRival(ini: Ledger, n: nat, s: State, k: nat) returns (j: nat)
    requires Initial(ini) && Reachable(ini, n, s) && k < |s.outcomes| && !s.outcomes[k].committed
    requires s.outcomes[k].batch.transacao.tipo == 'd' && Insertable(s.outcomes[k].batch.transacao)
    requires IsInt64(s.outcomes[k].batch.visto.saldo - s.outcomes[k].batch.transacao.valor)
    ensures s.outcomes[k].batch.lido <= j < k
    ensures s.outcomes[j].batch.connection != s.outcomes[k].batch.connection
    ensures CommittedDebit(s.outcomes[j], s.outcomes[k].batch.transacao.idCliente)
  {
    ReachableInv(ini, n, s);
    VerdictFromRead(ini, n, s, k);
    VerdictByText(ini, n, s, k);
    var b := s.outcomes[k].batch;
    LimitTestAgainstCheck(b.visto, b.transacao);
    j := FallNeedsDebit(ini, n, s.outcomes, b.transacao.idCliente, b.lido, k);
    assert OutcomeOk(ini, n, s.outcomes, k);
    assert s.outcomes[..k][j] == s.outcomes[j];
  }

  /**
   The balance that a 200 announces is the one the batch leaves exactly when what was
   committed on that client between the read and the batch sums to nothing.
   */
  lemma AnnouncedBalance(ini: Ledger, n: nat, s: State, k: nat)
    requires Initial(ini) && Reachable(ini, n, s) && k < |s.outcomes| && s.outcomes[k].committed
    ensures s.outcomes[k].batch.lido <= k
    ensures var b := s.outcomes[k].batch; var id := b.transacao.idCliente;
            var after := Book(ini, s.outcomes[..k + 1]).clientes;
            && id in after
            && (after[id].saldo == SaldoLocal(b.visto, b.transacao)
                <==> Net(CommittedRows(s.outcomes[b.lido..k]), id) == 0)
  {
    VerdictFromRead(ini, n, s, k);
    AfterCommit(ini, n, s, k);
    var b := s.outcomes[k].batch;
    LimitTestAgainstCheck(b.visto, b.transacao);
  }

  lemma NextBook(ini: Ledger, outcomes: seq<Outcome>, k: nat)
    requires k < |outcomes|
    ensures Book(ini, outcomes[..k + 1])
            == Apply(Book(ini, outcomes[..k]), outcomes[k].row, outcomes[k].batch.texto.Some?)
  {
    assert outcomes[..k + 1] == outcomes[..k] + [outcomes[k]];
    BookSnoc(ini, outcomes[..k], outcomes[k]);
  }

  lemma AfterCommit(ini: Ledger, n: nat, s: State, k: nat)
    requires Initial(ini) && Reachable(ini, n, s) && k < |s.outcomes| && s.outcomes[k].committed
    requires s.outcomes[k].batch.lido <= k
    ensures var t := s.outcomes[k].batch.transacao; var after := Book(ini, s.outcomes[..k + 1]).clientes;
            && t.idCliente in after
            && after[t.idCliente] == Cliente(Moved(s, k).limite, SaldoSql(Moved(s, k).saldo, t))
  {
    RowMet(ini, n, s, k);
    NextBook(ini, s.outcomes, k);
  }

  /**
   Order on one connection: its batches end in the order they were answered, at most one is
   pending, and each later read follows the end of every batch answered before it.
   */
  lemma ReadYourWrites(ini: Ledger, n: nat, s: State, c: nat, k: nat)
    requires Reachable(ini, n, s) && c < n && k < |s.answers|
    ensures |s.connections| == n
    ensures AcceptedBy(s.answers, c) == EndedBy(s.outcomes, c) + Pending(s.connections[c])
    ensures |Pending(s.connections[c])| <= 1
    ensures s.answers[k].Accepted? ==>
              ReadsOwn(s.answers[..k], s.outcomes, s.answers[k].batch.connection, s.answers[k].batch.lido)
    ensures s.answers[k].Refused? || s.answers[k].Extrato? ==>
              ReadsOwn(s.answers[..k], s.outcomes, s.answers[k].connection, s.answers[k].lido)
  {
    ReachableInv(ini, n, s);
    assert Fifo(s, c);
    assert AnswerOk(ini, s.outcomes, s.answers[..k], s.answers[k]);
  }

  // The statement.

  /** The saldo of a statement and its list each rest on a prefix of what was committed. */
  lemma StatementPrefixes(ini: Ledger, n: nat, s: State, k: nat)
    requires Initial(ini) && Reachable(ini, n, s) && k < |s.answers| && s.answers[k].Extrato?
    ensures var a := s.answers[k];
            && a.lido <= a.listed <= |s.outcomes| && a.id in ini.clientes
            && a.visto.limite == ini.clientes[a.id].limite
            && a.visto.saldo == ini.clientes[a.id].saldo + Net(CommittedRows(s.outcomes[..a.lido]), a.id)
            && IsLastTen(CommittedRows(s.outcomes[..a.listed]), a.id, a.list)
            && NoneOf(s.outcomes[..a.listed], a.connection, a.lido)
  {
    ReachableInv(ini, n, s);
    var a := s.answers[k];
    assert AnswerOk(ini, s.outcomes, s.answers[..k], a);
    OutcomesPrefix(ini, n, s.outcomes, a.lido);
    OutcomesPrefix(ini, n, s.outcomes, a.listed);
    BookConserved(ini, n, s.outcomes[..a.lido]);
    BookConserved(ini, n, s.outcomes[..a.listed]);
    assert ConservedRow(ini, Book(ini, s.outcomes[..a.lido]), a.id);
  }

  /**
   For a client with at most ten rows, the listed rows and the saldo differ by exactly
   what was committed between the two reads.
   */
  lemma StatementExplained(ini: Ledger, n: nat, s: State, k: nat)
    requires Initial(ini) && Reachable(ini, n, s) && k < |s.answers| && s.answers[k].Extrato?
    requires s.answers[k].listed <= |s.outcomes|
    requires |RowsOf(CommittedRows(s.outcomes[..s.answers[k].listed]), s.answers[k].id)| <= 10
    ensures s.answers[k].lido <= s.answers[k].listed && s.answers[k].id in ini.clientes
    ensures var a := s.answers[k];
            ini.clientes[a.id].saldo + Net(a.list, a.id)
            == a.visto.saldo + Net(CommittedRows(s.outcomes[a.lido..a.listed]), a.id)
  {
    var a := s.answers[k];
    StatementPrefixes(ini, n, s, k);
    NetSplit(s.outcomes, a.lido, a.listed, a.id);
    CompleteList(CommittedRows(s.outcomes[..a.listed]), a.id, a.list);
  }

  lemma SoleConnection(ini: Ledger, s: State, k: nat)
    requires Inv(ini, 1, s) && k < |s.answers|
    ensures AnsweredBy(s.answers[k]) == 0
    ensures forall j :: 0 <= j < |s.outcomes| ==> s.outcomes[j].batch.connection == 0
  {
    AllFromZero(ini, s.outcomes);
  }

  lemma AllFromZero(ini: Ledger, outcomes: seq<Outcome>)
    requires OutcomesOk(ini, 1, outcomes)
    ensures forall j :: 0 <= j < |outcomes| ==> outcomes[j].batch.connection == 0
  {
    forall j | 0 <= j < |outcomes|
      ensures outcomes[j].batch.connection == 0
    {
      assert OutcomeOk(ini, 1, outcomes, j);
    }
  }

  lemma NoneOfNow(outcomes: seq<Outcome>, c: nat, lido: nat)
    requires lido <= |outcomes| && NoneOf(outcomes, c, lido)
    requires lido < |outcomes| ==> outcomes[lido].batch.connection == c
    ensures lido == |outcomes|
  {
  }

  /** With one process nothing is committed between the two reads of a statement. */
  lemma NothingBetweenReads(ini: Ledger, s: State, k: nat)
    requires Reachable(ini, 1, s) && k < |s.answers| && s.answers[k].Extrato?
    ensures s.answers[k].lido == s.answers[k].listed <= |s.outcomes|
  {
    ReachableInv(ini, 1, s);
    SoleConnection(ini, s, k);
    assert AnswerOk(ini, s.outcomes, s.answers[..k], s.answers[k]);
    NoneOfNow(s.outcomes[..s.answers[k].listed], 0, s.answers[k].lido);
  }

  /**
   With one process and at most ten rows, the saldo of a statement is the initial saldo plus
   the signed sum of the rows that it lists.
   */
  lemma StatementExact(ini: Ledger, s: State, k: nat)
    requires Initial(ini) && Reachable(ini, 1, s) && k < |s.answers| && s.answers[k].Extrato?
    requires s.answers[k].listed <= |s.outcomes|
    requires |RowsOf(CommittedRows(s.outcomes[..s.answers[k].listed]), s.answers[k].id)| <= 10
    ensures var a := s.answers[k];
            a.id in ini.clientes && a.visto.saldo == ini.clientes[a.id].saldo + Net(a.list, a.id)
  {
    var a := s.answers[k];
    NothingBetweenReads(ini, s, k);
    StatementExplained(ini, 1, s, k);
    assert s.outcomes[a.lido..a.listed] == [] && CommittedRows([]) == [];
  }

  // 64-bit arithmetic.

  lemma {:induction false} NetBound(rows: seq<Row>, id: int)
    requires forall row :: row in rows ==> ValidTransacao(row.transacao) && FitsColumns(row.transacao)
    ensures -|rows| * INT32_MAX <= Net(rows, id) <= |rows| * INT32_MAX
  {
    if rows != [] {
      var init := rows[..|rows| - 1];
      NetBound(init, id);
      assert rows == init + [rows[|rows| - 1]];
      SumsSnoc(init, rows[|rows| - 1], id);
      assert rows[|rows| - 1] in rows;
    }
  }

  /** A row that was seen is within what the rows committed by then can have moved it. */
  lemma SeenWithin(ini: Ledger, n: nat, s: State, id: int, visto: Cliente, lido: nat) returns (net: int, rows: nat)
    requires Initial(ini) && Inv(ini, n, s) && Seen(ini, s.outcomes, id, visto, lido)
    ensures ValidCliente(visto) && visto == Cliente(ini.clientes[id].limite, ini.clientes[id].saldo + net)
    ensures rows <= |s.transacoes| && -(rows * INT32_MAX) <= net <= rows * INT32_MAX
  {
    OutcomesPrefix(ini, n, s.outcomes, lido);
    BookConserved(ini, n, s.outcomes[..lido]);
    BookConserved(ini, n, s.outcomes);
    var book := Book(ini, s.outcomes[..lido]);
    assert ConservedRow(ini, book, id);
    net, rows := Net(book.transacoes, id), |book.transacoes|;
    NetBound(book.transacoes, id);
    assert s.outcomes == s.outcomes[..lido] + s.outcomes[lido..];
    CommittedConcat(s.outcomes[..lido], s.outcomes[lido..]);
  }

  lemma RoomForOneMore(c: Cliente, t: Transacao, start: int, net: int, rows: int, bound: int)
    requires ValidCliente(c) && ValidTransacao(t) && IsInt32(t.valor) && rows >= 0
    requires -bound <= start <= bound && c.limite <= bound && c.saldo == start + net
    requires -(rows * INT32_MAX) <= net <= rows * INT32_MAX
    requires bound + (rows + 1) * INT32_MAX <= INT64_MAX
    ensures LimiteExcedido(c, t) <==> t.tipo == 'd' && c.saldo - t.valor < -c.limite
    ensures SaldoLocal(c, t) == SaldoSql(c.saldo, t) && IsInt64(SaldoSql(c.saldo, t))
  {
    assert (rows + 1) * INT32_MAX == rows * INT32_MAX + INT32_MAX;
    assert IsInt64(c.saldo - t.valor) && IsInt64(c.saldo + t.valor) && IsInt64(-c.limite);
  }

  /**
   As long as the rows committed so far leave room for one more, the machine's limit test
   and balance update are those of integer arithmetic.
   */
  lemma NoOverflow(ini: Ledger, n: nat, s: State, c: nat, bound: int)
    requires Initial(ini) && Reachable(ini, n, s) && c < |s.connections| && s.connections[c].process.PostRead?
    requires forall id :: id in ini.clientes ==> -bound <= ini.clientes[id].saldo <= bound
    requires forall id :: id in ini.clientes ==> ini.clientes[id].limite <= bound
    requires bound + (|s.transacoes| + 1) * INT32_MAX <= INT64_MAX
    requires IsInt32(s.connections[c].process.transacao.valor)
    ensures var p := s.connections[c].process; var t := p.transacao;
            && (LimiteExcedido(p.visto, t) <==> t.tipo == 'd' && p.visto.saldo - t.valor < -p.visto.limite)
            && SaldoLocal(p.visto, t) == SaldoSql(p.visto.saldo, t) && IsInt64(SaldoSql(p.visto.saldo, t))
  {
    ReachableInv(ini, n, s);
    assert ConnectionOk(ini, s, c);
    var p := s.connections[c].process;
    var id := p.transacao.idCliente;
    var net, rows := SeenWithin(ini, n, s, id, p.visto, p.lido);
    assert rows * INT32_MAX <= |s.transacoes| * INT32_MAX;
    RoomForOneMore(p.visto, p.transacao, ini.clientes[id].saldo, net, rows, bound);
  }

  /** From the rows of init.sql no machine operation overflows while `id serial` can number the rows. */
  lemma NoOverflowFromInitSql(n: nat, s: State, c: nat)
    requires Reachable(INIT_SQL, n, s) && |s.transacoes| <= INT32_MAX
    requires c < |s.connections| && s.connections[c].process.PostRead?
    requires IsInt32(s.connections[c].process.transacao.valor)
    ensures var p := s.connections[c].process; var t := p.transacao;
            && (LimiteExcedido(p.visto, t) <==> t.tipo == 'd' && p.visto.saldo - t.valor < -p.visto.limite)
            && SaldoLocal(p.visto, t) == SaldoSql(p.visto.saldo, t) && IsInt64(SaldoSql(p.visto.saldo, t))
  {
    assert Initial(INIT_SQL);
    assert (|s.transacoes| + 1) * INT32_MAX <= (INT32_MAX + 1) * INT32_MAX;
    NoOverflow(INIT_SQL, n, s, c, 10_000_000);
  }
}
