/** A single API process: its answers are those of a ledger that posts each batch at once. */
module OneProcess {
  import opened Entities
  import opened Machine
  import opened Saldo
  import opened LastTen
  import opened AtomicLedger
  import opened Protocol
  import opened ProtocolInvariant
  import opened ProtocolHistory
  import opened Guarantees
  import opened Sequences
  import opened Dates
  import Progress

  /** A ledger that posts the batches one by one: its clients, and the transactions it took. */
  datatype Serial = Serial(clientes: map<int, Cliente>, transacoes: seq<Transacao>)

  function Posted(ini: Ledger, batches: seq<Batch>): Serial {
    if batches == [] then Serial(ini.clientes, Transacoes(ini.transacoes))
    else
      var before, b := Posted(ini, batches[..|batches| - 1]), batches[|batches| - 1];
      Serial(Post(before.clientes, b.Lida(), b.texto.Some?),
             before.transacoes + (if Takes(before.clientes, b) then [b.Lida()] else []))
  }

  predicate Takes(clientes: map<int, Cliente>, b: Batch) {
    Accepts(clientes, b.Lida(), b.texto.Some?)
  }

  function Transacoes(rows: seq<Row>): seq<Transacao> {
    seq(|rows|, i requires 0 <= i < |rows| => rows[i].transacao)
  }

  lemma PostedSnoc(ini: Ledger, batches: seq<Batch>, b: Batch)
    ensures var before := Posted(ini, batches);
            Posted(ini, batches + [b])
            == Serial(Post(before.clientes, b.Lida(), b.texto.Some?),
                      before.transacoes + (if Takes(before.clientes, b) then [b.Lida()] else []))
  {
    assert (batches + [b])[..|batches + [b]| - 1] == batches;
  }

  /** The tables that one process's batches leave are those of this ledger, row by row. */
  lemma {:induction false} BookIsPosted(ini: Ledger, outcomes: seq<Outcome>)
    requires OutcomesOk(ini, 1, outcomes)
    ensures var book := Book(ini, outcomes);
            Serial(book.clientes, Transacoes(book.transacoes)) == Posted(ini, EndedBy(outcomes, 0))
  {
    if outcomes != [] {
      var k := |outcomes| - 1;
      var o, before := outcomes[k], Book(ini, outcomes[..k]);
      OutcomesPrefix(ini, 1, outcomes, k);
      BookIsPosted(ini, outcomes[..k]);
      assert OutcomeOk(ini, 1, outcomes, k);
      PostedSnoc(ini, EndedBy(outcomes[..k], 0), o.batch);
      assert Transacoes(before.transacoes + [o.row]) == Transacoes(before.transacoes) + [o.row.transacao];
    }
  }

  /** What the row of client `id` is for a ledger that posted every batch answered 200 so far. */
  ghost predicate SerialRow(ini: Ledger, before: seq<Answer>, id: int, visto: Cliente) {
    var clientes := Posted(ini, AcceptedBy(before, 0)).clientes;
    id in clientes && clientes[id] == visto && ValidCliente(visto)
  }

  lemma SeenIsSerial(ini: Ledger, s: State, before: seq<Answer>, id: int, visto: Cliente, lido: nat)
    requires Initial(ini) && Inv(ini, 1, s)
    requires Seen(ini, s.outcomes, id, visto, lido) && ReadsOwn(before, s.outcomes, 0, lido)
    ensures SerialRow(ini, before, id, visto)
  {
    OutcomesPrefix(ini, 1, s.outcomes, lido);
    BookIsPosted(ini, s.outcomes[..lido]);
    BookConserved(ini, 1, s.outcomes[..lido]);
    assert ConservedRow(ini, Book(ini, s.outcomes[..lido]), id);
  }

  /** The list answers the last-ten query over the transactions that this ledger took so far. */
  ghost predicate SerialList(ini: Ledger, before: seq<Answer>, id: int, list: seq<Row>) {
    exists rows :: IsLastTen(rows, id, list)
                   && Transacoes(rows) == Posted(ini, AcceptedBy(before, 0)).transacoes
  }

  /** The answer fits a ledger that posts each batch at the moment it is answered 200. */
  ghost predicate SerialAnswer(ini: Ledger, before: seq<Answer>, a: Answer) {
    var clientes := Posted(ini, AcceptedBy(before, 0)).clientes;
    match a
    case Accepted(b, limite, saldo) =>
      && SerialRow(ini, before, b.transacao.idCliente, b.visto)
      && (Takes(clientes, b) <==> Insertable(b.transacao) && IsInt64(SaldoSql(b.visto.saldo, b.transacao)))
      && (Takes(clientes, b) ==> SerialRow(ini, before + [a], b.transacao.idCliente, Cliente(limite, saldo)))
    case Refused(c, t, visto, lido) =>
      SerialRow(ini, before, t.idCliente, visto) && !UpdateAccepted(visto, t)
    case NotFound(c, id) => id !in clientes
    case Extrato(c, id, visto, lido, list, listed) =>
      SerialRow(ini, before, id, visto) && SerialList(ini, before, id, list)
  }

  lemma SerialAccepted(ini: Ledger, s: State, before: seq<Answer>, a: Answer)
    requires Initial(ini) && Inv(ini, 1, s) && a.Accepted? && AnsweredBy(a) == 0
    requires AnswerOk(ini, s.outcomes, before, a)
    ensures SerialAnswer(ini, before, a)
  {
    var b := a.batch;
    SeenIsSerial(ini, s, before, b.transacao.idCliente, b.visto, b.lido);
    LimitTestAgainstCheck(b.visto, b.transacao);
    ReadsByText(b.transacao, b.texto);
    AcceptedSnoc(before, a, 0);
    PostedSnoc(ini, AcceptedBy(before, 0), b);
  }

  lemma SerialRefused(ini: Ledger, s: State, before: seq<Answer>, a: Answer)
    requires Initial(ini) && Inv(ini, 1, s) && a.Refused? && AnsweredBy(a) == 0
    requires AnswerOk(ini, s.outcomes, before, a)
    ensures SerialAnswer(ini, before, a)
  {
    SeenIsSerial(ini, s, before, a.transacao.idCliente, a.visto, a.lido);
    LimitTestAgainstCheck(a.visto, a.transacao);
  }

  lemma SerialExtrato(ini: Ledger, s: State, k: nat)
    requires Initial(ini) && Reachable(ini, 1, s) && k < |s.answers| && s.answers[k].Extrato?
    ensures SerialAnswer(ini, s.answers[..k], s.answers[k])
  {
    ReachableInv(ini, 1, s);
    SoleConnection(ini, s, k);
    NothingBetweenReads(ini, s, k);
    var before, a := s.answers[..k], s.answers[k];
    assert AnswerOk(ini, s.outcomes, before, a);
    SeenIsSerial(ini, s, before, a.id, a.visto, a.lido);
    OutcomesPrefix(ini, 1, s.outcomes, a.lido);
    BookIsPosted(ini, s.outcomes[..a.lido]);
    assert IsLastTen(Book(ini, s.outcomes[..a.lido]).transacoes, a.id, a.list);
  }

  /**
   With one process, deferring the batch is invisible. Every answer is computed from the row
   of a ledger that posted each earlier 200 at once. A batch answered 200 is one that this
   ledger takes, exactly when it can be stored and the balance stays a bigint; then the
   balance in the answer is the one it leaves. A refused batch is one it would refuse. An
   extrato lists the last ten of the transactions it took.
   */
  lemma Linearizable(ini: Ledger, s: State, k: nat)
    requires Initial(ini) && Reachable(ini, 1, s) && k < |s.answers|
    ensures SerialAnswer(ini, s.answers[..k], s.answers[k])
  {
    ReachableInv(ini, 1, s);
    SoleConnection(ini, s, k);
    var before, a := s.answers[..k], s.answers[k];
    assert AnswerOk(ini, s.outcomes, before, a);
    match a
    case Accepted(b, limite, saldo) =>
      SerialAccepted(ini, s, before, a);
    case Refused(c, t, visto, lido) =>
      SerialRefused(ini, s, before, a);
    case NotFound(c, id) =>
      PostedKeys(ini, AcceptedBy(before, 0));
    case Extrato(c, id, visto, lido, list, listed) =>
      SerialExtrato(ini, s, k);
  }

  lemma {:induction false} PostedKeys(ini: Ledger, batches: seq<Batch>)
    ensures Posted(ini, batches).clientes.Keys == ini.clientes.Keys
  {
    if batches != [] {
      PostedKeys(ini, batches[..|batches| - 1]);
    }
  }

  /**
   With one process a batch answered 200 commits exactly when it can be stored and the new
   balance is a bigint, and then the client's row is the one announced.
   */
  lemma AnsweredIsCommitted(ini: Ledger, s: State, k: nat)
    requires Initial(ini) && Reachable(ini, 1, s) && k < |s.outcomes|
    ensures var o := s.outcomes[k]; var t := o.batch.transacao;
            && (o.committed <==> Insertable(t) && IsInt64(SaldoSql(o.batch.visto.saldo, t)))
            && (o.committed ==>
                  && t.idCliente in Book(ini, s.outcomes[..k + 1]).clientes
                  && Book(ini, s.outcomes[..k + 1]).clientes[t.idCliente]
                     == Cliente(o.batch.visto.limite, SaldoLocal(o.batch.visto, t)))
  {
    ReachableInv(ini, 1, s);
    var o := s.outcomes[k];
    assert OutcomeOk(ini, 1, s.outcomes, k);
    AllFromZero(ini, s.outcomes);
    NoneOfNow(s.outcomes[..k], 0, o.batch.lido);
    VerdictFromRead(ini, 1, s, k);
    VerdictByText(ini, 1, s, k);
    assert CommittedRows([]) == [];
    assert s.outcomes[k..k] == [];
    LimitTestAgainstCheck(o.batch.visto, o.batch.transacao);
    if o.committed {
      AfterCommit(ini, 1, s, k);
    }
  }

  /** Once nothing is pending, both tables are that ledger's: the answers were kept. */
  lemma DrainedTable(ini: Ledger, s: State)
    requires Reachable(ini, 1, s)
    requires Progress.Drained(s)
    ensures Serial(s.clientes, Transacoes(s.transacoes)) == Posted(ini, AcceptedBy(s.answers, 0))
    ensures EndedBy(s.outcomes, 0) == AcceptedBy(s.answers, 0)
  {
    ReachableInv(ini, 1, s);
    assert Fifo(s, 0) && Pending(s.connections[0]) == [];
    assert AcceptedBy(s.answers, 0) == EndedBy(s.outcomes, 0);
    BookIsPosted(ini, s.outcomes);
  }

  // Which rows an extrato lists.

  function OfClient(ts: seq<Transacao>, id: int): seq<Transacao> {
    if ts == [] then []
    else
      OfClient(ts[..|ts| - 1], id) + (if ts[|ts| - 1].idCliente == id then [ts[|ts| - 1]] else [])
  }

  lemma {:induction false} OfClientRows(rows: seq<Row>, id: int)
    ensures OfClient(Transacoes(rows), id) == Transacoes(RowsOf(rows, id))
  {
    if rows != [] {
      var init := rows[..|rows| - 1];
      OfClientRows(init, id);
      assert Transacoes(rows)[..|rows| - 1] == Transacoes(init);
    }
  }

  lemma {:induction false} CommittedPrefix(outcomes: seq<Outcome>, k: nat)
    requires k <= |outcomes|
    ensures CommittedRows(outcomes[..k]) <= CommittedRows(outcomes)
  {
    assert outcomes == outcomes[..k] + outcomes[k..];
    CommittedConcat(outcomes[..k], outcomes[k..]);
  }

  /** The rows that an extrato's list is drawn from, in the order of their dates. */
  lemma ListedRowsAscend(ini: Ledger, run: seq<Action>, strict: bool, k: nat)
    requires Initial(ini) && Runs(Init(ini, 1), run) && ClockAscends(run, strict)
    requires var s := Final(Init(ini, 1), run); k < |s.answers| && s.answers[k].Extrato?
    ensures var s := Final(Init(ini, 1), run); var a := s.answers[k];
            && a.listed <= |s.outcomes| && DatesAscend(CommittedRows(s.outcomes[..a.listed]), strict)
            && IsLastTen(CommittedRows(s.outcomes[..a.listed]), a.id, a.list)
  {
    var s := Final(Init(ini, 1), run);
    assert Reachable(ini, 1, s);
    StatementPrefixes(ini, 1, s, k);
    Conservation(ini, 1, s);
    RunKeepsOrder(ini, run, strict);
    CommittedPrefix(s.outcomes, s.answers[k].listed);
  }

  /**
   With one process and a clock that does not go back, the dates of an extrato's list are
   those of the client's last ten committed rows, the last one first.
   */
  lemma ExtratoDates(ini: Ledger, run: seq<Action>, k: nat)
    requires Initial(ini) && Runs(Init(ini, 1), run) && ClockAscends(run, false)
    requires var s := Final(Init(ini, 1), run); k < |s.answers| && s.answers[k].Extrato?
    ensures var s := Final(Init(ini, 1), run); var a := s.answers[k];
            && a.listed <= |s.outcomes|
            && var latest := LatestTen(RowsOf(CommittedRows(s.outcomes[..a.listed]), a.id));
            && |a.list| == |latest|
            && forall i :: 0 <= i < |latest| ==> a.list[i].realizadaEm == latest[i].realizadaEm
  {
    ListedRowsAscend(ini, run, false, k);
    var a := Final(Init(ini, 1), run).answers[k];
    var rows := CommittedRows(Final(Init(ini, 1), run).outcomes[..a.listed]);
    LatestDates(rows, a.id, a.list, LatestTen(RowsOf(rows, a.id)));
  }

  /**
   If the clock also never gives a time twice, an extrato lists exactly the last ten
   transactions of the client that the sequential ledger took before it, the last one first.
   */
  lemma ExtratoListsLatest(ini: Ledger, run: seq<Action>, k: nat)
    requires Initial(ini) && Runs(Init(ini, 1), run) && ClockAscends(run, true)
    requires var s := Final(Init(ini, 1), run); k < |s.answers| && s.answers[k].Extrato?
    ensures var s := Final(Init(ini, 1), run); var a := s.answers[k];
            Transacoes(a.list)
            == LatestTen(OfClient(Posted(ini, AcceptedBy(s.answers[..k], 0)).transacoes, a.id))
  {
    var s := Final(Init(ini, 1), run);
    ListedRowsAscend(ini, run, true, k);
    ListedArePosted(ini, s, k);
    LatestTransacoes(CommittedRows(s.outcomes[..s.answers[k].listed]), s.answers[k].id, s.answers[k].list);
  }

  lemma TransacoesOfLatest(rows: seq<Row>)
    ensures Transacoes(LatestTen(rows)) == LatestTen(Transacoes(rows))
  {
  }

  lemma LatestTransacoes(rows: seq<Row>, id: int, list: seq<Row>)
    requires DatesAscend(rows, true) && IsLastTen(rows, id, list)
    ensures Transacoes(list) == LatestTen(OfClient(Transacoes(rows), id))
  {
    LatestOnly(rows, id, list, LatestTen(RowsOf(rows, id)));
    OfClientRows(rows, id);
    TransacoesOfLatest(RowsOf(rows, id));
  }

  lemma ListedArePosted(ini: Ledger, s: State, k: nat)
    requires Initial(ini) && Reachable(ini, 1, s) && k < |s.answers| && s.answers[k].Extrato?
    ensures s.answers[k].listed <= |s.outcomes|
    ensures Transacoes(CommittedRows(s.outcomes[..s.answers[k].listed]))
            == Posted(ini, AcceptedBy(s.answers[..k], 0)).transacoes
  {
    ReachableInv(ini, 1, s);
    SoleConnection(ini, s, k);
    NothingBetweenReads(ini, s, k);
    var a := s.answers[k];
    assert AnswerOk(ini, s.outcomes, s.answers[..k], a);
    OutcomesPrefix(ini, 1, s.outcomes, a.listed);
    BookIsPosted(ini, s.outcomes[..a.listed]);
    BookConserved(ini, 1, s.outcomes[..a.listed]);
  }
}
