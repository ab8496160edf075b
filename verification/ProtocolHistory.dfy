/** What every run records: how batches end, what answers rest on, and their order. */
module ProtocolHistory {
  import opened Entities
  import opened Saldo
  import opened LastTen
  import opened AtomicLedger
  import opened Protocol
  import opened ProtocolInvariant

  /** The k-th batch to end was judged as the sequential ledger judges it at that point. */
  ghost predicate OutcomeOk(ini: Ledger, n: nat, outcomes: seq<Outcome>, k: nat)
    requires k < |outcomes|
  {
    var o := outcomes[k];
    && o.batch.connection < n
    && BatchOk(ini, outcomes[..k], o.batch.connection, o.batch)
    && o.row.transacao == o.batch.Lida()
    && (o.committed <==> Accepts(Book(ini, outcomes[..k]).clientes, o.row.transacao, o.batch.texto.Some?))
  }

  /** The batches of connection c that were answered 200, in answer order. */
  function AcceptedBy(answers: seq<Answer>, c: nat): seq<Batch> {
    if answers == [] then []
    else
      var a := answers[|answers| - 1];
      AcceptedBy(answers[..|answers| - 1], c) + (if a.Accepted? && a.batch.connection == c then [a.batch] else [])
  }

  /** The batches of connection c that have ended, in the order they ended. */
  function EndedBy(outcomes: seq<Outcome>, c: nat): seq<Batch> {
    if outcomes == [] then []
    else
      var o := outcomes[|outcomes| - 1];
      EndedBy(outcomes[..|outcomes| - 1], c) + (if o.batch.connection == c then [o.batch] else [])
  }

  function Pending(conn: Connection): seq<Batch> {
    if conn.flight.InFlight? then [conn.flight.batch] else []
  }

  predicate Fifo(s: State, c: nat)
    requires c < |s.connections|
  {
    AcceptedBy(s.answers, c) == EndedBy(s.outcomes, c) + Pending(s.connections[c])
  }

  /** The read at `lido` came after the end of every batch that c had answered 200 before. */
  predicate ReadsOwn(before: seq<Answer>, outcomes: seq<Outcome>, c: nat, lido: nat) {
    lido <= |outcomes| && AcceptedBy(before, c) == EndedBy(outcomes[..lido], c)
  }

  function AnsweredBy(a: Answer): nat {
    if a.Accepted? then a.batch.connection else a.connection
  }

  ghost predicate AnswerOk(ini: Ledger, outcomes: seq<Outcome>, before: seq<Answer>, a: Answer) {
    match a
    case Accepted(b, limite, saldo) =>
      && Seen(ini, outcomes, b.transacao.idCliente, b.visto, b.lido) && ValidTransacao(b.transacao)
      && Reads(b.transacao, b.texto) && ValidTransacao(b.Lida())
      && !LimiteExcedido(b.visto, b.transacao)
      && limite == b.visto.limite && saldo == SaldoLocal(b.visto, b.transacao)
      && ReadsOwn(before, outcomes, b.connection, b.lido)
    case Refused(c, t, visto, lido) =>
      && Seen(ini, outcomes, t.idCliente, visto, lido) && ValidTransacao(t)
      && LimiteExcedido(visto, t)
      && ReadsOwn(before, outcomes, c, lido)
    case NotFound(c, id) => id !in ini.clientes
    case Extrato(c, id, visto, lido, list, listed) =>
      && Seen(ini, outcomes, id, visto, lido)
      && lido <= listed <= |outcomes|
      && IsLastTen(Book(ini, outcomes[..listed]).transacoes, id, list)
      && NoneOf(outcomes[..listed], c, lido)
      && ReadsOwn(before, outcomes, c, lido)
  }

  ghost predicate History(ini: Ledger, n: nat, s: State) {
    && (forall k :: 0 <= k < |s.outcomes| ==> OutcomeOk(ini, n, s.outcomes, k))
    && (forall k :: 0 <= k < |s.answers| ==> AnswerOk(ini, s.outcomes, s.answers[..k], s.answers[k]))
    && (forall k :: 0 <= k < |s.answers| ==> AnsweredBy(s.answers[k]) < n)
    && (forall c :: 0 <= c < |s.connections| ==> Fifo(s, c))
  }

  ghost predicate Inv(ini: Ledger, n: nat, s: State) {
    Core(ini, s) && |s.connections| == n && History(ini, n, s)
  }

  lemma AcceptedSnoc(answers: seq<Answer>, a: Answer, c: nat)
    ensures AcceptedBy(answers + [a], c)
            == AcceptedBy(answers, c) + (if a.Accepted? && a.batch.connection == c then [a.batch] else [])
  {
    assert (answers + [a])[..|answers + [a]| - 1] == answers;
  }

  lemma EndedSnoc(outcomes: seq<Outcome>, o: Outcome, c: nat)
    ensures EndedBy(outcomes + [o], c) == EndedBy(outcomes, c) + (if o.batch.connection == c then [o.batch] else [])
  {
    assert (outcomes + [o])[..|outcomes + [o]| - 1] == outcomes;
  }

  lemma {:induction false} EndedPrefix(outcomes: seq<Outcome>, c: nat, from: nat)
    requires from <= |outcomes| && NoneOf(outcomes, c, from)
    ensures EndedBy(outcomes, c) == EndedBy(outcomes[..from], c)
  {
    if from < |outcomes| {
      var init := outcomes[..|outcomes| - 1];
      EndedPrefix(init, c, from);
      assert init[..from] == outcomes[..from];
    } else {
      assert outcomes[..from] == outcomes;
    }
  }

  lemma AnswerStable(ini: Ledger, outcomes: seq<Outcome>, o: Outcome, before: seq<Answer>, a: Answer)
    requires AnswerOk(ini, outcomes, before, a)
    ensures AnswerOk(ini, outcomes + [o], before, a)
  {
    var more := outcomes + [o];
    assert forall k :: 0 <= k <= |outcomes| ==> more[..k] == outcomes[..k];
  }

  // Steps that end a batch.

  lemma OutcomesKept(ini: Ledger, n: nat, outcomes: seq<Outcome>, o: Outcome, k: nat)
    requires k < |outcomes| && OutcomeOk(ini, n, outcomes, k)
    ensures OutcomeOk(ini, n, outcomes + [o], k)
  {
    assert (outcomes + [o])[..k] == outcomes[..k];
  }

  lemma NewOutcome(ini: Ledger, n: nat, s: State, c: nat, committed: bool)
    requires Inv(ini, n, s) && RightEnd(s, c, committed)
    ensures OutcomeOk(ini, n, s.outcomes + [Verdict(s, c, committed)], |s.outcomes|)
  {
    assert ConnectionOk(ini, s, c);
    assert (s.outcomes + [Verdict(s, c, committed)])[..|s.outcomes|] == s.outcomes;
  }

  lemma EndKeepsFifo(s: State, c: nat, committed: bool, d: nat)
    requires c < |s.connections| && s.connections[c].flight.InFlight? && d < |s.connections| && Fifo(s, d)
    requires committed ==> s.connections[c].flight.batch.transacao.idCliente in s.clientes
    requires s.connections[c].flight.batch.connection == c
    ensures Fifo(End(s, c, committed), d)
  {
    EndedSnoc(s.outcomes, Verdict(s, c, committed), d);
  }

  lemma EndKeepsHistory(ini: Ledger, n: nat, s: State, c: nat, committed: bool)
    requires Inv(ini, n, s) && RightEnd(s, c, committed)
    ensures History(ini, n, End(s, c, committed))
  {
    var s', o := End(s, c, committed), Verdict(s, c, committed);
    assert ConnectionOk(ini, s, c);
    forall k | 0 <= k < |s'.outcomes|
      ensures OutcomeOk(ini, n, s'.outcomes, k)
    {
      if k < |s.outcomes| {
        OutcomesKept(ini, n, s.outcomes, o, k);
      } else {
        NewOutcome(ini, n, s, c, committed);
      }
    }
    forall k | 0 <= k < |s'.answers|
      ensures AnswerOk(ini, s'.outcomes, s'.answers[..k], s'.answers[k])
    {
      AnswerStable(ini, s.outcomes, o, s.answers[..k], s.answers[k]);
    }
    forall d | 0 <= d < |s'.connections|
      ensures Fifo(s', d)
    {
      EndKeepsFifo(s, c, committed, d);
    }
  }

  // Steps that add an answer.

  lemma NewAnswerFifo(s: State, s': State, c: nat, a: Answer, d: nat)
    requires c < |s.connections| == |s'.connections| && d < |s.connections|
    requires Fifo(s, d) && !s.connections[c].flight.InFlight?
    requires s'.outcomes == s.outcomes && s'.answers == s.answers + [a] && AnsweredBy(a) == c
    requires d != c ==> s'.connections[d] == s.connections[d]
    requires Pending(s'.connections[c]) == if a.Accepted? then [a.batch] else []
    ensures Fifo(s', d)
  {
    AcceptedSnoc(s.answers, a, d);
  }

  lemma NewAnswerKeepsHistory(ini: Ledger, n: nat, s: State, s': State, c: nat, a: Answer)
    requires History(ini, n, s) && c < n == |s.connections| && !s.connections[c].flight.InFlight?
    requires s'.outcomes == s.outcomes && s'.answers == s.answers + [a] && AnsweredBy(a) == c
    requires |s'.connections| == |s.connections|
    requires forall d :: 0 <= d < |s.connections| && d != c ==> s'.connections[d] == s.connections[d]
    requires Pending(s'.connections[c]) == if a.Accepted? then [a.batch] else []
    requires AnswerOk(ini, s.outcomes, s.answers, a)
    ensures History(ini, n, s')
  {
    forall k | 0 <= k < |s'.answers|
      ensures AnswerOk(ini, s'.outcomes, s'.answers[..k], s'.answers[k])
    {
      if k < |s.answers| {
        assert s'.answers[..k] == s.answers[..k];
      } else {
        assert s'.answers[..k] == s.answers;
      }
    }
    forall d | 0 <= d < |s'.connections|
      ensures Fifo(s', d)
    {
      NewAnswerFifo(s, s', c, a, d);
    }
  }

  lemma ReadsOwnNow(s: State, c: nat, lido: nat)
    requires c < |s.connections| && Fifo(s, c) && !s.connections[c].flight.InFlight?
    requires lido <= |s.outcomes| && NoneOf(s.outcomes, c, lido)
    ensures ReadsOwn(s.answers, s.outcomes, c, lido)
  {
    EndedPrefix(s.outcomes, c, lido);
  }

  lemma AnswerKeepsHistory(ini: Ledger, n: nat, s: State, a: Action)
    requires Inv(ini, n, s) && Enabled(s, a) && (a.AnswerPost? || a.AnswerExtrato?)
    ensures History(ini, n, Do(s, a))
  {
    var s' := Do(s, a);
    assert ConnectionOk(ini, s, a.c) && Fifo(s, a.c);
    if a.AnswerPost? && Reads(s.connections[a.c].process.transacao, a.texto) {
      TakenIsValid(s.connections[a.c].process.transacao, a.texto);
    }
    ReadsOwnNow(s, a.c, s.connections[a.c].process.lido);
    assert s.outcomes[..|s.outcomes|] == s.outcomes;
    NewAnswerKeepsHistory(ini, n, s, s', a.c, s'.answers[|s.answers|]);
  }

  // Steps that add nothing to the history.

  lemma QuietKeepsHistory(ini: Ledger, n: nat, s: State, s': State)
    requires History(ini, n, s) && s'.outcomes == s.outcomes && s'.answers == s.answers
    requires |s'.connections| == |s.connections|
    requires forall d :: 0 <= d < |s.connections| ==> Pending(s'.connections[d]) == Pending(s.connections[d])
    ensures History(ini, n, s')
  {
    forall d | 0 <= d < |s'.connections|
      ensures Fifo(s', d)
    {
      assert Fifo(s, d);
    }
  }

  lemma ReadKeepsHistory(ini: Ledger, n: nat, s: State, a: Action)
    requires Inv(ini, n, s) && Enabled(s, a) && (a.ReadForPost? || a.ReadForExtrato?)
    ensures History(ini, n, Do(s, a))
  {
    var id := if a.ReadForPost? then a.transacao.idCliente else a.id;
    if id in s.clientes {
      QuietKeepsHistory(ini, n, s, Do(s, a));
    } else {
      assert id !in ini.clientes.Keys;
      NewAnswerKeepsHistory(ini, n, s, Do(s, a), a.c, NotFound(a.c, id));
    }
  }

  lemma ServerKeepsHistory(ini: Ledger, n: nat, s: State, a: Action)
    requires Inv(ini, n, s) && Proceeds(s, a)
    ensures History(ini, n, Do(s, a))
  {
    QuietKeepsHistory(ini, n, s, Do(s, a));
  }

  lemma ActionKeepsInv(ini: Ledger, n: nat, s: State, a: Action)
    requires Inv(ini, n, s) && Enabled(s, a)
    ensures Inv(ini, n, Do(s, a))
  {
    ActionKeepsCore(ini, s, a);
    if a.ReadForPost? || a.ReadForExtrato? {
      ReadKeepsHistory(ini, n, s, a);
    } else if a.AnswerPost? || a.AnswerExtrato? {
      AnswerKeepsHistory(ini, n, s, a);
    } else if Ends(s, a) {
      EndsRightly(ini, s, a);
      EndKeepsHistory(ini, n, s, a.c, a.Commit?);
    } else {
      ServerKeepsHistory(ini, n, s, a);
    }
  }

  lemma {:induction false} RunKeepsInv(ini: Ledger, n: nat, s: State, run: seq<Action>)
    requires Inv(ini, n, s) && Runs(s, run)
    ensures Inv(ini, n, Final(s, run))
    decreases |run|
  {
    if run != [] {
      ActionKeepsInv(ini, n, s, run[0]);
      RunKeepsInv(ini, n, Do(s, run[0]), run[1..]);
    }
  }

  /** The invariant holds in every state that any run of any number of processes reaches. */
  lemma ReachableInv(ini: Ledger, n: nat, s: State)
    requires Reachable(ini, n, s)
    ensures Inv(ini, n, s)
  {
    var run :| Runs(Init(ini, n), run) && Final(Init(ini, n), run) == s;
    CoreInit(ini, n);
    RunKeepsInv(ini, n, Init(ini, n), run);
  }
}
