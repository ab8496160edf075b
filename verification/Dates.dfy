/** Where the dates of table transacao come from, and in which order they stand there. */
module Dates {
  import opened Entities
  import opened LastTen
  import opened AtomicLedger
  import opened Protocol
  import opened ProtocolInvariant
  import opened ProtocolHistory
  import opened Guarantees

  lemma {:induction false} RunsInit(s: State, run: seq<Action>)
    requires Runs(s, run) && run != []
    ensures var init := run[..|run| - 1];
            && Runs(s, init) && Enabled(Final(s, init), run[|run| - 1])
            && Final(s, run) == Do(Final(s, init), run[|run| - 1])
    decreases |run|
  {
    var init := run[..|run| - 1];
    if |run| > 1 {
      RunsInit(Do(s, run[0]), run[1..]);
      assert run[1..][..|run| - 2] == init[1..];
    } else {
      assert init == [] && run[1..] == [];
    }
  }

  // Each stored date is the time at which the server took the batch.

  /** In action i of the run the server takes batch b, at time `agora`. */
  ghost predicate BeginsAt(start: State, run: seq<Action>, i: nat, b: Batch, agora: int) {
    && i < |run| && run[i] == Begin(b.connection, agora) && Runs(start, run[..i])
    && At(Final(start, run[..i]), b.connection, Sent)
    && Final(start, run[..i]).connections[b.connection].flight.batch == b
  }

  ghost predicate Begun(start: State, run: seq<Action>, b: Batch, agora: int) {
    exists i: nat :: BeginsAt(start, run, i, b, agora)
  }

  lemma BegunBefore(start: State, run: seq<Action>, b: Batch, agora: int)
    requires run != [] && Begun(start, run[..|run| - 1], b, agora)
    ensures Begun(start, run, b, agora)
  {
    var init := run[..|run| - 1];
    var i: nat :| BeginsAt(start, init, i, b, agora);
    assert run[..i] == init[..i];
    assert BeginsAt(start, run, i, b, agora);
  }

  /** The time that a batch carries once the server has taken it is that of its Begin. */
  ghost predicate FlightDated(start: State, run: seq<Action>, s: State, c: nat)
    requires c < |s.connections|
  {
    var f := s.connections[c].flight;
    f.InFlight? && f.step != Sent ==> Begun(start, run, f.batch, f.agora)
  }

  ghost predicate OutcomeDated(start: State, run: seq<Action>, o: Outcome) {
    o.committed ==> Begun(start, run, o.batch, o.row.realizadaEm)
  }

  ghost predicate Dated(start: State, run: seq<Action>, s: State) {
    && (forall c :: 0 <= c < |s.connections| ==> FlightDated(start, run, s, c))
    && (forall k :: 0 <= k < |s.outcomes| ==> OutcomeDated(start, run, s.outcomes[k]))
  }

  predicate OwnBatches(s: State) {
    forall c :: 0 <= c < |s.connections| && s.connections[c].flight.InFlight? ==>
      s.connections[c].flight.batch.connection == c
  }

  lemma ReachableOwn(ini: Ledger, n: nat, s: State)
    requires Reachable(ini, n, s)
    ensures OwnBatches(s)
  {
    ReachableInv(ini, n, s);
    forall c | 0 <= c < |s.connections| && s.connections[c].flight.InFlight?
      ensures s.connections[c].flight.batch.connection == c
    {
      assert ConnectionOk(ini, s, c);
    }
  }

  /** What a step leaves of a flight that the server has taken, or takes now. */
  lemma TakenFlight(s: State, a: Action, c: nat)
    requires Enabled(s, a) && OwnBatches(s) && c < |Do(s, a).connections|
    requires Do(s, a).connections[c].flight.InFlight? && Do(s, a).connections[c].flight.step != Sent
    ensures c < |s.connections| && s.connections[c].flight.InFlight?
    ensures var f, f' := s.connections[c].flight, Do(s, a).connections[c].flight;
            && f'.batch == f.batch && f.batch.connection == c
            && (f.step != Sent ==> f'.agora == f.agora)
            && (f.step == Sent ==> a == Begin(c, f'.agora))
  {
    if a.c != c {
      UntouchedFlight(s, a, c);
    }
  }

  lemma UntouchedFlight(s: State, a: Action, c: nat)
    requires Enabled(s, a) && c != a.c
    ensures |Do(s, a).connections| == |s.connections|
    ensures c < |s.connections| ==> Do(s, a).connections[c] == s.connections[c]
  {
  }

  lemma FlightStaysDated(start: State, run: seq<Action>, s: State, a: Action, c: nat)
    requires run != [] && run[|run| - 1] == a && Enabled(s, a) && c < |Do(s, a).connections|
    requires Runs(start, run[..|run| - 1]) && Final(start, run[..|run| - 1]) == s
    requires Dated(start, run[..|run| - 1], s)
    requires OwnBatches(s)
    ensures FlightDated(start, run, Do(s, a), c)
  {
    var f' := Do(s, a).connections[c].flight;
    if f'.InFlight? && f'.step != Sent {
      TakenFlight(s, a, c);
      var f := s.connections[c].flight;
      if f.step == Sent {
        assert BeginsAt(start, run, |run| - 1, f.batch, f'.agora);
      } else {
        assert FlightDated(start, run[..|run| - 1], s, c);
        BegunBefore(start, run, f.batch, f.agora);
      }
    }
  }

  lemma OutcomeStaysDated(start: State, run: seq<Action>, s: State, a: Action, k: nat)
    requires run != [] && run[|run| - 1] == a && Enabled(s, a) && k < |Do(s, a).outcomes|
    requires Dated(start, run[..|run| - 1], s)
    ensures OutcomeDated(start, run, Do(s, a).outcomes[k])
  {
    var init, o := run[..|run| - 1], Do(s, a).outcomes[k];
    if o.committed {
      if k < |s.outcomes| {
        assert OutcomeDated(start, init, s.outcomes[k]);
      } else {
        assert FlightDated(start, init, s, a.c);
      }
      BegunBefore(start, run, o.batch, o.row.realizadaEm);
    }
  }

  lemma {:induction false} RunIsDated(ini: Ledger, n: nat, run: seq<Action>)
    requires Runs(Init(ini, n), run)
    ensures Dated(Init(ini, n), run, Final(Init(ini, n), run))
    decreases |run|
  {
    if run != [] {
      var start, init, a := Init(ini, n), run[..|run| - 1], run[|run| - 1];
      RunsInit(start, run);
      RunIsDated(ini, n, init);
      var s := Final(start, init);
      ReachableOwn(ini, n, s);
      forall c | 0 <= c < |Do(s, a).connections|
        ensures FlightDated(start, run, Do(s, a), c)
      {
        FlightStaysDated(start, run, s, a, c);
      }
      forall k | 0 <= k < |Do(s, a).outcomes|
        ensures OutcomeDated(start, run, Do(s, a).outcomes[k])
      {
        OutcomeStaysDated(start, run, s, a, k);
      }
    }
  }

  lemma {:induction false} RowHasOutcome(outcomes: seq<Outcome>, row: Row) returns (k: nat)
    requires row in CommittedRows(outcomes)
    ensures k < |outcomes| && outcomes[k].committed && outcomes[k].row == row
  {
    var last := |outcomes| - 1;
    if outcomes[last].committed && outcomes[last].row == row {
      k := last;
    } else {
      k := RowHasOutcome(outcomes[..last], row);
    }
  }

  /**
   In every run of any number of processes, the date of a committed row is the time at which
   the server took the row's own batch.
   */
  lemma RowDate(ini: Ledger, n: nat, run: seq<Action>, row: Row) returns (k: nat)
    requires Initial(ini) && Runs(Init(ini, n), run) && row in Final(Init(ini, n), run).transacoes
    ensures var s := Final(Init(ini, n), run);
            && k < |s.outcomes| && s.outcomes[k].committed && s.outcomes[k].row == row
            && row.transacao == s.outcomes[k].batch.Lida()
            && Begun(Init(ini, n), run, s.outcomes[k].batch, row.realizadaEm)
  {
    var s := Final(Init(ini, n), run);
    assert Reachable(ini, n, s);
    Conservation(ini, n, s);
    Refinement(ini, n, s);
    RunIsDated(ini, n, run);
    k := RowHasOutcome(s.outcomes, row);
    assert OutcomeDated(Init(ini, n), run, s.outcomes[k]) && Judged(ini, s.outcomes, k);
  }

  // One process: rows stand in the order of their dates.

  /** The server's clock does not go back (strict: and never gives a time twice). */
  predicate ClockAscends(run: seq<Action>, strict: bool) {
    forall i, j :: 0 <= i < j < |run| && run[i].Begin? && run[j].Begin? ==> Before(run[i].agora, run[j].agora, strict)
  }

  function LastBegin(run: seq<Action>): Option<int> {
    if run == [] then None
    else if run[|run| - 1].Begin? then Some(run[|run| - 1].agora)
    else LastBegin(run[..|run| - 1])
  }

  lemma {:induction false} LastBeginIs(run: seq<Action>) returns (i: nat)
    requires LastBegin(run).Some?
    ensures i < |run| && run[i].Begin? && LastBegin(run) == Some(run[i].agora)
  {
    if run[|run| - 1].Begin? {
      i := |run| - 1;
    } else {
      i := LastBeginIs(run[..|run| - 1]);
    }
  }

  /** Rows ascend up to the last Begin, and a batch that the server works on comes after them. */
  predicate RowsInOrder(s: State, last: Option<int>, strict: bool) {
    && |s.connections| == 1 && DatesAscend(s.transacoes, strict)
    && (forall row :: row in s.transacoes ==> last.Some? && row.realizadaEm <= last.value)
    && var f := s.connections[0].flight;
    && (f.InFlight? && f.step != Sent ==>
          && last == Some(f.agora)
          && forall row :: row in s.transacoes ==> Before(row.realizadaEm, f.agora, strict))
  }

  lemma CommitKeepsOrder(s: State, last: Option<int>, strict: bool)
    requires RowsInOrder(s, last, strict) && Enabled(s, Commit(0))
    ensures RowsInOrder(Do(s, Commit(0)), last, strict)
  {
    var rows := s.transacoes;
    assert forall i :: 0 <= i < |rows| ==> rows[i] in rows;
  }

  lemma StepKeepsOrder(s: State, a: Action, last: Option<int>, strict: bool)
    requires RowsInOrder(s, last, strict) && Enabled(s, a)
    requires a.Begin? && last.Some? ==> Before(last.value, a.agora, strict)
    ensures RowsInOrder(Do(s, a), if a.Begin? then Some(a.agora) else last, strict)
  {
    if a.Commit? {
      CommitKeepsOrder(s, last, strict);
    }
  }

  lemma {:induction false} RunKeepsOrder(ini: Ledger, run: seq<Action>, strict: bool)
    requires ini.transacoes == [] && Runs(Init(ini, 1), run) && ClockAscends(run, strict)
    ensures RowsInOrder(Final(Init(ini, 1), run), LastBegin(run), strict)
    decreases |run|
  {
    if run != [] {
      var init, a := run[..|run| - 1], run[|run| - 1];
      RunsInit(Init(ini, 1), run);
      RunKeepsOrder(ini, init, strict);
      if a.Begin? && LastBegin(init).Some? {
        var i := LastBeginIs(init);
        assert run[i] == init[i];
      }
      StepKeepsOrder(Final(Init(ini, 1), init), a, LastBegin(init), strict);
    }
  }
}
