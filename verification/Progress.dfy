/** Deadlock freedom and draining of pending batches. */
module Progress {
  import opened Entities
  import opened AtomicLedger
  import opened Protocol
  import opened ProtocolInvariant
  import opened ProtocolHistory

  predicate ServerAction(a: Action) {
    a.Begin? || a.Lock? || a.Update? || a.Check? || a.Insert? || a.Commit?
  }

  predicate PendingAt(s: State, c: nat) {
    c < |s.connections| && s.connections[c].flight.InFlight?
  }

  /** The server's next action for a pending batch. */
  function NextAction(c: nat, f: Flight): Action
    requires f.InFlight?
  {
    match f.step
    case Sent => Begin(c, 0)
    case Begun => Lock(c)
    case Locked => Update(c)
    case Updated => Check(c)
    case Checked => Insert(c)
    case Inserted => Commit(c)
  }

  lemma NextEnabled(ini: Ledger, s: State, c: nat)
    requires Core(ini, s) && PendingAt(s, c)
    requires var f := s.connections[c].flight; f.step.Begun? ==> f.batch.transacao.idCliente !in s.locks
    ensures Enabled(s, NextAction(c, s.connections[c].flight))
  {
    assert ConnectionOk(ini, s, c);
  }

  lemma HolderGoesOn(ini: Ledger, s: State, id: int)
    requires Core(ini, s) && id in s.locks
    ensures PendingAt(s, s.locks[id]) && HoldsLock(s.connections[s.locks[id]].flight)
    ensures Enabled(s, NextAction(s.locks[id], s.connections[s.locks[id]].flight))
  {
    NextEnabled(ini, s, s.locks[id]);
  }

  /**
   Each pending batch can go on, or waits for the one row lock it needs and the holder of
   that lock can go on: the waiting is never circular.
   */
  lemma NoDeadlock(ini: Ledger, n: nat, s: State, c: nat)
    requires Inv(ini, n, s) && PendingAt(s, c)
    ensures var f := s.connections[c].flight;
            || Enabled(s, NextAction(c, f))
            || (&& f.step.Begun? && f.batch.transacao.idCliente in s.locks
                && var h := s.locks[f.batch.transacao.idCliente];
                && h != c && PendingAt(s, h) && Enabled(s, NextAction(h, s.connections[h].flight)))
  {
    var f := s.connections[c].flight;
    if f.step.Begun? && f.batch.transacao.idCliente in s.locks {
      HolderGoesOn(ini, s, f.batch.transacao.idCliente);
    } else {
      NextEnabled(ini, s, c);
    }
  }

  function StepsLeft(f: Flight): nat {
    if !f.InFlight? then 0
    else match f.step
      case Sent => 6
      case Begun => 5
      case Locked => 4
      case Updated => 3
      case Checked => 2
      case Inserted => 1
  }

  function Measure(connections: seq<Connection>): nat {
    if connections == [] then 0 else StepsLeft(connections[0].flight) + Measure(connections[1..])
  }

  lemma {:induction false} MeasureUpdate(connections: seq<Connection>, c: nat, conn: Connection)
    requires c < |connections|
    ensures Measure(connections[c := conn])
            == Measure(connections) - StepsLeft(connections[c].flight) + StepsLeft(conn.flight)
  {
    if c > 0 {
      MeasureUpdate(connections[1..], c - 1, conn);
      assert connections[c := conn][1..] == connections[1..][c - 1 := conn];
    } else {
      assert connections[c := conn][1..] == connections[1..];
    }
  }

  lemma {:induction false} MeasureBound(connections: seq<Connection>)
    ensures Measure(connections) <= 6 * |connections|
    ensures Measure(connections) == 0 ==> forall c :: 0 <= c < |connections| ==> !connections[c].flight.InFlight?
  {
    if connections != [] {
      MeasureBound(connections[1..]);
      assert forall c :: 0 < c < |connections| ==> connections[c] == connections[1..][c - 1];
    }
  }

  lemma OneConnectionSteps(s: State, a: Action)
    requires ServerAction(a) && Enabled(s, a)
    ensures a.c < |s.connections| == |Do(s, a).connections|
    ensures Do(s, a).connections == s.connections[a.c := Do(s, a).connections[a.c]]
    ensures StepsLeft(Do(s, a).connections[a.c].flight) < StepsLeft(s.connections[a.c].flight)
  {
  }

  lemma ServerActionDecreases(s: State, a: Action)
    requires ServerAction(a) && Enabled(s, a)
    ensures Measure(Do(s, a).connections) < Measure(s.connections)
  {
    OneConnectionSteps(s, a);
    MeasureUpdate(s.connections, a.c, Do(s, a).connections[a.c]);
  }

  predicate ServerOnly(run: seq<Action>) {
    forall i :: 0 <= i < |run| ==> ServerAction(run[i])
  }

  /** With no new sends the server is done after at most six steps for each connection. */
  lemma {:induction false} ServerRunsAreShort(s: State, run: seq<Action>)
    requires Runs(s, run) && ServerOnly(run)
    ensures |run| + Measure(Final(s, run).connections) <= Measure(s.connections) <= 6 * |s.connections|
    decreases |run|
  {
    MeasureBound(s.connections);
    if run != [] {
      ServerActionDecreases(s, run[0]);
      ServerRunsAreShort(Do(s, run[0]), run[1..]);
    }
  }

  ghost predicate Stuck(s: State) {
    forall a :: ServerAction(a) ==> !Enabled(s, a)
  }

  ghost predicate Drained(s: State) {
    forall c :: 0 <= c < |s.connections| ==> !s.connections[c].flight.InFlight?
  }

  /** Where the server can go no further, every batch answered 200 has committed or aborted. */
  lemma StuckMeansDrained(ini: Ledger, n: nat, s: State)
    requires Inv(ini, n, s)
    ensures Stuck(s) <==> Drained(s)
    ensures Stuck(s) ==> forall c :: 0 <= c < n ==> EndedBy(s.outcomes, c) == AcceptedBy(s.answers, c)
  {
    if Stuck(s) {
      forall c | 0 <= c < |s.connections|
        ensures !s.connections[c].flight.InFlight?
      {
        if s.connections[c].flight.InFlight? {
          NoDeadlock(ini, n, s, c);
          assert false;
        }
      }
      forall c | 0 <= c < n
        ensures EndedBy(s.outcomes, c) == AcceptedBy(s.answers, c)
      {
        assert Fifo(s, c);
      }
    }
  }

  lemma RunsCons(s: State, a: Action, rest: seq<Action>)
    requires Enabled(s, a) && Runs(Do(s, a), rest)
    ensures Runs(s, [a] + rest) && Final(s, [a] + rest) == Final(Do(s, a), rest)
  {
    assert ([a] + rest)[1..] == rest;
  }

  lemma ServerCanGoOn(ini: Ledger, n: nat, s: State) returns (a: Action)
    requires Inv(ini, n, s) && !Drained(s)
    ensures ServerAction(a) && Enabled(s, a)
    ensures Inv(ini, n, Do(s, a)) && Measure(Do(s, a).connections) < Measure(s.connections)
  {
    StuckMeansDrained(ini, n, s);
    a :| ServerAction(a) && Enabled(s, a);
    ActionKeepsInv(ini, n, s, a);
    ServerActionDecreases(s, a);
  }

  /** From every reachable state the server can bring all pending batches to their end. */
  lemma {:induction false} CanDrain(ini: Ledger, n: nat, s: State) returns (run: seq<Action>)
    requires Inv(ini, n, s)
    ensures Runs(s, run) && ServerOnly(run) && Inv(ini, n, Final(s, run)) && Drained(Final(s, run))
    decreases Measure(s.connections)
  {
    if Drained(s) {
      run := [];
    } else {
      var a := ServerCanGoOn(ini, n, s);
      var rest := CanDrain(ini, n, Do(s, a));
      RunsCons(s, a, rest);
      run := [a] + rest;
    }
  }
}
