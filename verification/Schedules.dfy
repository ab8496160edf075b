/** Pieces of runs, to build concrete ones from. */
module Schedules {
  import opened Entities
  import opened Machine
  import opened Saldo
  import opened AtomicLedger
  import opened Protocol

  lemma {:induction false} RunsSnoc(s: State, run: seq<Action>, a: Action)
    requires Runs(s, run) && Enabled(Final(s, run), a)
    ensures Runs(s, run + [a]) && Final(s, run + [a]) == Do(Final(s, run), a)
    decreases |run|
  {
    if run == [] {
      assert (run + [a])[1..] == [];
    } else {
      RunsSnoc(Do(s, run[0]), run[1..], a);
      assert (run + [a])[1..] == run[1..] + [a];
    }
  }

  lemma ReachableStep(ini: Ledger, n: nat, s: State, a: Action)
    requires Reachable(ini, n, s) && Enabled(s, a)
    ensures Reachable(ini, n, Do(s, a))
  {
    var run :| Runs(Init(ini, n), run) && Final(Init(ini, n), run) == s;
    RunsSnoc(Init(ini, n), run, a);
  }

  lemma Start(ini: Ledger, n: nat)
    ensures Reachable(ini, n, Init(ini, n))
  {
    var s := Init(ini, n);
    assert Runs(s, []) && Final(s, []) == s;
  }

  /** Connection c reads the client for a POST. */
  lemma Read(ini: Ledger, n: nat, s: State, c: nat, t: Transacao) returns (s': State)
    requires Reachable(ini, n, s) && CanRead(s, c) && ValidTransacao(t) && t.idCliente in s.clientes
    ensures Reachable(ini, n, s')
    ensures var p := PostRead(t, s.clientes[t.idCliente], |s.outcomes|);
            s' == s.(connections := s.connections[c := Connection(p, Idle)])
  {
    s' := Do(s, ReadForPost(c, t));
    ReachableStep(ini, n, s, ReadForPost(c, t));
  }

  function Sending(c: nat, p: Process, texto: Option<string>): Batch
    requires p.PostRead?
  {
    Batch(c, p.transacao, p.visto, p.lido, texto)
  }

  /** The limit test lets it through: connection c sends its batch and answers 200. */
  lemma Send(ini: Ledger, n: nat, s: State, c: nat, texto: Option<string>) returns (s': State)
    requires Reachable(ini, n, s) && c < |s.connections|
    requires s.connections[c].process.PostRead? && s.connections[c].flight.Idle?
    requires Reads(s.connections[c].process.transacao, texto)
    requires !LimiteExcedido(s.connections[c].process.visto, s.connections[c].process.transacao)
    ensures Reachable(ini, n, s')
    ensures var p := s.connections[c].process; var b := Sending(c, p, texto);
            s' == s.(connections := s.connections[c := Connection(Ready, InFlight(b, Sent, 0, 0, 0))],
                     answers := s.answers + [Accepted(b, p.visto.limite, SaldoLocal(p.visto, p.transacao))])
  {
    s' := Do(s, AnswerPost(c, texto));
    ReachableStep(ini, n, s, AnswerPost(c, texto));
  }

  /** The batch of connection c has just been sent, and nobody holds the row it needs. */
  predicate Waiting(s: State, c: nat, b: Batch) {
    && c < |s.connections| && s.connections[c] == Connection(Ready, InFlight(b, Sent, 0, 0, 0))
    && b.transacao.idCliente in s.clientes && b.transacao.idCliente !in s.locks
  }

  function Ending(s: State, c: nat, o: Outcome): State
    requires c < |s.connections|
  {
    s.(connections := s.connections[c := Connection(Ready, Ended)], outcomes := s.outcomes + [o])
  }

  lemma Refuse(ini: Ledger, n: nat, s: State, c: nat, b: Batch) returns (s': State)
    requires Reachable(ini, n, s) && Waiting(s, c, b) && b.texto.None?
    ensures Reachable(ini, n, s') && s' == Ending(s, c, Outcome(b, Row(0, b.Lida(), 0), false))
  {
    s' := Do(s, Begin(c, 0));
    ReachableStep(ini, n, s, Begin(c, 0));
  }

  lemma Advance(ini: Ledger, n: nat, s: State, c: nat, b: Batch) returns (s': State)
    requires Reachable(ini, n, s) && Waiting(s, c, b) && b.texto.Some?
    ensures Reachable(ini, n, s')
    ensures var id := b.transacao.idCliente;
            var f := InFlight(b, Updated, 0, SaldoSql(s.clientes[id].saldo, b.transacao), 0);
            s' == s.(connections := s.connections[c := Connection(Ready, f)], locks := s.locks[id := c])
  {
    var s1 := Do(s, Begin(c, 0));
    ReachableStep(ini, n, s, Begin(c, 0));
    var s2 := Do(s1, Lock(c));
    ReachableStep(ini, n, s1, Lock(c));
    s' := Do(s2, Update(c));
    ReachableStep(ini, n, s2, Update(c));
  }

  /** chk_saldo fails. */
  lemma FailCheck(ini: Ledger, n: nat, s: State, c: nat, b: Batch) returns (s': State)
    requires Reachable(ini, n, s) && Waiting(s, c, b) && b.texto.Some?
    requires !UpdateAccepted(s.clientes[b.transacao.idCliente], b.transacao)
    ensures Reachable(ini, n, s') && s' == Ending(s, c, Outcome(b, Row(0, b.Lida(), 0), false))
  {
    var s1 := Advance(ini, n, s, c, b);
    s' := Do(s1, Check(c));
    ReachableStep(ini, n, s1, Check(c));
    assert s'.locks == s.locks;
  }

  /** A value does not fit its column. */
  lemma FailInsert(ini: Ledger, n: nat, s: State, c: nat, b: Batch) returns (s': State)
    requires Reachable(ini, n, s) && Waiting(s, c, b) && b.texto.Some? && !b.Fits()
    requires UpdateAccepted(s.clientes[b.transacao.idCliente], b.transacao)
    ensures Reachable(ini, n, s') && s' == Ending(s, c, Outcome(b, Row(0, b.Lida(), 0), false))
  {
    var s1 := Advance(ini, n, s, c, b);
    var s2 := Do(s1, Check(c));
    ReachableStep(ini, n, s1, Check(c));
    s' := Do(s2, Insert(c));
    ReachableStep(ini, n, s2, Insert(c));
    assert s'.locks == s.locks;
  }

  lemma InsertAndCommit(ini: Ledger, n: nat, s: State, c: nat, b: Batch, saldo: int) returns (s': State)
    requires Reachable(ini, n, s) && c < |s.connections| && b.transacao.idCliente in s.clientes && b.Fits()
    requires s.connections[c] == Connection(Ready, InFlight(b, Checked, 0, saldo, 0))
    ensures Reachable(ini, n, s')
    ensures var id := b.transacao.idCliente; var row := Row(s.nextId, b.Lida(), 0);
            s' == Ending(s, c, Outcome(b, row, true)).(
                    clientes := s.clientes[id := s.clientes[id].(saldo := saldo)], locks := s.locks - {id},
                    transacoes := s.transacoes + [row], nextId := s.nextId + 1)
  {
    var s1 := Do(s, Insert(c));
    ReachableStep(ini, n, s, Insert(c));
    s' := Do(s1, Commit(c));
    ReachableStep(ini, n, s1, Commit(c));
  }

  lemma Finish(ini: Ledger, n: nat, s: State, c: nat, b: Batch) returns (s': State)
    requires Reachable(ini, n, s) && Waiting(s, c, b) && b.Fits()
    requires UpdateAccepted(s.clientes[b.transacao.idCliente], b.transacao)
    ensures Reachable(ini, n, s')
    ensures var id := b.transacao.idCliente; var row := Row(s.nextId, b.Lida(), 0);
            var saldo := SaldoSql(s.clientes[id].saldo, b.transacao);
            s' == Ending(s, c, Outcome(b, row, true)).(
                    clientes := s.clientes[id := s.clientes[id].(saldo := saldo)],
                    transacoes := s.transacoes + [row], nextId := s.nextId + 1)
  {
    var id := b.transacao.idCliente;
    var s1 := Advance(ini, n, s, c, b);
    var s2 := Do(s1, Check(c));
    ReachableStep(ini, n, s1, Check(c));
    s' := InsertAndCommit(ini, n, s2, c, b, SaldoSql(s.clientes[id].saldo, b.transacao));
    assert s.locks[id := c] - {id} == s.locks;
    assert s'.connections == s.connections[c := Connection(Ready, Ended)];
  }
}
