/** What every action of the protocol keeps. */
module ProtocolInvariant {
  import opened Entities
  import opened Machine
  import opened Saldo
  import opened LastTen
  import opened AtomicLedger
  import opened Protocol

  /** `visto` is the row of client `id` after the first `lido` outcomes. */
  ghost predicate Seen(ini: Ledger, outcomes: seq<Outcome>, id: int, visto: Cliente, lido: nat) {
    && lido <= |outcomes|
    && id in ini.clientes && id in Book(ini, outcomes[..lido]).clientes
    && Book(ini, outcomes[..lido]).clientes[id] == visto
  }

  /** No batch of connection c ended from position `from` on. */
  predicate NoneOf(outcomes: seq<Outcome>, c: nat, from: nat) {
    forall k :: from <= k < |outcomes| ==> outcomes[k].batch.connection != c
  }

  ghost predicate BatchOk(ini: Ledger, outcomes: seq<Outcome>, c: nat, b: Batch) {
    && b.connection == c && ValidTransacao(b.transacao)
    && Reads(b.transacao, b.texto) && ValidTransacao(b.Lida())
    && Seen(ini, outcomes, b.transacao.idCliente, b.visto, b.lido)
    && !LimiteExcedido(b.visto, b.transacao)
    && NoneOf(outcomes, c, b.lido)
  }

  predicate HoldsLock(f: Flight) {
    f.InFlight? && f.step != Sent && f.step != Begun
  }

  ghost predicate FlightOk(s: State, c: nat, f: Flight)
    requires f.InFlight?
  {
    var t := f.batch.transacao;
    && t.idCliente in s.clientes
    && (f.step != Sent ==> f.batch.texto.Some?)
    && (HoldsLock(f) ==> t.idCliente in s.locks && s.locks[t.idCliente] == c)
    && (HoldsLock(f) && f.step != Locked ==> f.saldo == SaldoSql(s.clientes[t.idCliente].saldo, t))
    && (f.step == Checked || f.step == Inserted ==> UpdateAccepted(s.clientes[t.idCliente], t))
    && (f.step == Inserted ==> FitsColumns(f.batch.Lida()))
  }

  ghost predicate FlyingOk(ini: Ledger, s: State, c: nat, conn: Connection) {
    conn.flight.InFlight? ==>
      conn.process.Ready? && BatchOk(ini, s.outcomes, c, conn.flight.batch) && FlightOk(s, c, conn.flight)
  }

  ghost predicate PostOk(ini: Ledger, outcomes: seq<Outcome>, c: nat, conn: Connection) {
    conn.process.PostRead? ==>
      && conn.flight.Idle? && ValidTransacao(conn.process.transacao)
      && Seen(ini, outcomes, conn.process.transacao.idCliente, conn.process.visto, conn.process.lido)
      && NoneOf(outcomes, c, conn.process.lido)
  }

  ghost predicate ExtratoOk(ini: Ledger, outcomes: seq<Outcome>, c: nat, conn: Connection) {
    conn.process.ExtratoRead? ==>
      && conn.flight.Idle?
      && Seen(ini, outcomes, conn.process.id, conn.process.visto, conn.process.lido)
      && NoneOf(outcomes, c, conn.process.lido)
  }

  ghost predicate ConnectionOk(ini: Ledger, s: State, c: nat)
    requires c < |s.connections|
  {
    && FlyingOk(ini, s, c, s.connections[c])
    && PostOk(ini, s.outcomes, c, s.connections[c])
    && ExtratoOk(ini, s.outcomes, c, s.connections[c])
  }

  ghost predicate LocksOk(s: State) {
    forall id :: id in s.locks ==>
      && s.locks[id] < |s.connections|
      && HoldsLock(s.connections[s.locks[id]].flight)
      && s.connections[s.locks[id]].flight.batch.transacao.idCliente == id
  }

  /** The committed tables are the sequential ledger, and every process and lock is in order. */
  ghost predicate Core(ini: Ledger, s: State) {
    && Ledger(s.clientes, s.transacoes) == Book(ini, s.outcomes)
    && s.clientes.Keys == ini.clientes.Keys
    && (forall c :: 0 <= c < |s.connections| ==> ConnectionOk(ini, s, c))
    && LocksOk(s)
  }

  lemma CoreInit(ini: Ledger, n: nat)
    ensures Core(ini, Init(ini, n))
  {
  }

  lemma BookSnoc(ini: Ledger, outcomes: seq<Outcome>, o: Outcome)
    ensures Book(ini, outcomes + [o]) == Apply(Book(ini, outcomes), o.row, o.batch.texto.Some?)
  {
    assert (outcomes + [o])[..|outcomes + [o]| - 1] == outcomes;
  }

  lemma SeenSnoc(ini: Ledger, outcomes: seq<Outcome>, o: Outcome, id: int, visto: Cliente, lido: nat)
    requires Seen(ini, outcomes, id, visto, lido)
    ensures Seen(ini, outcomes + [o], id, visto, lido)
  {
    assert (outcomes + [o])[..lido] == outcomes[..lido];
  }

  lemma SeenNow(ini: Ledger, s: State, id: int)
    requires Core(ini, s) && id in s.clientes
    ensures Seen(ini, s.outcomes, id, s.clientes[id], |s.outcomes|)
  {
    assert s.outcomes[..|s.outcomes|] == s.outcomes;
  }

  /** The verdict of the server is the verdict of the sequential ledger at that moment. */
  ghost predicate RightEnd(s: State, c: nat, committed: bool) {
    && c < |s.connections| && s.connections[c].flight.InFlight?
    && var f := s.connections[c].flight;
    && f.step != Begun && f.step != Locked
    && (committed <==> Accepts(s.clientes, f.batch.Lida(), f.batch.texto.Some?))
    && (committed ==> f.step == Inserted)
  }

  /** The outcome that the end of connection c's batch adds. */
  function Verdict(s: State, c: nat, committed: bool): Outcome
    requires c < |s.connections| && s.connections[c].flight.InFlight?
  {
    var f := s.connections[c].flight;
    Outcome(f.batch, Row(f.id, f.batch.Lida(), f.agora), committed)
  }

  lemma WaitingPostKept(ini: Ledger, outcomes: seq<Outcome>, o: Outcome, d: nat, conn: Connection)
    requires PostOk(ini, outcomes, d, conn) && o.batch.connection != d
    ensures PostOk(ini, outcomes + [o], d, conn)
  {
    if conn.process.PostRead? {
      SeenSnoc(ini, outcomes, o, conn.process.transacao.idCliente, conn.process.visto, conn.process.lido);
    }
  }

  lemma WaitingExtratoKept(ini: Ledger, outcomes: seq<Outcome>, o: Outcome, d: nat, conn: Connection)
    requires ExtratoOk(ini, outcomes, d, conn) && o.batch.connection != d
    ensures ExtratoOk(ini, outcomes + [o], d, conn)
  {
    if conn.process.ExtratoRead? {
      SeenSnoc(ini, outcomes, o, conn.process.id, conn.process.visto, conn.process.lido);
    }
  }

  lemma BatchKept(ini: Ledger, outcomes: seq<Outcome>, o: Outcome, d: nat, b: Batch)
    requires BatchOk(ini, outcomes, d, b) && o.batch.connection != d
    ensures BatchOk(ini, outcomes + [o], d, b)
  {
    SeenSnoc(ini, outcomes, o, b.transacao.idCliente, b.visto, b.lido);
  }

  /** Another batch that holds a row lock holds it on another client, whose row does not change. */
  lemma FlightKept(ini: Ledger, s: State, c: nat, committed: bool, d: nat)
    requires Core(ini, s) && RightEnd(s, c, committed)
    requires d < |s.connections| && d != c && s.connections[d].flight.InFlight?
    ensures FlightOk(End(s, c, committed), d, s.connections[d].flight)
  {
    assert ConnectionOk(ini, s, c) && ConnectionOk(ini, s, d);
  }

  lemma OtherConnectionsKept(ini: Ledger, s: State, c: nat, committed: bool, d: nat)
    requires Core(ini, s) && RightEnd(s, c, committed)
    requires d < |s.connections| && d != c
    ensures ConnectionOk(ini, End(s, c, committed), d)
  {
    assert ConnectionOk(ini, s, c) && ConnectionOk(ini, s, d);
    var o, conn := Verdict(s, c, committed), s.connections[d];
    if conn.flight.InFlight? {
      BatchKept(ini, s.outcomes, o, d, conn.flight.batch);
      FlightKept(ini, s, c, committed, d);
    }
    WaitingPostKept(ini, s.outcomes, o, d, conn);
    WaitingExtratoKept(ini, s.outcomes, o, d, conn);
  }

  lemma EndKeepsTables(ini: Ledger, s: State, c: nat, committed: bool)
    requires Core(ini, s) && RightEnd(s, c, committed)
    ensures var s' := End(s, c, committed);
            && Ledger(s'.clientes, s'.transacoes) == Book(ini, s'.outcomes)
            && s'.clientes.Keys == ini.clientes.Keys
  {
    assert ConnectionOk(ini, s, c);
    BookSnoc(ini, s.outcomes, Verdict(s, c, committed));
  }

  lemma EndKeepsLocks(ini: Ledger, s: State, c: nat, committed: bool)
    requires Core(ini, s) && RightEnd(s, c, committed)
    ensures LocksOk(End(s, c, committed))
  {
    assert ConnectionOk(ini, s, c);
  }

  lemma EndKeepsOwn(ini: Ledger, s: State, c: nat, committed: bool)
    requires Core(ini, s) && RightEnd(s, c, committed)
    ensures ConnectionOk(ini, End(s, c, committed), c)
  {
    assert ConnectionOk(ini, s, c);
  }

  lemma EndKeepsCore(ini: Ledger, s: State, c: nat, committed: bool)
    requires Core(ini, s) && RightEnd(s, c, committed)
    ensures Core(ini, End(s, c, committed))
  {
    var s' := End(s, c, committed);
    EndKeepsTables(ini, s, c, committed);
    EndKeepsLocks(ini, s, c, committed);
    forall d | 0 <= d < |s'.connections|
      ensures ConnectionOk(ini, s', d)
    {
      if d == c {
        EndKeepsOwn(ini, s, c, committed);
      } else {
        OtherConnectionsKept(ini, s, c, committed, d);
      }
    }
  }

  /** The action ends a batch of connection a.c. */
  ghost predicate Ends(s: State, a: Action)
    requires Enabled(s, a)
  {
    match a
    case Begin(c, agora) => s.connections[c].flight.batch.texto.None?
    case Check(c) =>
      var f := s.connections[c].flight;
      !(IsInt64(f.saldo) && f.saldo >= -s.clientes[f.batch.transacao.idCliente].limite)
    case Insert(c) => !FitsColumns(s.connections[c].flight.batch.Lida())
    case Commit(c) => true
    case _ => false
  }

  lemma EndsRightly(ini: Ledger, s: State, a: Action)
    requires Core(ini, s) && Enabled(s, a) && Ends(s, a)
    ensures RightEnd(s, a.c, a.Commit?) && Do(s, a) == End(s, a.c, a.Commit?)
  {
    assert ConnectionOk(ini, s, a.c);
  }

  /** A connection that a step leaves alone stays in order, as long as no lock is taken from it. */
  lemma SameConnection(ini: Ledger, s: State, s': State, d: nat)
    requires d < |s.connections| == |s'.connections| && ConnectionOk(ini, s, d)
    requires s'.connections[d] == s.connections[d] && s'.outcomes == s.outcomes && s'.clientes == s.clientes
    requires forall id :: id in s.locks ==> id in s'.locks && s'.locks[id] == s.locks[id]
    ensures ConnectionOk(ini, s', d)
  {
  }

  lemma StepKeepsCore(ini: Ledger, s: State, s': State, c: nat)
    requires Core(ini, s) && c < |s.connections| == |s'.connections|
    requires forall d :: 0 <= d < |s.connections| && d != c ==> s'.connections[d] == s.connections[d]
    requires s'.outcomes == s.outcomes && s'.clientes == s.clientes && s'.transacoes == s.transacoes
    requires forall id :: id in s.locks ==> id in s'.locks && s'.locks[id] == s.locks[id]
    requires ConnectionOk(ini, s', c) && LocksOk(s')
    ensures Core(ini, s')
  {
    forall d | 0 <= d < |s'.connections|
      ensures ConnectionOk(ini, s', d)
    {
      if d != c {
        SameConnection(ini, s, s', d);
      }
    }
  }

  lemma ReadKeepsCore(ini: Ledger, s: State, a: Action)
    requires Core(ini, s) && Enabled(s, a) && (a.ReadForPost? || a.ReadForExtrato?)
    ensures Core(ini, Do(s, a))
  {
    var id := if a.ReadForPost? then a.transacao.idCliente else a.id;
    assert ConnectionOk(ini, s, a.c);
    if id in s.clientes {
      SeenNow(ini, s, id);
    }
    StepKeepsCore(ini, s, Do(s, a), a.c);
  }

  lemma AnswerKeepsCore(ini: Ledger, s: State, a: Action)
    requires Core(ini, s) && Enabled(s, a) && (a.AnswerPost? || a.AnswerExtrato?)
    ensures Core(ini, Do(s, a))
  {
    assert ConnectionOk(ini, s, a.c);
    if a.AnswerPost? && Reads(s.connections[a.c].process.transacao, a.texto) {
      TakenIsValid(s.connections[a.c].process.transacao, a.texto);
    }
    StepKeepsCore(ini, s, Do(s, a), a.c);
  }

  /** Server steps that do not end a batch. */
  ghost predicate Proceeds(s: State, a: Action) {
    && Enabled(s, a) && !Ends(s, a)
    && !(a.ReadForPost? || a.AnswerPost? || a.ReadForExtrato? || a.AnswerExtrato?)
  }

  lemma ProceedingConnection(ini: Ledger, s: State, a: Action)
    requires Core(ini, s) && Proceeds(s, a)
    ensures ConnectionOk(ini, Do(s, a), a.c)
  {
    assert ConnectionOk(ini, s, a.c);
  }

  lemma ProceedingLocks(ini: Ledger, s: State, a: Action)
    requires Core(ini, s) && Proceeds(s, a)
    ensures LocksOk(Do(s, a))
  {
  }

  lemma ServerActionKeepsCore(ini: Ledger, s: State, a: Action)
    requires Core(ini, s) && Proceeds(s, a)
    ensures Core(ini, Do(s, a))
  {
    ProceedingConnection(ini, s, a);
    ProceedingLocks(ini, s, a);
    StepKeepsCore(ini, s, Do(s, a), a.c);
  }

  lemma ActionKeepsCore(ini: Ledger, s: State, a: Action)
    requires Core(ini, s) && Enabled(s, a)
    ensures Core(ini, Do(s, a))
  {
    if a.ReadForPost? || a.ReadForExtrato? {
      ReadKeepsCore(ini, s, a);
    } else if a.AnswerPost? || a.AnswerExtrato? {
      AnswerKeepsCore(ini, s, a);
    } else if Ends(s, a) {
      EndsRightly(ini, s, a);
      EndKeepsCore(ini, s, a.c, a.Commit?);
    } else {
      ServerActionKeepsCore(ini, s, a);
    }
  }
}
