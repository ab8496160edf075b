/** The primary key of table transacao, drawn from a sequence that is never rolled back. */
module Keys {
  import opened Entities
  import opened AtomicLedger
  import opened Protocol

  predicate Inserted(s: State, c: nat) {
    At(s, c, Step.Inserted)
  }

  /** The sequence never gives a number twice: stored rows and pending inserts have keys of their own. */
  ghost predicate KeysOk(s: State) {
    && (forall i :: 0 <= i < |s.transacoes| ==> s.transacoes[i].id < s.nextId)
    && (forall i, j :: 0 <= i < j < |s.transacoes| ==> s.transacoes[i].id != s.transacoes[j].id)
    && (forall c: nat :: Inserted(s, c) ==> s.connections[c].flight.id < s.nextId)
    && (forall c: nat, d: nat :: Inserted(s, c) && Inserted(s, d) && c != d ==>
          s.connections[c].flight.id != s.connections[d].flight.id)
    && (forall c: nat, i :: Inserted(s, c) && 0 <= i < |s.transacoes| ==>
          s.connections[c].flight.id != s.transacoes[i].id)
  }

  /** No pending insert of s' is new. */
  predicate NoNewInsert(s: State, s': State) {
    forall c: nat :: 0 <= c < |s'.connections| && Inserted(s', c) ==>
      Inserted(s, c) && s'.connections[c].flight.id == s.connections[c].flight.id
  }

  lemma QuietKeepsKeys(s: State, s': State)
    requires KeysOk(s) && s'.nextId == s.nextId && s'.transacoes == s.transacoes && NoNewInsert(s, s')
    ensures KeysOk(s')
  {
  }

  lemma InsertKeepsKeys(s: State, s': State, c: nat)
    requires KeysOk(s) && c < |s.connections| == |s'.connections| && s'.transacoes == s.transacoes
    requires s'.nextId == s.nextId + 1 && At(s', c, Step.Inserted) && s'.connections[c].flight.id == s.nextId
    requires forall d :: 0 <= d < |s.connections| && d != c ==> s'.connections[d] == s.connections[d]
    ensures KeysOk(s')
  {
  }

  lemma CommitKeepsKeys(s: State, s': State, c: nat, row: Row)
    requires KeysOk(s) && Inserted(s, c) && !Inserted(s', c) && NoNewInsert(s, s')
    requires s'.nextId == s.nextId && s'.transacoes == s.transacoes + [row]
    requires row.id == s.connections[c].flight.id
    ensures KeysOk(s')
  {
  }

  lemma ActionKeepsKeys(s: State, a: Action)
    requires KeysOk(s) && Enabled(s, a)
    ensures KeysOk(Do(s, a))
  {
    var s' := Do(s, a);
    if a.Commit? {
      var f := s.connections[a.c].flight;
      CommitKeepsKeys(s, s', a.c, Row(f.id, f.batch.Lida(), f.agora));
    } else if At(s', a.c, Step.Inserted) {
      InsertKeepsKeys(s, s', a.c);
    } else {
      QuietKeepsKeys(s, s');
    }
  }

  lemma {:induction false} RunKeepsKeys(s: State, run: seq<Action>)
    requires KeysOk(s) && Runs(s, run)
    ensures KeysOk(Final(s, run))
    decreases |run|
  {
    if run != [] {
      ActionKeepsKeys(s, run[0]);
      RunKeepsKeys(Do(s, run[0]), run[1..]);
    }
  }

  /** In every reachable state the ids of the committed rows are pairwise distinct. */
  lemma DistinctKeys(ini: Ledger, n: nat, s: State, i: nat, j: nat)
    requires Initial(ini) && Reachable(ini, n, s) && i < j < |s.transacoes|
    ensures s.transacoes[i].id != s.transacoes[j].id
  {
    var run :| Runs(Init(ini, n), run) && Final(Init(ini, n), run) == s;
    RunKeepsKeys(Init(ini, n), run);
  }
}
