/** The poll slot table of src/server/server.c and the scan that changes it while walking it. */
module PollTable {

  const SOCKET_MAX_POLL: nat := 16
  const FREE: int := -1

  /** revents: the POLLIN bit, and whether any other bit is set. */
  datatype Events = Events(pollin: bool, other: bool)
  const NONE: Events := Events(false, false)

  /** struct pollfd; events is POLLIN in every slot and is left out. */
  datatype Slot = Slot(fd: int, revents: Events)

  type Table = t: seq<Slot> | |t| == SOCKET_MAX_POLL witness seq(SOCKET_MAX_POLL, i => Slot(FREE, NONE))

  /** What the loop does with client sockets. */
  datatype SocketEvent = Accepted(fd: int) | Served(fd: int) | Closed(fd: int)

  /** One turn of the loop: poll's result, the bits it reports, and the descriptor accept would give. */
  datatype Round = Round(ready: int, reported: seq<Events>, candidate: int)

  function Occupied(t: seq<Slot>): nat {
    if t == [] then 0 else (if t[0].fd == FREE then 0 else 1) + Occupied(t[1..])
  }

  /** The first slot that holds fd, or |t|. */
  function Find(t: seq<Slot>, fd: int): (k: nat)
    ensures k <= |t| && (k < |t| ==> t[k].fd == fd)
    ensures forall i :: 0 <= i < k ==> t[i].fd != fd
  {
    if t == [] || t[0].fd == fd then 0 else 1 + Find(t[1..], fd)
  }

  predicate Distinct(t: seq<Slot>) {
    forall i, j :: 0 <= i < j < |t| && t[i].fd != FREE ==> t[i].fd != t[j].fd
  }

  /** Slot 0 holds the listening socket and no descriptor stands in two slots. */
  predicate WellFormed(t: Table, listening: int) {
    && listening >= 0 && t[0].fd == listening && Distinct(t)
    && forall i :: 0 <= i < |t| ==> t[i].fd >= FREE
  }

  function ClientFds(t: Table): set<int> {
    set i | 1 <= i < |t| && t[i].fd != FREE :: t[i].fd
  }

  /** The client sockets that are open after these events. */
  function Open(log: seq<SocketEvent>): set<int> {
    if log == [] then {}
    else
      var before := Open(log[..|log| - 1]);
      match log[|log| - 1]
      case Accepted(fd) => before + {fd}
      case Served(fd) => before
      case Closed(fd) => before - {fd}
  }

  /** A socket is accepted while closed, and served or closed only while open. */
  predicate Legal(log: seq<SocketEvent>) {
    log == [] ||
    (var before := Open(log[..|log| - 1]);
     && Legal(log[..|log| - 1])
     && match log[|log| - 1]
        case Accepted(fd) => fd >= 0 && fd !in before
        case Served(fd) => fd in before
        case Closed(fd) => fd in before)
  }

  /** Every accepted socket is closed at most once, and exactly the others are open. */
  lemma {:induction false} ClosedOnce(log: seq<SocketEvent>, fd: int)
    requires Legal(log)
    ensures multiset(log)[Accepted(fd)] == multiset(log)[Closed(fd)] + (if fd in Open(log) then 1 else 0)
  {
    if log != [] {
      var init := log[..|log| - 1];
      ClosedOnce(init, fd);
      assert log == init + [log[|log| - 1]];
    }
  }

  // The specification of one turn of the loop.

  /** poll(2): a slot with a negative descriptor reports nothing. */
  function Polled(t: Table, reported: seq<Events>): (r: Table) {
    seq(SOCKET_MAX_POLL, i requires 0 <= i < SOCKET_MAX_POLL =>
      t[i].(revents := if t[i].fd < 0 || i >= |reported| then NONE else reported[i]))
  }

  /** accept(2) gives a descriptor that is not in use. */
  predicate AcceptGives(t: Table, candidate: int) {
    candidate >= 0 && Find(t, candidate) == SOCKET_MAX_POLL
  }

  predicate Accepts(t: Table, candidate: int) {
    t[0].revents.pollin && Occupied(t) < SOCKET_MAX_POLL && AcceptGives(t, candidate)
  }

  function AfterAccept(t: Table, candidate: int): Table {
    if Accepts(t, candidate) && Find(t, FREE) < SOCKET_MAX_POLL then
      t[Find(t, FREE) := Slot(candidate, NONE)]
    else
      t
  }

  /** A client slot with anything reported is given up. */
  function GivenUp(slot: Slot): Slot {
    if slot.revents == NONE then slot else slot.(fd := FREE)
  }

  /** The table when the scan has passed the first i slots. */
  function Scanned(t: Table, candidate: int, i: nat): Table
    requires i <= SOCKET_MAX_POLL
  {
    if i == 0 then t
    else
      seq(SOCKET_MAX_POLL, j requires 0 <= j < SOCKET_MAX_POLL =>
        if 0 < j < i then GivenUp(AfterAccept(t, candidate)[j]) else AfterAccept(t, candidate)[j])
  }

  function SlotEvents(slot: Slot): seq<SocketEvent> {
    if slot.revents == NONE then []
    else if slot.revents.pollin then [Served(slot.fd), Closed(slot.fd)]
    else [Closed(slot.fd)]
  }

  /** What the scan has done when it has passed the first i slots of the table poll left. */
  function ScanEvents(t: Table, candidate: int, i: nat): seq<SocketEvent>
    requires i <= SOCKET_MAX_POLL
  {
    if i == 0 then []
    else if i == 1 then (if Accepts(t, candidate) then [Accepted(candidate)] else [])
    else ScanEvents(t, candidate, i - 1) + SlotEvents(t[i - 1])
  }

  function TurnTable(t: Table, round: Round): Table {
    if round.ready <= 0 then t
    else Scanned(Polled(t, round.reported), round.candidate, SOCKET_MAX_POLL)
  }

  function TurnEvents(t: Table, round: Round): seq<SocketEvent> {
    if round.ready <= 0 then []
    else ScanEvents(Polled(t, round.reported), round.candidate, SOCKET_MAX_POLL)
  }

  function RunTable(t: Table, rounds: seq<Round>): Table {
    if rounds == [] then t
    else TurnTable(RunTable(t, rounds[..|rounds| - 1]), rounds[|rounds| - 1])
  }

  function RunEvents(t: Table, rounds: seq<Round>): seq<SocketEvent> {
    if rounds == [] then []
    else
      RunEvents(t, rounds[..|rounds| - 1])
      + TurnEvents(RunTable(t, rounds[..|rounds| - 1]), rounds[|rounds| - 1])
  }

  // Occupied slots.

  lemma {:induction false} FreeWhenNotFull(t: seq<Slot>)
    ensures Occupied(t) <= |t|
    ensures Occupied(t) < |t| <==> Find(t, FREE) < |t|
  {
    if t != [] {
      FreeWhenNotFull(t[1..]);
    }
  }

  lemma {:induction false} OccupiedUpdate(t: seq<Slot>, k: nat, slot: Slot)
    requires k < |t|
    ensures Occupied(t[k := slot])
            == Occupied(t) - (if t[k].fd == FREE then 0 else 1) + (if slot.fd == FREE then 0 else 1)
  {
    if k == 0 {
      assert t[k := slot][1..] == t[1..];
    } else {
      OccupiedUpdate(t[1..], k - 1, slot);
      assert t[k := slot][1..] == t[1..][k - 1 := slot];
    }
  }

  lemma {:induction false} OccupiedSameFds(t: seq<Slot>, u: seq<Slot>)
    requires |t| == |u| && forall i :: 0 <= i < |t| ==> t[i].fd == u[i].fd
    ensures Occupied(t) == Occupied(u)
  {
    if t != [] {
      OccupiedSameFds(t[1..], u[1..]);
    }
  }

  // One turn keeps the table and the sockets in step.

  /** Open client sockets are exactly those in slots 1 to 15. */
  predicate InStep(t: Table, log: seq<SocketEvent>, listening: int) {
    WellFormed(t, listening) && Legal(log) && Open(log) == ClientFds(t)
  }

  lemma LogOne(log: seq<SocketEvent>, e: SocketEvent)
    ensures (log + [e])[..|log + [e]| - 1] == log
  {
  }

  lemma AcceptKeepsStep(t: Table, candidate: int, log: seq<SocketEvent>, listening: int)
    requires InStep(t, log, listening)
    ensures InStep(AfterAccept(t, candidate), log + ScanEvents(t, candidate, 1), listening)
  {
    if Accepts(t, candidate) {
      FreeWhenNotFull(t);
      LogOne(log, Accepted(candidate));
      var k, u := Find(t, FREE), AfterAccept(t, candidate);
      assert ClientFds(u) == ClientFds(t) + {candidate} by {
        assert u[k].fd == candidate;
        forall fd | fd in ClientFds(t)
          ensures fd in ClientFds(u)
        {
          var i :| 1 <= i < |t| && t[i].fd != FREE && t[i].fd == fd;
          assert u[i].fd == fd;
        }
      }
    } else {
      assert log + [] == log;
    }
  }

  lemma FreedSlot(t: Table, i: nat, listening: int)
    requires WellFormed(t, listening) && 0 < i < |t| && t[i].fd != FREE
    ensures WellFormed(t[i := t[i].(fd := FREE)], listening)
    ensures ClientFds(t[i := t[i].(fd := FREE)]) == ClientFds(t) - {t[i].fd}
    ensures t[i].fd in ClientFds(t)
  {
    var u, fd := t[i := t[i].(fd := FREE)], t[i].fd;
    forall f | f in ClientFds(t) && f != fd
      ensures f in ClientFds(u)
    {
      var j :| 1 <= j < |t| && t[j].fd != FREE && t[j].fd == f;
      assert u[j].fd == f;
    }
  }

  lemma CloseIsLegal(log: seq<SocketEvent>, fd: int)
    requires Legal(log) && fd in Open(log)
    ensures Legal(log + [Closed(fd)]) && Open(log + [Closed(fd)]) == Open(log) - {fd}
    ensures Legal(log + [Served(fd)]) && Open(log + [Served(fd)]) == Open(log)
  {
    LogOne(log, Closed(fd));
    LogOne(log, Served(fd));
  }

  /** Giving up slot i keeps table and sockets in step. */
  lemma GiveUpKeepsStep(t: Table, i: nat, log: seq<SocketEvent>, listening: int)
    requires InStep(t, log, listening) && 0 < i < |t|
    requires t[i].revents != NONE ==> t[i].fd != FREE
    ensures InStep(t[i := GivenUp(t[i])], log + SlotEvents(t[i]), listening)
  {
    var fd := t[i].fd;
    if t[i].revents == NONE {
      assert t[i := t[i]] == t && log + [] == log;
    } else {
      FreedSlot(t, i, listening);
      CloseIsLegal(log, fd);
      if t[i].revents.pollin {
        CloseIsLegal(log + [Served(fd)], fd);
        assert log + [Served(fd), Closed(fd)] == log + [Served(fd)] + [Closed(fd)];
      }
    }
  }

  /** Only occupied slots report anything. */
  predicate FreeIsQuiet(t: Table) {
    forall j :: 0 <= j < |t| && t[j].revents != NONE ==> t[j].fd != FREE
  }

  lemma ScannedNext(t: Table, candidate: int, i: nat)
    requires FreeIsQuiet(t) && 0 < i < SOCKET_MAX_POLL
    ensures Scanned(t, candidate, i)[i].revents != NONE ==> Scanned(t, candidate, i)[i].fd != FREE
    ensures SlotEvents(Scanned(t, candidate, i)[i]) == SlotEvents(t[i])
    ensures Scanned(t, candidate, i + 1) == Scanned(t, candidate, i)[i := GivenUp(Scanned(t, candidate, i)[i])]
  {
  }

  lemma ScanEventsNext(t: Table, candidate: int, i: nat, log: seq<SocketEvent>)
    requires 0 < i < SOCKET_MAX_POLL
    ensures log + ScanEvents(t, candidate, i + 1) == log + ScanEvents(t, candidate, i) + SlotEvents(t[i])
  {
  }

  lemma {:induction false} ScanKeepsStep(t: Table, candidate: int, i: nat, log: seq<SocketEvent>, listening: int)
    requires InStep(t, log, listening) && FreeIsQuiet(t) && i <= SOCKET_MAX_POLL
    ensures InStep(Scanned(t, candidate, i), log + ScanEvents(t, candidate, i), listening)
  {
    if i == 0 {
      assert log + [] == log;
    } else if i == 1 {
      AcceptKeepsStep(t, candidate, log, listening);
      assert Scanned(t, candidate, 1) == AfterAccept(t, candidate);
    } else {
      ScanKeepsStep(t, candidate, i - 1, log, listening);
      ScannedNext(t, candidate, i - 1);
      ScanEventsNext(t, candidate, i - 1, log);
      GiveUpKeepsStep(Scanned(t, candidate, i - 1), i - 1, log + ScanEvents(t, candidate, i - 1), listening);
    }
  }

  lemma PolledKeepsStep(t: Table, reported: seq<Events>, log: seq<SocketEvent>, listening: int)
    requires InStep(t, log, listening)
    ensures InStep(Polled(t, reported), log, listening)
  {
    var u := Polled(t, reported);
    assert forall i :: 0 <= i < |t| ==> u[i].fd == t[i].fd;
    assert ClientFds(u) == ClientFds(t);
  }

  lemma TurnKeepsStep(t: Table, round: Round, log: seq<SocketEvent>, listening: int)
    requires InStep(t, log, listening)
    ensures InStep(TurnTable(t, round), log + TurnEvents(t, round), listening)
  {
    if round.ready <= 0 {
      assert log + [] == log;
    } else {
      PolledKeepsStep(t, round.reported, log, listening);
      ScanKeepsStep(Polled(t, round.reported), round.candidate, SOCKET_MAX_POLL, log, listening);
    }
  }

  lemma RunEventsNext(t: Table, rounds: seq<Round>, log: seq<SocketEvent>)
    requires rounds != []
    ensures var init := rounds[..|rounds| - 1];
            log + RunEvents(t, rounds)
            == log + RunEvents(t, init) + TurnEvents(RunTable(t, init), rounds[|rounds| - 1])
  {
  }

  /** Over every run of the loop: slots and open sockets agree at each loop head. */
  lemma {:induction false} RunKeepsStep(t: Table, rounds: seq<Round>, log: seq<SocketEvent>, listening: int)
    requires InStep(t, log, listening)
    ensures InStep(RunTable(t, rounds), log + RunEvents(t, rounds), listening)
  {
    if rounds == [] {
      assert log + [] == log;
    } else {
      var init := rounds[..|rounds| - 1];
      RunKeepsStep(t, init, log, listening);
      RunEventsNext(t, rounds, log);
      TurnKeepsStep(RunTable(t, init), rounds[|rounds| - 1], log + RunEvents(t, init), listening);
    }
  }

  /** Over every run: each accepted socket is closed at most once, and stays in a slot until then. */
  lemma RunClosesOnce(t: Table, rounds: seq<Round>, listening: int, fd: int)
    requires WellFormed(t, listening) && ClientFds(t) == {}
    ensures multiset(RunEvents(t, rounds))[Accepted(fd)]
            == multiset(RunEvents(t, rounds))[Closed(fd)] + (if fd in ClientFds(RunTable(t, rounds)) then 1 else 0)
  {
    RunKeepsStep(t, rounds, [], listening);
    assert [] + RunEvents(t, rounds) == RunEvents(t, rounds);
    ClosedOnce(RunEvents(t, rounds), fd);
  }

  /** The socket accepted in a pass is neither served nor closed in that pass. */
  lemma {:induction false} NewSocketUntouched(t: Table, candidate: int, i: nat)
    requires Accepts(t, candidate) && i <= SOCKET_MAX_POLL
    ensures Served(candidate) !in ScanEvents(t, candidate, i)
    ensures Closed(candidate) !in ScanEvents(t, candidate, i)
  {
    if i > 1 {
      NewSocketUntouched(t, candidate, i - 1);
      assert t[i - 1].fd != candidate;
    }
  }

  /** poll_push after an accept always finds a slot, and the new socket still has it after the pass. */
  lemma NewSocketKept(t: Table, candidate: int)
    requires Accepts(t, candidate)
    ensures Find(t, FREE) < SOCKET_MAX_POLL
    ensures Scanned(t, candidate, SOCKET_MAX_POLL)[Find(t, FREE)] == Slot(candidate, NONE)
  {
    FreeWhenNotFull(t);
  }

  // What each turn does for every slot, in terms of what poll reported.

  /** poll returned, with a report for each slot of a table in order. */
  predicate Reported(t: Table, round: Round, listening: int) {
    WellFormed(t, listening) && round.ready > 0 && |round.reported| == SOCKET_MAX_POLL
  }

  /** A client is read right before it is closed. */
  predicate ServedThenClosed(events: seq<SocketEvent>, fd: int) {
    exists k :: 0 <= k < |events| - 1 && events[k] == Served(fd) && events[k + 1] == Closed(fd)
  }

  lemma ServedBehind(a: seq<SocketEvent>, b: seq<SocketEvent>, fd: int)
    ensures ServedThenClosed(a, fd) || ServedThenClosed(b, fd) ==> ServedThenClosed(a + b, fd)
  {
    if ServedThenClosed(a, fd) {
      var k :| 0 <= k < |a| - 1 && a[k] == Served(fd) && a[k + 1] == Closed(fd);
      assert (a + b)[k] == Served(fd) && (a + b)[k + 1] == Closed(fd);
    } else if ServedThenClosed(b, fd) {
      var k :| 0 <= k < |b| - 1 && b[k] == Served(fd) && b[k + 1] == Closed(fd);
      assert (a + b)[|a| + k] == Served(fd) && (a + b)[|a| + k + 1] == Closed(fd);
    }
  }

  lemma {:induction false} ScanServes(t: Table, candidate: int, i: nat, j: nat)
    requires 1 <= j < i <= SOCKET_MAX_POLL && t[j].revents.pollin
    ensures ServedThenClosed(ScanEvents(t, candidate, i), t[j].fd)
  {
    ServedBehind(ScanEvents(t, candidate, i - 1), SlotEvents(t[i - 1]), t[j].fd);
    if j == i - 1 {
      var part := SlotEvents(t[j]);
      assert part[0] == Served(t[j].fd) && part[1] == Closed(t[j].fd);
    } else {
      ScanServes(t, candidate, i - 1, j);
    }
  }

  function Count(events: seq<SocketEvent>, e: SocketEvent): nat {
    if events == [] then 0 else (if events[0] == e then 1 else 0) + Count(events[1..], e)
  }

  lemma {:induction false} CountConcat(a: seq<SocketEvent>, b: seq<SocketEvent>, e: SocketEvent)
    ensures Count(a + b, e) == Count(a, e) + Count(b, e)
  {
    if a == [] {
      assert a + b == b;
    } else {
      CountConcat(a[1..], b, e);
      assert (a + b)[1..] == a[1..] + b;
    }
  }

  lemma CountUpTo2(a: SocketEvent, b: SocketEvent, e: SocketEvent)
    ensures Count([a], e) == if a == e then 1 else 0
    ensures Count([a, b], e) == (if a == e then 1 else 0) + (if b == e then 1 else 0)
  {
    assert [a, b][1..] == [b] && [a][1..] == [];
    assert Count([b], e) == if b == e then 1 else 0;
  }

  /** What one slot's part of the scan does to a descriptor. */
  lemma SlotCounts(slot: Slot, fd: int)
    ensures Count(SlotEvents(slot), Served(fd)) == if slot.fd == fd && slot.revents.pollin then 1 else 0
    ensures Count(SlotEvents(slot), Closed(fd))
            == if slot.fd == fd && (slot.revents.pollin || slot.revents.other) then 1 else 0
  {
    CountUpTo2(Served(slot.fd), Closed(slot.fd), Served(fd));
    CountUpTo2(Served(slot.fd), Closed(slot.fd), Closed(fd));
    CountUpTo2(Closed(slot.fd), Closed(slot.fd), Served(fd));
    CountUpTo2(Closed(slot.fd), Closed(slot.fd), Closed(fd));
  }

  /** In a scan, only the slot of a client serves or closes it. */
  lemma {:induction false} ScanCounts(t: Table, candidate: int, i: nat, j: nat)
    requires Distinct(t) && 1 <= j < SOCKET_MAX_POLL && t[j].fd != FREE && i <= SOCKET_MAX_POLL
    ensures Count(ScanEvents(t, candidate, i), Served(t[j].fd)) == if j < i && t[j].revents.pollin then 1 else 0
    ensures Count(ScanEvents(t, candidate, i), Closed(t[j].fd))
            == if j < i && (t[j].revents.pollin || t[j].revents.other) then 1 else 0
  {
    var fd := t[j].fd;
    CountUpTo2(Accepted(candidate), Accepted(candidate), Served(fd));
    CountUpTo2(Accepted(candidate), Accepted(candidate), Closed(fd));
    if i > 1 {
      ScanCounts(t, candidate, i - 1, j);
      SlotCounts(t[i - 1], fd);
      CountConcat(ScanEvents(t, candidate, i - 1), SlotEvents(t[i - 1]), Served(fd));
      CountConcat(ScanEvents(t, candidate, i - 1), SlotEvents(t[i - 1]), Closed(fd));
      assert t[i - 1].fd == fd ==> i - 1 == j;
    }
  }

  /**
   A turn reads every client that poll reports as readable, once, and closes it right after;
   it closes every client for which anything is reported, once, and frees its slot; it does
   nothing to any other client.
   */
  lemma TurnServes(t: Table, round: Round, listening: int, j: nat)
    requires Reported(t, round, listening) && 1 <= j < SOCKET_MAX_POLL && t[j].fd != FREE
    ensures var fd := t[j].fd; var report := round.reported[j]; var events := TurnEvents(t, round);
            && Count(events, Served(fd)) == (if report.pollin then 1 else 0)
            && Count(events, Closed(fd)) == (if report.pollin || report.other then 1 else 0)
            && (report.pollin ==> ServedThenClosed(events, fd))
    ensures TurnTable(t, round)[j].fd
            == if round.reported[j].pollin || round.reported[j].other then FREE else t[j].fd
  {
    var u := Polled(t, round.reported);
    assert forall i :: 0 <= i < SOCKET_MAX_POLL ==> u[i].fd == t[i].fd;
    assert u[j].revents == round.reported[j];
    ScanCounts(u, round.candidate, SOCKET_MAX_POLL, j);
    if round.reported[j].pollin {
      ScanServes(u, round.candidate, SOCKET_MAX_POLL, j);
    }
  }

  lemma {:induction false} ScanAccepts(t: Table, candidate: int, i: nat)
    requires 0 < i <= SOCKET_MAX_POLL
    ensures Accepted(candidate) in ScanEvents(t, candidate, i) <==> Accepts(t, candidate)
  {
    if i > 1 {
      ScanAccepts(t, candidate, i - 1);
    }
  }

  /**
   A turn accepts exactly if the listening socket is readable, a slot is free and the kernel
   has a descriptor to give; the new socket then stands in a client slot.
   */
  lemma TurnAccepts(t: Table, round: Round, listening: int)
    requires Reported(t, round, listening)
    ensures Accepted(round.candidate) in TurnEvents(t, round)
            <==> && round.reported[0].pollin && (exists i :: 0 <= i < |t| && t[i].fd == FREE)
                 && round.candidate >= 0 && (forall i :: 0 <= i < |t| ==> t[i].fd != round.candidate)
    ensures Accepted(round.candidate) in TurnEvents(t, round) ==> round.candidate in ClientFds(TurnTable(t, round))
  {
    var u := Polled(t, round.reported);
    assert forall i :: 0 <= i < SOCKET_MAX_POLL ==> u[i].fd == t[i].fd;
    OccupiedSameFds(t, u);
    FreeWhenNotFull(u);
    ScanAccepts(u, round.candidate, SOCKET_MAX_POLL);
    if Accepts(u, round.candidate) {
      NewSocketKept(u, round.candidate);
      assert TurnTable(t, round)[Find(u, FREE)].fd == round.candidate;
    }
  }

  /** Turn n of a run: its events stand behind those before it, and the table is still in order. */
  lemma RunTurn(t: Table, rounds: seq<Round>, n: nat, log: seq<SocketEvent>, listening: int)
    requires InStep(t, log, listening) && n < |rounds|
    ensures WellFormed(RunTable(t, rounds[..n]), listening)
    ensures RunEvents(t, rounds[..n + 1]) == RunEvents(t, rounds[..n]) + TurnEvents(RunTable(t, rounds[..n]), rounds[n])
    ensures RunTable(t, rounds[..n + 1]) == TurnTable(RunTable(t, rounds[..n]), rounds[n])
  {
    RunKeepsStep(t, rounds[..n], log, listening);
    assert rounds[..n + 1][..n] == rounds[..n];
  }

  /** In every run, a client that poll reports as readable is read and then closed in that turn. */
  lemma RunServes(t: Table, rounds: seq<Round>, n: nat, j: nat, log: seq<SocketEvent>, listening: int)
    requires InStep(t, log, listening) && n < |rounds|
    requires rounds[n].ready > 0 && |rounds[n].reported| == SOCKET_MAX_POLL
    requires 1 <= j < SOCKET_MAX_POLL && rounds[n].reported[j].pollin && RunTable(t, rounds[..n])[j].fd != FREE
    ensures var fd := RunTable(t, rounds[..n])[j].fd; var before := RunEvents(t, rounds[..n]);
            && before <= RunEvents(t, rounds[..n + 1])
            && ServedThenClosed(RunEvents(t, rounds[..n + 1])[|before|..], fd)
            && Count(RunEvents(t, rounds[..n + 1])[|before|..], Served(fd)) == 1
  {
    RunTurn(t, rounds, n, log, listening);
    TurnServes(RunTable(t, rounds[..n]), rounds[n], listening, j);
    var before := RunEvents(t, rounds[..n]);
    assert RunEvents(t, rounds[..n + 1])[|before|..] == TurnEvents(RunTable(t, rounds[..n]), rounds[n]);
  }

  // The loop itself.

  class SocketLoop {
    const pfds: array<Slot>
    const listening: int
    var nfds: int
    ghost var log: seq<SocketEvent>

    predicate Counted()
      reads this, pfds
    {
      pfds.Length == SOCKET_MAX_POLL && nfds == Occupied(pfds[..])
    }

    /** What holds at every loop head. */
    ghost predicate Valid()
      reads this, pfds
    {
      Counted() && InStep(pfds[..], log, listening)
    }

    /** poll_init, then the first poll_push. */
    constructor (sockHandle: int)
      requires sockHandle >= 0
      ensures Valid() && fresh(pfds) && listening == sockHandle && log == []
      ensures pfds[0].fd == sockHandle && forall i :: 1 <= i < pfds.Length ==> pfds[i].fd == FREE
    {
      pfds := new Slot[SOCKET_MAX_POLL](i => Slot(FREE, NONE));
      listening := sockHandle;
      nfds := 0;
      log := [];
      new;
      AllFree(pfds[..]);
      Push(sockHandle);
      assert ClientFds(pfds[..]) == {};
    }

    static lemma {:induction false} AllFree(t: seq<Slot>)
      requires forall i :: 0 <= i < |t| ==> t[i].fd == FREE
      ensures Occupied(t) == 0
    {
      if t != [] {
        AllFree(t[1..]);
      }
    }

    /** poll_push: the first free slot, unless the table is full. The count stays right unless fd is -1. */
    method Push(fd: int)
      requires Counted()
      modifies this`nfds, pfds
      ensures Counted() <==> fd != FREE || old(nfds) >= SOCKET_MAX_POLL
      ensures nfds == if old(nfds) < SOCKET_MAX_POLL then old(nfds) + 1 else old(nfds)
      ensures old(nfds) >= SOCKET_MAX_POLL ==> pfds[..] == old(pfds[..])
      ensures old(nfds) < SOCKET_MAX_POLL ==>
                && Find(old(pfds[..]), FREE) < SOCKET_MAX_POLL
                && pfds[..] == old(pfds[..])[Find(old(pfds[..]), FREE) := Slot(fd, NONE)]
    {
      if nfds >= SOCKET_MAX_POLL {
        return;
      }
      FreeWhenNotFull(pfds[..]);
      var i := 0;
      while i < SOCKET_MAX_POLL && pfds[i].fd != FREE
        invariant 0 <= i <= Find(pfds[..], FREE)
      {
        i := i + 1;
      }
      if i < SOCKET_MAX_POLL {
        OccupiedUpdate(pfds[..], i, Slot(fd, NONE));
        pfds[i] := Slot(fd, NONE);
        nfds := nfds + 1;
      }
    }

    /** poll_pop: the first slot that holds fd is freed. The count goes wrong exactly if a free slot is popped. */
    method Pop(fd: int)
      requires Counted()
      modifies this`nfds, pfds
      ensures Counted() <==> fd != FREE || Find(old(pfds[..]), FREE) == SOCKET_MAX_POLL
      ensures nfds == if Find(old(pfds[..]), fd) < SOCKET_MAX_POLL then old(nfds) - 1 else old(nfds)
      ensures var k := Find(old(pfds[..]), fd);
              pfds[..] == if k < SOCKET_MAX_POLL then old(pfds[..])[k := old(pfds[..])[k].(fd := FREE)]
                          else old(pfds[..])
    {
      var i := 0;
      while i < SOCKET_MAX_POLL && pfds[i].fd != fd
        invariant 0 <= i <= Find(pfds[..], fd)
      {
        i := i + 1;
      }
      if i < SOCKET_MAX_POLL {
        OccupiedUpdate(pfds[..], i, pfds[i].(fd := FREE));
        pfds[i] := pfds[i].(fd := FREE);
        nfds := nfds - 1;
      }
    }

    /** The kernel's part of poll: it writes revents in every slot. */
    method Poll(reported: seq<Events>)
      requires Counted()
      modifies pfds
      ensures Counted() && pfds[..] == Polled(old(pfds[..]), reported)
    {
      ghost var was := pfds[..];
      for i := 0 to SOCKET_MAX_POLL
        invariant pfds[..i] == Polled(was, reported)[..i] && pfds[i..] == was[i..]
      {
        assert pfds[i] == was[i];
        pfds[i] := pfds[i].(revents := if pfds[i].fd < 0 || i >= |reported| then NONE else reported[i]);
      }
      OccupiedSameFds(was, pfds[..]);
    }

    method Accept(candidate: int) returns (fd: int)
      requires Counted()
      ensures fd == if AcceptGives(pfds[..], candidate) then candidate else -1
    {
      fd := candidate;
      for i := 0 to SOCKET_MAX_POLL
        invariant fd == candidate && i <= Find(pfds[..], candidate)
      {
        if pfds[i].fd == candidate {
          return -1;
        }
      }
      if fd < 0 {
        return -1;
      }
    }

    /** The body of the scan for one slot. */
    method ScanSlot(i: nat, candidate: int)
      requires Counted() && i < SOCKET_MAX_POLL && Distinct(pfds[..])
      requires pfds[i].revents != NONE ==> pfds[i].fd != FREE
      modifies this`nfds, this`log, pfds
      ensures Counted()
      ensures i == 0 ==> pfds[..] == AfterAccept(old(pfds[..]), candidate)
      ensures i == 0 ==> log == old(log) + ScanEvents(old(pfds[..]), candidate, 1)
      ensures i > 0 ==> pfds[..] == old(pfds[..])[i := GivenUp(old(pfds[i]))]
      ensures i > 0 ==> log == old(log) + SlotEvents(old(pfds[i]))
    {
      if pfds[i].revents == NONE {
        return;
      }
      if pfds[i].revents.pollin {
        if i == 0 {
          if nfds >= SOCKET_MAX_POLL {
            return;
          }
          FreeWhenNotFull(pfds[..]);
          var newSocket := Accept(candidate);
          if newSocket >= 0 {
            log := log + [Accepted(newSocket)];
            Push(newSocket);
          }
        } else {
          log := log + [Served(pfds[i].fd), Closed(pfds[i].fd)];
          Pop(pfds[i].fd);
        }
      } else if i != 0 {
        log := log + [Closed(pfds[i].fd)];
        Pop(pfds[i].fd);
      }
    }

    /** The for loop over the slots after a successful poll. */
    method Scan(candidate: int)
      requires Valid() && FreeIsQuiet(pfds[..])
      modifies this`nfds, this`log, pfds
      ensures Valid()
      ensures pfds[..] == Scanned(old(pfds[..]), candidate, SOCKET_MAX_POLL)
      ensures log == old(log) + ScanEvents(old(pfds[..]), candidate, SOCKET_MAX_POLL)
    {
      ghost var t: Table, before := pfds[..], log;
      for i := 0 to SOCKET_MAX_POLL
        invariant Counted() && pfds[..] == Scanned(t, candidate, i)
        invariant log == before + ScanEvents(t, candidate, i)
      {
        ScanKeepsStep(t, candidate, i, before, listening);
        if i > 0 {
          ScannedNext(t, candidate, i);
          ScanEventsNext(t, candidate, i, before);
        }
        assert pfds[i] == Scanned(t, candidate, i)[i];
        ScanSlot(i, candidate);
        assert i == 0 ==> pfds[..] == Scanned(t, candidate, 1);
      }
      ScanKeepsStep(t, candidate, SOCKET_MAX_POLL, before, listening);
    }

    /** One turn of the while loop. */
    method Turn(round: Round)
      requires Valid()
      modifies this`nfds, this`log, pfds
      ensures Valid()
      ensures pfds[..] == TurnTable(old(pfds[..]), round) && log == old(log) + TurnEvents(old(pfds[..]), round)
    {
      if round.ready > 0 {
        PolledKeepsStep(pfds[..], round.reported, log, listening);
        Poll(round.reported);
        Scan(round.candidate);
      }
    }

    /** socket_loop for any finite number of turns. */
    method Run(rounds: seq<Round>)
      requires Valid()
      modifies this`nfds, this`log, pfds
      ensures Valid()
      ensures pfds[..] == RunTable(old(pfds[..]), rounds)
      ensures log == old(log) + RunEvents(old(pfds[..]), rounds)
    {
      ghost var t: Table, before := pfds[..], log;
      for k := 0 to |rounds|
        invariant Valid()
        invariant pfds[..] == RunTable(t, rounds[..k]) && log == before + RunEvents(t, rounds[..k])
      {
        assert rounds[..k + 1][..k] == rounds[..k];
        RunEventsNext(t, rounds[..k + 1], before);
        Turn(rounds[k]);
      }
      assert rounds[..|rounds|] == rounds;
    }
  }
}
