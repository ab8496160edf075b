/**
 Request assembly (src/server/http_parser.c) and the read loop of socket_read. The llhttp
 library is a source of url fragments, body fragments and message ends for each read.
 */
module HttpParser {
  import opened CStrings
  import opened Sequences

  const HTTP_REQUEST_URL_BUFFER_SIZE: nat := 256
  const HTTP_REQUEST_BODY_BUFFER_SIZE: nat := 1024
  const MAX_URL: nat := HTTP_REQUEST_URL_BUFFER_SIZE - 1
  const MAX_BODY: nat := HTTP_REQUEST_BODY_BUFFER_SIZE

  datatype ParseEvent = UrlPart(at: string) | BodyPart(at: string) | MessageComplete

  const SOCKET_MAX_READ_BUFFER: nat := 1024

  /** What one recv brings: its bytes, the parser's method field after them, and the callbacks they cause. */
  datatype Chunk = Chunk(bytes: string, verb: int, events: seq<ParseEvent>)

  datatype Request = Request(verb: int, url: string, body: string)

  // One buffer.

  function Concat(parts: seq<string>): string {
    if parts == [] then "" else parts[0] + Concat(parts[1..])
  }

  /** The text after appending parts up to the first that does not fit, and whether all fitted. */
  function Assemble(text: string, parts: seq<string>, limit: nat): (string, bool)
    decreases |parts|
  {
    if parts == [] then (text, true)
    else if |text| + |parts[0]| > limit then (text, false)
    else Assemble(text + CString(parts[0]), parts[1..], limit)
  }

  predicate NulFree(parts: seq<string>) {
    forall i :: 0 <= i < |parts| ==> NUL !in parts[i]
  }

  lemma NulFreeCString(s: string)
    requires NUL !in s
    ensures CString(s) == s
  {
    CStringUnique(s, s);
  }

  /** Fragment k is the first that does not fit, and the buffer holds those before it. */
  predicate Stops(text: string, parts: seq<string>, limit: nat, k: nat) {
    && k < |parts| && Assemble(text, parts, limit).0 == text + Concat(parts[..k])
    && |text| + |Concat(parts[..k])| <= limit < |text| + |Concat(parts[..k])| + |parts[k]|
  }

  /** However the text is cut into fragments, appending gives the whole text exactly if the total fits. */
  lemma {:induction false} AssemblyOfWhole(text: string, parts: seq<string>, limit: nat)
    requires NulFree(parts) && |text| <= limit
    ensures Assemble(text, parts, limit).1 <==> |text| + |Concat(parts)| <= limit
    ensures Assemble(text, parts, limit).1 ==> Assemble(text, parts, limit).0 == text + Concat(parts)
    decreases |parts|
  {
    if parts == [] {
      Associates(text, "", "");
    } else if |text| + |parts[0]| <= limit {
      NulFreeCString(parts[0]);
      AssemblyOfWhole(text + parts[0], parts[1..], limit);
      Associates(text, parts[0], Concat(parts[1..]));
    }
  }

  /** If the total does not fit, one fragment is rejected and the fragments before it stay as they are. */
  lemma {:induction false} AssemblyStops(text: string, parts: seq<string>, limit: nat)
    requires NulFree(parts) && |text| <= limit < |text| + |Concat(parts)|
    ensures exists k :: Stops(text, parts, limit, k)
    decreases |parts|
  {
    NulFreeCString(parts[0]);
    if |text| + |parts[0]| > limit {
      assert parts[..0] == [] && text + Concat(parts[..0]) == text;
      assert Stops(text, parts, limit, 0);
    } else {
      AssemblyStops(text + parts[0], parts[1..], limit);
      var k: nat :| Stops(text + parts[0], parts[1..], limit, k);
      assert parts[..k + 1][1..] == parts[1..][..k];
      Associates(text, parts[0], Concat(parts[1..][..k]));
      assert Stops(text, parts, limit, k + 1);
    }
  }

  /** Two fragmentations of one text give the same verdict and, if it fits, the same buffer. */
  lemma FragmentationIrrelevant(a: seq<string>, b: seq<string>, limit: nat)
    requires NulFree(a) && NulFree(b) && Concat(a) == Concat(b)
    ensures Assemble("", a, limit).1 == Assemble("", b, limit).1
    ensures Assemble("", a, limit).1 ==> Assemble("", a, limit).0 == Assemble("", b, limit).0
  {
    AssemblyOfWhole("", a, limit);
    AssemblyOfWhole("", b, limit);
  }

  /** When all fragments fit, the buffer holds their concatenation exactly if none has a NUL. */
  lemma {:induction false} ExactWithoutNul(text: string, parts: seq<string>, limit: nat)
    requires NUL !in text && |text| <= limit && Assemble(text, parts, limit).1
    ensures Assemble(text, parts, limit).0 == text + Concat(parts) <==> NulFree(parts)
  {
    if NulFree(parts) {
      AssemblyOfWhole(text, parts, limit);
    } else {
      AssemblyHasNoNul(text, parts, limit);
      NulStays(parts);
    }
  }

  lemma {:induction false} AssemblyHasNoNul(text: string, parts: seq<string>, limit: nat)
    requires NUL !in text
    ensures NUL !in Assemble(text, parts, limit).0
    decreases |parts|
  {
    if parts != [] && |text| + |parts[0]| <= limit {
      AssemblyHasNoNul(text + CString(parts[0]), parts[1..], limit);
    }
  }

  lemma {:induction false} NulStays(parts: seq<string>)
    requires !NulFree(parts)
    ensures NUL in Concat(parts)
  {
    if NUL !in parts[0] {
      assert !NulFree(parts[1..]) by {
        var i :| 0 <= i < |parts| && NUL in parts[i];
        assert parts[1..][i - 1] == parts[i];
      }
      NulStays(parts[1..]);
    }
  }

  // The parser as a value.

  datatype State = State(url: string, body: string, complete: bool, failed: bool)

  const FRESH: State := State("", "", false, false)

  /** One callback; a rejected fragment puts llhttp in an error state that it never leaves. */
  function OnEvent(p: State, e: ParseEvent): State {
    if p.failed then p
    else
      match e
      case UrlPart(at) =>
        if |p.url| + |at| > MAX_URL then p.(failed := true) else p.(url := p.url + CString(at))
      case BodyPart(at) =>
        if |p.body| + |at| > MAX_BODY then p.(failed := true) else p.(body := p.body + CString(at))
      case MessageComplete => p.(complete := true)
  }

  function OnEvents(p: State, events: seq<ParseEvent>): State {
    if events == [] then p else OnEvent(OnEvents(p, events[..|events| - 1]), events[|events| - 1])
  }

  /** One turn of socket_read's loop: parse; if a message is complete, dispatch it and reset. */
  function AfterRead(p: State, r: Chunk): State {
    var q := OnEvents(p, r.events);
    if !q.failed && q.complete then FRESH else q
  }

  function Dispatched(p: State, r: Chunk): seq<Request> {
    var q := OnEvents(p, r.events);
    if !q.failed && q.complete then [Request(r.verb, q.url, q.body)] else []
  }

  function AfterReads(p: State, chunks: seq<Chunk>): State {
    if chunks == [] then p else AfterRead(AfterReads(p, chunks[..|chunks| - 1]), chunks[|chunks| - 1])
  }

  function AllDispatched(p: State, chunks: seq<Chunk>): seq<Request> {
    if chunks == [] then []
    else
      AllDispatched(p, chunks[..|chunks| - 1])
      + Dispatched(AfterReads(p, chunks[..|chunks| - 1]), chunks[|chunks| - 1])
  }

  // What a client sends.

  function UrlOf(events: seq<ParseEvent>): string {
    if events == [] then ""
    else
      var e := events[|events| - 1];
      UrlOf(events[..|events| - 1]) + (if e.UrlPart? then e.at else "")
  }

  function BodyOf(events: seq<ParseEvent>): string {
    if events == [] then ""
    else
      var e := events[|events| - 1];
      BodyOf(events[..|events| - 1]) + (if e.BodyPart? then e.at else "")
  }

  /** Fragments only, without NUL bytes. */
  predicate Parts(events: seq<ParseEvent>) {
    forall i :: 0 <= i < |events| ==> !events[i].MessageComplete? && NUL !in events[i].at
  }

  function EventsOf(chunks: seq<Chunk>): seq<ParseEvent> {
    if chunks == [] then [] else EventsOf(chunks[..|chunks| - 1]) + chunks[|chunks| - 1].events
  }

  /** The chunks carry one request, in any fragments, and it ends where the last chunk ends. */
  predicate Carries(chunks: seq<Chunk>, r: Request) {
    && chunks != []
    && var last := chunks[|chunks| - 1];
    && last.verb == r.verb
    && last.events != [] && last.events[|last.events| - 1] == MessageComplete
    && var parts := EventsOf(chunks[..|chunks| - 1]) + last.events[..|last.events| - 1];
    && Parts(parts) && UrlOf(parts) == r.url && BodyOf(parts) == r.body
  }

  predicate FitsBuffers(r: Request) {
    |r.url| <= MAX_URL && |r.body| <= MAX_BODY
  }

  predicate AllFit(requests: seq<Request>) {
    forall i :: 0 <= i < |requests| ==> FitsBuffers(requests[i])
  }

  /** `n` is where the first request stands that does not fit. */
  predicate FirstOversize(requests: seq<Request>, n: nat) {
    n < |requests| && AllFit(requests[..n]) && !FitsBuffers(requests[n])
  }

  /** The i-th group of chunks carries the i-th request. */
  predicate CarryAll(groups: seq<seq<Chunk>>, requests: seq<Request>) {
    && |groups| == |requests|
    && (groups == [] ||
        (&& CarryAll(groups[..|groups| - 1], requests[..|requests| - 1])
         && Carries(groups[|groups| - 1], requests[|requests| - 1])))
  }

  function Flatten(groups: seq<seq<Chunk>>): seq<Chunk> {
    if groups == [] then [] else Flatten(groups[..|groups| - 1]) + groups[|groups| - 1]
  }

  lemma {:induction false} EventsConcat(p: State, a: seq<ParseEvent>, b: seq<ParseEvent>)
    ensures OnEvents(p, a + b) == OnEvents(OnEvents(p, a), b)
  {
    if b == [] {
      assert a + b == a;
    } else {
      EventsConcat(p, a, b[..|b| - 1]);
      assert (a + b)[..|a + b| - 1] == a + b[..|b| - 1];
    }
  }

  lemma ReadsNext(p: State, chunks: seq<Chunk>)
    requires chunks != []
    ensures var q := AfterReads(p, chunks[..|chunks| - 1]);
            && AfterReads(p, chunks) == AfterRead(q, chunks[|chunks| - 1])
            && AllDispatched(p, chunks)
               == AllDispatched(p, chunks[..|chunks| - 1]) + Dispatched(q, chunks[|chunks| - 1])
  {
  }

  lemma {:induction false} ReadsConcat(p: State, a: seq<Chunk>, b: seq<Chunk>)
    ensures AfterReads(p, a + b) == AfterReads(AfterReads(p, a), b)
    ensures AllDispatched(p, a + b) == AllDispatched(p, a) + AllDispatched(AfterReads(p, a), b)
  {
    if b == [] {
      assert a + b == a;
    } else {
      var init, last := b[..|b| - 1], b[|b| - 1];
      ReadsConcat(p, a, init);
      assert (a + b)[..|a + b| - 1] == a + init;
      ReadsNext(p, a + b);
      ReadsNext(AfterReads(p, a), b);
      Associates(AllDispatched(p, a), AllDispatched(AfterReads(p, a), init), Dispatched(AfterReads(p, a + init), last));
    }
  }

  /** Fragments that fit in total leave exactly their concatenations in the two buffers. */
  lemma {:induction false} PartsAssemble(events: seq<ParseEvent>)
    requires Parts(events) && |UrlOf(events)| <= MAX_URL && |BodyOf(events)| <= MAX_BODY
    ensures OnEvents(FRESH, events) == State(UrlOf(events), BodyOf(events), false, false)
  {
    if events != [] {
      var e := events[|events| - 1];
      PartsAssemble(events[..|events| - 1]);
      NulFreeCString(e.at);
    }
  }

  /** Text without NULs is rejected exactly if the url or the body does not fit in total. */
  lemma {:induction false} PartsFail(events: seq<ParseEvent>)
    requires Parts(events)
    ensures OnEvents(FRESH, events).failed <==> |UrlOf(events)| > MAX_URL || |BodyOf(events)| > MAX_BODY
    ensures !OnEvents(FRESH, events).complete
  {
    if events != [] {
      var init := events[..|events| - 1];
      PartsFail(init);
      if !OnEvents(FRESH, init).failed {
        PartsAssemble(init);
      }
    }
  }

  lemma PartsPrefix(a: seq<ParseEvent>, b: seq<ParseEvent>)
    requires Parts(a + b)
    ensures Parts(a) && Parts(b)
    ensures |UrlOf(a)| <= |UrlOf(a + b)| && |BodyOf(a)| <= |BodyOf(a + b)|
  {
    if b == [] {
      assert a + b == a;
    } else {
      assert (a + b)[..|a + b| - 1] == a + b[..|b| - 1];
      PartsPrefix(a, b[..|b| - 1]);
      assert (a + b)[|a + b| - 1] == b[|b| - 1];
    }
  }

  /** While no message is complete, chunks only accumulate. */
  lemma {:induction false} ReadsAccumulate(chunks: seq<Chunk>)
    requires Parts(EventsOf(chunks))
    ensures AfterReads(FRESH, chunks) == OnEvents(FRESH, EventsOf(chunks))
    ensures AllDispatched(FRESH, chunks) == []
  {
    PartsFail(EventsOf(chunks));
    if chunks != [] {
      var init, last := chunks[..|chunks| - 1], chunks[|chunks| - 1];
      PartsPrefix(EventsOf(init), last.events);
      ReadsAccumulate(init);
      EventsConcat(FRESH, EventsOf(init), last.events);
    }
  }

  lemma OneRequest(chunks: seq<Chunk>, r: Request)
    requires Carries(chunks, r)
    ensures FitsBuffers(r) ==> AllDispatched(FRESH, chunks) == [r] && AfterReads(FRESH, chunks) == FRESH
    ensures !FitsBuffers(r) ==> AllDispatched(FRESH, chunks) == [] && AfterReads(FRESH, chunks).failed
  {
    var init, last := chunks[..|chunks| - 1], chunks[|chunks| - 1];
    var tail := last.events[..|last.events| - 1];
    var parts := EventsOf(init) + tail;
    PartsPrefix(EventsOf(init), tail);
    ReadsAccumulate(init);
    EventsConcat(FRESH, EventsOf(init), tail);
    if FitsBuffers(r) {
      PartsAssemble(parts);
    } else {
      PartsFail(parts);
    }
  }

  /** From parser state p, the chunks have dispatched exactly these requests and left a fresh parser. */
  predicate Delivered(p: State, chunks: seq<Chunk>, requests: seq<Request>) {
    AllDispatched(p, chunks) == requests && AfterReads(p, chunks) == FRESH
  }

  lemma OneMoreRequest(p: State, sent: seq<Chunk>, requests: seq<Request>, group: seq<Chunk>, r: Request)
    requires Delivered(p, sent, requests) && Carries(group, r) && FitsBuffers(r)
    ensures Delivered(p, sent + group, requests + [r])
  {
    OneRequest(group, r);
    ReadsConcat(p, sent, group);
  }

  /** Requests that fit are dispatched one by one; nothing is carried over from one to the next. */
  lemma {:induction false} FittingRequests(p: State, groups: seq<seq<Chunk>>, requests: seq<Request>)
    requires p == FRESH && CarryAll(groups, requests) && AllFit(requests)
    ensures Delivered(p, Flatten(groups), requests)
  {
    if groups != [] {
      var k := |groups| - 1;
      var sent := Flatten(groups[..k]);
      FittingRequests(p, groups[..k], requests[..k]);
      OneMoreRequest(p, sent, requests[..k], groups[k], requests[k]);
      assert Flatten(groups) == sent + groups[k];
      assert requests == requests[..k] + [requests[k]];
    }
  }

  /** Once a request does not fit, neither it nor any later one is dispatched. */
  lemma {:induction false} NothingBehind(p: State, groups: seq<seq<Chunk>>, requests: seq<Request>, n: nat)
    requires p == FRESH && CarryAll(groups, requests) && FirstOversize(requests, n)
    ensures AllDispatched(p, Flatten(groups)) == requests[..n] && AfterReads(p, Flatten(groups)).failed
  {
    var k := |groups| - 1;
    var sent := Flatten(groups[..k]);
    assert requests[..k][..n] == requests[..n];
    ReadsConcat(p, sent, groups[k]);
    if n == k {
      FittingRequests(p, groups[..k], requests[..k]);
      OneRequest(groups[k], requests[k]);
    } else {
      NothingBehind(p, groups[..k], requests[..k], n);
      FailureIsFinal(AfterReads(p, sent), groups[k]);
    }
  }

  /**
   Requests that each end at a read boundary: the router gets exactly those before the first
   that does not fit its buffers, as they were sent and in order; so it gets all of them
   exactly if all fit, and then the parser is as fresh as before.
   */
  lemma SequenceOfRequests(p: State, groups: seq<seq<Chunk>>, requests: seq<Request>)
    requires p == FRESH && CarryAll(groups, requests)
    ensures AllFit(requests) <==> AllDispatched(p, Flatten(groups)) == requests
    ensures AllFit(requests) <==> AfterReads(p, Flatten(groups)) == FRESH
    ensures !AllFit(requests) ==>
              exists n: nat :: FirstOversize(requests, n) && AllDispatched(p, Flatten(groups)) == requests[..n]
  {
    if AllFit(requests) {
      FittingRequests(p, groups, requests);
    } else {
      var n := FindOversize(requests);
      NothingBehind(p, groups, requests, n);
    }
  }

  lemma {:induction false} FindOversize(requests: seq<Request>) returns (n: nat)
    requires !AllFit(requests)
    ensures FirstOversize(requests, n)
  {
    var k := |requests| - 1;
    if AllFit(requests[..k]) {
      n := k;
      assert forall i :: 0 <= i < k ==> requests[i] == requests[..k][i];
    } else {
      n := FindOversize(requests[..k]);
      assert requests[..k][..n] == requests[..n];
    }
  }

  // The read buffer.

  /** recv fills at most the buffer, and returns no empty read to the loop. */
  predicate Received(chunks: seq<Chunk>) {
    forall i :: 0 <= i < |chunks| ==> 0 < |chunks[i].bytes| <= SOCKET_MAX_READ_BUFFER
  }

  /** A read that fills the buffer leaves no room for the NUL that is written behind it. */
  predicate FillsBuffer(chunk: Chunk) {
    |chunk.bytes| == SOCKET_MAX_READ_BUFFER
  }

  predicate NoneFills(chunks: seq<Chunk>) {
    forall i :: 0 <= i < |chunks| ==> !FillsBuffer(chunks[i])
  }

  lemma ReadsSnoc(p: State, chunks: seq<Chunk>, chunk: Chunk)
    ensures AfterReads(p, chunks + [chunk]) == AfterRead(AfterReads(p, chunks), chunk)
    ensures AllDispatched(p, chunks + [chunk]) == AllDispatched(p, chunks) + Dispatched(AfterReads(p, chunks), chunk)
  {
    assert (chunks + [chunk])[..|chunks + [chunk]| - 1] == chunks;
  }

  lemma OneMoreRead(p: State, chunks: seq<Chunk>, k: nat)
    requires k < |chunks| && NoneFills(chunks[..k]) && !FillsBuffer(chunks[k])
    ensures NoneFills(chunks[..k + 1])
    ensures AfterReads(p, chunks[..k + 1]) == AfterRead(AfterReads(p, chunks[..k]), chunks[k])
    ensures AllDispatched(p, chunks[..k + 1])
            == AllDispatched(p, chunks[..k]) + Dispatched(AfterReads(p, chunks[..k]), chunks[k])
  {
    ReadsSnoc(p, chunks[..k], chunks[k]);
    assert chunks[..k + 1] == chunks[..k] + [chunks[k]];
  }

  lemma WholeMessage(r: Request, chunk: Chunk)
    requires NUL !in r.url && NUL !in r.body && chunk.verb == r.verb
    requires chunk.events == [UrlPart(r.url), BodyPart(r.body), MessageComplete]
    ensures Carries([chunk], r)
  {
    var url, text := UrlPart(r.url), BodyPart(r.body);
    var parts := [url, text];
    assert chunk.events[..2] == parts && parts[..1] == [url] && [url][..0] == [];
    assert [chunk][..0] == [] && EventsOf([]) == [] && EventsOf([]) + parts == parts;
    assert UrlOf([]) == "" && BodyOf([]) == "";
    assert UrlOf([url]) == r.url && BodyOf([url]) == "";
    assert UrlOf(parts) == r.url && BodyOf(parts) == r.body;
    assert Parts(parts);
  }

  /** A request that fits both buffers and comes in one read of 1024 bytes: the NUL does not fit. */
  lemma FullReadOverruns(head: string, r: Request, chunk: Chunk)
    requires |r.url| == 22 && |r.body| == 900 && |head| == 124 && NUL !in r.url && NUL !in r.body
    requires chunk == Chunk(head + r.body, r.verb, [UrlPart(r.url), BodyPart(r.body), MessageComplete])
    ensures FitsBuffers(r) && Carries([chunk], r) && Received([chunk]) && !NoneFills([chunk])
  {
    WholeMessage(r, chunk);
    assert FillsBuffer([chunk][0]);
  }

  /** After a rejected fragment the parser dispatches nothing any more. */
  lemma {:induction false} FailureIsFinal(p: State, chunks: seq<Chunk>)
    requires p.failed
    ensures AfterReads(p, chunks) == p && AllDispatched(p, chunks) == []
  {
    if chunks != [] {
      FailureIsFinal(p, chunks[..|chunks| - 1]);
      FailedEvents(p, chunks[|chunks| - 1].events);
    }
  }

  lemma {:induction false} FailedEvents(p: State, events: seq<ParseEvent>)
    requires p.failed
    ensures OnEvents(p, events) == p
  {
    if events != [] {
      FailedEvents(p, events[..|events| - 1]);
    }
  }

  // The parser with its buffers.

  const HPE_OK: int := 0

  /** HttpRequest together with llhttp's error state. */
  class Parser {
    const url: array<char>
    const body: array<char>
    var complete: bool
    var failed: bool

    ghost predicate Valid()
      reads this, url, body
    {
      && url != body
      && url.Length == HTTP_REQUEST_URL_BUFFER_SIZE + 1 && body.Length == HTTP_REQUEST_BODY_BUFFER_SIZE + 1
      && |CString(url[..])| <= MAX_URL && |CString(body[..])| <= MAX_BODY
    }

    ghost function View(): State
      reads this, url, body
    {
      State(CString(url[..]), CString(body[..]), complete, failed)
    }

    constructor ()
      ensures Valid() && fresh(url) && fresh(body) && View() == FRESH
    {
      url := new char[HTTP_REQUEST_URL_BUFFER_SIZE + 1];
      body := new char[HTTP_REQUEST_BODY_BUFFER_SIZE + 1];
      failed := false;
      complete := false;
      new;
      url[0], body[0] := NUL, NUL;
    }

    /** handle_on_url. */
    method OnUrl(at: string) returns (code: int)
      requires Valid()
      modifies url
      ensures Valid()
      ensures code == HPE_OK <==> old(|CString(url[..])|) + |at| <= MAX_URL
      ensures code == HPE_OK ==> CString(url[..]) == old(CString(url[..])) + CString(at)
      ensures code != HPE_OK ==> url[..] == old(url[..])
    {
      var len := Strlen(url);
      if |at| + len >= HTTP_REQUEST_URL_BUFFER_SIZE {
        return 1;
      }
      Append(url, len, at);
      return HPE_OK;
    }

    /** handle_on_body. */
    method OnBody(at: string) returns (code: int)
      requires Valid()
      modifies body
      ensures Valid()
      ensures code == HPE_OK <==> old(|CString(body[..])|) + |at| <= MAX_BODY
      ensures code == HPE_OK ==> CString(body[..]) == old(CString(body[..])) + CString(at)
      ensures code != HPE_OK ==> body[..] == old(body[..])
    {
      var len := Strlen(body);
      if |at| + len > HTTP_REQUEST_BODY_BUFFER_SIZE {
        return 1;
      }
      Append(body, len, at);
      return HPE_OK;
    }

    /** The url callbacks of one request, in order, until one fails. */
    method OnUrlParts(parts: seq<string>) returns (ok: bool)
      requires Valid()
      modifies url
      ensures Valid()
      ensures (CString(url[..]), ok) == Assemble(old(CString(url[..])), parts, MAX_URL)
    {
      ghost var text := CString(url[..]);
      for i := 0 to |parts|
        invariant Valid() && Assemble(text, parts, MAX_URL) == Assemble(CString(url[..]), parts[i..], MAX_URL)
      {
        assert parts[i..][1..] == parts[i + 1..];
        var code := OnUrl(parts[i]);
        if code != HPE_OK {
          return false;
        }
      }
      return true;
    }

    /** The body callbacks of one request, in order, until one fails. */
    method OnBodyParts(parts: seq<string>) returns (ok: bool)
      requires Valid()
      modifies body
      ensures Valid()
      ensures (CString(body[..]), ok) == Assemble(old(CString(body[..])), parts, MAX_BODY)
    {
      ghost var text := CString(body[..]);
      for i := 0 to |parts|
        invariant Valid() && Assemble(text, parts, MAX_BODY) == Assemble(CString(body[..]), parts[i..], MAX_BODY)
      {
        assert parts[i..][1..] == parts[i + 1..];
        var code := OnBody(parts[i]);
        if code != HPE_OK {
          return false;
        }
      }
      return true;
    }

    /** The strzcpy and the final NUL that both callbacks write. */
    static method Append(buffer: array<char>, len: nat, at: string)
      requires len == |CString(buffer[..])| && len + |at| < buffer.Length
      modifies buffer
      ensures CString(buffer[..]) == old(CString(buffer[..])) + CString(at)
    {
      ghost var was := CString(buffer[..]);
      StrZCpy(buffer, len, at, |at|);
      assert buffer[..len] == was;
      assert CString(buffer[len..]) == CString(at);
      ghost var now := buffer[..];
      buffer[len + |at|] := NUL;
      assert buffer[..] == now;
      assert now == buffer[..len] + buffer[len..];
      CStringConcat(was, buffer[len..]);
    }

    /** llhttp_execute over one read, calling back in order until a callback fails. */
    method Parse(events: seq<ParseEvent>) returns (ok: bool)
      requires Valid()
      modifies this`complete, this`failed, url, body
      ensures Valid() && View() == OnEvents(old(View()), events) && ok == !failed
    {
      ghost var p := View();
      for i := 0 to |events|
        invariant Valid() && View() == OnEvents(p, events[..i])
      {
        assert events[..i + 1][..i] == events[..i];
        if !failed {
          match events[i]
          case UrlPart(at) =>
            var code := OnUrl(at);
            failed := code != HPE_OK;
          case BodyPart(at) =>
            var code := OnBody(at);
            failed := code != HPE_OK;
          case MessageComplete =>
            complete := true;
        }
      }
      assert events[..|events|] == events;
      ok := !failed;
    }

    /** http_parser_reset_request: only the first byte of each buffer is cleared. */
    method Reset()
      requires Valid()
      modifies this`complete, url, body
      ensures Valid() && View() == State("", "", false, failed)
    {
      url[0] := NUL;
      body[0] := NUL;
      complete := false;
    }

    /** The body of socket_read's loop behind the recv and the NUL. */
    method Turn(chunk: Chunk) returns (requests: seq<Request>)
      requires Valid()
      modifies this`complete, this`failed, url, body
      ensures Valid() && View() == AfterRead(old(View()), chunk)
      ensures requests == Dispatched(old(View()), chunk)
    {
      requests := [];
      var ok := Parse(chunk.events);
      if ok && complete {
        var u := Text(url);
        var b := Text(body);
        requests := [Request(chunk.verb, u, b)];
        Reset();
      }
    }

    /**
     socket_read: the requests it hands to the router, in order. It writes a NUL behind each
     read; the model stops where that write would leave the buffer, which is at the first
     read that fills it and nowhere else.
     */
    method SocketRead(chunks: seq<Chunk>) returns (requests: seq<Request>, turns: nat)
      requires Valid() && Received(chunks)
      modifies this`complete, this`failed, url, body
      ensures Valid() && turns <= |chunks| && NoneFills(chunks[..turns])
      ensures turns < |chunks| ==> FillsBuffer(chunks[turns])
      ensures View() == AfterReads(old(View()), chunks[..turns])
      ensures requests == AllDispatched(old(View()), chunks[..turns])
    {
      ghost var p := View();
      requests, turns := [], 0;
      var buffer := new char[SOCKET_MAX_READ_BUFFER](i => NUL);
      assert chunks[..0] == [];
      while turns < |chunks|
        invariant fresh(buffer) && buffer.Length == SOCKET_MAX_READ_BUFFER && buffer != url && buffer != body
        invariant turns <= |chunks| && NoneFills(chunks[..turns])
        invariant Valid() && View() == AfterReads(p, chunks[..turns])
        invariant requests == AllDispatched(p, chunks[..turns])
      {
        var inside, dispatched := ReadTurn(buffer, chunks[turns]);
        if !inside {
          return;
        }
        OneMoreRead(p, chunks, turns);
        requests := requests + dispatched;
        turns := turns + 1;
      }
    }

    /** One turn of the loop: recv, the NUL if there is room for it, and the parser. */
    method ReadTurn(buffer: array<char>, chunk: Chunk) returns (inside: bool, requests: seq<Request>)
      requires Valid() && buffer != url && buffer != body && |chunk.bytes| <= buffer.Length
      modifies this`complete, this`failed, url, body, buffer
      ensures Valid() && (inside <==> |chunk.bytes| < buffer.Length)
      ensures inside ==> View() == AfterRead(old(View()), chunk) && requests == Dispatched(old(View()), chunk)
      ensures !inside ==> View() == old(View()) && requests == []
    {
      requests := [];
      inside := Recv(buffer, chunk.bytes);
      if inside {
        requests := Turn(chunk);
      }
    }

    /** recv, and the NUL behind what it read as long as that is inside the buffer. */
    static method Recv(buffer: array<char>, bytes: string) returns (inside: bool)
      requires |bytes| <= buffer.Length
      modifies buffer
      ensures inside <==> |bytes| < buffer.Length
      ensures buffer[..|bytes|] == bytes && (inside ==> buffer[|bytes|] == NUL)
    {
      for i := 0 to |bytes|
        invariant buffer[..i] == bytes[..i]
      {
        buffer[i] := bytes[i];
      }
      inside := |bytes| < buffer.Length;
      if inside {
        buffer[|bytes|] := NUL;
      }
    }

    /** What the router sees behind a char pointer. */
    static method Text(buffer: array<char>) returns (s: string)
      requires NUL in buffer[..]
      ensures s == CString(buffer[..])
    {
      var len := Strlen(buffer);
      s := buffer[..len];
    }
  }
}
