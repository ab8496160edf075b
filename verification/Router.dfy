/** The route table (src/server/router.c) and the way from a URL to a client id. */
module Router {
  import opened CStrings
  import opened Regex
  import opened Decimal
  import opened Entities
  import opened Machine

  const HTTP_GET: int := 1
  const HTTP_POST: int := 3
  const MAX_ROUTES: nat := 10

  datatype Handler = FindById | SaveTransacao | NoHandler

  datatype Route = NoRoute | Route(verb: int, url: Regex, handler: Handler)

  /** The bracket expression [a-zA-Z0-9\-]; a backslash stands for itself there. */
  predicate SegmentChar(c: char) {
    'a' <= c <= 'z' || 'A' <= c <= 'Z' || '0' <= c <= '9' || c == '\\' || c == '-'
  }

  const LOWER: string := "abcdefghijklmnopqrstuvwxyz"
  const UPPER: string := "ABCDEFGHIJKLMNOPQRSTUVWXYZ"

  /** A text that lists consecutive characters has exactly those in it. */
  lemma Consecutive(s: string, first: char, c: char)
    requires forall i :: 0 <= i < |s| ==> s[i] as int == first as int + i
    ensures c in s <==> first as int <= c as int < first as int + |s|
  {
    var i := c as int - first as int;
    if 0 <= i < |s| {
      assert s[i] == c;
    }
  }

  /** The 64 characters of the bracket expression: letters, digits, backslash and hyphen. */
  lemma SegmentChars(c: char)
    ensures SegmentChar(c) <==> c in LOWER || c in UPPER || c in "0123456789" || c in "\\-"
  {
    Consecutive(LOWER, 'a', c);
    Consecutive(UPPER, 'A', c);
    Consecutive("0123456789", '0', c);
  }

  const CLIENTES: string := "/clientes/"
  const EXTRATO: string := "/extrato"
  const TRANSACOES: string := "/transacoes"

  /** ^/clientes/([a-zA-Z0-9\-]*)suffix$ */
  function RouteUrl(suffix: string): Regex {
    Between(CLIENTES, c => SegmentChar(c), suffix)
  }

  /** The pattern /([0-9]*)/ with which the id is searched for. */
  function Param(): Regex {
    Between("/", c => IsDigit(c), "/")
  }

  const ROUTE_FIND_BY_ID: Route := Route(HTTP_GET, RouteUrl(EXTRATO), FindById)
  const ROUTE_TRANSACAO_SAVE: Route := Route(HTTP_POST, RouteUrl(TRANSACOES), SaveTransacao)

  // The route table.

  /** The routes before the first NULL. */
  function Registered(routes: seq<Route>): seq<Route> {
    if routes == [] || routes[0].NoRoute? then [] else [routes[0]] + Registered(routes[1..])
  }

  /** The handler of the first route that has the method and whose pattern matches the URL. */
  function FirstMatch(routes: seq<Route>, verb: int, url: string): Handler {
    if routes == [] || routes[0].NoRoute? then NoHandler
    else if routes[0].verb == verb && Matches(routes[0].url, url) then routes[0].handler
    else FirstMatch(routes[1..], verb, url)
  }

  lemma {:induction false} RegisteredIs(routes: seq<Route>, n: nat)
    requires n <= |routes| && (forall i :: 0 <= i < n ==> routes[i].Route?)
    requires n < |routes| ==> routes[n].NoRoute?
    ensures Registered(routes) == routes[..n]
  {
    if n > 0 {
      RegisteredIs(routes[1..], n - 1);
      assert routes[..n] == [routes[0]] + routes[1..][..n - 1];
    }
  }

  class RouteTable {
    const routes: array<Route>

    ghost function Len(): nat
      reads routes
    {
      |Registered(routes[..])|
    }

    /** The loops test the element before the bound, so one NULL must be left as a sentinel. */
    ghost predicate Valid()
      reads routes
    {
      && routes.Length == MAX_ROUTES && Len() < MAX_ROUTES
      && (forall i :: 0 <= i < Len() ==> routes[i].Route?)
      && (forall i :: Len() <= i < MAX_ROUTES ==> routes[i].NoRoute?)
    }

    constructor ()
      ensures Valid() && fresh(routes) && Registered(routes[..]) == []
    {
      routes := new Route[MAX_ROUTES](i => NoRoute);
    }

    /** router_routes_len. */
    method RoutesLen() returns (i: nat)
      requires Valid()
      ensures i == Len()
    {
      i := 0;
      while routes[i].Route? && i < MAX_ROUTES
        invariant i <= Len()
      {
        i := i + 1;
      }
    }

    /** router_add_route; the table keeps its sentinel unless nine routes were there already. */
    method AddRoute(route: Route) returns (added: bool)
      requires Valid() && route.Route?
      modifies routes
      ensures added && Registered(routes[..]) == old(Registered(routes[..])) + [route]
      ensures Valid() <==> old(Len()) < MAX_ROUTES - 1
    {
      var len := RoutesLen();
      if len < MAX_ROUTES {
        RegisteredIs(routes[..], len);
        routes[len] := route;
        RegisteredIs(routes[..], len + 1);
        assert routes[..len + 1] == old(routes[..len]) + [route];
        return true;
      }
      return false;
    }

    /** router_route: which controller function gets the request. */
    method Dispatch(verb: int, url: string) returns (handler: Handler)
      requires Valid()
      ensures handler == FirstMatch(Registered(routes[..]), verb, url)
    {
      ghost var all := Registered(routes[..]);
      RegisteredIs(routes[..], Len());
      var i := 0;
      while routes[i].Route? && i < MAX_ROUTES
        invariant i <= Len()
        invariant FirstMatch(all, verb, url) == FirstMatch(all[i..], verb, url)
      {
        assert all[i..][0] == routes[i] && all[i..][1..] == all[i + 1..];
        if routes[i].verb == verb && Matches(routes[i].url, url) {
          return routes[i].handler;
        }
        i := i + 1;
      }
      return NoHandler;
    }
  }

  const ROUTES: seq<Route> := [ROUTE_FIND_BY_ID, ROUTE_TRANSACAO_SAVE]

  lemma FirstOfTwo(a: Route, b: Route, verb: int, url: string)
    requires a.Route? && b.Route?
    ensures FirstMatch([a, b], verb, url)
            == if a.verb == verb && Matches(a.url, url) then a.handler
               else if b.verb == verb && Matches(b.url, url) then b.handler
               else NoHandler
  {
    assert [a, b][1..] == [b] && [b][1..] == [];
    assert FirstMatch([b], verb, url) == if b.verb == verb && Matches(b.url, url) then b.handler else NoHandler;
  }

  /** With the two routes of cliente_controller_init, method and URL decide as the patterns say. */
  lemma Routing(verb: int, url: string)
    ensures FirstMatch(ROUTES, verb, url) == FindById
            <==> verb == HTTP_GET && exists segment :: IsRouted(url, segment, EXTRATO)
    ensures FirstMatch(ROUTES, verb, url) == SaveTransacao
            <==> verb == HTTP_POST && exists segment :: IsRouted(url, segment, TRANSACOES)
  {
    FirstOfTwo(ROUTE_FIND_BY_ID, ROUTE_TRANSACAO_SAVE, verb, url);
    RouteMatches(url, EXTRATO);
    RouteMatches(url, TRANSACOES);
  }

  // From the URL to the id.

  predicate IsRouted(url: string, segment: string, suffix: string) {
    url == CLIENTES + segment + suffix && All(c => SegmentChar(c), segment)
  }

  lemma RouteMatches(url: string, suffix: string)
    ensures Matches(RouteUrl(suffix), url) <==> exists segment :: IsRouted(url, segment, suffix)
  {
    BetweenMatches(CLIENTES, c => SegmentChar(c), suffix, url);
    if IsBetween(CLIENTES, c => SegmentChar(c), suffix, url) {
      BetweenSplits(CLIENTES, c => SegmentChar(c), suffix, url);
      assert IsRouted(url, url[|CLIENTES|..|url| - |suffix|], suffix);
    }
    forall segment | IsRouted(url, segment, suffix)
      ensures IsBetween(CLIENTES, c => SegmentChar(c), suffix, url)
    {
      BetweenIs(CLIENTES, c => SegmentChar(c), suffix, segment);
    }
  }

  /** The number of digits between two slashes, the first of them at position `so`. */
  predicate ParamAt(url: string, so: nat, digits: string) {
    && so < |url| && url[so] == '/' && digits == DigitPrefix(url[so + 1..])
    && so + 1 + |digits| < |url| && url[so + 1 + |digits|] == '/'
  }

  const MAX_BUFFER_URL_PARAM: nat := 128

  /** What extract_url_param leaves in its buffer; Overrun if the copy would run past its end. */
  datatype UrlParam = Inside(text: string) | Overrun

  /** The digits of the first match, or the empty string. */
  function ExtractFrom(url: string, so: nat): string
    requires so <= |url|
    decreases |url| - so
  {
    if so == |url| then ""
    else
      var digits := DigitPrefix(url[so + 1..]);
      if ParamAt(url, so, digits) then digits else ExtractFrom(url, so + 1)
  }

  function ExtractParam(url: string): string {
    ExtractFrom(url, 0)
  }

  function BufferedParam(url: string): UrlParam {
    if |ExtractParam(url)| < MAX_BUFFER_URL_PARAM then Inside(ExtractParam(url)) else Overrun
  }

  lemma ParamMatches(url: string, so: nat, eo: nat)
    requires so <= eo <= |url|
    ensures Matches(Param(), url[so..eo])
            <==> so + 2 <= eo && url[so] == '/' && url[eo - 1] == '/' && AllDigits(url[so + 1..eo - 1])
  {
    var s := url[so..eo];
    BetweenMatches("/", c => IsDigit(c), "/", s);
    if so + 2 <= eo {
      var inner := s[1..|s| - 1];
      forall k | 0 <= k < |inner|
        ensures inner[k] == url[so + 1..eo - 1][k]
      {
        assert inner[k] == s[1 + k];
      }
      assert inner == url[so + 1..eo - 1];
      assert s[..1] == [url[so]] && s[|s| - 1..] == [url[eo - 1]];
    }
  }

  /** At one position there is at most one match, and it is the one ParamAt describes. */
  lemma MatchIsParamAt(url: string, so: nat, eo: nat)
    requires so <= eo <= |url|
    ensures Matches(Param(), url[so..eo])
            <==> so < |url| && ParamAt(url, so, DigitPrefix(url[so + 1..])) && eo == so + 2 + |DigitPrefix(url[so + 1..])|
  {
    ParamMatches(url, so, eo);
    if so < |url| {
      var rest := url[so + 1..];
      var digits := DigitPrefix(rest);
      if so + 2 <= eo && AllDigits(url[so + 1..eo - 1]) && url[eo - 1] == '/' {
        var middle := url[so + 1..eo - 1];
        assert rest == middle + url[eo - 1..];
        DigitPrefixOf(middle, url[eo - 1..]);
      }
      if so + 1 + |digits| < |url| && eo == so + 2 + |digits| {
        assert url[so + 1..eo - 1] == rest[..|digits|] == digits;
      }
    }
  }

  /** On every URL the result is the inside of the leftmost-longest match, if there is one. */
  lemma {:induction false} ExtractIsSearch(url: string, i: nat)
    requires i <= |url|
    requires forall so, eo :: 0 <= so < i && so <= eo <= |url| ==> !Matches(Param(), url[so..eo])
    ensures NoMatch(Param(), url) ==> ExtractFrom(url, i) == ""
    ensures !NoMatch(Param(), url) ==>
              exists so: nat, eo: nat :: so + 2 <= eo <= |url| && LeftmostLongest(Param(), url, so, eo)
                                         && ExtractFrom(url, i) == url[so + 1..eo - 1]
    decreases |url| - i
  {
    forall eo | i <= eo <= |url|
      ensures Matches(Param(), url[i..eo])
              <==> i < |url| && ParamAt(url, i, DigitPrefix(url[i + 1..])) && eo == i + 2 + |DigitPrefix(url[i + 1..])|
    {
      MatchIsParamAt(url, i, eo);
    }
    if i < |url| {
      var digits := DigitPrefix(url[i + 1..]);
      if ParamAt(url, i, digits) {
        var eo := i + 2 + |digits|;
        assert url[i + 1..eo - 1] == digits;
        assert Matches(Param(), url[i..eo]);
        assert LeftmostLongest(Param(), url, i, eo);
      } else {
        ExtractIsSearch(url, i + 1);
      }
    }
  }

  /** No digits between slashes start here: another character, or a slash before a letter. */
  predicate NoParamHere(url: string, i: nat)
    requires i < |url|
  {
    url[i] != '/' || (i + 1 < |url| && !IsDigit(url[i + 1]) && url[i + 1] != '/')
  }

  lemma NextPosition(url: string, so: nat)
    requires so < |url| && NoParamHere(url, so)
    ensures ExtractFrom(url, so) == ExtractFrom(url, so + 1)
  {
    NotHere(url, so);
  }

  /** Positions at which no parameter stands, from so on. */
  predicate NoParamIn(url: string, so: nat, upto: nat)
    requires upto <= |url|
  {
    forall i :: so <= i < upto ==> NoParamHere(url, i)
  }

  lemma {:induction false} SkipTo(url: string, so: nat, upto: nat)
    requires so <= upto <= |url| && NoParamIn(url, so, upto)
    ensures ExtractFrom(url, so) == ExtractFrom(url, upto)
    decreases upto
  {
    if so < upto {
      SkipTo(url, so, upto - 1);
      NextPosition(url, upto - 1);
    }
  }

  lemma NotHere(url: string, i: nat)
    requires i < |url| && NoParamHere(url, i)
    ensures !ParamAt(url, i, DigitPrefix(url[i + 1..]))
  {
    if url[i] == '/' {
      assert url[i + 1..][0] == url[i + 1];
      assert DigitPrefix(url[i + 1..]) == "";
    }
  }

  /** Behind "/clientes" of a routed URL no digits between slashes start, except at the id segment. */
  lemma NoOtherParam(url: string, segment: string, suffix: string, i: nat)
    requires IsRouted(url, segment, suffix) && (suffix == EXTRATO || suffix == TRANSACOES)
    requires i < |url| && i != |CLIENTES| - 1
    ensures NoParamHere(url, i)
  {
    var n := |CLIENTES|;
    if n <= i < n + |segment| {
      assert url[i] == segment[i - n];
    } else if n + |segment| <= i {
      assert url[i] == suffix[i - n - |segment|];
      assert i + 1 < |url| ==> url[i + 1] == suffix[i + 1 - n - |segment|];
    }
  }

  /** A segment that is not all digits stops the digits before its end, and not at a slash. */
  lemma OtherSegment(segment: string, suffix: string)
    requires All(c => SegmentChar(c), segment) && !AllDigits(segment)
    ensures var digits := DigitPrefix(segment + suffix);
            |digits| < |segment| && segment[|digits|] != '/'
  {
    var rest := segment + suffix;
    var i :| 0 <= i < |segment| && !IsDigit(segment[i]);
    assert rest[i] == segment[i];
    assert |DigitPrefix(rest)| <= i;
    assert SegmentChar(segment[|DigitPrefix(rest)|]);
  }

  lemma SegmentParam(url: string, segment: string, suffix: string)
    requires IsRouted(url, segment, suffix) && (suffix == EXTRATO || suffix == TRANSACOES)
    ensures var n := |CLIENTES| - 1; var digits := DigitPrefix(url[n + 1..]);
            && (ParamAt(url, n, digits) <==> AllDigits(segment))
            && (AllDigits(segment) ==> digits == segment)
  {
    var n := |CLIENTES| - 1;
    var rest := url[n + 1..];
    assert rest == segment + suffix;
    var digits := DigitPrefix(rest);
    if AllDigits(segment) {
      DigitPrefixOf(segment, suffix);
      assert url[n + 1 + |segment|] == suffix[0];
    } else {
      OtherSegment(segment, suffix);
      assert url[n + 1 + |digits|] == rest[|digits|] == segment[|digits|];
    }
  }

  /**
   For a routed URL the copy stays inside its buffer exactly if the id segment is not all
   digits or has at most 127; the buffer then holds the whole segment, or nothing.
   */
  lemma RoutedParam(url: string, segment: string, suffix: string)
    requires IsRouted(url, segment, suffix) && (suffix == EXTRATO || suffix == TRANSACOES)
    ensures BufferedParam(url).Inside? <==> !AllDigits(segment) || |segment| <= 127
    ensures BufferedParam(url).Inside? ==> BufferedParam(url) == Inside(if AllDigits(segment) then segment else "")
  {
    RoutedDigits(url, segment, suffix);
  }

  lemma RoutedDigits(url: string, segment: string, suffix: string)
    requires IsRouted(url, segment, suffix) && (suffix == EXTRATO || suffix == TRANSACOES)
    ensures ExtractParam(url) == if AllDigits(segment) then segment else ""
  {
    var n := |CLIENTES| - 1;
    forall i | 0 <= i < |url| && i != n
      ensures NoParamHere(url, i)
    {
      NoOtherParam(url, segment, suffix, i);
    }
    SkipTo(url, 0, n);
    SegmentParam(url, segment, suffix);
    if !AllDigits(segment) {
      SkipTo(url, n + 1, |url|);
    }
  }

  /**
   extract_url_param: the sprintf of the match and its NUL, into a buffer of 128 bytes. The
   model stops where the copy would leave the buffer, which is at 128 digits or more.
   */
  method ExtractUrlParam(buffer: array<char>, url: string) returns (param: UrlParam)
    requires buffer.Length == MAX_BUFFER_URL_PARAM
    modifies buffer
    ensures param == BufferedParam(url)
    ensures param.Inside? ==> CString(buffer[..]) == param.text
    ensures param.Overrun? ==> buffer[..] == old(buffer[..])
  {
    var digits := ExtractParam(url);
    if |digits| + 1 > buffer.Length {
      return Overrun;
    }
    ExtractedDigits(url, 0);
    for i := 0 to |digits|
      invariant buffer[..i] == digits[..i]
    {
      buffer[i] := digits[i];
    }
    buffer[|digits|] := NUL;
    CStringUnique(buffer[..], digits);
    return Inside(digits);
  }

  lemma {:induction false} ExtractedDigits(url: string, so: nat)
    requires so <= |url|
    ensures AllDigits(ExtractFrom(url, so)) && NUL !in ExtractFrom(url, so)
    decreases |url| - so
  {
    if so < |url| && !ParamAt(url, so, DigitPrefix(url[so + 1..])) {
      ExtractedDigits(url, so + 1);
    }
  }

  /** The id that the handlers work with, if the parameter is a valid one. */
  function IdOf(url: string): Option<int> {
    match BufferedParam(url)
    case Overrun => None
    case Inside(param) => if IsIdClienteValido(param) then Some(Atol(param)) else None
  }

  /** is_id_cliente_valido. */
  predicate IsIdClienteValido(id: string) {
    0 < |id| && |id| < 10 && AllDigits(id)
  }

  /** digits_only. */
  method DigitsOnly(s: string) returns (only: bool)
    ensures only <==> AllDigits(s)
  {
    for i := 0 to |s|
      invariant AllDigits(s[..i])
    {
      if !IsDigit(s[i]) {
        return false;
      }
    }
    return true;
  }

  /**
   The lookup runs exactly when the id segment is one to nine digits, with the number they
   denote, and that number fits the 32-bit integer. Any other segment is turned down,
   except 128 digits or more, which never get that far.
   */
  lemma UrlToId(url: string, segment: string, suffix: string)
    requires IsRouted(url, segment, suffix) && (suffix == EXTRATO || suffix == TRANSACOES)
    ensures IdOf(url).Some? <==> 1 <= |segment| <= 9 && AllDigits(segment)
    ensures IdOf(url).Some? ==> IdOf(url) == Some(Value(segment)) && IsInt32(Value(segment))
    ensures BufferedParam(url).Overrun? <==> |segment| >= 128 && AllDigits(segment)
  {
    RoutedParam(url, segment, suffix);
    if IdOf(url).Some? {
      DigitPrefixOf(segment, "");
      assert segment + "" == segment;
      ValueBound(segment);
      PowersUpTo9(|segment|);
    }
  }

  /** A URL short enough for request assembly, routed to the extrato, whose digits do not fit. */
  lemma LongIdOverruns(url: string, segment: string)
    requires segment == Repeat('1', 128) && url == CLIENTES + segment + EXTRATO
    ensures |url| <= 255 && FirstMatch(ROUTES, HTTP_GET, url) == FindById && BufferedParam(url).Overrun?
  {
    assert AllDigits(segment) && IsRouted(url, segment, EXTRATO);
    Routing(HTTP_GET, url);
    RoutedParam(url, segment, EXTRATO);
  }

  lemma {:induction false} PowersUpTo9(k: nat)
    requires k <= 9
    ensures Pow10(k) <= 1_000_000_000
  {
    assert Pow10(9) == 1_000_000_000 by {
      assert Pow10(3) == 1_000;
      assert Pow10(6) == 1_000_000;
    }
    if k < 9 {
      PowersGrow(k, 9);
    }
  }

  lemma {:induction false} PowersGrow(k: nat, n: nat)
    requires k <= n
    ensures Pow10(k) <= Pow10(n)
    decreases n
  {
    if k < n {
      PowersGrow(k, n - 1);
    }
  }
}
