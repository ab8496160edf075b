/** The part of POSIX extended regular expressions that the routes use. */
module Regex {

  datatype Regex =
    | Empty
    | Class(accepts: char -> bool)
    | Cat(first: Regex, second: Regex)
    | Star(body: Regex)

  /** The whole of s is matched by r. */
  predicate Matches(r: Regex, s: string)
    decreases r, |s|
  {
    match r
    case Empty => s == ""
    case Class(accepts) => |s| == 1 && accepts(s[0])
    case Cat(a, b) => exists k :: 0 <= k <= |s| && Matches(a, s[..k]) && Matches(b, s[k..])
    case Star(a) => s == "" || exists k :: 0 < k <= |s| && Matches(a, s[..k]) && Matches(r, s[k..])
  }

  function Literal(lit: string): Regex {
    if lit == "" then Empty
    else
      var first := lit[0];
      Cat(Class(c => c == first), Literal(lit[1..]))
  }

  /**
   regexec reports the leftmost match and, of the matches that start there, the longest
   (section 9.1 of the Base Definitions of IEEE Std 1003.1).
   */
  ghost predicate LeftmostLongest(r: Regex, s: string, so: nat, eo: nat) {
    && so <= eo <= |s| && Matches(r, s[so..eo])
    && (forall i, j :: 0 <= i < so && i <= j <= |s| ==> !Matches(r, s[i..j]))
    && (forall j :: eo < j <= |s| ==> !Matches(r, s[so..j]))
  }

  ghost predicate NoMatch(r: Regex, s: string) {
    forall i, j :: 0 <= i <= j <= |s| ==> !Matches(r, s[i..j])
  }

  lemma {:induction false} StarOfClass(accepts: char -> bool, s: string)
    ensures Matches(Star(Class(accepts)), s) <==> All(accepts, s)
    decreases |s|
  {
    if s != "" {
      StarOfClass(accepts, s[1..]);
      assert s[..1] == [s[0]];
      if Matches(Star(Class(accepts)), s) {
        var k :| 0 < k <= |s| && Matches(Class(accepts), s[..k]) && Matches(Star(Class(accepts)), s[k..]);
        assert k == 1;
        assert forall i :: 1 <= i < |s| ==> s[i] == s[1..][i - 1];
      }
    }
  }

  lemma {:induction false} LiteralThen(lit: string, r: Regex, s: string)
    ensures Matches(Cat(Literal(lit), r), s) <==> lit <= s && Matches(r, s[|lit|..])
  {
    forall k | 0 <= k <= |s|
      ensures Matches(Literal(lit), s[..k]) <==> s[..k] == lit
    {
      LiteralMatches(lit, s[..k]);
    }
    if lit <= s && Matches(r, s[|lit|..]) {
      assert s[..|lit|] == lit;
    }
  }

  lemma {:induction false} LiteralMatches(lit: string, s: string)
    ensures Matches(Literal(lit), s) <==> s == lit
    decreases |lit|
  {
    if lit != "" {
      var first := lit[0];
      var head := Class(c => c == first);
      if Matches(Literal(lit), s) {
        var k :| 0 <= k <= |s| && Matches(head, s[..k]) && Matches(Literal(lit[1..]), s[k..]);
        LiteralMatches(lit[1..], s[k..]);
        assert s == s[..k] + s[k..] && lit == [lit[0]] + lit[1..];
      }
      if s == lit {
        LiteralMatches(lit[1..], s[1..]);
        assert s[..1] == [first];
      }
    }
  }

  lemma ThenLiteral(r: Regex, lit: string, s: string)
    ensures Matches(Cat(r, Literal(lit)), s)
            <==> |lit| <= |s| && s[|s| - |lit|..] == lit && Matches(r, s[..|s| - |lit|])
  {
    forall k | 0 <= k <= |s|
      ensures Matches(Literal(lit), s[k..]) <==> s[k..] == lit
    {
      LiteralMatches(lit, s[k..]);
    }
  }

  /** `lit`, characters of one class, `end`. */
  function Between(lit: string, accepts: char -> bool, end: string): Regex {
    Cat(Literal(lit), Cat(Star(Class(accepts)), Literal(end)))
  }

  predicate All(accepts: char -> bool, s: string) {
    forall i :: 0 <= i < |s| ==> accepts(s[i])
  }

  predicate IsBetween(lit: string, accepts: char -> bool, end: string, s: string) {
    && |lit| + |end| <= |s| && s[..|lit|] == lit && s[|s| - |end|..] == end
    && All(accepts, s[|lit|..|s| - |end|])
  }

  lemma BetweenMatches(lit: string, accepts: char -> bool, end: string, s: string)
    ensures Matches(Between(lit, accepts, end), s) <==> IsBetween(lit, accepts, end, s)
  {
    LiteralThen(lit, Cat(Star(Class(accepts)), Literal(end)), s);
    if |lit| + |end| <= |s| && s[..|lit|] == lit {
      var rest := s[|lit|..];
      ThenLiteral(Star(Class(accepts)), end, rest);
      assert rest[|rest| - |end|..] == s[|s| - |end|..];
      assert rest[..|rest| - |end|] == s[|lit|..|s| - |end|];
      StarOfClass(accepts, rest[..|rest| - |end|]);
    } else if lit <= s {
      ThenLiteral(Star(Class(accepts)), end, s[|lit|..]);
    }
  }

  lemma BetweenIs(lit: string, accepts: char -> bool, end: string, middle: string)
    ensures IsBetween(lit, accepts, end, lit + middle + end) <==> All(accepts, middle)
  {
    var s := lit + middle + end;
    assert s[..|lit|] == lit && s[|s| - |end|..] == end;
    assert s[|lit|..|s| - |end|] == middle;
  }

  lemma BetweenSplits(lit: string, accepts: char -> bool, end: string, s: string)
    requires IsBetween(lit, accepts, end, s)
    ensures s == lit + s[|lit|..|s| - |end|] + end
  {
    assert s == s[..|lit|] + s[|lit|..|s| - |end|] + s[|s| - |end|..];
  }
}
