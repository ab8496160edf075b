/**
 UTF-8 (section 3 of RFC 3629): the code point counter of string_util.c and the
 effect of cutting a text at a byte position. A char stands for one byte.
 */
module Utf8 {
  import opened CStrings

  type Scalar = n: int | 0 <= n < 0xD800 || 0xE000 <= n < 0x11_0000

  /** (b & 0xC0) == 0x80: the two high bits are 10. */
  predicate IsContinuation(b: char) {
    b as int / 64 == 2
  }

  /** The length of an encoding, read off its first byte. */
  function Width(lead: char): nat {
    if lead as int < 0x80 then 1
    else if lead as int < 0xE0 then 2
    else if lead as int < 0xF0 then 3
    else 4
  }

  function EncodeOne(p: Scalar): (s: string)
    ensures |s| > 0 && !IsContinuation(s[0]) && Width(s[0]) == |s|
    ensures forall i :: 0 < i < |s| ==> IsContinuation(s[i])
    ensures forall i :: 0 <= i < |s| ==> s[i] as int < 0x100
    ensures p < 0x800 <==> |s| <= 2
    ensures p != 0 ==> NUL !in s
  {
    if p < 0x80 then
      [p as char]
    else if p < 0x800 then
      [(0xC0 + p / 64) as char, (0x80 + p % 64) as char]
    else if p < 0x1_0000 then
      [(0xE0 + p / 4096) as char, (0x80 + p / 64 % 64) as char, (0x80 + p % 64) as char]
    else
      [(0xF0 + p / 262144) as char, (0x80 + p / 4096 % 64) as char, (0x80 + p / 64 % 64) as char,
       (0x80 + p % 64) as char]
  }

  function Encode(ps: seq<Scalar>): string {
    if ps == [] then "" else EncodeOne(ps[0]) + Encode(ps[1..])
  }

  ghost predicate Valid(s: string) {
    exists ps :: Encode(ps) == s
  }

  lemma {:induction false} AsciiIsValid(s: string)
    requires forall i :: 0 <= i < |s| ==> s[i] as int < 0x80
    ensures Valid(s) && CountPoints(s) == |s|
  {
    if s == "" {
      assert Encode([]) == "";
    } else {
      AsciiIsValid(s[1..]);
      var first: Scalar, ps: seq<Scalar> :| first == s[0] as int && Encode(ps) == s[1..];
      assert ([first] + ps)[1..] == ps;
      assert Encode([first] + ps) == [s[0]] + s[1..];
    }
  }

  /** The number of bytes that are not continuation bytes. */
  function CountPoints(s: string): nat {
    if s == "" then 0 else (if IsContinuation(s[0]) then 0 else 1) + CountPoints(s[1..])
  }

  method Utf8Strlen(str: array<char>) returns (count: nat)
    requires NUL in str[..]
    ensures count == CountPoints(CString(str[..]))
  {
    ghost var s := CString(str[..]);
    assert str[..][|s|] == NUL;
    count := 0;
    var i := 0;
    while str[i] != NUL
      invariant i <= |s| < str.Length
      invariant str[|s|] == NUL && forall j :: 0 <= j < |s| ==> str[j] == s[j]
      invariant count + CountPoints(s[i..]) == CountPoints(s)
      decreases str.Length - i
    {
      assert s[i..][1..] == s[i + 1..];
      if !IsContinuation(str[i]) {
        count := count + 1;
      }
      i := i + 1;
    }
    assert s[i..] == "";
  }

  lemma {:induction false} CountConcat(a: string, b: string)
    ensures CountPoints(a + b) == CountPoints(a) + CountPoints(b)
  {
    if a == "" {
      assert a + b == b;
    } else {
      CountConcat(a[1..], b);
      assert (a + b)[1..] == a[1..] + b;
    }
  }

  lemma {:induction false} CountContinuations(s: string)
    requires forall i :: 0 <= i < |s| ==> IsContinuation(s[i])
    ensures CountPoints(s) == 0
  {
    if s != "" {
      CountContinuations(s[1..]);
    }
  }

  /** On a valid encoding the counter returns the number of code points. */
  lemma {:induction false} CountEncode(ps: seq<Scalar>)
    ensures CountPoints(Encode(ps)) == |ps|
  {
    if ps != [] {
      CountEncode(ps[1..]);
      CountContinuations(EncodeOne(ps[0])[1..]);
      CountConcat(EncodeOne(ps[0]), Encode(ps[1..]));
    }
  }

  lemma {:induction false} EncodeBounds(ps: seq<Scalar>)
    ensures |ps| <= |Encode(ps)|
    ensures (forall i :: 0 <= i < |ps| ==> ps[i] < 0x800) ==> |Encode(ps)| <= 2 * |ps|
    ensures 0 !in ps ==> NUL !in Encode(ps)
  {
    if ps != [] {
      EncodeBounds(ps[1..]);
    }
  }

  // The byte sequences of section 4 of RFC 3629.

  predicate In(b: char, low: int, high: int) {
    low <= b as int <= high
  }

  predicate Tail(b: char) {
    In(b, 0x80, 0xBF)
  }

  predicate Utf8Char2(s: string) {
    |s| == 2 && In(s[0], 0xC2, 0xDF) && Tail(s[1])
  }

  predicate Utf8Char3(s: string) {
    && |s| == 3 && Tail(s[2])
    && (|| (In(s[0], 0xE0, 0xE0) && In(s[1], 0xA0, 0xBF))
        || (In(s[0], 0xE1, 0xEC) && Tail(s[1]))
        || (In(s[0], 0xED, 0xED) && In(s[1], 0x80, 0x9F))
        || (In(s[0], 0xEE, 0xEF) && Tail(s[1])))
  }

  predicate Utf8Char4(s: string) {
    && |s| == 4 && Tail(s[2]) && Tail(s[3])
    && (|| (In(s[0], 0xF0, 0xF0) && In(s[1], 0x90, 0xBF))
        || (In(s[0], 0xF1, 0xF3) && Tail(s[1]))
        || (In(s[0], 0xF4, 0xF4) && In(s[1], 0x80, 0x8F)))
  }

  /** UTF8-char. */
  predicate Utf8Char(s: string) {
    (|s| == 1 && In(s[0], 0, 0x7F)) || Utf8Char2(s) || Utf8Char3(s) || Utf8Char4(s)
  }

  /** UTF8-octets. */
  predicate Utf8Octets(s: string) {
    s == "" || exists n :: 0 < n <= |s| && Utf8Char(s[..n]) && Utf8Octets(s[n..])
  }

  /** The number whose bits an encoding holds (the table in section 3). */
  function DecodeOne(s: string): int
    requires 1 <= |s| <= 4
  {
    if |s| == 1 then s[0] as int
    else if |s| == 2 then (s[0] as int - 0xC0) * 0x40 + (s[1] as int - 0x80)
    else if |s| == 3 then (s[0] as int - 0xE0) * 0x1000 + (s[1] as int - 0x80) * 0x40 + (s[2] as int - 0x80)
    else
      (s[0] as int - 0xF0) * 0x4_0000 + (s[1] as int - 0x80) * 0x1000 + (s[2] as int - 0x80) * 0x40
      + (s[3] as int - 0x80)
  }

  lemma SplitBits(p: nat)
    ensures p == p / 64 * 64 + p % 64
    ensures p == p / 4096 * 4096 + p / 64 % 64 * 64 + p % 64
    ensures p == p / 262144 * 262144 + p / 4096 % 64 * 4096 + p / 64 % 64 * 64 + p % 64
  {
    assert p / 4096 == p / 64 / 64 && p / 262144 == p / 4096 / 64;
  }

  lemma JoinBits(w: nat, x: nat, y: nat, z: nat)
    requires x < 64 && y < 64 && z < 64
    ensures var p := w * 262144 + x * 4096 + y * 64 + z;
            p / 262144 == w && p / 4096 % 64 == x && p / 64 % 64 == y && p % 64 == z
  {
    var p := w * 262144 + x * 4096 + y * 64 + z;
    assert p / 64 == w * 4096 + x * 64 + y;
    assert p / 4096 == w * 64 + x by {
      assert p / 4096 == p / 64 / 64;
    }
    assert p / 262144 == p / 4096 / 64;
  }

  lemma EncodeOneChar3(p: Scalar)
    requires 0x800 <= p < 0x1_0000
    ensures Utf8Char3(EncodeOne(p)) && DecodeOne(EncodeOne(p)) == p
  {
    SplitBits(p);
  }

  lemma EncodeOneChar4(p: Scalar)
    requires 0x1_0000 <= p
    ensures Utf8Char4(EncodeOne(p)) && DecodeOne(EncodeOne(p)) == p
  {
    SplitBits(p);
  }

  /** Each code point is encoded as one of those sequences, and its bits are in it. */
  lemma EncodeOneChar(p: Scalar)
    ensures |EncodeOne(p)| <= 4 && Utf8Char(EncodeOne(p)) && DecodeOne(EncodeOne(p)) == p
  {
    if 0x1_0000 <= p {
      EncodeOneChar4(p);
    } else if 0x800 <= p {
      EncodeOneChar3(p);
    } else {
      SplitBits(p);
    }
  }

  predicate IsScalar(p: int) {
    0 <= p < 0xD800 || 0xE000 <= p < 0x11_0000
  }

  lemma Char3EncodesOne(s: string)
    requires Utf8Char3(s)
    ensures IsScalar(DecodeOne(s)) && EncodeOne(DecodeOne(s)) == s
  {
    JoinBits(0, s[0] as int - 0xE0, s[1] as int - 0x80, s[2] as int - 0x80);
    assert 0x800 <= DecodeOne(s) < 0x1_0000;
    assert DecodeOne(s) / 4096 == s[0] as int - 0xE0;
  }

  lemma Char4EncodesOne(s: string)
    requires Utf8Char4(s)
    ensures IsScalar(DecodeOne(s)) && EncodeOne(DecodeOne(s)) == s
  {
    JoinBits(s[0] as int - 0xF0, s[1] as int - 0x80, s[2] as int - 0x80, s[3] as int - 0x80);
    assert 0x1_0000 <= DecodeOne(s);
  }

  /** Each of those sequences encodes a code point. */
  lemma CharEncodesOne(s: string)
    requires Utf8Char(s)
    ensures IsScalar(DecodeOne(s)) && EncodeOne(DecodeOne(s)) == s
  {
    if |s| == 4 {
      Char4EncodesOne(s);
    } else if |s| == 3 {
      Char3EncodesOne(s);
    } else if |s| == 2 {
      JoinBits(0, 0, s[0] as int - 0xC0, s[1] as int - 0x80);
    }
  }

  /** A text is valid exactly if it is a sequence of the byte sequences that the standard allows. */
  lemma ValidOctets(s: string)
    ensures Valid(s) <==> Utf8Octets(s)
  {
    if Utf8Octets(s) {
      OctetsValid(s);
    }
    if Valid(s) {
      var ps :| Encode(ps) == s;
      EncodeOctets(ps);
    }
  }

  lemma {:induction false} OctetsValid(s: string)
    requires Utf8Octets(s)
    ensures Valid(s)
    decreases |s|
  {
    if s == "" {
      assert Encode([]) == "";
    } else {
      var n :| 0 < n <= |s| && Utf8Char(s[..n]) && Utf8Octets(s[n..]);
      OctetsValid(s[n..]);
      CharEncodesOne(s[..n]);
      var p: Scalar := DecodeOne(s[..n]);
      ValidAfterOne(p, s[n..]);
      assert s == s[..n] + s[n..];
    }
  }

  lemma {:induction false} EncodeOctets(ps: seq<Scalar>)
    ensures Utf8Octets(Encode(ps))
  {
    if ps != [] {
      var s, n := Encode(ps), |EncodeOne(ps[0])|;
      assert s[..n] == EncodeOne(ps[0]) && s[n..] == Encode(ps[1..]);
      EncodeOneChar(ps[0]);
      EncodeOctets(ps[1..]);
    }
  }

  /** Two texts of code points with the same bytes are the same. */
  lemma {:induction false} EncodeInjective(ps: seq<Scalar>, qs: seq<Scalar>)
    requires Encode(ps) == Encode(qs)
    ensures ps == qs
  {
    if ps != [] && qs != [] {
      var e, f := EncodeOne(ps[0]), EncodeOne(qs[0]);
      assert e[0] == Encode(ps)[0] == Encode(qs)[0] == f[0];
      assert e == Encode(ps)[..|e|] && f == Encode(qs)[..|f|];
      EncodeOneChar(ps[0]);
      EncodeOneChar(qs[0]);
      assert Encode(ps)[|e|..] == Encode(ps[1..]) && Encode(qs)[|f|..] == Encode(qs[1..]);
      EncodeInjective(ps[1..], qs[1..]);
      assert ps == [ps[0]] + ps[1..] && qs == [qs[0]] + qs[1..];
    }
  }

  /** A byte below 0x80 stands only for the code point it encodes. */
  lemma {:induction false} AsciiByte(ps: seq<Scalar>, c: char)
    requires c as int < 0x80
    ensures c in Encode(ps) <==> c as int in ps
  {
    if ps != [] {
      AsciiByte(ps[1..], c);
      assert c in EncodeOne(ps[0]) <==> ps[0] == c as int;
      assert ps == [ps[0]] + ps[1..];
    }
  }

  /** Decoding is unique: what follows one code point is valid on its own account. */
  lemma ValidAfterOne(p: Scalar, t: string)
    ensures Valid(EncodeOne(p) + t) <==> Valid(t)
  {
    if Valid(t) {
      var ps :| Encode(ps) == t;
      assert ([p] + ps)[1..] == ps;
      assert Encode([p] + ps) == EncodeOne(p) + t;
    }
    if Valid(EncodeOne(p) + t) {
      var ps :| Encode(ps) == EncodeOne(p) + t;
      var first, e := EncodeOne(ps[0]), EncodeOne(p);
      assert first[0] == Encode(ps)[0] == e[0];
      assert |first| == |e|;
      assert Encode(ps)[|first|..] == Encode(ps[1..]) && (e + t)[|e|..] == t;
    }
  }

  lemma WholeFirstPoint(ps: seq<Scalar>)
    requires Encode(ps) != ""
    ensures Width(Encode(ps)[0]) <= |Encode(ps)|
  {
    assert Encode(ps)[0] == EncodeOne(ps[0])[0];
  }

  /** A text cut after n bytes stays valid exactly when the cut splits no code point. */
  lemma {:induction false} CutValid(ps: seq<Scalar>, n: nat)
    requires n <= |Encode(ps)|
    ensures Valid(Encode(ps)[..n]) <==> (n == |Encode(ps)| || !IsContinuation(Encode(ps)[n]))
  {
    assert Encode([]) == "";
    if n == 0 || ps == [] {
      assert Encode(ps)[..n] == "";
    } else {
      var e, rest := EncodeOne(ps[0]), Encode(ps[1..]);
      if n < |e| {
        assert Encode(ps)[n] == e[n];
        forall qs
          ensures Encode(qs) != Encode(ps)[..n]
        {
          if Encode(qs) != "" {
            WholeFirstPoint(qs);
          }
        }
      } else {
        CutValid(ps[1..], n - |e|);
        ValidAfterOne(ps[0], rest[..n - |e|]);
        assert Encode(ps)[..n] == e + rest[..n - |e|];
        assert n < |Encode(ps)| ==> Encode(ps)[n] == rest[n - |e|];
      }
    }
  }
}
