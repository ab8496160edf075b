/** Decimal printing (printf, PostgreSQL output) and parsing (atoi, atol). */
module Decimal {
  import opened Sequences

  predicate IsDigit(c: char) {
    '0' <= c <= '9'
  }

  predicate AllDigits(s: string) {
    forall i :: 0 <= i < |s| ==> IsDigit(s[i])
  }

  function Digit(n: nat): (c: char)
    requires n < 10
    ensures IsDigit(c) && DigitValue(c) == n
  {
    ('0' as int + n) as char
  }

  function DigitValue(c: char): nat
    requires IsDigit(c)
  {
    c as int - '0' as int
  }

  /** The number that a run of digits denotes. */
  function Value(s: string): nat
    requires AllDigits(s)
  {
    if s == "" then 0 else 10 * Value(s[..|s| - 1]) + DigitValue(s[|s| - 1])
  }

  function PrintNat(n: nat): (s: string)
    ensures |s| > 0 && AllDigits(s)
    ensures Value(s) == n
  {
    if n < 10 then
      assert Value("") == 0;
      assert [Digit(n)][..0] == "";
      [Digit(n)]
    else
      var init := PrintNat(n / 10);
      assert (init + [Digit(n % 10)])[..|init|] == init;
      init + [Digit(n % 10)]
  }

  /** %d, %ld and PostgreSQL's integer output. */
  function Print(n: int): (s: string)
    ensures |s| > 0
    ensures n >= 0 ==> AllDigits(s)
  {
    if n < 0 then "-" + PrintNat(-n) else PrintNat(n)
  }

  /** The longest leading run of digits. */
  function DigitPrefix(s: string): (p: string)
    ensures p <= s && AllDigits(p)
    ensures |p| < |s| ==> !IsDigit(s[|p|])
  {
    if s == "" || !IsDigit(s[0]) then ""
    else [s[0]] + DigitPrefix(s[1..])
  }

  lemma {:induction false} DigitPrefixOf(p: string, rest: string)
    requires AllDigits(p)
    requires rest == "" || !IsDigit(rest[0])
    ensures DigitPrefix(p + rest) == p
  {
    if p == "" {
      assert p + rest == rest;
    } else {
      DigitPrefixOf(p[1..], rest);
      assert (p + rest)[1..] == p[1..] + rest;
    }
  }

  /** atol on text without leading blanks: a sign, then the digits it finds. */
  function Atol(s: string): int {
    if s != "" && s[0] == '-' then -(Value(DigitPrefix(s[1..])) as int)
    else if s != "" && s[0] == '+' then Value(DigitPrefix(s[1..]))
    else Value(DigitPrefix(s))
  }

  /** What is left of a text behind the integer that Atol reads. */
  function AfterInt(s: string): (rest: string)
    ensures |rest| <= |s|
  {
    if s != "" && s[0] == '-' then s[1 + |DigitPrefix(s[1..])|..] else s[|DigitPrefix(s)|..]
  }

  lemma AfterDigits(digits: string, rest: string)
    requires digits != "" && AllDigits(digits)
    requires rest == "" || !IsDigit(rest[0])
    ensures AfterInt(digits + rest) == rest
    ensures AfterInt(['-'] + (digits + rest)) == rest
  {
    DigitPrefixOf(digits, rest);
    var s := digits + rest;
    assert s[|digits|..] == rest && IsDigit(s[0]);
    assert (['-'] + s)[1..] == s && (['-'] + s)[1 + |digits|..] == s[|digits|..];
  }

  lemma AtolDigits(digits: string, rest: string)
    requires digits != "" && AllDigits(digits)
    requires rest == "" || !IsDigit(rest[0])
    ensures Atol(digits + rest) == Value(digits)
    ensures Atol(['-'] + (digits + rest)) == -(Value(digits) as int)
    ensures Atol(['+'] + (digits + rest)) == Value(digits)
  {
    DigitPrefixOf(digits, rest);
    assert (['+'] + (digits + rest))[1..] == digits + rest;
    assert (['-'] + (digits + rest))[1..] == digits + rest;
    assert IsDigit((digits + rest)[0]);
  }

  /** Every integer, negatives included, survives printing and atol. */
  lemma PrintAtolRoundTrip(n: int, rest: string)
    requires rest == "" || !IsDigit(rest[0])
    ensures Atol(Print(n) + rest) == n
  {
    if n < 0 {
      var digits := PrintNat(-n);
      AtolDigits(digits, rest);
      Associates(['-'], digits, rest);
    } else {
      AtolDigits(Print(n), rest);
    }
  }

  /** What follows a printed integer is what is left behind the integer that atol reads. */
  lemma PrintAfterRoundTrip(n: int, rest: string)
    requires rest == "" || !IsDigit(rest[0])
    ensures AfterInt(Print(n) + rest) == rest
  {
    if n < 0 {
      var digits := PrintNat(-n);
      AfterDigits(digits, rest);
      Associates(['-'], digits, rest);
    } else {
      AfterDigits(Print(n), rest);
    }
  }

  /** The ten digits, and the numbers they stand for. */
  lemma DigitText(c: char)
    ensures IsDigit(c) <==> c in "0123456789"
    ensures IsDigit(c) ==> Value([c]) == c as int - 48 && Print(c as int - 48) == [c]
  {
    if IsDigit(c) {
      assert [c][..0] == "" && Value("") == 0;
    }
  }

  /** Decimal notation is positional. */
  lemma {:induction false} Positional(a: string, b: string)
    requires AllDigits(a) && AllDigits(b)
    ensures AllDigits(a + b) && Value(a + b) == Value(a) * Pow10(|b|) + Value(b)
  {
    if b == "" {
      assert a + b == a;
    } else {
      var init := b[..|b| - 1];
      Positional(a, init);
      assert (a + b)[..|a + b| - 1] == a + init;
      TimesTen(Value(a), Pow10(|init|), Value(init), DigitValue(b[|b| - 1]));
    }
  }

  lemma TimesTen(v: int, p: int, w: int, d: int)
    ensures 10 * (v * p + w) + d == v * (10 * p) + (10 * w + d)
  {
  }

  /** A negative number is printed as a minus sign and its magnitude. */
  lemma PrintNegative(n: int)
    requires n > 0
    ensures Print(-n) == "-" + Print(n) && |Print(-n)| == 1 + |Print(n)|
  {
  }

  function Pow10(k: nat): (p: nat)
    ensures p > 0
  {
    if k == 0 then 1 else 10 * Pow10(k - 1)
  }

  lemma {:induction false} PrintNatLength(n: nat, k: nat)
    requires k > 0 && n < Pow10(k)
    ensures |PrintNat(n)| <= k
  {
    if n >= 10 {
      assert k > 1 by {
        assert Pow10(0) == 1 && Pow10(1) == 10;
      }
      PrintNatLength(n / 10, k - 1);
    }
  }

  lemma {:induction false} ValueBound(s: string)
    requires AllDigits(s)
    ensures Value(s) < Pow10(|s|)
  {
    if s != "" {
      ValueBound(s[..|s| - 1]);
    }
  }
}
