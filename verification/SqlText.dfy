/**
 String constants as PostgreSQL reads them (section 4.1.2.1 of its manual), and the text
 that the insert statement pastes between two quotes as it is.
 */
module SqlText {
  import opened CStrings
  import Utf8

  const QUOTE: char := '\''

  datatype Literal = Unterminated | Literal(value: string, rest: string)

  /** Behind an opening quote: a doubled quote stands for one, any other ends the constant. */
  function ReadLiteral(s: string): (l: Literal)
    decreases |s|
  {
    if s == "" then Unterminated
    else if s[0] != QUOTE then WithFirst(s[0], ReadLiteral(s[1..]))
    else if |s| > 1 && s[1] == QUOTE then WithFirst(QUOTE, ReadLiteral(s[2..]))
    else Literal("", s[1..])
  }

  function WithFirst(c: char, l: Literal): Literal {
    match l
    case Unterminated => Unterminated
    case Literal(value, rest) => Literal([c] + value, rest)
  }

  /** What the format string of the insert puts behind descricao. */
  const CLOSE: string := "');"
  const AFTER: string := ");"

  /** What the server finds between the quotes, and what it finds behind them. */
  function Pasted(text: string): Literal {
    ReadLiteral(text + CLOSE)
  }

  /** The constant ends where the format string ends it. */
  predicate EndsInPlace(text: string) {
    Pasted(text).Literal? && Pasted(text).rest == AFTER
  }

  /** Every quote in the text stands in a pair. */
  predicate Doubled(text: string) {
    || text == ""
    || (text[0] != QUOTE && Doubled(text[1..]))
    || (|text| > 1 && text[0] == text[1] == QUOTE && Doubled(text[2..]))
  }

  lemma PastedStep(text: string)
    requires text != ""
    ensures text[0] != QUOTE ==> Pasted(text) == WithFirst(text[0], Pasted(text[1..]))
    ensures |text| > 1 && text[0] == text[1] == QUOTE ==> Pasted(text) == WithFirst(QUOTE, Pasted(text[2..]))
    ensures |text| > 1 && text[0] == QUOTE != text[1] ==> Pasted(text) == Literal("", text[1..] + CLOSE)
    ensures text == [QUOTE] ==> Pasted(text).Unterminated?
  {
    var s := text + CLOSE;
    assert s[1..] == text[1..] + CLOSE;
    if |text| > 1 {
      assert s[1] == text[1] && s[2..] == text[2..] + CLOSE;
    } else {
      assert s[1] == QUOTE && s[2..] == AFTER;
      NoQuoteNoEnd(AFTER);
    }
  }

  lemma ClosesAtOnce(more: string)
    requires more != "" && more[0] != QUOTE
    ensures Pasted([QUOTE] + more) == Literal("", more + CLOSE) && !EndsInPlace([QUOTE] + more)
  {
    var text := [QUOTE] + more;
    assert text[1..] == more;
    PastedStep(text);
  }

  lemma {:induction false} NoQuoteNoEnd(s: string)
    requires QUOTE !in s
    ensures ReadLiteral(s).Unterminated?
  {
    if s != "" {
      NoQuoteNoEnd(s[1..]);
    }
  }

  lemma PastedNothing()
    ensures Pasted("") == Literal("", AFTER)
  {
    assert "" + CLOSE == CLOSE && CLOSE[1..] == AFTER;
  }

  /**
   The constant ends in place exactly when all quotes stand in pairs. Its value is then no
   longer than the text, and it is the text exactly when there is no quote in it.
   */
  lemma {:induction false} PastedText(text: string)
    ensures EndsInPlace(text) <==> Doubled(text)
    ensures Doubled(text) ==> |Pasted(text).value| <= |text|
    ensures Pasted(text) == Literal(text, AFTER) <==> QUOTE !in text
    decreases |text|
  {
    if text == "" {
      PastedNothing();
    } else {
      PastedStep(text);
      if text[0] != QUOTE {
        PastedText(text[1..]);
        assert text == [text[0]] + text[1..];
      } else if |text| > 1 && text[1] == QUOTE {
        PastedText(text[2..]);
      }
    }
  }

  /** The first quote that stands in no pair. */
  predicate LoneQuote(text: string, k: nat) {
    && k < |text| && Doubled(text[..k]) && text[k] == QUOTE
    && (k + 1 < |text| ==> text[k + 1] != QUOTE)
  }

  /** As the last character it pairs with the closing quote; else it ends the constant there. */
  lemma {:induction false} LoneQuoteEnds(text: string, k: nat)
    requires LoneQuote(text, k)
    ensures !Doubled(text)
    ensures k + 1 == |text| ==> Pasted(text).Unterminated?
    ensures k + 1 < |text| ==> Pasted(text).Literal? && Pasted(text).rest == text[k + 1..] + CLOSE
    decreases k
  {
    PastedStep(text);
    if k == 0 {
      assert |text| == 1 ==> text == [QUOTE];
    } else {
      var n := if text[0] == QUOTE then 2 else 1;
      assert text[..k][0] == text[0] && text[..k][n..] == text[n..][..k - n];
      LoneQuoteEnds(text[n..], k - n);
      assert text[n..][k - n + 1..] == text[k + 1..];
    }
  }

  lemma {:induction false} FindLoneQuote(text: string) returns (k: nat)
    requires !Doubled(text)
    ensures LoneQuote(text, k)
    decreases |text|
  {
    if text[0] == QUOTE && (|text| > 1 ==> text[1] != QUOTE) {
      k := 0;
    } else {
      var n := if text[0] == QUOTE then 2 else 1;
      var j := FindLoneQuote(text[n..]);
      k := n + j;
      assert text[..k][0] == text[0] && text[..k][n..] == text[n..][..j];
    }
  }

  /**
   The text closes its constant early exactly if its first unpaired quote has a character
   behind it, and leaves it open exactly if that quote is its last character.
   */
  lemma PastedEnds(text: string)
    ensures Pasted(text).Literal? && Pasted(text).rest != AFTER
            <==> exists k: nat :: LoneQuote(text, k) && k + 1 < |text|
    ensures Pasted(text).Unterminated? <==> exists k: nat :: LoneQuote(text, k) && k + 1 == |text|
  {
    PastedText(text);
    forall k: nat | LoneQuote(text, k)
      ensures !Doubled(text) && (k + 1 == |text| <==> Pasted(text).Unterminated?)
    {
      LoneQuoteEnds(text, k);
    }
    if !Doubled(text) {
      var k := FindLoneQuote(text);
      LoneQuoteEnds(text, k);
    }
  }

  /** Reading a constant drops quotes and nothing else. */
  lemma {:induction false} ValueBounds(text: string)
    requires Doubled(text)
    ensures Pasted(text).Literal? && Utf8.CountPoints(Pasted(text).value) <= Utf8.CountPoints(text)
    ensures NUL !in text ==> NUL !in Pasted(text).value
    decreases |text|
  {
    if text == "" {
      PastedNothing();
    } else {
      PastedStep(text);
      if text[0] != QUOTE {
        ValueBounds(text[1..]);
        CountFirst(text[0], Pasted(text[1..]).value);
      } else {
        ValueBounds(text[2..]);
        CountFirst(QUOTE, Pasted(text[2..]).value);
        assert text[1..][1..] == text[2..];
      }
    }
  }

  /** A text with every quote doubled, as a client library would escape it. */
  function DoubleQuotes(text: string): string {
    if text == "" then ""
    else (if text[0] == QUOTE then [QUOTE, QUOTE] else [text[0]]) + DoubleQuotes(text[1..])
  }

  /** The server reads an escaped text back as it was, with nothing left over. */
  lemma {:induction false} EscapedReadsBack(text: string)
    ensures Pasted(DoubleQuotes(text)) == Literal(text, AFTER)
  {
    if text == "" {
      PastedNothing();
    } else {
      var first := if text[0] == QUOTE then [QUOTE, QUOTE] else [text[0]];
      var escaped := first + DoubleQuotes(text[1..]);
      EscapedReadsBack(text[1..]);
      PastedStep(escaped);
      assert escaped[|first|..] == DoubleQuotes(text[1..]);
    }
  }

  /** A text whose quotes stand in pairs is the escaped form of what the server reads. */
  lemma {:induction false} ReadingEscaped(text: string)
    requires Doubled(text)
    ensures Pasted(text).Literal? && DoubleQuotes(Pasted(text).value) == text
    decreases |text|
  {
    if text == "" {
      PastedNothing();
    } else {
      var n := if text[0] == QUOTE then 2 else 1;
      PastedStep(text);
      ReadingEscaped(text[n..]);
      var value := Pasted(text[n..]).value;
      assert ([text[0]] + value)[1..] == value;
      assert text == text[..n] + text[n..];
    }
  }

  lemma CountFirst(c: char, s: string)
    ensures Utf8.CountPoints([c] + s) == (if Utf8.IsContinuation(c) then 0 else 1) + Utf8.CountPoints(s)
  {
    assert ([c] + s)[1..] == s;
  }
}
