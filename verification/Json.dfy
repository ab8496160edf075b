/** JSON values as json_dumps prints them compactly, and a reader after RFC 8259. */
module Json {
  import opened Decimal
  import opened Entities
  import opened Sequences
  import Utf8

  datatype Json =
    | Number(n: int)
    | Text(s: string)
    | Array(items: seq<Json>)
    | Object(members: seq<Member>)

  datatype Member = Member(key: string, value: Json)

  // Printing.

  function Hex(n: nat): (c: char)
    requires n < 16
    ensures HexValue(c) == n
  {
    "0123456789abcdef"[n]
  }

  function HexValue(c: char): nat {
    if '0' <= c <= '9' then c as nat - 48 else if 'a' <= c <= 'f' then c as nat - 87 else 16
  }

  /** A control byte takes up to six bytes, a quote or backslash two, any other byte one. */
  function EscapeByte(c: char): (s: string)
    ensures 1 <= |s| <= 6
    ensures 32 <= c as int && c != '"' && c != '\\' ==> s == [c]
    ensures Utf8.IsContinuation(c) ==> |s| == 1
  {
    if c == '"' then ['\\', '"']
    else if c == '\\' then ['\\', '\\']
    else if c == '\n' then ['\\', 'n']
    else if c == '\r' then ['\\', 'r']
    else if c == '\t' then ['\\', 't']
    else if c as int == 8 then ['\\', 'b']
    else if c as int == 12 then ['\\', 'f']
    else if c as int < 32 then ['\\', 'u', '0', '0', Hex(c as int / 16), Hex(c as int % 16)]
    else [c]
  }

  function Escape(s: string): string {
    if s == "" then "" else EscapeByte(s[0]) + Escape(s[1..])
  }

  function Quoted(s: string): string {
    ['"'] + (Escape(s) + ['"'])
  }

  function Dump(j: Json): string
    decreases j, 0
  {
    match j
    case Number(n) => Print(n)
    case Text(s) => Quoted(s)
    case Array(items) => ['['] + (DumpItems(items) + [']'])
    case Object(members) => ['{'] + (DumpMembers(members) + ['}'])
  }

  function DumpItems(items: seq<Json>): string
    decreases items, 0
  {
    if items == [] then ""
    else if |items| == 1 then Dump(items[0])
    else Dump(items[0]) + ([','] + DumpItems(items[1..]))
  }

  function DumpMember(m: Member): string
    decreases m, 0
  {
    Quoted(m.key) + ([':'] + Dump(m.value))
  }

  function DumpMembers(members: seq<Member>): string
    decreases members, 0
  {
    if members == [] then ""
    else if |members| == 1 then DumpMember(members[0])
    else DumpMember(members[0]) + ([','] + DumpMembers(members[1..]))
  }

  // Reading.

  datatype Read<+T> = Fail | Read(value: T, rest: string)

  /** The character that an escape stands for, and how long the escape is; RFC 8259, section 7. */
  function Unescape(s: string): (r: Read<char>)
    requires s != "" && s[0] == '\\'
    ensures r.Read? ==> |r.rest| < |s|
  {
    if |s| < 2 then Fail
    else if s[1] == '"' || s[1] == '\\' || s[1] == '/' then Read(s[1], s[2..])
    else if s[1] == 'b' then Read(8 as char, s[2..])
    else if s[1] == 'f' then Read(12 as char, s[2..])
    else if s[1] == 'n' then Read('\n', s[2..])
    else if s[1] == 'r' then Read('\r', s[2..])
    else if s[1] == 't' then Read('\t', s[2..])
    else if s[1] == 'u' && |s| >= 6 && s[2] == '0' && s[3] == '0' && HexValue(s[4]) < 8 && HexValue(s[5]) < 16 then
      Read((16 * HexValue(s[4]) + HexValue(s[5])) as char, s[6..])
    else Fail
  }

  /** The text up to the closing quote; s starts behind the opening one. */
  function ReadText(s: string): (r: Read<string>)
    ensures r.Read? ==> |r.rest| < |s|
    decreases |s|
  {
    if s == "" then Fail
    else if s[0] == '"' then Read("", s[1..])
    else if s[0] == '\\' then
      match Unescape(s)
      case Fail => Fail
      case Read(c, rest) => Front(c, ReadText(rest))
    else Front(s[0], ReadText(s[1..]))
  }

  function Front(c: char, r: Read<string>): Read<string> {
    match r
    case Fail => Fail
    case Read(s, rest) => Read([c] + s, rest)
  }

  function Load(s: string): (r: Read<Json>)
    ensures r.Read? ==> |r.rest| < |s|
    decreases |s|, 0
  {
    if s == "" then Fail
    else if s[0] == '"' then
      match ReadText(s[1..])
      case Fail => Fail
      case Read(t, rest) => Read(Text(t), rest)
    else if s[0] == '[' then
      if |s| > 1 && s[1] == ']' then Read(Array([]), s[2..])
      else
        match LoadItems(s[1..])
        case Fail => Fail
        case Read(items, rest) => Read(Array(items), rest)
    else if s[0] == '{' then
      if |s| > 1 && s[1] == '}' then Read(Object([]), s[2..])
      else
        match LoadMembers(s[1..])
        case Fail => Fail
        case Read(members, rest) => Read(Object(members), rest)
    else if StartsNumber(s) then Read(Number(Atol(s)), AfterInt(s))
    else Fail
  }

  predicate StartsNumber(s: string) {
    s != "" && (IsDigit(s[0]) || (s[0] == '-' && |s| > 1 && IsDigit(s[1])))
  }

  /** Items up to the closing bracket. */
  function LoadItems(s: string): (r: Read<seq<Json>>)
    ensures r.Read? ==> |r.rest| < |s|
    decreases |s|, 1
  {
    match Load(s)
    case Fail => Fail
    case Read(j, rest) =>
      if rest == "" then Fail
      else if rest[0] == ']' then Read([j], rest[1..])
      else if rest[0] == ',' then
        match LoadItems(rest[1..])
        case Fail => Fail
        case Read(items, after) => Read([j] + items, after)
      else Fail
  }

  function LoadMember(s: string): (r: Read<Member>)
    ensures r.Read? ==> |r.rest| < |s|
    decreases |s|, 0
  {
    if s == "" || s[0] != '"' then Fail
    else
      match ReadText(s[1..])
      case Fail => Fail
      case Read(key, rest) =>
        if rest == "" || rest[0] != ':' then Fail
        else
          match Load(rest[1..])
          case Fail => Fail
          case Read(j, after) => Read(Member(key, j), after)
  }

  /** Members up to the closing brace. */
  function LoadMembers(s: string): (r: Read<seq<Member>>)
    ensures r.Read? ==> |r.rest| < |s|
    decreases |s|, 1
  {
    match LoadMember(s)
    case Fail => Fail
    case Read(m, rest) =>
      if rest == "" then Fail
      else if rest[0] == '}' then Read([m], rest[1..])
      else if rest[0] == ',' then
        match LoadMembers(rest[1..])
        case Fail => Fail
        case Read(members, after) => Read([m] + members, after)
      else Fail
  }

  // Reading back what was printed.

  lemma UnescapeByte(c: char, rest: string)
    requires EscapeByte(c) != [c]
    ensures EscapeByte(c)[0] == '\\' && Unescape(EscapeByte(c) + rest) == Read(c, rest)
  {
    var e := EscapeByte(c);
    assert (e + rest)[..|e|] == e && (e + rest)[|e|..] == rest;
  }

  lemma {:induction false} ReadEscaped(s: string, rest: string)
    ensures ReadText(Escape(s) + (['"'] + rest)) == Read(s, rest)
    decreases |s|
  {
    var tail := ['"'] + rest;
    if s == "" {
      assert Escape(s) + tail == tail && tail[1..] == rest;
    } else {
      var e, more := EscapeByte(s[0]), Escape(s[1..]) + tail;
      ReadEscaped(s[1..], rest);
      Associates(e, Escape(s[1..]), tail);
      assert s == [s[0]] + s[1..];
      if e != [s[0]] {
        UnescapeByte(s[0], more);
        assert (e + more)[0] == e[0];
      } else {
        assert (e + more)[1..] == more;
      }
    }
  }

  lemma ReadQuoted(s: string, rest: string)
    ensures var q := Quoted(s) + rest; q != "" && q[0] == '"' && ReadText(q[1..]) == Read(s, rest)
  {
    Associates(Escape(s), ['"'], rest);
    Associates(['"'], Escape(s) + ['"'], rest);
    assert (Quoted(s) + rest)[1..] == Escape(s) + (['"'] + rest);
    ReadEscaped(s, rest);
  }

  lemma ReadNumber(n: int, rest: string)
    requires rest == "" || !IsDigit(rest[0])
    ensures Load(Print(n) + rest) == Read(Number(n), rest)
  {
    PrintAtolRoundTrip(n, rest);
    PrintAfterRoundTrip(n, rest);
    PrintStarts(n, rest);
  }

  lemma PrintStarts(n: int, rest: string)
    ensures StartsNumber(Print(n) + rest)
  {
    if n < 0 {
      var digits := PrintNat(-n);
      assert Print(n)[1] == digits[0];
      assert (Print(n) + rest)[1] == Print(n)[1];
    } else {
      assert (Print(n) + rest)[0] == Print(n)[0];
    }
  }

  /** No printed value can be taken for an empty array or object. */
  lemma DumpStarts(j: Json)
    ensures Dump(j) != "" && Dump(j)[0] != ']' && Dump(j)[0] != '}' && Dump(j)[0] != ','
  {
  }

  predicate EndsValue(rest: string) {
    rest == "" || !IsDigit(rest[0])
  }

  lemma LoadArray(items: seq<Json>, rest: string)
    requires items != [] && LoadItems(DumpItems(items) + ([']'] + rest)) == Read(items, rest)
    ensures Load(Dump(Array(items)) + rest) == Read(Array(items), rest)
  {
    var body := DumpItems(items);
    var s := Dump(Array(items)) + rest;
    DumpStarts(items[0]);
    Associates(['['], body + [']'], rest);
    Associates(body, [']'], rest);
    assert s[1..] == body + ([']'] + rest);
    assert body[0] == Dump(items[0])[0] && s[1] == body[0];
  }

  lemma LoadObject(members: seq<Member>, rest: string)
    requires members != [] && LoadMembers(DumpMembers(members) + (['}'] + rest)) == Read(members, rest)
    ensures Load(Dump(Object(members)) + rest) == Read(Object(members), rest)
  {
    var body := DumpMembers(members);
    var s := Dump(Object(members)) + rest;
    Associates(['{'], body + ['}'], rest);
    Associates(body, ['}'], rest);
    assert s[1..] == body + (['}'] + rest);
    assert body[0] == '"' && s[1] == body[0];
  }

  /** What is printed is read back as it was, with nothing left over. */
  lemma {:induction false} LoadDump(j: Json, rest: string)
    requires EndsValue(rest)
    ensures Load(Dump(j) + rest) == Read(j, rest)
    decreases j, 0
  {
    match j
    case Number(n) =>
      ReadNumber(n, rest);
    case Text(s) =>
      ReadQuoted(s, rest);
    case Array(items) =>
      if items == [] {
        assert (Dump(j) + rest)[2..] == rest;
      } else {
        LoadDumpItems(items, rest);
        LoadArray(items, rest);
      }
    case Object(members) =>
      if members == [] {
        assert (Dump(j) + rest)[2..] == rest;
      } else {
        LoadDumpMembers(members, rest);
        LoadObject(members, rest);
      }
  }

  lemma {:induction false} LoadDumpItems(items: seq<Json>, rest: string)
    requires items != []
    ensures LoadItems(DumpItems(items) + ([']'] + rest)) == Read(items, rest)
    decreases items, 0
  {
    var tail := [']'] + rest;
    if |items| == 1 {
      LoadDump(items[0], tail);
      assert tail[1..] == rest && items == [items[0]];
    } else {
      var more := DumpItems(items[1..]) + tail;
      LoadDump(items[0], [','] + more);
      LoadDumpItems(items[1..], rest);
      Associates(Dump(items[0]), [','] + DumpItems(items[1..]), tail);
      Associates([','], DumpItems(items[1..]), tail);
      assert ([','] + more)[1..] == more && items == [items[0]] + items[1..];
    }
  }

  lemma {:induction false} LoadDumpMember(m: Member, rest: string)
    requires EndsValue(rest)
    ensures LoadMember(DumpMember(m) + rest) == Read(m, rest)
    decreases m, 0
  {
    var value := Dump(m.value) + rest;
    LoadDump(m.value, rest);
    Associates(Quoted(m.key), [':'] + Dump(m.value), rest);
    Associates([':'], Dump(m.value), rest);
    ReadQuoted(m.key, [':'] + value);
    assert ([':'] + value)[1..] == value;
  }

  lemma LoadLastMember(s: string, m: Member, rest: string)
    requires LoadMember(s) == Read(m, ['}'] + rest)
    ensures LoadMembers(s) == Read([m], rest)
  {
    assert (['}'] + rest)[1..] == rest;
  }

  lemma LoadMoreMembers(s: string, m: Member, more: string, members: seq<Member>, rest: string)
    requires LoadMember(s) == Read(m, [','] + more) && LoadMembers(more) == Read(members, rest)
    ensures LoadMembers(s) == Read([m] + members, rest)
  {
    assert ([','] + more)[1..] == more;
  }

  lemma {:induction false} LoadDumpMembers(members: seq<Member>, rest: string)
    requires members != []
    ensures LoadMembers(DumpMembers(members) + (['}'] + rest)) == Read(members, rest)
    decreases members, 0
  {
    var m, tail := members[0], ['}'] + rest;
    if |members| == 1 {
      LoadDumpMember(m, tail);
      LoadLastMember(DumpMember(m) + tail, m, rest);
      assert members == [m];
    } else {
      var printed := DumpMembers(members[1..]);
      var more := printed + tail;
      LoadDumpMember(m, [','] + more);
      LoadDumpMembers(members[1..], rest);
      LoadMoreMembers(DumpMember(m) + ([','] + more), m, more, members[1..], rest);
      Associates(DumpMember(m), [','] + printed, tail);
      Associates([','], printed, tail);
      assert members == [m] + members[1..];
    }
  }

  /** The value of the first member with this key. */
  function FieldOf(members: seq<Member>, key: string): Option<Json> {
    if members == [] then None
    else if members[0].key == key then Some(members[0].value)
    else FieldOf(members[1..], key)
  }

  function Field(j: Json, key: string): Option<Json> {
    if j.Object? then FieldOf(j.members, key) else None
  }

  lemma {:induction false} FieldAt(members: seq<Member>, i: nat)
    requires i < |members| && forall k :: 0 <= k < i ==> members[k].key != members[i].key
    ensures FieldOf(members, members[i].key) == Some(members[i].value)
  {
    if i > 0 {
      FieldAt(members[1..], i - 1);
    }
  }

  /** A whole text that is one printed value. */
  lemma LoadWhole(j: Json)
    ensures Load(Dump(j)) == Read(j, "")
  {
    LoadDump(j, "");
    assert Dump(j) + "" == Dump(j);
  }

  // Lengths.

  /** Text that needs no escapes: digits and the letters and marks of a date. */
  predicate Plain(s: string) {
    forall i :: 0 <= i < |s| ==> 32 <= s[i] as int && s[i] != '"' && s[i] != '\\'
  }

  lemma {:induction false} EscapeLength(s: string)
    ensures |Escape(s)| <= |s| + 5 * Utf8.CountPoints(s)
    ensures Plain(s) ==> Escape(s) == s
  {
    if s != "" {
      EscapeLength(s[1..]);
    }
  }

  lemma MembersCons(m: Member, more: seq<Member>)
    requires more != []
    ensures DumpMembers([m]) == DumpMember(m)
    ensures |DumpMembers([m] + more)| == |DumpMember(m)| + 1 + |DumpMembers(more)|
  {
    assert ([m] + more)[1..] == more;
  }

  lemma TwoMembers(a: Member, b: Member)
    ensures |Dump(Object([a, b]))| == |DumpMember(a)| + |DumpMember(b)| + 3
  {
    MembersCons(a, [b]);
    MembersCons(b, [b]);
    assert [a, b] == [a] + [b];
  }

  lemma ThreeMembers(a: Member, b: Member, c: Member)
    ensures |Dump(Object([a, b, c]))| == |DumpMember(a)| + |DumpMember(b)| + |DumpMember(c)| + 4
  {
    TwoMembers(b, c);
    MembersCons(a, [b, c]);
    assert [a, b, c] == [a] + [b, c];
  }

  lemma FourMembers(a: Member, b: Member, c: Member, d: Member)
    ensures |Dump(Object([a, b, c, d]))|
            == |DumpMember(a)| + |DumpMember(b)| + |DumpMember(c)| + |DumpMember(d)| + 5
  {
    ThreeMembers(b, c, d);
    MembersCons(a, [b, c, d]);
    assert [a, b, c, d] == [a] + [b, c, d];
  }

  lemma MemberLength(key: string, j: Json, width: nat)
    requires Plain(key) && |Dump(j)| <= width
    ensures |DumpMember(Member(key, j))| <= |key| + 3 + width
  {
    EscapeLength(key);
  }

  lemma OneMore(width: nat, n: nat)
    ensures (width + 1) * (n + 1) == (width + 1) * n + (width + 1)
  {
  }

  lemma {:induction false} ItemsLength(items: seq<Json>, width: nat)
    requires forall i :: 0 <= i < |items| ==> |Dump(items[i])| <= width
    ensures |DumpItems(items)| <= (width + 1) * |items|
  {
    if items != [] {
      var more := items[1..];
      assert forall i :: 0 <= i < |more| ==> more[i] == items[i + 1];
      ItemsLength(more, width);
      OneMore(width, |more|);
    }
  }
}
