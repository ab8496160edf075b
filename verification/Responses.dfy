/** The printed responses: compact JSON behind an HTTP header, and how long they get. */
module Responses {
  import opened CStrings
  import opened Decimal
  import opened Entities
  import opened Json
  import opened Machine
  import opened Repositories
  import opened Sequences
  import Utf8

  const MAX_BUFFER_FIND_BY_ID: nat := 2048
  const MAX_BUFFER_TRANSACAO_SAVE: nat := 256
  const MAX_BUFFER_DATE_TIME_ISO_STR: nat := 64

  // The values that json_pack builds; its "i" takes an int.

  function Int(n: int): Json {
    Number(Wrap32(n))
  }

  /** build_json_saldo. */
  function SaldoJson(limite: int, saldo: int): Json {
    Object([Member("limite", Int(limite)), Member("saldo", Int(saldo))])
  }

  /** build_json_saldo_data. */
  function SaldoDataJson(total: int, date: string, limite: int): Json {
    Object([Member("total", Int(total)), Member("data_extrato", Text(date)), Member("limite", Int(limite))])
  }

  /** build_json_transacao. */
  function TransacaoJson(r: Record): Json {
    Object([Member("valor", Int(r.valor)), Member("tipo", Text(r.tipo)), Member("descricao", Text(r.descricao)),
            Member("realizada_em", Text(r.realizadaEm))])
  }

  function TransacoesJson(rows: seq<Record>): (items: seq<Json>)
    ensures |items| == |rows| && forall i :: 0 <= i < |rows| ==> items[i] == TransacaoJson(rows[i])
  {
    seq(|rows|, i requires 0 <= i < |rows| => TransacaoJson(rows[i]))
  }

  /** build_json_transacoes. */
  method BuildTransacoes(transacoes: seq<Record>) returns (items: seq<Json>)
    ensures items == TransacoesJson(transacoes)
  {
    items := [];
    for i := 0 to |transacoes|
      invariant |items| == i && forall k :: 0 <= k < i ==> items[k] == TransacaoJson(transacoes[k])
    {
      items := items + [TransacaoJson(transacoes[i])];
    }
  }

  /** build_json_extrato. */
  function ExtratoJson(total: int, date: string, limite: int, rows: seq<Record>): Json {
    Object([Member("saldo", SaldoDataJson(total, date, limite)),
            Member("ultimas_transacoes", Array(TransacoesJson(rows)))])
  }

  // The bodies of the two answers.

  function JsonSaldo(limite: int, saldo: int): string {
    Dump(SaldoJson(limite, saldo))
  }

  function JsonExtrato(total: int, date: string, limite: int, rows: seq<Record>): string {
    Dump(ExtratoJson(total, date, limite, rows))
  }

  // What a client reads in them.

  /** The text is one JSON value that has this balance and this limit. */
  predicate ReadsSaldo(text: string, limite: int, saldo: int) {
    && Load(text).Read? && Load(text).rest == ""
    && Field(Load(text).value, "limite") == Some(Number(limite))
    && Field(Load(text).value, "saldo") == Some(Number(saldo))
  }

  lemma SaldoFields(limite: int, saldo: int)
    ensures Field(SaldoJson(limite, saldo), "limite") == Some(Int(limite))
    ensures Field(SaldoJson(limite, saldo), "saldo") == Some(Int(saldo))
  {
    var members := SaldoJson(limite, saldo).members;
    FieldAt(members, 0);
    FieldAt(members, 1);
  }

  /** A client that reads the answer to a POST finds the limit and the balance, each as its low 32 bits. */
  lemma SaldoReadBack(limite: int, saldo: int)
    ensures ReadsSaldo(JsonSaldo(limite, saldo), Wrap32(limite), Wrap32(saldo))
  {
    LoadWhole(SaldoJson(limite, saldo));
    SaldoFields(limite, saldo);
  }

  lemma ReadsOnce(text: string, limite: int, saldo: int, limite': int, saldo': int)
    requires ReadsSaldo(text, limite, saldo) && ReadsSaldo(text, limite', saldo')
    ensures limite == limite' && saldo == saldo'
  {
  }

  /** The value shows all that the extrato tells about a row. */
  predicate ShowsRow(j: Json, r: Record) {
    && Field(j, "valor") == Some(Number(Wrap32(r.valor)))
    && Field(j, "tipo") == Some(Text(r.tipo))
    && Field(j, "descricao") == Some(Text(r.descricao))
    && Field(j, "realizada_em") == Some(Text(r.realizadaEm))
  }

  predicate ShowsRows(j: Json, rows: seq<Record>) {
    && j.Array? && |j.items| == |rows|
    && forall i :: 0 <= i < |rows| ==> ShowsRow(j.items[i], rows[i])
  }

  predicate ShowsSaldo(j: Json, total: int, date: string, limite: int) {
    && Field(j, "total") == Some(Number(Wrap32(total)))
    && Field(j, "data_extrato") == Some(Text(date))
    && Field(j, "limite") == Some(Number(Wrap32(limite)))
  }

  /** The text is one JSON value that has the balance, the limit, the date and these rows in order. */
  predicate ReadsExtrato(text: string, total: int, date: string, limite: int, rows: seq<Record>) {
    && Load(text).Read? && Load(text).rest == ""
    && var j := Load(text).value;
    && Field(j, "saldo").Some? && ShowsSaldo(Field(j, "saldo").value, total, date, limite)
    && Field(j, "ultimas_transacoes").Some? && ShowsRows(Field(j, "ultimas_transacoes").value, rows)
  }

  lemma TransacaoFields(r: Record)
    ensures ShowsRow(TransacaoJson(r), r)
  {
    var members := TransacaoJson(r).members;
    FieldAt(members, 0);
    FieldAt(members, 1);
    FieldAt(members, 2);
    FieldAt(members, 3);
  }

  lemma SaldoDataFields(total: int, date: string, limite: int)
    ensures ShowsSaldo(SaldoDataJson(total, date, limite), total, date, limite)
  {
    var members := SaldoDataJson(total, date, limite).members;
    FieldAt(members, 0);
    FieldAt(members, 1);
    FieldAt(members, 2);
  }

  lemma ExtratoFields(total: int, date: string, limite: int, rows: seq<Record>)
    ensures var j := ExtratoJson(total, date, limite, rows);
            && Field(j, "saldo") == Some(SaldoDataJson(total, date, limite))
            && Field(j, "ultimas_transacoes") == Some(Array(TransacoesJson(rows)))
  {
    var members := ExtratoJson(total, date, limite, rows).members;
    FieldAt(members, 0);
    FieldAt(members, 1);
  }

  /** A client that reads the extrato finds balance, date, limit and every row with its fields. */
  lemma ExtratoReadBack(total: int, date: string, limite: int, rows: seq<Record>)
    ensures ReadsExtrato(JsonExtrato(total, date, limite, rows), total, date, limite, rows)
  {
    LoadWhole(ExtratoJson(total, date, limite, rows));
    ExtratoFields(total, date, limite, rows);
    SaldoDataFields(total, date, limite);
    forall i | 0 <= i < |rows|
      ensures ShowsRow(TransacoesJson(rows)[i], rows[i])
    {
      TransacaoFields(rows[i]);
    }
  }

  // The header.

  const CRLF: string := "\r\n"
  const STATUS: string := "HTTP/1.1 200 OK"
  const CONTENT_TYPE: string := "Content-Type: " + "application/json;" + " charset=utf-8"
  const CONTENT_LENGTH: string := "Content-Length: "

  /** template_response_http_200_json; %d reads the length as an int. */
  function Http200(body: string): string {
    STATUS + CRLF + (CONTENT_TYPE + CRLF + (CONTENT_LENGTH + Print(Wrap32(|body|)) + CRLF + (CRLF + body)))
  }

  // What a receiver makes of it.

  predicate StartsNewLine(s: string) {
    |s| >= 2 && s[0] == '\r' && s[1] == '\n'
  }

  function LineLength(s: string): (n: nat)
    ensures n <= |s| && (n < |s| ==> StartsNewLine(s[n..]))
  {
    if s == "" || StartsNewLine(s) then 0 else 1 + LineLength(s[1..])
  }

  /** Header lines up to the empty line, and the rest. */
  function Receive(s: string): (seq<string>, string)
    decreases |s|
  {
    var n := LineLength(s);
    if n + 2 > |s| then ([s], "")
    else if n == 0 then ([], s[2..])
    else
      var (lines, body) := Receive(s[n + 2..]);
      ([s[..n]] + lines, body)
  }

  lemma {:induction false} LineLengthIs(line: string, rest: string)
    requires '\r' !in line && StartsNewLine(rest)
    ensures LineLength(line + rest) == |line|
  {
    if line == "" {
      assert line + rest == rest;
    } else {
      LineLengthIs(line[1..], rest);
      assert (line + rest)[1..] == line[1..] + rest;
    }
  }

  lemma Prepend(line: string, rest: string, lines: seq<string>, body: string)
    requires line != "" && '\r' !in line && Receive(rest) == (lines, body)
    ensures Receive(line + CRLF + rest) == ([line] + lines, body)
  {
    var s := line + CRLF + rest;
    LineLengthIs(line, CRLF + rest);
    assert s == line + (CRLF + rest);
    assert s[..|line|] == line && s[|line| + 2..] == rest;
  }

  lemma ReceiveLast(c: string, body: string)
    requires c != "" && '\r' !in c
    ensures Receive(c + CRLF + (CRLF + body)) == ([c], body)
  {
    assert LineLength(CRLF + body) == 0 && (CRLF + body)[2..] == body;
    Prepend(c, CRLF + body, [], body);
    assert [c] + [] == [c];
  }

  lemma ReceiveThree(a: string, b: string, c: string, rest: string, body: string)
    requires a != "" && b != "" && '\r' !in a && '\r' !in b
    requires Receive(rest) == ([c], body)
    ensures Receive(a + CRLF + (b + CRLF + rest)) == ([a, b, c], body)
  {
    Prepend(b, rest, [c], body);
    assert [b] + [c] == [b, c];
    Prepend(a, b + CRLF + rest, [b, c], body);
    assert [a] + [b, c] == [a, b, c];
  }

  /** The declared length is the byte count of the body (section 8.6 of RFC 9110). */
  lemma DeclaredLength(body: string)
    requires |body| <= INT32_MAX
    ensures Receive(Http200(body)) == ([STATUS, CONTENT_TYPE, CONTENT_LENGTH + Print(|body|)], body)
    ensures Atol((CONTENT_LENGTH + Print(|body|))[|CONTENT_LENGTH|..]) == |body|
  {
    var length := Print(|body|);
    NoReturn(length);
    assert '\r' !in STATUS && '\r' !in CONTENT_TYPE && '\r' !in CONTENT_LENGTH;
    var line := CONTENT_LENGTH + length;
    ReceiveLast(line, body);
    ReceiveThree(STATUS, CONTENT_TYPE, line, line + CRLF + (CRLF + body), body);
    LengthReadBack(CONTENT_LENGTH, |body|);
  }

  lemma LengthReadBack(name: string, n: nat)
    ensures Atol((name + Print(n))[|name|..]) == n
  {
    PrintAtolRoundTrip(n, "");
    assert (name + Print(n))[|name|..] == Print(n) + "";
  }

  lemma NoReturn(digits: string)
    requires AllDigits(digits)
    ensures '\r' !in digits
  {
  }

  lemma Http200Length(body: string)
    requires |body| < 10_000
    ensures |Http200(body)| <= |body| + 88
  {
    assert Pow10(3) == 1_000 && Pow10(4) == 10_000;
    PrintNatLength(|body|, 4);
  }

  // Sizes.

  /** A row as the table can hold it: 20 bytes and ten code points of text, a plain date. */
  predicate BoundedRow(r: Record) {
    && |r.tipo| == 1 && Plain(r.tipo)
    && |r.descricao| <= 20 && Utf8.CountPoints(r.descricao) <= 10
    && |r.realizadaEm| <= 40 && Plain(r.realizadaEm)
  }

  lemma IntMemberLength(key: string, n: int)
    requires Plain(key)
    ensures |DumpMember(Member(key, Int(n)))| <= |key| + 14
  {
    IntLength(n);
    MemberLength(key, Int(n), 11);
  }

  lemma IntLength(n: int)
    ensures |Dump(Int(n))| <= 11
  {
    var w := Wrap32(n);
    assert Pow10(10) == 10_000_000_000 by {
      assert Pow10(3) == 1_000;
      assert Pow10(6) == 1_000_000;
      assert Pow10(9) == 1_000_000_000;
    }
    PrintNatLength(if w < 0 then -w else w, 10);
  }

  lemma TextMemberLength(key: string, s: string, width: nat)
    requires Plain(key) && (|s| + 5 * Utf8.CountPoints(s) <= width || (Plain(s) && |s| <= width))
    ensures |DumpMember(Member(key, Text(s)))| <= |key| + 5 + width
  {
    EscapeLength(s);
    MemberLength(key, Text(s), width + 2);
  }

  lemma RowMembersLength(k1: string, k2: string, k3: string, k4: string, r: Record)
    requires Plain(k1) && Plain(k2) && Plain(k3) && Plain(k4) && BoundedRow(r)
    ensures |Dump(Object([Member(k1, Int(r.valor)), Member(k2, Text(r.tipo)), Member(k3, Text(r.descricao)),
                          Member(k4, Text(r.realizadaEm))]))|
            <= |k1| + |k2| + |k3| + |k4| + 145
  {
    IntMemberLength(k1, r.valor);
    TextMemberLength(k2, r.tipo, 1);
    TextMemberLength(k3, r.descricao, 70);
    TextMemberLength(k4, r.realizadaEm, 40);
    FourMembers(Member(k1, Int(r.valor)), Member(k2, Text(r.tipo)), Member(k3, Text(r.descricao)),
                Member(k4, Text(r.realizadaEm)));
  }

  lemma RowLength(r: Record)
    requires BoundedRow(r)
    ensures |Dump(TransacaoJson(r))| <= 175
  {
    RowMembersLength("valor", "tipo", "descricao", "realizada_em", r);
  }

  lemma SaldoMembersLength(k1: string, total: int, k2: string, date: string, k3: string, limite: int)
    requires Plain(k1) && Plain(k2) && Plain(k3) && |date| < MAX_BUFFER_DATE_TIME_ISO_STR && Plain(date)
    ensures |Dump(Object([Member(k1, Int(total)), Member(k2, Text(date)), Member(k3, Int(limite))]))|
            <= |k1| + |k2| + |k3| + 100
  {
    IntMemberLength(k1, total);
    TextMemberLength(k2, date, 63);
    IntMemberLength(k3, limite);
    ThreeMembers(Member(k1, Int(total)), Member(k2, Text(date)), Member(k3, Int(limite)));
  }

  lemma SaldoDataLength(total: int, date: string, limite: int)
    requires |date| < MAX_BUFFER_DATE_TIME_ISO_STR && Plain(date)
    ensures |Dump(SaldoDataJson(total, date, limite))| <= 127
  {
    SaldoMembersLength("total", total, "data_extrato", date, "limite", limite);
  }

  lemma TransacoesLength(rows: seq<Record>)
    requires |rows| <= 10 && forall r :: r in rows ==> BoundedRow(r)
    ensures |Dump(Array(TransacoesJson(rows)))| <= 1762
  {
    var items := TransacoesJson(rows);
    forall i | 0 <= i < |items|
      ensures |Dump(items[i])| <= 175
    {
      assert rows[i] in rows;
      RowLength(rows[i]);
    }
    ItemsLength(items, 175);
  }

  lemma NestedLength(k1: string, a: Json, k2: string, b: Json)
    requires Plain(k1) && Plain(k2) && |Dump(a)| <= 127 && |Dump(b)| <= 1762
    ensures |Dump(Object([Member(k1, a), Member(k2, b)]))| <= |k1| + |k2| + 1898
  {
    MemberLength(k1, a, 127);
    MemberLength(k2, b, 1762);
    TwoMembers(Member(k1, a), Member(k2, b));
  }

  lemma ExtratoLength(total: int, date: string, limite: int, rows: seq<Record>)
    requires |rows| <= 10 && forall r :: r in rows ==> BoundedRow(r)
    requires |date| < MAX_BUFFER_DATE_TIME_ISO_STR && Plain(date)
    ensures |JsonExtrato(total, date, limite, rows)| <= 1925
  {
    SaldoDataLength(total, date, limite);
    TransacoesLength(rows);
    NestedLength("saldo", SaldoDataJson(total, date, limite), "ultimas_transacoes", Array(TransacoesJson(rows)));
  }

  /**
   Every statement of at most ten rows fits its buffer of 2048 bytes with the terminator,
   whatever the numbers and however much of the text must be escaped.
   */
  lemma StatementFits(total: int, date: string, limite: int, rows: seq<Record>)
    requires |rows| <= 10 && forall r :: r in rows ==> BoundedRow(r)
    requires |date| < MAX_BUFFER_DATE_TIME_ISO_STR && Plain(date)
    ensures |Http200(JsonExtrato(total, date, limite, rows))| + 1 <= MAX_BUFFER_FIND_BY_ID
  {
    ExtratoLength(total, date, limite, rows);
    Http200Length(JsonExtrato(total, date, limite, rows));
  }

  lemma PairLength(k1: string, n1: int, k2: string, n2: int)
    requires Plain(k1) && Plain(k2)
    ensures |Dump(Object([Member(k1, Int(n1)), Member(k2, Int(n2))]))| <= |k1| + |k2| + 31
  {
    IntMemberLength(k1, n1);
    IntMemberLength(k2, n2);
    TwoMembers(Member(k1, Int(n1)), Member(k2, Int(n2)));
  }

  lemma SaldoLength(limite: int, saldo: int)
    ensures |JsonSaldo(limite, saldo)| <= 42
  {
    PairLength("limite", limite, "saldo", saldo);
  }

  lemma SaldoFits(limite: int, saldo: int)
    ensures |Http200(JsonSaldo(limite, saldo))| + 1 <= MAX_BUFFER_TRANSACAO_SAVE
  {
    SaldoLength(limite, saldo);
    Http200Length(JsonSaldo(limite, saldo));
  }

  /** What a client reads in the answer to a POST, header included. */
  lemma SaldoReceived(limite: int, saldo: int)
    ensures ReadsSaldo(Receive(Http200(JsonSaldo(limite, saldo))).1, Wrap32(limite), Wrap32(saldo))
  {
    SaldoLength(limite, saldo);
    DeclaredLength(JsonSaldo(limite, saldo));
    SaldoReadBack(limite, saldo);
  }

  /** What a client reads in an extrato, header included. */
  lemma ExtratoReceived(total: int, date: string, limite: int, rows: seq<Record>)
    requires |rows| <= 10 && forall r :: r in rows ==> BoundedRow(r)
    requires |date| < MAX_BUFFER_DATE_TIME_ISO_STR && Plain(date)
    ensures ReadsExtrato(Receive(Http200(JsonExtrato(total, date, limite, rows))).1, total, date, limite, rows)
  {
    ExtratoLength(total, date, limite, rows);
    DeclaredLength(JsonExtrato(total, date, limite, rows));
    ExtratoReadBack(total, date, limite, rows);
  }
}
