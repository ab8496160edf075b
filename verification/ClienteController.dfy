/** The two request handlers of src/controller/cliente_controller.c. */
module ClienteController {
  import opened CStrings
  import opened Decimal
  import opened Entities
  import opened Machine
  import opened Saldo
  import opened Router
  import opened Repositories
  import opened Responses
  import opened DbConnection
  import opened SqlText
  import Utf8
  import AtomicLedger

  /**
   The members of the decoded request body; None where the JSON value is missing or has
   another type. A body that is not JSON at all decodes to three times None.
   */
  datatype Body = Body(valor: Option<Int64>, tipo: Option<string>, descricao: Option<string>)

  /** Where the C code leaves what the language defines. */
  datatype Fault =
    | ParamOverrun  // extract_url_param writes past its buffer
    | NullTipo      // strlen of a null pointer

  /** Which response goes back, with the values that are printed; Undefined where there may be none. */
  datatype Response =
    | BadRequest
    | NotFound
    | UnprocessableEntity
    | SaldoOk(limite: int, saldo: int)
    | ExtratoOk(total: int, limite: int, transacoes: seq<Record>)
    | Undefined(fault: Fault)

  predicate IsDescricaoTransacaoValida(descricao: Option<string>) {
    descricao.Some? && 1 <= Utf8.CountPoints(CString(descricao.value)) <= TRANSACAO_DESCRICAO_LEN
  }

  predicate IsTipoTransacaoValido(tipo: string) {
    |CString(tipo)| == 1 && (tipo[0] == 'c' || tipo[0] == 'd')
  }

  predicate IsValorTransacaoValido(valor: int) {
    valor > 0
  }

  /** The text that a 200 leaves in its static buffer. */
  function Printed(resp: Response, now: string): string
    requires resp.SaldoOk? || resp.ExtratoOk?
  {
    match resp
    case SaldoOk(limite, saldo) => Http200(JsonSaldo(limite, saldo))
    case ExtratoOk(total, limite, transacoes) => Http200(JsonExtrato(total, now, limite, transacoes))
  }

  /** A body that passes the three checks. */
  predicate BodyAccepted(body: Body) {
    && IsDescricaoTransacaoValida(body.descricao)
    && body.tipo.Some? && IsTipoTransacaoValido(body.tipo.value)
    && body.valor.Some? && IsValorTransacaoValido(body.valor.value)
  }

  /** is_tipo_transacao_valido is reached with the null pointer of a missing tipo. */
  predicate ReadsNullTipo(body: Body) {
    IsDescricaoTransacaoValida(body.descricao) && body.tipo.None?
  }

  /** The C record of a request that passed the checks. */
  function Requested(idCliente: int, body: Body): Transacao
    requires BodyAccepted(body)
  {
    Transacao(idCliente, body.valor.value, body.tipo.value[0], Cut(body.descricao.value, UTF8_TRANSACAO_DESCRICAO_LEN))
  }

  /** The bodies that are accepted, by what is in them. */
  lemma AcceptedBodies(body: Body, points: seq<Utf8.Scalar>)
    requires body.descricao == Option.Some(Utf8.Encode(points)) && 0 !in points
    requires body.tipo.Some? ==> NUL !in body.tipo.value
    ensures BodyAccepted(body)
            <==> && 1 <= |points| <= 10
                 && (body.tipo == Option.Some("c") || body.tipo == Option.Some("d"))
                 && body.valor.Some? && body.valor.value >= 1
  {
    var d := Utf8.Encode(points);
    Utf8.EncodeBounds(points);
    Utf8.CountEncode(points);
    CStringUnique(d, d);
    if body.tipo.Some? {
      CStringUnique(body.tipo.value, body.tipo.value);
      OneCharText(body.tipo.value);
    }
  }

  lemma OneCharText(s: string)
    ensures |s| == 1 && s[0] == 'c' <==> s == "c"
    ensures |s| == 1 && s[0] == 'd' <==> s == "d"
  {
  }

  /** Cutting cannot add code points, so every accepted body gives a transaction the protocol takes. */
  lemma AcceptedIsValid(idCliente: int, body: Body)
    requires BodyAccepted(body)
    ensures ValidTransacao(Requested(idCliente, body))
  {
    var d := CString(body.descricao.value);
    var cut := Cut(body.descricao.value, UTF8_TRANSACAO_DESCRICAO_LEN);
    assert d == cut + d[|cut|..];
    Utf8.CountConcat(cut, d[|cut|..]);
  }

  /** Byte 20 of the text does not fall inside a code point. */
  predicate CutBetweenPoints(text: string) {
    |text| <= UTF8_TRANSACAO_DESCRICAO_LEN || !Utf8.IsContinuation(text[UTF8_TRANSACAO_DESCRICAO_LEN])
  }

  /** The text that is sent is valid UTF-8 exactly when the cut at 20 bytes splits no code point. */
  lemma CutTextValid(idCliente: int, body: Body, points: seq<Utf8.Scalar>)
    requires BodyAccepted(body) && body.descricao.value == Utf8.Encode(points) && 0 !in points
    ensures Utf8.Valid(Requested(idCliente, body).descricao) <==> CutBetweenPoints(Utf8.Encode(points))
  {
    var d := Utf8.Encode(points);
    Utf8.EncodeBounds(points);
    CStringUnique(d, d);
    Utf8.CutValid(points, Min(UTF8_TRANSACAO_DESCRICAO_LEN, |d|));
  }

  /**
   The insert stores what the controller accepted, cut at 20 bytes, exactly if valor fits its
   column, the cut splits no code point and what is left of the text holds no quote.
   */
  lemma RequestStorable(idCliente: int, body: Body, points: seq<Utf8.Scalar>)
    requires BodyAccepted(body)
    requires body.descricao.value == Utf8.Encode(points) && 0 !in points
    ensures AtomicLedger.Storable(Requested(idCliente, body))
            <==> && body.valor.value <= INT32_MAX
                 && CutBetweenPoints(body.descricao.value)
                 && QUOTE !in Cut(body.descricao.value, UTF8_TRANSACAO_DESCRICAO_LEN)
  {
    AcceptedIsValid(idCliente, body);
    CutTextValid(idCliente, body, points);
    PastedText(Requested(idCliente, body).descricao);
  }

  /** Text with no code point above U+07FF is copied whole; it is stored as it is unless it holds a quote. */
  lemma NarrowTextWhole(idCliente: int, body: Body, points: seq<Utf8.Scalar>)
    requires BodyAccepted(body) && body.descricao.value == Utf8.Encode(points)
    requires forall i :: 0 <= i < |points| ==> 0 < points[i] < 0x800
    ensures Requested(idCliente, body).descricao == Utf8.Encode(points)
    ensures AtomicLedger.TextAccepted(Requested(idCliente, body)) <==> QUOTE as int !in points
  {
    var d := Utf8.Encode(points);
    Utf8.EncodeBounds(points);
    Utf8.CountEncode(points);
    CStringUnique(d, d);
    CutWhole(d, UTF8_TRANSACAO_DESCRICAO_LEN);
    Utf8.AsciiByte(points, QUOTE);
    PastedText(d);
  }

  /** The shortest text with a quote, and the smallest valor that is too wide: both are accepted. */
  lemma AcceptedNotStorable(idCliente: int, quoted: Body, wide: Body)
    requires quoted == Body(Option.Some(1), Option.Some("c"), Option.Some([QUOTE]))
    requires wide == Body(Option.Some(INT32_MAX + 1), Option.Some("c"), Option.Some("ok"))
    ensures BodyAccepted(quoted) && !AtomicLedger.Storable(Requested(idCliente, quoted))
    ensures BodyAccepted(wide) && !AtomicLedger.Storable(Requested(idCliente, wide))
  {
    Utf8.AsciiIsValid([QUOTE]);
    Utf8.AsciiIsValid("ok");
    CStringUnique([QUOTE], [QUOTE]);
    CStringUnique("ok", "ok");
    CStringUnique("c", "c");
    CutWhole([QUOTE], UTF8_TRANSACAO_DESCRICAO_LEN);
    PastedText([QUOTE]);
  }

  /** Up to ten ASCII characters pass, and are sent whole. */
  lemma PlainBodyAccepted(idCliente: int, body: Body)
    requires body.valor == Option.Some(1) && body.tipo == Option.Some("c") && body.descricao.Some?
    requires 1 <= |body.descricao.value| <= 10
    requires forall i :: 0 <= i < |body.descricao.value| ==> 0 < body.descricao.value[i] as int < 0x80
    ensures BodyAccepted(body) && Requested(idCliente, body).descricao == body.descricao.value
    ensures Utf8.Valid(body.descricao.value)
  {
    var text := body.descricao.value;
    Utf8.AsciiIsValid(text);
    CStringUnique(text, text);
    CStringUnique("c", "c");
    CutWhole(text, UTF8_TRANSACAO_DESCRICAO_LEN);
  }

  /**
   A text that closes its constant early passes the checks: behind the empty constant the
   server finds the end of the insert and a statement of the text's own, which the model does not run.
   */
  lemma EarlyCloseAccepted(idCliente: int, more: string, body: Body)
    requires more == ");begin--"
    requires body == Body(Option.Some(1), Option.Some("c"), Option.Some([QUOTE] + more))
    ensures BodyAccepted(body) && Pasted(Requested(idCliente, body).descricao) == Literal("", more + CLOSE)
    ensures forall texto :: !AtomicLedger.Reads(Requested(idCliente, body), texto)
  {
    PlainBodyAccepted(idCliente, body);
    AtomicLedger.ClosesEarly(Requested(idCliente, body), more);
  }

  /** Seven euro signs pass the checks, and the text that is sent is not valid UTF-8. */
  lemma CutCanSplit(idCliente: int, points: seq<Utf8.Scalar>, body: Body)
    requires points == [0x20AC, 0x20AC, 0x20AC, 0x20AC, 0x20AC, 0x20AC, 0x20AC]
    requires body == Body(Option.Some(1), Option.Some("c"), Option.Some(Utf8.Encode(points)))
    ensures BodyAccepted(body) && !Utf8.Valid(Requested(idCliente, body).descricao)
  {
    Utf8.EncodeBounds(points);
    Utf8.CountEncode(points);
    var d := Utf8.Encode(points);
    CStringUnique(d, d);
    CStringUnique("c", "c");
    assert d[20] == Utf8.EncodeOne(0x20AC)[2] by {
      EuroSigns(points);
    }
    CutTextValid(idCliente, body, points);
  }

  lemma {:induction false} EuroSigns(points: seq<Utf8.Scalar>)
    requires points != [] && forall i :: 0 <= i < |points| ==> points[i] == 0x20AC
    ensures |Utf8.Encode(points)| == 3 * |points|
    ensures Utf8.Encode(points)[3 * |points| - 1] == Utf8.EncodeOne(0x20AC)[2]
  {
    if |points| > 1 {
      EuroSigns(points[1..]);
    } else {
      assert points[1..] == [];
    }
  }

  /** The C struct Cliente. */
  class ClienteRecord {
    var limite: int
    var saldo: int

    constructor (c: Cliente)
      ensures limite == c.limite && saldo == c.saldo
    {
      limite, saldo := c.limite, c.saldo;
    }

    /**
     update_saldo_cliente: the balance that the UPDATE computes on this row, modulo 2^64; so
     where the UPDATE succeeds the record is the row that it leaves.
     */
    method UpdateSaldo(t: Transacao)
      modifies this`saldo
      ensures saldo == Wrap64(SaldoSql(old(saldo), t))
      ensures UpdateAccepted(Cliente(limite, old(saldo)), t) ==>
                saldo == SaldoSql(old(saldo), t) && saldo >= -limite
    {
      if t.tipo == 'c' {
        saldo := Wrap64(saldo + t.valor);
      } else {
        saldo := Wrap64(saldo - t.valor);
      }
    }
  }

  /** What the handlers see of the database: what its queries answer, and the batches they send. */
  class Database {
    const clientes: map<int, Cliente>
    const ultimas: map<int, seq<Row>>
    const toChar: int -> string
    var sent: seq<Transacao>

    constructor (clientes: map<int, Cliente>, ultimas: map<int, seq<Row>>, toChar: int -> string)
      ensures this.clientes == clientes && this.ultimas == ultimas && this.toChar == toChar && sent == []
    {
      this.clientes, this.ultimas, this.toChar, sent := clientes, ultimas, toChar, [];
    }

    function Listed(id: int): seq<Row> {
      if id in ultimas then ultimas[id] else []
    }

    /** cliente_service_find_one: the row as it comes through the text protocol. */
    method FindOne(id: int) returns (cliente: ClienteRecord?)
      ensures cliente == null <==> id !in clientes
      ensures cliente != null ==> fresh(cliente) && Cliente(cliente.limite, cliente.saldo) == clientes[id]
    {
      if id in clientes {
        var c := clientes[id];
        ClienteRoundTrip(id, c);
        cliente := new ClienteRecord(DecodeCliente([Print(id), Print(c.limite), Print(c.saldo)]));
      } else {
        cliente := null;
      }
    }

    /** transacao_service_save_async. */
    method SaveAsync(t: Transacao) returns (ok: bool)
      modifies this`sent
      ensures ok && sent == old(sent) + [t]
    {
      sent := sent + [t];
      ok := true;
    }

    /** transacao_service_find_last_10: the result set of the query, through the copy loop. */
    method FindLast10(id: int) returns (transacoes: seq<Record>)
      ensures transacoes == Records(Listed(id), Dates(Listed(id), toChar))
    {
      var rows := Listed(id);
      var dates := Dates(rows, toChar);
      var res := seq(|rows|, i requires 0 <= i < |rows| => Columns(rows[i], dates[i]));
      var result := new ResultSet(res, 6);
      var values := Repositories.FindLast10(result, res);
      transacoes := values[..];
    }
  }

  function Dates(rows: seq<Row>, toChar: int -> string): (dates: seq<string>)
    ensures |dates| == |rows|
  {
    seq(|rows|, i requires 0 <= i < |rows| => toChar(rows[i].realizadaEm))
  }

  /** The request has an id and a body that pass all checks. */
  predicate Asks(url: string, body: Option<Body>) {
    IdOf(url).Some? && body.Some? && BodyAccepted(body.value)
  }

  /** What a POST with this URL and body must get, and which batches it must send. */
  predicate SaveSpec(
    url: string, body: Option<Body>, clientes: map<int, Cliente>, resp: Response, sent: seq<Transacao>)
  {
    && (resp == Undefined(ParamOverrun) <==> BufferedParam(url).Overrun?)
    && (resp == Undefined(NullTipo) <==> IdOf(url).Some? && body.Some? && ReadsNullTipo(body.value))
    && (resp == BadRequest <==> BufferedParam(url).Inside? && body.None?)
    && !resp.ExtratoOk?
    && (resp.Undefined? ==> resp.fault == ParamOverrun || resp.fault == NullTipo)
    && (Asks(url, body) ==> PostSpec(Requested(IdOf(url).value, body.value), clientes, resp, sent))
    && (!Asks(url, body) ==> !resp.NotFound? && !resp.SaldoOk? && sent == [])
  }

  /** What a transaction that passed the checks must get. */
  predicate PostSpec(t: Transacao, clientes: map<int, Cliente>, resp: Response, sent: seq<Transacao>) {
    && (resp == NotFound <==> t.idCliente !in clientes)
    && (resp == UnprocessableEntity <==> t.idCliente in clientes && LimiteExcedido(clientes[t.idCliente], t))
    && (resp.SaldoOk? <==> t.idCliente in clientes && !LimiteExcedido(clientes[t.idCliente], t))
    && (resp.SaldoOk? ==>
          resp == SaldoOk(clientes[t.idCliente].limite, SaldoLocal(clientes[t.idCliente], t)) && sent == [t])
    && (!resp.SaldoOk? ==> sent == [])
  }

  /** The part of cliente_controller_save_transacao behind the checks. */
  method Post(transacao: Transacao, db: Database) returns (resp: Response)
    modifies db`sent
    ensures old(db.sent) <= db.sent && PostSpec(transacao, db.clientes, resp, db.sent[|old(db.sent)|..])
    ensures !resp.ExtratoOk?
  {
    var cliente := db.FindOne(transacao.idCliente);
    if cliente == null {
      return NotFound;
    }
    if LimiteExcedido(Cliente(cliente.limite, cliente.saldo), transacao) {
      return UnprocessableEntity;
    }
    var ret := db.SaveAsync(transacao);
    if !ret {
      return UnprocessableEntity;
    }
    cliente.UpdateSaldo(transacao);
    resp := SaldoOk(cliente.limite, cliente.saldo);
  }

  /**
   cliente_controller_save_transacao. The status tells which test failed first; a batch is
   sent exactly with a 200, and it is the transaction that was asked for.
   */
  method HandleSave(url: string, body: Option<Body>, db: Database, buffer: array<char>) returns (resp: Response)
    requires buffer.Length == MAX_BUFFER_URL_PARAM
    modifies db`sent, buffer
    ensures old(db.sent) <= db.sent && SaveSpec(url, body, db.clientes, resp, db.sent[|old(db.sent)|..])
  {
    resp := BadRequest;
    var param := ExtractUrlParam(buffer, url);
    if param.Overrun? {
      return Undefined(ParamOverrun);
    }
    if body.None? {
      return BadRequest;
    }
    if !IsIdClienteValido(param.text) {
      return UnprocessableEntity;
    }
    var idCliente := Atol(param.text);
    if ReadsNullTipo(body.value) {
      return Undefined(NullTipo);
    }
    if BodyAccepted(body.value) {
      resp := Post(Requested(idCliente, body.value), db);
    } else {
      resp := UnprocessableEntity;
    }
  }

  /** What a GET with this URL must get, if the second query answers with these rows. */
  predicate FindSpec(
    url: string, clientes: map<int, Cliente>, list: seq<Row>, dates: seq<string>, resp: Response)
    requires |list| == |dates|
  {
    && (resp == Undefined(ParamOverrun) <==> BufferedParam(url).Overrun?)
    && (resp == BadRequest <==> BufferedParam(url).Inside? && IdOf(url).None?)
    && (IdOf(url).Some? ==> ExtratoSpec(IdOf(url).value, clientes, list, dates, resp))
  }

  /** What a request for the extrato of a client must get. */
  predicate ExtratoSpec(id: int, clientes: map<int, Cliente>, list: seq<Row>, dates: seq<string>, resp: Response)
    requires |list| == |dates|
  {
    && (resp == NotFound <==> id !in clientes)
    && (id in clientes ==> resp == ExtratoOk(clientes[id].saldo, clientes[id].limite, Records(list, dates)))
  }

  /** cliente_controller_find_by_id. */
  method HandleFind(url: string, db: Database, buffer: array<char>) returns (resp: Response)
    requires buffer.Length == MAX_BUFFER_URL_PARAM
    modifies buffer
    ensures var list := if IdOf(url).Some? then db.Listed(IdOf(url).value) else [];
            FindSpec(url, db.clientes, list, Dates(list, db.toChar), resp)
  {
    resp := BadRequest;
    var param := ExtractUrlParam(buffer, url);
    if param.Overrun? {
      return Undefined(ParamOverrun);
    }
    if IsIdClienteValido(param.text) {
      var idCliente := Atol(param.text);
      var cliente := db.FindOne(idCliente);
      if cliente != null {
        var transacoes := db.FindLast10(idCliente);
        resp := ExtratoOk(cliente.saldo, cliente.limite, transacoes);
      } else {
        resp := NotFound;
      }
    }
  }

  /** A description and no tipo: the process reads a null pointer, whoever the client is. */
  lemma MissingTipo(url: string, body: Body, clientes: map<int, Cliente>, resp: Response, sent: seq<Transacao>)
    requires IsRouted(url, "1", TRANSACOES) && body == Body(Option.Some(1), Option.None, Option.Some("ok"))
    requires SaveSpec(url, Option.Some(body), clientes, resp, sent)
    ensures resp == Undefined(NullTipo)
  {
    UrlToId(url, "1", TRANSACOES);
    Utf8.AsciiIsValid("ok");
    CStringUnique("ok", "ok");
  }

  lemma AskedPost(url: string, id: int, body: Body, clientes: map<int, Cliente>, resp: Response, sent: seq<Transacao>)
    requires SaveSpec(url, Option.Some(body), clientes, resp, sent)
    requires IdOf(url) == Option.Some(id) && BodyAccepted(body)
    ensures PostSpec(Requested(id, body), clientes, resp, sent)
  {
  }

  /** The transaction has the amount, the letter and the first 20 bytes of the text of the body. */
  lemma RequestedFields(id: int, body: Body)
    requires BodyAccepted(body)
    ensures body.tipo.value == "c" ==>
              Requested(id, body) == Transacao(id, body.valor.value, 'c', Cut(body.descricao.value, 20))
    ensures body.tipo.value == "d" ==>
              Requested(id, body) == Transacao(id, body.valor.value, 'd', Cut(body.descricao.value, 20))
  {
  }

  /** A credit of an existing client is always answered 200, with the sum, and sent. */
  lemma CreditAnswer(t: Transacao, clientes: map<int, Cliente>, resp: Response, sent: seq<Transacao>)
    requires PostSpec(t, clientes, resp, sent) && t.idCliente in clientes && t.tipo == 'c'
    ensures var c := clientes[t.idCliente]; resp == SaldoOk(c.limite, Wrap64(c.saldo + t.valor)) && sent == [t]
  {
  }

  /** A debit whose difference is a 64-bit number is answered 200 with it exactly if the limit allows it. */
  lemma DebitAnswer(t: Transacao, clientes: map<int, Cliente>, resp: Response, sent: seq<Transacao>)
    requires PostSpec(t, clientes, resp, sent) && t.idCliente in clientes && t.tipo == 'd'
    requires ValidCliente(clientes[t.idCliente]) && IsInt64(clientes[t.idCliente].saldo - t.valor)
    ensures var c := clientes[t.idCliente];
            && (c.saldo - t.valor >= -c.limite ==> resp == SaldoOk(c.limite, c.saldo - t.valor) && sent == [t])
            && (c.saldo - t.valor < -c.limite ==> resp == UnprocessableEntity && sent == [])
  {
    assert IsInt64(-clientes[t.idCliente].limite);
  }

  /** The printed answer shows limit and balance of the row that the UPDATE leaves exactly if both fit 32 bits. */
  lemma AnswerShowsRow(c: Cliente, t: Transacao)
    requires ValidCliente(c) && ValidTransacao(t) && UpdateAccepted(c, t)
    ensures ReadsSaldo(JsonSaldo(c.limite, SaldoLocal(c, t)), c.limite, SaldoSql(c.saldo, t))
            <==> IsInt32(c.limite) && IsInt32(SaldoSql(c.saldo, t))
  {
    var text := JsonSaldo(c.limite, SaldoLocal(c, t));
    ReportedBalanceExact(c, t);
    SaldoReadBack(c.limite, SaldoLocal(c, t));
    if ReadsSaldo(text, c.limite, SaldoSql(c.saldo, t)) {
      ReadsOnce(text, c.limite, SaldoSql(c.saldo, t), Wrap32(c.limite), Wrap32(SaldoLocal(c, t)));
    }
  }
}
