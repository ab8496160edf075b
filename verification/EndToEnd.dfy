/** From the bytes of a connection to the protocol: parser, router and controller together. */
module EndToEnd {
  import opened CStrings
  import opened Decimal
  import opened Entities
  import opened Machine
  import opened LastTen
  import opened AtomicLedger
  import opened Protocol
  import opened HttpParser
  import opened Json
  import opened Repositories
  import opened Responses
  import opened Statement
  import opened Router
  import opened ClienteController
  import opened ControllerProtocol

  /** The segment is a client id that the controller looks up. */
  predicate IsId(segment: string) {
    1 <= |segment| <= 9 && AllDigits(segment)
  }

  /** Request i is dispatched as it was sent exactly if it and all requests before it fit. */
  lemma DispatchedAsSent(groups: seq<seq<Chunk>>, requests: seq<Request>, i: nat)
    requires CarryAll(groups, requests) && i < |requests|
    ensures var handed := AllDispatched(FRESH, Flatten(groups));
            && (i < |handed| <==> AllFit(requests[..i + 1]))
            && (i < |handed| ==> handed[i] == requests[i])
  {
    SequenceOfRequests(FRESH, groups, requests);
    if !AllFit(requests) {
      var n: nat :| FirstOversize(requests, n) && AllDispatched(FRESH, Flatten(groups)) == requests[..n];
      FitsBefore(requests, n, i);
    }
  }

  lemma FitsBefore(requests: seq<Request>, n: nat, i: nat)
    requires FirstOversize(requests, n) && i < |requests|
    ensures i < n <==> AllFit(requests[..i + 1])
  {
    if i < n {
      assert forall j :: 0 <= j <= i ==> requests[..i + 1][j] == requests[..n][j];
    } else {
      assert requests[..i + 1][n] == requests[n];
    }
  }

  lemma RoutedToSave(url: string, segment: string)
    requires IsRouted(url, segment, TRANSACOES) && IsId(segment)
    ensures FirstMatch(ROUTES, HTTP_POST, url) == SaveTransacao
    ensures IdOf(url) == Option.Some(Value(segment)) && IsInt32(Value(segment))
  {
    Routing(HTTP_POST, url);
    UrlToId(url, segment, TRANSACOES);
  }

  lemma RoutedToFind(url: string, segment: string)
    requires IsRouted(url, segment, EXTRATO) && IsId(segment)
    ensures FirstMatch(ROUTES, HTTP_GET, url) == FindById
    ensures IdOf(url) == Option.Some(Value(segment)) && IsInt32(Value(segment))
  {
    Routing(HTTP_GET, url);
    UrlToId(url, segment, EXTRATO);
  }

  /**
   A POST that fits with all requests before it, on the route of a client id, whose body
   `json` decodes to an acceptable one: the router gets it as sent, and whatever response the
   handler may give on the clients of a state s is the protocol's answer there for exactly
   that id and body.
   */
  lemma PostIsServed(
    groups: seq<seq<Chunk>>, requests: seq<Request>, i: nat, segment: string, json: string -> Body,
    s: Protocol.State, c: nat, texto: Option<string>, resp: Response, sent: seq<Transacao>)
    requires CarryAll(groups, requests) && i < |requests| && AllFit(requests[..i + 1])
    requires requests[i].verb == HTTP_POST && IsRouted(requests[i].url, segment, TRANSACOES) && IsId(segment)
    requires BodyAccepted(json(requests[i].body))
    requires CanRead(s, c) && Sendable(s, Requested(Value(segment), json(requests[i].body)), texto)
    ensures var handed := AllDispatched(FRESH, Flatten(groups));
            && i < |handed| && handed[i] == requests[i]
            && FirstMatch(ROUTES, handed[i].verb, handed[i].url) == SaveTransacao
    ensures var t := Requested(Value(segment), json(requests[i].body));
            && t.idCliente == Value(segment) && ValidTransacao(t)
            && (SaveSpec(requests[i].url, Option.Some(json(requests[i].body)), s.clientes, resp, sent) ==>
                  AnswersPost(s, c, t, texto, resp, sent))
  {
    DispatchedAsSent(groups, requests, i);
    RoutedToSave(requests[i].url, segment);
    var body := Option.Some(json(requests[i].body));
    AcceptedIsValid(Value(segment), body.value);
    if SaveSpec(requests[i].url, body, s.clientes, resp, sent) {
      SaveFollowsProtocol(requests[i].url, body, s, c, texto, resp, sent);
    }
  }

  /** The same for a GET, whose queries meet the states s and s'. */
  lemma GetIsServed(
    groups: seq<seq<Chunk>>, requests: seq<Request>, i: nat, segment: string,
    s: Protocol.State, s': Protocol.State, c: nat, list: seq<Row>, dates: seq<string>, resp: Response)
    requires CarryAll(groups, requests) && i < |requests| && AllFit(requests[..i + 1])
    requires requests[i].verb == HTTP_GET && IsRouted(requests[i].url, segment, EXTRATO) && IsId(segment)
    requires CanRead(s, c) && |list| == |dates| && FindSpec(requests[i].url, s.clientes, list, dates, resp)
    requires Value(segment) in s.clientes ==>
               HasRead(s, s', c, Value(segment)) && IsLastTen(s'.transacoes, Value(segment), list)
    ensures var handed := AllDispatched(FRESH, Flatten(groups));
            && i < |handed| && handed[i] == requests[i]
            && FirstMatch(ROUTES, handed[i].verb, handed[i].url) == FindById
    ensures Value(segment) in s.clientes ==>
              && HasRead(s, Do(s, ReadForExtrato(c, Value(segment))), c, Value(segment))
              && AnswersGet(s, s', c, Value(segment), list, dates, resp)
    ensures Value(segment) !in s.clientes ==> resp == Response.NotFound
  {
    DispatchedAsSent(groups, requests, i);
    RoutedToFind(requests[i].url, segment);
    if Value(segment) in s.clientes {
      FirstQuery(s, c, Value(segment));
      FindFollowsProtocol(requests[i].url, s, s', c, list, dates, resp);
    } else {
      FindWithoutClient(requests[i].url, s, c, list, dates, resp);
    }
  }

  lemma FortyTwo()
    ensures AllDigits("42") && Value("42") == 42 && |"42"| == 2
  {
    DigitText('4');
    DigitText('2');
    Positional("4", "2");
    assert "4" + "2" == "42" && Pow10(1) == 10 * Pow10(0) == 10;
  }

  /** Two requests as they stand in a request line: methods 1 (GET) and 3 (POST) of llhttp. */
  lemma RequestLines(find: string, save: string)
    requires find == "/clientes/42/extrato" && save == "/clientes/42/transacoes"
    ensures FirstMatch(ROUTES, 1, find) == FindById && IdOf(find) == Option.Some(42)
    ensures FirstMatch(ROUTES, 3, save) == SaveTransacao && IdOf(save) == Option.Some(42)
  {
    FortyTwo();
    assert IsRouted(find, "42", EXTRATO) && IsRouted(save, "42", TRANSACOES);
    RoutedToFind(find, "42");
    RoutedToSave(save, "42");
  }

  /**
   What a client gets for a credit of an existing client: a 200 with its balance plus the
   amount (the 64-bit sum); and the batch that is sent.
   */
  lemma CreditIsAnswered(
    url: string, id: int, body: Body, clientes: map<int, Cliente>, resp: Response, sent: seq<Transacao>)
    requires IdOf(url) == Option.Some(id) && id in clientes && BodyAccepted(body) && body.tipo.value == "c"
    requires SaveSpec(url, Option.Some(body), clientes, resp, sent)
    ensures sent == [Transacao(id, body.valor.value, 'c', Cut(body.descricao.value, 20))]
    ensures resp == SaldoOk(clientes[id].limite, Wrap64(clientes[id].saldo + body.valor.value))
  {
    AskedPost(url, id, body, clientes, resp, sent);
    RequestedFields(id, body);
    CreditAnswer(Requested(id, body), clientes, resp, sent);
  }

  /** The same for a debit whose difference is a 64-bit number; one past the limit gets a 422. */
  lemma DebitIsAnswered(
    url: string, id: int, body: Body, clientes: map<int, Cliente>, resp: Response, sent: seq<Transacao>)
    requires IdOf(url) == Option.Some(id) && id in clientes && BodyAccepted(body) && body.tipo.value == "d"
    requires ValidCliente(clientes[id]) && IsInt64(clientes[id].saldo - body.valor.value)
    requires SaveSpec(url, Option.Some(body), clientes, resp, sent)
    ensures var c := clientes[id]; var left := c.saldo - body.valor.value;
            && (left >= -c.limite ==>
                  && sent == [Transacao(id, body.valor.value, 'd', Cut(body.descricao.value, 20))]
                  && resp == SaldoOk(c.limite, left))
            && (left < -c.limite ==> sent == [] && resp == UnprocessableEntity)
  {
    AskedPost(url, id, body, clientes, resp, sent);
    RequestedFields(id, body);
    DebitAnswer(Requested(id, body), clientes, resp, sent);
  }

  /** From the bytes of a 200 to a POST, a client reads limit and balance in their low 32 bits. */
  lemma SaldoIsReceived(limite: int, saldo: int, now: string)
    ensures ReadsSaldo(Receive(Printed(SaldoOk(limite, saldo), now)).1, Wrap32(limite), Wrap32(saldo))
  {
    SaldoReceived(limite, saldo);
  }

  /** From the bytes of an extrato, a client reads all that was printed, in order. */
  lemma ExtratoIsReceived(total: int, limite: int, transacoes: seq<Record>, now: string)
    requires |transacoes| <= 10 && forall r :: r in transacoes ==> BoundedRow(r)
    requires |now| < MAX_BUFFER_DATE_TIME_ISO_STR && Plain(now)
    ensures ReadsExtrato(Receive(Printed(ExtratoOk(total, limite, transacoes), now)).1, total, now, limite, transacoes)
  {
    ExtratoReceived(total, now, limite, transacoes);
  }

  /**
   What a client gets for the extrato of an existing client: its row, and one record with all
   stored fields for each row that the second query answers with, in that order.
   */
  lemma ExtratoIsAnswered(
    url: string, id: int, clientes: map<int, Cliente>, rows: seq<Row>, list: seq<Row>, dates: seq<string>,
    resp: Response)
    requires IdOf(url) == Option.Some(id) && id in clientes
    requires IsLastTen(rows, id, list) && |dates| == |list| && DatesOk(dates)
    requires forall row :: row in rows ==> ValidTransacao(row.transacao)
    requires FindSpec(url, clientes, list, dates, resp)
    ensures resp == ExtratoOk(clientes[id].saldo, clientes[id].limite, Records(list, dates))
    ensures |list| <= 10 && forall i :: 0 <= i < |list| ==> Faithful(resp.transacoes[i], id, list[i], dates[i])
    ensures forall r :: r in resp.transacoes ==> BoundedRow(r)
  {
    RecordsFaithful(rows, id, list, dates);
  }
}
