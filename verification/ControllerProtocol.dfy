/** The handlers of cliente_controller.c do the steps of the protocol. */
module ControllerProtocol {
  import opened CStrings
  import opened Entities
  import opened LastTen
  import opened AtomicLedger
  import opened Protocol
  import opened Repositories
  import opened Responses
  import opened Router
  import opened ClienteController
  import opened Saldo

  /** The response that carries an answer of the protocol. */
  function Shown(a: Answer, dates: seq<string>): Response
    requires a.Extrato? ==> |a.list| == |dates|
  {
    match a
    case Accepted(b, limite, saldo) => SaldoOk(limite, saldo)
    case Refused(c, t, visto, lido) => UnprocessableEntity
    case NotFound(c, id) => Response.NotFound
    case Extrato(c, id, visto, lido, list, listed) => ExtratoOk(visto.saldo, visto.limite, Records(list, dates))
  }

  function SentWith(a: Answer): seq<Transacao> {
    if a.Accepted? then [a.batch.transacao] else []
  }

  /** If the limit test lets t through, the server reads its text as `texto`. */
  ghost predicate Sendable(s: State, t: Transacao, texto: Option<string>) {
    t.idCliente in s.clientes && !LimiteExcedido(s.clientes[t.idCliente], t) ==> Reads(t, texto)
  }

  /** The steps of a POST that asks for transaction t; the second one only if the client exists. */
  ghost function AfterPost(s: State, c: nat, t: Transacao, texto: Option<string>): State
    requires CanRead(s, c) && ValidTransacao(t) && Sendable(s, t, texto)
  {
    var s1 := Do(s, ReadForPost(c, t));
    if t.idCliente in s.clientes then Do(s1, AnswerPost(c, texto)) else s1
  }

  lemma PostAnswer(s: State, c: nat, t: Transacao, texto: Option<string>)
    requires CanRead(s, c) && ValidTransacao(t) && Sendable(s, t, texto)
    ensures var s' := AfterPost(s, c, t, texto); var lido := |s.outcomes|;
            && (t.idCliente !in s.clientes ==> s'.answers == s.answers + [Answer.NotFound(c, t.idCliente)])
            && (t.idCliente in s.clientes ==>
                  var visto := s.clientes[t.idCliente]; var b := Batch(c, t, visto, lido, texto);
                  && (LimiteExcedido(visto, t) ==> s'.answers == s.answers + [Refused(c, t, visto, lido)])
                  && (!LimiteExcedido(visto, t) ==>
                        && s'.answers == s.answers + [Accepted(b, visto.limite, SaldoLocal(visto, t))]
                        && c < |s'.connections| && s'.connections[c].flight == InFlight(b, Sent, 0, 0, 0)))
  {
  }

  /** The response shows the answer of the two steps, and `sent` is the batch they send. */
  ghost predicate AnswersPost(
    s: State, c: nat, t: Transacao, texto: Option<string>, resp: Response, sent: seq<Transacao>)
    requires CanRead(s, c) && ValidTransacao(t) && Sendable(s, t, texto)
  {
    var s' := AfterPost(s, c, t, texto);
    && |s'.answers| == |s.answers| + 1 && s'.answers[..|s.answers|] == s.answers
    && var a := s'.answers[|s.answers|];
    && !a.Extrato? && resp == Shown(a, []) && sent == SentWith(a)
    && (a.Accepted? ==> c < |s'.connections| && s'.connections[c].flight == InFlight(a.batch, Sent, 0, 0, 0))
  }

  /**
   On the committed clients of any state, a POST that passes the checks gets the response
   that shows the answer of the protocol's two steps, and sends the batch that they send.
   */
  lemma SaveFollowsProtocol(
    url: string, body: Option<Body>, s: State, c: nat, texto: Option<string>, resp: Response, sent: seq<Transacao>)
    requires CanRead(s, c) && SaveSpec(url, body, s.clientes, resp, sent) && Asks(url, body)
    requires Sendable(s, Requested(IdOf(url).value, body.value), texto)
    ensures ValidTransacao(Requested(IdOf(url).value, body.value))
    ensures AnswersPost(s, c, Requested(IdOf(url).value, body.value), texto, resp, sent)
  {
    AcceptedIsValid(IdOf(url).value, body.value);
    PostAnswer(s, c, Requested(IdOf(url).value, body.value), texto);
  }

  /** Without an acceptable id and body nothing is sent, and the response does not depend on the database. */
  lemma SaveWithoutAsking(
    url: string, body: Option<Body>, a: map<int, Cliente>, b: map<int, Cliente>,
    resp: Response, sent: seq<Transacao>, resp': Response, sent': seq<Transacao>)
    requires !Asks(url, body)
    requires SaveSpec(url, body, a, resp, sent) && SaveSpec(url, body, b, resp', sent')
    ensures sent == sent' == [] && resp == resp' && !resp.SaldoOk? && !resp.NotFound?
  {
  }

  lemma ExtratoAnswer(s: State, c: nat, list: seq<Row>)
    requires c < |s.connections|
    requires s.connections[c].process.ExtratoRead? && !s.connections[c].flight.InFlight?
    requires IsLastTen(s.transacoes, s.connections[c].process.id, list)
    ensures Enabled(s, AnswerExtrato(c, list))
    ensures var p := s.connections[c].process;
            Do(s, AnswerExtrato(c, list)).answers
            == s.answers + [Extrato(c, p.id, p.visto, p.lido, list, |s.outcomes|)]
  {
  }

  /** Connection c has read client id in s for an extrato, and done nothing since, until s'. */
  predicate HasRead(s: State, s': State, c: nat, id: int) {
    && id in s.clientes && c < |s'.connections|
    && s'.connections[c] == Connection(ExtratoRead(id, s.clientes[id], |s.outcomes|), Idle)
  }

  /** The second query may answer with `list` in s', and the response shows the protocol's answer. */
  ghost predicate AnswersGet(
    s: State, s': State, c: nat, id: int, list: seq<Row>, dates: seq<string>, resp: Response)
    requires |list| == |dates| && id in s.clientes
  {
    var a := Extrato(c, id, s.clientes[id], |s.outcomes|, list, |s'.outcomes|);
    && Enabled(s', AnswerExtrato(c, list))
    && Do(s', AnswerExtrato(c, list)).answers == s'.answers + [a] && resp == Shown(a, dates)
  }

  /** The state right after the first query is one. */
  lemma FirstQuery(s: State, c: nat, id: int)
    requires CanRead(s, c) && id in s.clientes
    ensures HasRead(s, Do(s, ReadForExtrato(c, id)), c, id)
  {
  }

  lemma ShownExtrato(id: int, s: State, a: Answer, dates: seq<string>, resp: Response)
    requires a.Extrato? && a.id == id && id in s.clientes && a.visto == s.clientes[id]
    requires |a.list| == |dates| && ExtratoSpec(id, s.clientes, a.list, dates, resp)
    ensures resp == Shown(a, dates)
  {
  }

  lemma ExtratoFollowsProtocol(
    id: int, s: State, s': State, c: nat, list: seq<Row>, dates: seq<string>, resp: Response)
    requires HasRead(s, s', c, id) && IsLastTen(s'.transacoes, id, list)
    requires |list| == |dates| && ExtratoSpec(id, s.clientes, list, dates, resp)
    ensures AnswersGet(s, s', c, id, list, dates, resp)
  {
    ExtratoAnswer(s', c, list);
    ShownExtrato(id, s, Extrato(c, id, s.clientes[id], |s.outcomes|, list, |s'.outcomes|), dates, resp);
  }

  /**
   A GET with a valid id, whose first query meets the clients of s and whose second query
   answers with `list` in s': the response shows the protocol's answer.
   */
  lemma FindFollowsProtocol(
    url: string, s: State, s': State, c: nat, list: seq<Row>, dates: seq<string>, resp: Response)
    requires IdOf(url).Some? && HasRead(s, s', c, IdOf(url).value)
    requires IsLastTen(s'.transacoes, IdOf(url).value, list) && |list| == |dates|
    requires FindSpec(url, s.clientes, list, dates, resp)
    ensures AnswersGet(s, s', c, IdOf(url).value, list, dates, resp)
  {
    ExtratoFollowsProtocol(IdOf(url).value, s, s', c, list, dates, resp);
  }

  /** Without such a client the answer is that of the first query. */
  lemma FindWithoutClient(
    url: string, s: State, c: nat, list: seq<Row>, dates: seq<string>, resp: Response)
    requires CanRead(s, c) && IdOf(url).Some? && IdOf(url).value !in s.clientes && |list| == |dates|
    requires FindSpec(url, s.clientes, list, dates, resp)
    ensures var a := Answer.NotFound(c, IdOf(url).value);
            Do(s, ReadForExtrato(c, IdOf(url).value)).answers == s.answers + [a] && resp == Shown(a, dates)
  {
  }
}
