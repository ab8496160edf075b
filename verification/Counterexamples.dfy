/** Runs from the clients of init.sql in which a 200 promises less than it seems to. */
module Counterexamples {
  import opened Entities
  import opened Machine
  import opened Saldo
  import opened AtomicLedger
  import opened SqlText
  import opened Protocol
  import opened Schedules
  import opened Responses
  import Utf8

  lemma OkText(t: Transacao)
    requires t.descricao == "ok"
    ensures Reads(t, Some("ok")) && Utf8.CountPoints("ok") == 2
  {
    Utf8.AsciiIsValid("ok");
    PastedText("ok");
  }

  // Two processes.

  /** Both processes read the row before either batch is sent, and both answer 200. */
  lemma BothAnswer(t: Transacao) returns (s: State)
    requires ValidTransacao(t) && t.idCliente == 1 && t.descricao == "ok"
    requires !LimiteExcedido(Cliente(100000, 0), t)
    ensures Reachable(INIT_SQL, 2, s) && |s.connections| == 2
    ensures var b0 := Batch(0, t, Cliente(100000, 0), 0, Some("ok"));
            var saldo := SaldoLocal(Cliente(100000, 0), t);
            && s.answers == [Accepted(b0, 100000, saldo), Accepted(b0.(connection := 1), 100000, saldo)]
            && Waiting(s, 0, b0) && Waiting(s, 1, b0.(connection := 1))
    ensures s.clientes == INIT_SQL.clientes && s.locks == map[] && s.outcomes == []
  {
    OkText(t);
    Start(INIT_SQL, 2);
    var s1 := Read(INIT_SQL, 2, Init(INIT_SQL, 2), 0, t);
    var s2 := Read(INIT_SQL, 2, s1, 1, t);
    var s3 := Send(INIT_SQL, 2, s2, 0, Some("ok"));
    s := Send(INIT_SQL, 2, s3, 1, Some("ok"));
  }

  /**
   A 200 for a debit is not a promise: two processes read client 1, both answer 200 to a debit
   of the whole limit, and the second batch to be served aborts.
   */
  lemma DebitCanBeLost(t: Transacao) returns (s: State)
    requires t == Transacao(1, 100000, 'd', "ok")
    ensures Reachable(INIT_SQL, 2, s)
    ensures |s.answers| == 2 && s.answers[0].Accepted? && s.answers[1].Accepted?
    ensures |s.outcomes| == 2 && s.outcomes[1].batch == s.answers[1].batch && !s.outcomes[1].committed
  {
    OkText(t);
    var s1 := BothAnswer(t);
    var s2 := Finish(INIT_SQL, 2, s1, 0, s1.answers[0].batch);
    s := FailCheck(INIT_SQL, 2, s2, 1, s1.answers[1].batch);
  }

  /** Two credits of 100 answered at once both commit; the second answer announces 100, the row holds 200. */
  lemma AnnouncedBalanceIsStale(t: Transacao) returns (s: State)
    requires t == Transacao(1, 100, 'c', "ok")
    ensures Reachable(INIT_SQL, 2, s)
    ensures |s.outcomes| == 2 && s.outcomes[0].committed && s.outcomes[1].committed
    ensures |s.answers| == 2 && s.answers[1] == Accepted(s.outcomes[1].batch, 100000, 100)
    ensures 1 in s.clientes && s.clientes[1] == Cliente(100000, 200)
  {
    OkText(t);
    var s1 := BothAnswer(t);
    var s2 := Finish(INIT_SQL, 2, s1, 0, s1.answers[0].batch);
    s := Finish(INIT_SQL, 2, s2, 1, s1.answers[1].batch);
  }

  // One process.

  /** The only process answers 200 to a transaction of client 1. */
  lemma Answer(s: State, t: Transacao, texto: Option<string>) returns (s': State)
    requires Reachable(INIT_SQL, 1, s) && CanRead(s, 0) && |s.connections| == 1 && s.locks == map[]
    requires ValidTransacao(t) && Reads(t, texto) && t.idCliente in s.clientes
    requires !LimiteExcedido(s.clientes[t.idCliente], t)
    ensures Reachable(INIT_SQL, 1, s') && |s'.connections| == 1 && s'.locks == map[]
    ensures var c := s.clientes[t.idCliente]; var b := Batch(0, t, c, |s.outcomes|, texto);
            && s'.answers == s.answers + [Accepted(b, c.limite, SaldoLocal(c, t))]
            && Waiting(s', 0, b)
    ensures s'.clientes == s.clientes && s'.transacoes == s.transacoes && s'.outcomes == s.outcomes
  {
    var s1 := Read(INIT_SQL, 1, s, 0, t);
    s' := Send(INIT_SQL, 1, s1, 0, texto);
  }

  /** A single quote as descricao leaves the constant open: answered 200, and never stored. */
  lemma QuoteIsLost(t: Transacao) returns (s: State)
    requires t == Transacao(1, 1, 'c', "'")
    ensures Pasted(t.descricao).Unterminated?
    ensures Reachable(INIT_SQL, 1, s) && |s.answers| == 1 && s.answers[0].Accepted?
    ensures |s.outcomes| == 1 && s.outcomes[0].batch == s.answers[0].batch && !s.outcomes[0].committed
  {
    assert t.descricao == [QUOTE];
    PastedStep(t.descricao);
    assert "'"[1..] == "";
    Start(INIT_SQL, 1);
    var s1 := Answer(Init(INIT_SQL, 1), t, None);
    s := Refuse(INIT_SQL, 1, s1, 0, s1.answers[0].batch);
  }

  lemma DoubledQuote(t: Transacao)
    requires t.descricao == [QUOTE, QUOTE]
    ensures Reads(t, Some([QUOTE])) && Utf8.CountPoints(t.descricao) == 2 && Utf8.CountPoints([QUOTE]) == 1
  {
    PastedStep(t.descricao);
    PastedNothing();
    assert t.descricao[2..] == "" && [QUOTE] + "" == [QUOTE];
    Utf8.AsciiIsValid(t.descricao);
    Utf8.AsciiIsValid([QUOTE]);
  }

  /** A doubled quote is one quote to the server: another text is stored than was asked for. */
  lemma DoubledQuoteIsHalved(t: Transacao) returns (s: State)
    requires t == Transacao(1, 1, 'c', [QUOTE, QUOTE])
    ensures Reachable(INIT_SQL, 1, s) && |s.answers| == 1 && s.answers[0].Accepted?
    ensures |s.outcomes| == 1 && s.outcomes[0].committed
    ensures |s.transacoes| == 1 && s.transacoes[0].transacao == t.(descricao := [QUOTE])
  {
    DoubledQuote(t);
    Start(INIT_SQL, 1);
    var s1 := Answer(Init(INIT_SQL, 1), t, Some([QUOTE]));
    s := Finish(INIT_SQL, 1, s1, 0, s1.answers[0].batch);
  }

  /** A valor of 2^31 passes the controller's check, and the column refuses it. */
  lemma WideValorIsLost(t: Transacao) returns (s: State)
    requires t == Transacao(1, INT32_MAX + 1, 'c', "ok")
    ensures Reachable(INIT_SQL, 1, s) && |s.answers| == 1 && s.answers[0].Accepted?
    ensures |s.outcomes| == 1 && s.outcomes[0].batch == s.answers[0].batch && !s.outcomes[0].committed
  {
    OkText(t);
    Start(INIT_SQL, 1);
    var s1 := Answer(Init(INIT_SQL, 1), t, Some("ok"));
    s := FailInsert(INIT_SQL, 1, s1, 0, s1.answers[0].batch);
  }

  /** Client 1 after one credit of 2^31 - 1 that was committed. */
  lemma RichClient(t: Transacao) returns (s: State)
    requires t == Transacao(1, INT32_MAX, 'c', "ok")
    ensures Reachable(INIT_SQL, 1, s) && |s.connections| == 1 && CanRead(s, 0) && s.locks == map[]
    ensures |s.answers| == 1 && |s.outcomes| == 1
    ensures 1 in s.clientes && s.clientes[1] == Cliente(100000, INT32_MAX)
  {
    OkText(t);
    Start(INIT_SQL, 1);
    var s1 := Answer(Init(INIT_SQL, 1), t, Some("ok"));
    s := Finish(INIT_SQL, 1, s1, 0, s1.answers[0].batch);
  }

  lemma ReadBackAs(limite: int, saldo: int, shown: int)
    requires IsInt32(limite) && Wrap32(saldo) == shown
    ensures ReadsSaldo(JsonSaldo(limite, saldo), limite, shown)
  {
    SaldoReadBack(limite, saldo);
  }

  /** The answer to the second of two credits of client 1 after one of 2^31 - 1. */
  lemma AnswerPastInt32(t: Transacao, u: Transacao) returns (s: State)
    requires t == Transacao(1, INT32_MAX, 'c', "ok") && u == Transacao(1, 1, 'c', "ok")
    ensures Reachable(INIT_SQL, 1, s) && |s.answers| == 2 && s.answers[1].Accepted?
    ensures s.answers[1].limite == 100000 && s.answers[1].saldo == INT32_MAX + 1
  {
    OkText(u);
    var s1 := RichClient(t);
    s := Answer(s1, u, Some("ok"));
  }

  /**
   A balance past 2^31 - 1: the second credit is answered 200 with the right 64-bit balance,
   and a client that reads the printed answer finds -2^31.
   */
  lemma PrintedBalanceWraps(t: Transacao, u: Transacao) returns (s: State)
    requires t == Transacao(1, INT32_MAX, 'c', "ok") && u == Transacao(1, 1, 'c', "ok")
    ensures Reachable(INIT_SQL, 1, s) && |s.answers| == 2 && s.answers[1].Accepted?
    ensures s.answers[1].saldo == INT32_MAX + 1
    ensures ReadsSaldo(JsonSaldo(s.answers[1].limite, s.answers[1].saldo), 100000, INT32_MIN)
  {
    s := AnswerPastInt32(t, u);
    assert Wrap32(INT32_MAX + 1) == INT32_MIN;
    ReadBackAs(s.answers[1].limite, s.answers[1].saldo, INT32_MIN);
  }

  /** Client 1 after a debit of 2 that was committed. */
  lemma ClientBelowZero(t: Transacao) returns (s: State)
    requires t == Transacao(1, 2, 'd', "ok")
    ensures Reachable(INIT_SQL, 1, s) && |s.connections| == 1 && CanRead(s, 0) && s.locks == map[]
    ensures |s.answers| == 1 && |s.outcomes| == 1
    ensures 1 in s.clientes && s.clientes[1] == Cliente(100000, -2)
  {
    OkText(t);
    Start(INIT_SQL, 1);
    var s1 := Answer(Init(INIT_SQL, 1), t, Some("ok"));
    s := Finish(INIT_SQL, 1, s1, 0, s1.answers[0].batch);
  }

  /**
   On a balance just below zero the 64-bit subtraction wraps: the test lets a debit of 2^63 - 1
   through, it is answered 200, and the UPDATE refuses it.
   */
  lemma LimitTestWraps(t: Transacao, u: Transacao) returns (s: State)
    requires t == Transacao(1, 2, 'd', "ok") && u == Transacao(1, INT64_MAX, 'd', "ok")
    ensures Reachable(INIT_SQL, 1, s) && |s.answers| == 2 && s.answers[1].Accepted?
    ensures s.answers[1].batch.transacao == u && s.answers[1].batch.visto == Cliente(100000, -2)
    ensures |s.outcomes| == 2 && s.outcomes[1].batch == s.answers[1].batch && !s.outcomes[1].committed
  {
    OkText(u);
    var s1 := ClientBelowZero(t);
    var s2 := Answer(s1, u, Some("ok"));
    s := FailCheck(INIT_SQL, 1, s2, 0, s2.answers[1].batch);
  }
}
