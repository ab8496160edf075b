/**
 The shared ledger as a transition system. Any number of API processes, each serial and
 with one connection of its own, run against one PostgreSQL server. An action is one
 atomic step of one process or of the server on behalf of one connection.

 Two facts about PostgreSQL are step rules here: a query string of several statements is
 one implicit transaction, and an UPDATE under Read Committed waits for the row lock and
 then works on the latest committed row (section 13.2.1 of the PostgreSQL manual).

 The first needs a query string of just these two statements. So no run sends a text that
 closes its string constant early: AnswerPost is not enabled where such a text passes the
 limit test.
 */
module Protocol {
  import opened Entities
  import opened Machine
  import opened Saldo
  import opened LastTen
  import opened AtomicLedger

  /**
   A batch that was sent and answered 200. `visto` is the row its process had read when
   `lido` batches had ended; both only record history. `texto` is what the server takes for
   descricao, None if it refuses the query string.
   */
  datatype Batch =
    Batch(connection: nat, transacao: Transacao, visto: Cliente, lido: nat, texto: Option<string>)
  {
    /** The transaction as the server works on it. */
    function Lida(): Transacao {
      Taken(transacao, texto)
    }

    predicate Fits() {
      texto.Some? && FitsColumns(Lida())
    }
  }

  /** How far the server is with a batch. */
  datatype Step = Sent | Begun | Locked | Updated | Checked | Inserted

  datatype Flight =
    | Idle
    | InFlight(batch: Batch, step: Step, agora: int, saldo: int, id: int)
    | Ended  // finished by the server, result not yet drained by the process

  datatype Process =
    | Ready
    | PostRead(transacao: Transacao, visto: Cliente, lido: nat)
    | ExtratoRead(id: int, visto: Cliente, lido: nat)

  datatype Connection = Connection(process: Process, flight: Flight)

  /** The end of a batch, in the order in which the server ended them. */
  datatype Outcome = Outcome(batch: Batch, row: Row, committed: bool)

  datatype Answer =
    | Accepted(batch: Batch, limite: int, saldo: int)
    | Refused(connection: nat, transacao: Transacao, visto: Cliente, lido: nat)
    | NotFound(connection: nat, id: int)
    | Extrato(connection: nat, id: int, visto: Cliente, lido: nat, list: seq<Row>, listed: nat)

  datatype State = State(
    clientes: map<int, Cliente>,    // committed rows
    transacoes: seq<Row>,           // committed rows, in commit order
    locks: map<int, nat>,           // row lock on cliente: id -> connection
    connections: seq<Connection>,
    nextId: int,                    // the sequence behind transacao.id
    answers: seq<Answer>,           // history
    outcomes: seq<Outcome>)         // history

  datatype Action =
    | ReadForPost(c: nat, transacao: Transacao)  // drain, then select the client
    | AnswerPost(c: nat, texto: Option<string>)  // limit test; refuse, or send a batch that is read as texto
    | ReadForExtrato(c: nat, id: int)            // drain, then select the client
    | AnswerExtrato(c: nat, list: seq<Row>)      // select the last ten, answer
    | Begin(c: nat, agora: int)                  // the server takes the query string
    | Lock(c: nat)
    | Update(c: nat)
    | Check(c: nat)
    | Insert(c: nat)
    | Commit(c: nat)

  function Init(ini: Ledger, n: nat): State {
    State(ini.clientes, ini.transacoes, map[], seq(n, i => Connection(Ready, Idle)), 1, [], [])
  }

  predicate At(s: State, c: nat, step: Step) {
    c < |s.connections| && s.connections[c].flight.InFlight? && s.connections[c].flight.step == step
  }

  /** The process is free and the result of its last batch is there: a drain does not wait. */
  predicate CanRead(s: State, c: nat) {
    c < |s.connections| && s.connections[c].process.Ready? && !s.connections[c].flight.InFlight?
  }

  ghost predicate Enabled(s: State, a: Action) {
    match a
    case ReadForPost(c, t) => CanRead(s, c) && ValidTransacao(t)
    case AnswerPost(c, texto) =>
      && c < |s.connections| && s.connections[c].process.PostRead? && !s.connections[c].flight.InFlight?
      && (LimiteExcedido(s.connections[c].process.visto, s.connections[c].process.transacao)
          || Reads(s.connections[c].process.transacao, texto))
    case ReadForExtrato(c, id) => CanRead(s, c)
    case AnswerExtrato(c, list) =>
      && c < |s.connections| && s.connections[c].process.ExtratoRead?
      && IsLastTen(s.transacoes, s.connections[c].process.id, list)
    case Begin(c, agora) => At(s, c, Sent)
    case Lock(c) =>
      && At(s, c, Begun)
      && s.connections[c].flight.batch.transacao.idCliente in s.clientes
      && s.connections[c].flight.batch.transacao.idCliente !in s.locks
    case Update(c) => At(s, c, Locked) && s.connections[c].flight.batch.transacao.idCliente in s.clientes
    case Check(c) => At(s, c, Updated) && s.connections[c].flight.batch.transacao.idCliente in s.clientes
    case Insert(c) => At(s, c, Checked)
    case Commit(c) => At(s, c, Inserted) && s.connections[c].flight.batch.transacao.idCliente in s.clientes
  }

  function SetFlight(s: State, c: nat, f: Flight): State
    requires c < |s.connections|
  {
    s.(connections := s.connections[c := s.connections[c].(flight := f)])
  }

  function SetProcess(s: State, c: nat, p: Process): State
    requires c < |s.connections|
  {
    s.(connections := s.connections[c := Connection(p, Idle)])
  }

  /** The implicit transaction of connection c ends; an abort leaves the tables alone. */
  function End(s: State, c: nat, committed: bool): State
    requires c < |s.connections| && s.connections[c].flight.InFlight?
    requires committed ==> s.connections[c].flight.batch.transacao.idCliente in s.clientes
  {
    var f := s.connections[c].flight;
    var t := f.batch.Lida();
    var row := Row(f.id, t, f.agora);
    var s1 := SetFlight(s, c, Ended);
    var s2 := s1.(outcomes := s.outcomes + [Outcome(f.batch, row, committed)],
                  locks := if f.step == Sent then s.locks else s.locks - {t.idCliente});
    if committed then
      s2.(clientes := s.clientes[t.idCliente := s.clientes[t.idCliente].(saldo := f.saldo)],
          transacoes := s.transacoes + [row])
    else
      s2
  }

  ghost function Do(s: State, a: Action): State
    requires Enabled(s, a)
  {
    match a
    case ReadForPost(c, t) =>
      if t.idCliente in s.clientes then
        SetProcess(s, c, PostRead(t, s.clientes[t.idCliente], |s.outcomes|))
      else
        SetProcess(s, c, Ready).(answers := s.answers + [NotFound(c, t.idCliente)])
    case AnswerPost(c, texto) =>
      var p := s.connections[c].process;
      if LimiteExcedido(p.visto, p.transacao) then
        SetProcess(s, c, Ready).(answers := s.answers + [Refused(c, p.transacao, p.visto, p.lido)])
      else
        var b := Batch(c, p.transacao, p.visto, p.lido, texto);
        s.(connections := s.connections[c := Connection(Ready, InFlight(b, Sent, 0, 0, 0))],
           answers := s.answers + [Accepted(b, p.visto.limite, SaldoLocal(p.visto, p.transacao))])
    case ReadForExtrato(c, id) =>
      if id in s.clientes then
        SetProcess(s, c, ExtratoRead(id, s.clientes[id], |s.outcomes|))
      else
        SetProcess(s, c, Ready).(answers := s.answers + [NotFound(c, id)])
    case AnswerExtrato(c, list) =>
      var p := s.connections[c].process;
      SetProcess(s, c, Ready).(answers := s.answers + [Extrato(c, p.id, p.visto, p.lido, list, |s.outcomes|)])
    case Begin(c, agora) =>
      var f := s.connections[c].flight;
      if f.batch.texto.Some? then
        SetFlight(s, c, f.(step := Begun, agora := agora))
      else
        End(s, c, false)
    case Lock(c) =>
      var f := s.connections[c].flight;
      SetFlight(s, c, f.(step := Locked)).(locks := s.locks[f.batch.transacao.idCliente := c])
    case Update(c) =>
      var f := s.connections[c].flight;
      var t := f.batch.transacao;
      SetFlight(s, c, f.(step := Updated, saldo := SaldoSql(s.clientes[t.idCliente].saldo, t)))
    case Check(c) =>
      var f := s.connections[c].flight;
      if IsInt64(f.saldo) && f.saldo >= -s.clientes[f.batch.transacao.idCliente].limite then
        SetFlight(s, c, f.(step := Checked))
      else
        End(s, c, false)
    case Insert(c) =>
      var f := s.connections[c].flight;
      if FitsColumns(f.batch.Lida()) then
        SetFlight(s, c, f.(step := Inserted, id := s.nextId)).(nextId := s.nextId + 1)
      else
        End(s, c, false)
    case Commit(c) => End(s, c, true)
  }

  /** The actions can be taken one after the other from s. */
  ghost predicate Runs(s: State, run: seq<Action>)
    decreases |run|
  {
    run == [] || (Enabled(s, run[0]) && Runs(Do(s, run[0]), run[1..]))
  }

  ghost function Final(s: State, run: seq<Action>): State
    requires Runs(s, run)
    decreases |run|
  {
    if run == [] then s else Final(Do(s, run[0]), run[1..])
  }

  ghost predicate Reachable(ini: Ledger, n: nat, s: State) {
    exists run :: Runs(Init(ini, n), run) && Final(Init(ini, n), run) == s
  }

  /** The sequential ledger after the batches that have ended, in the order they ended. */
  ghost function Book(ini: Ledger, outcomes: seq<Outcome>): Ledger {
    if outcomes == [] then ini
    else 
      var o := outcomes[|outcomes| - 1];
      Apply(Book(ini, outcomes[..|outcomes| - 1]), o.row, o.batch.texto.Some?)
  }
}
