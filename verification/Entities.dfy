/** The records of src/entity, and what the controller lets through. */
module Entities {
  import opened CStrings
  import opened Machine
  import Utf8

  const TRANSACAO_DESCRICAO_LEN: nat := 10
  const UTF8_TRANSACAO_DESCRICAO_LEN: nat := 20
  const TRANSACAO_REALIZADA_EM_LEN: nat := 40

  datatype Option<+T> = None | Some(value: T)

  /** A row of table cliente without its key. */
  datatype Cliente = Cliente(limite: int, saldo: int)

  /** What a POST asks for; tipo is the one character of the C string. */
  datatype Transacao = Transacao(idCliente: int, valor: int, tipo: char, descricao: string)

  /** A row of table transacao. */
  datatype Row = Row(id: int, transacao: Transacao, realizadaEm: int)

  /** What holds of a transaction that passed the controller's checks and its 20-byte copy. */
  predicate ValidTransacao(t: Transacao) {
    && 0 < t.valor <= INT64_MAX
    && (t.tipo == 'c' || t.tipo == 'd')
    && NUL !in t.descricao
    && |t.descricao| <= UTF8_TRANSACAO_DESCRICAO_LEN
    && Utf8.CountPoints(t.descricao) <= TRANSACAO_DESCRICAO_LEN
  }

  /** A client row that table cliente can hold. */
  predicate ValidCliente(c: Cliente) {
    IsInt64(c.limite) && INT64_MIN < c.limite && IsInt64(c.saldo) && c.saldo >= -c.limite
  }
}
