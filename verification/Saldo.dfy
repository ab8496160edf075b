/**
 The controller's limit test and balance update, in 64-bit machine arithmetic, beside
 the arithmetic of the SQL statement and of constraint chk_saldo.
 */
module Saldo {
  import opened Entities
  import opened Machine

  /** is_limite_excedido. */
  predicate LimiteExcedido(c: Cliente, t: Transacao) {
    if t.tipo == 'c' then false else Wrap64(c.saldo - t.valor) < Wrap64(-c.limite)
  }

  /** The balance that update_saldo_cliente leaves in the C record. */
  function SaldoLocal(c: Cliente, t: Transacao): int {
    if t.tipo == 'c' then Wrap64(c.saldo + t.valor) else Wrap64(c.saldo - t.valor)
  }

  /** The expression `saldo + valor` or `saldo - valor` of the UPDATE. */
  function SaldoSql(saldo: int, t: Transacao): int {
    if t.tipo == 'c' then saldo + t.valor else saldo - t.valor
  }

  /** The UPDATE succeeds on a row: the result is a bigint and chk_saldo holds. */
  predicate UpdateAccepted(c: Cliente, t: Transacao) {
    IsInt64(SaldoSql(c.saldo, t)) && SaldoSql(c.saldo, t) >= -c.limite
  }

  /**
   The local test refuses only what the database would refuse on the same row, and what
   it lets through the database accepts exactly when the new balance is a bigint.
   */
  lemma LimitTestAgainstCheck(c: Cliente, t: Transacao)
    requires ValidCliente(c) && ValidTransacao(t)
    ensures LimiteExcedido(c, t) ==> !UpdateAccepted(c, t)
    ensures !LimiteExcedido(c, t) ==> (UpdateAccepted(c, t) <==> IsInt64(SaldoSql(c.saldo, t)))
    ensures UpdateAccepted(c, t) ==> SaldoLocal(c, t) == SaldoSql(c.saldo, t)
  {
    assert IsInt64(-c.limite);
  }

  /**
   The machine test of a debit agrees with integer arithmetic exactly when the subtraction
   does not leave the 64-bit range.
   */
  lemma MachineTestExact(c: Cliente, t: Transacao)
    requires ValidCliente(c) && ValidTransacao(t) && t.tipo == 'd'
    ensures (LimiteExcedido(c, t) <==> c.saldo - t.valor < -c.limite) <==> c.saldo - t.valor >= INT64_MIN
  {
    assert IsInt64(-c.limite);
  }

  /** The statement's balance field is read as an int: exact only in 32 bits. */
  lemma ReportedBalanceExact(c: Cliente, t: Transacao)
    requires ValidCliente(c) && ValidTransacao(t) && UpdateAccepted(c, t)
    ensures Wrap32(SaldoLocal(c, t)) == SaldoSql(c.saldo, t) <==> IsInt32(SaldoSql(c.saldo, t))
  {
    LimitTestAgainstCheck(c, t);
  }
}
