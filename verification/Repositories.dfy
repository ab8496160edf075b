/** Rows as PostgreSQL prints them and as the repositories decode them. */
module Repositories {
  import opened CStrings
  import opened Decimal
  import opened Entities
  import opened LastTen
  import opened DbConnection

  /** The C struct Transacao with its three character arrays. */
  datatype Record = Record(id: int, idCliente: int, valor: int, tipo: string, descricao: string, realizadaEm: string)

  /** The six columns of the last-ten query; `date` is to_char of the row's realizada_em. */
  function Columns(row: Row, date: string): seq<string> {
    var t := row.transacao;
    [Print(row.id), Print(t.idCliente), Print(t.valor), [t.tipo], t.descricao, date]
  }

  /** The record that the copy loop of transacao_repo_find_last_10 makes of a row. */
  function Decode(fields: seq<string>): Record
    requires |fields| == 6
  {
    Record(Atol(fields[0]), Atol(fields[1]), Atol(fields[2]),
           Cut(fields[3], 1), Cut(fields[4], UTF8_TRANSACAO_DESCRICAO_LEN), Cut(fields[5], TRANSACAO_REALIZADA_EM_LEN))
  }

  /** The C array for a list of rows. */
  function Records(list: seq<Row>, dates: seq<string>): (rs: seq<Record>)
    requires |list| == |dates|
    ensures |rs| == |list| && forall i :: 0 <= i < |list| ==> rs[i] == Decode(Columns(list[i], dates[i]))
  {
    seq(|list|, i requires 0 <= i < |list| => Decode(Columns(list[i], dates[i])))
  }

  /** Every stored row comes back field by field as it is stored. */
  lemma RowRoundTrip(row: Row, date: string)
    requires ValidTransacao(row.transacao) && NUL !in date && |date| <= TRANSACAO_REALIZADA_EM_LEN
    ensures var t := row.transacao;
            Decode(Columns(row, date)) == Record(row.id, t.idCliente, t.valor, [t.tipo], t.descricao, date)
  {
    var t := row.transacao;
    PrintAtolRoundTrip(row.id, "");
    PrintAtolRoundTrip(t.idCliente, "");
    PrintAtolRoundTrip(t.valor, "");
    assert Print(row.id) + "" == Print(row.id);
    assert Print(t.idCliente) + "" == Print(t.idCliente);
    assert Print(t.valor) + "" == Print(t.valor);
    CutWhole([t.tipo], 1);
    CutWhole(t.descricao, UTF8_TRANSACAO_DESCRICAO_LEN);
    CutWhole(date, TRANSACAO_REALIZADA_EM_LEN);
  }

  /** The body of the copy loop. */
  method DecodeRow(fields: array<string>) returns (record: Record)
    requires fields.Length == 6
    ensures record == Decode(fields[..])
  {
    var tipo := CopyField(fields[3], 1);
    var descricao := CopyField(fields[4], UTF8_TRANSACAO_DESCRICAO_LEN);
    var realizadaEm := CopyField(fields[5], TRANSACAO_REALIZADA_EM_LEN);
    record := Record(Atol(fields[0]), Atol(fields[1]), Atol(fields[2]), tipo, descricao, realizadaEm);
  }

  /** transacao_repo_find_last_10 after a query that succeeded. */
  method FindLast10(result: ResultSet, ghost res: seq<seq<string>>) returns (values: array<Record>)
    requires result.Holds(res) && forall i :: 0 <= i < |res| ==> |res[i]| == 6
    ensures fresh(values) && values.Length == |res|
    ensures forall i :: 0 <= i < |res| ==> values[i] == Decode(res[i])
  {
    values := new Record[result.records.Length](i => Record(0, 0, 0, "", "", ""));
    for i := 0 to result.records.Length
      invariant forall k :: 0 <= k < i ==> values[k] == Decode(res[k])
    {
      var fields := result.records[i];
      assert fields[..] == res[i];
      var record := DecodeRow(fields);
      values[i] := record;
    }
  }

  /** strzcpy into a character array of the struct, and what a reader finds there. */
  method CopyField(value: string, size: nat) returns (s: string)
    ensures s == Cut(value, size)
  {
    var field := new char[size + 1];
    StrZCpy(field, 0, value + [NUL], size);
    CStringStops(value, "");
    assert value + [NUL] + "" == value + [NUL];
    assert field[0..] == field[..];
    assert field[..][size] == NUL;
    var len := Strlen(field);
    s := field[..len];
  }

  /** The client row as cliente_repo_find_one decodes `id, limite, saldo`. */
  function DecodeCliente(fields: seq<string>): Cliente
    requires |fields| == 3
  {
    Cliente(Atol(fields[1]), Atol(fields[2]))
  }

  /** Limits and balances of any sign survive the text protocol. */
  lemma ClienteRoundTrip(id: int, c: Cliente)
    ensures DecodeCliente([Print(id), Print(c.limite), Print(c.saldo)]) == c
  {
    PrintAtolRoundTrip(c.limite, "");
    PrintAtolRoundTrip(c.saldo, "");
    assert Print(c.limite) + "" == Print(c.limite) && Print(c.saldo) + "" == Print(c.saldo);
  }

  /** The whole answer of the last-ten query, from the table to the C array. */
  lemma ListRoundTrip(rows: seq<Row>, id: int, list: seq<Row>, dates: seq<string>, k: nat)
    requires IsLastTen(rows, id, list) && |dates| == |list| && k < |list|
    requires forall row :: row in rows ==> ValidTransacao(row.transacao)
    requires forall d :: d in dates ==> NUL !in d && |d| <= TRANSACAO_REALIZADA_EM_LEN
    ensures var t := list[k].transacao;
            && t.idCliente == id && list[k] in rows
            && Decode(Columns(list[k], dates[k])) == Record(list[k].id, id, t.valor, [t.tipo], t.descricao, dates[k])
  {
    assert list[k] in multiset(list) && list[k] in multiset(RowsOf(rows, id));
    RowsOfMembers(rows, id, list[k]);
    RowRoundTrip(list[k], dates[k]);
  }

  lemma {:induction false} RowsOfMembers(rows: seq<Row>, id: int, row: Row)
    requires row in RowsOf(rows, id)
    ensures row in rows && row.transacao.idCliente == id
  {
    var last := rows[|rows| - 1];
    if row in RowsOf(rows[..|rows| - 1], id) {
      RowsOfMembers(rows[..|rows| - 1], id, row);
    }
  }
}
