/** A whole statement, from the shared tables to the bytes in the response buffer. */
module Statement {
  import opened CStrings
  import opened Entities
  import opened LastTen
  import opened AtomicLedger
  import opened Protocol
  import opened ProtocolInvariant
  import opened ProtocolHistory
  import opened Guarantees
  import opened Repositories
  import opened Responses
  import opened Json

  /** to_char dates: plain text that fits the C field. */
  predicate DatesOk(dates: seq<string>) {
    forall d :: d in dates ==> NUL !in d && Plain(d) && |d| <= TRANSACAO_REALIZADA_EM_LEN
  }

  /** The record holds every field of the stored row of client `id`. */
  predicate Faithful(r: Record, id: int, row: Row, date: string) {
    r == Record(row.id, id, row.transacao.valor, [row.transacao.tipo], row.transacao.descricao, date)
  }

  lemma RowFaithful(rows: seq<Row>, id: int, list: seq<Row>, dates: seq<string>, i: nat)
    requires IsLastTen(rows, id, list) && |dates| == |list| && i < |list|
    requires forall row :: row in rows ==> ValidTransacao(row.transacao)
    requires DatesOk(dates) && DatesOk([dates[i]])
    ensures Faithful(Records(list, dates)[i], id, list[i], dates[i]) && BoundedRow(Records(list, dates)[i])
  {
    ListRoundTrip(rows, id, list, dates, i);
    FaithfulIsBounded(Records(list, dates)[i], id, list[i], dates[i]);
  }

  lemma FaithfulIsBounded(r: Record, id: int, row: Row, date: string)
    requires Faithful(r, id, row, date) && ValidTransacao(row.transacao) && DatesOk([date])
    ensures BoundedRow(r)
  {
    assert date in [date];
  }

  lemma RecordsFaithful(rows: seq<Row>, id: int, list: seq<Row>, dates: seq<string>)
    requires IsLastTen(rows, id, list) && |dates| == |list| && DatesOk(dates)
    requires forall row :: row in rows ==> ValidTransacao(row.transacao)
    ensures |list| <= 10
    ensures forall i :: 0 <= i < |list| ==> Faithful(Records(list, dates)[i], id, list[i], dates[i])
    ensures forall r :: r in Records(list, dates) ==> BoundedRow(r)
  {
    var rs := Records(list, dates);
    forall i | 0 <= i < |list|
      ensures Faithful(rs[i], id, list[i], dates[i]) && BoundedRow(rs[i])
    {
      assert dates[i] in dates;
      RowFaithful(rows, id, list, dates, i);
    }
  }

  /**
   For every statement answered in any run with any number of processes, the C records
   equal the stored rows and the response fits the 2048-byte buffer with its terminator.
   */
  lemma StatementInBuffer(ini: Ledger, n: nat, s: State, k: nat, dates: seq<string>, now: string)
    requires Initial(ini) && Reachable(ini, n, s) && k < |s.answers| && s.answers[k].Extrato?
    requires |dates| == |s.answers[k].list| && DatesOk(dates)
    requires |now| < MAX_BUFFER_DATE_TIME_ISO_STR && Plain(now)
    ensures var a := s.answers[k]; var rs := Records(a.list, dates);
            && (forall i :: 0 <= i < |a.list| ==> Faithful(rs[i], a.id, a.list[i], dates[i]))
            && |Http200(JsonExtrato(a.visto.saldo, now, a.visto.limite, rs))| + 1 <= MAX_BUFFER_FIND_BY_ID
  {
    var a := s.answers[k];
    StatementPrefixes(ini, n, s, k);
    CommittedRowsValid(ini, n, s, a.listed);
    RecordsFaithful(CommittedRows(s.outcomes[..a.listed]), a.id, a.list, dates);
    StatementFits(a.visto.saldo, now, a.visto.limite, Records(a.list, dates));
  }

  lemma CommittedRowsValid(ini: Ledger, n: nat, s: State, listed: nat)
    requires Initial(ini) && Reachable(ini, n, s) && listed <= |s.outcomes|
    ensures forall row :: row in CommittedRows(s.outcomes[..listed]) ==> ValidTransacao(row.transacao)
  {
    ReachableInv(ini, n, s);
    OutcomesPrefix(ini, n, s.outcomes, listed);
    BookConserved(ini, n, s.outcomes[..listed]);
  }
}
