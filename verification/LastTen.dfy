/** `order by realizada_em desc limit 10` over table transacao, and sums over rows. */
module LastTen {
  import opened Entities
  import opened Sequences

  function RowsOf(rows: seq<Row>, id: int): seq<Row> {
    if rows == [] then []
    else
      RowsOf(rows[..|rows| - 1], id)
      + (if rows[|rows| - 1].transacao.idCliente == id then [rows[|rows| - 1]] else [])
  }

  predicate LatestFirst(rows: seq<Row>) {
    forall i, j :: 0 <= i < j < |rows| ==> rows[i].realizadaEm >= rows[j].realizadaEm
  }

  /**
   The answers that the query may give: ten rows of the client or all there are, latest
   first, no row left out that is strictly later than a returned one. Ties are free.
   */
  ghost predicate IsLastTen(rows: seq<Row>, id: int, list: seq<Row>) {
    var all := RowsOf(rows, id);
    && |list| == (if |all| < 10 then |all| else 10)
    && multiset(list) <= multiset(all)
    && LatestFirst(list)
    && forall left, x :: left in multiset(all) - multiset(list) && x in list ==> left.realizadaEm <= x.realizadaEm
  }

  // A reference execution of the query.

  function Insert(l: Row, sorted: seq<Row>): seq<Row> {
    if sorted == [] || l.realizadaEm >= sorted[0].realizadaEm then [l] + sorted
    else [sorted[0]] + Insert(l, sorted[1..])
  }

  function Sort(rows: seq<Row>): seq<Row> {
    if rows == [] then [] else Insert(rows[0], Sort(rows[1..]))
  }

  function RunQuery(rows: seq<Row>, id: int): seq<Row> {
    var o := Sort(RowsOf(rows, id));
    if |o| < 10 then o else o[..10]
  }

  lemma LatestFirstCons(l: Row, o: seq<Row>)
    requires LatestFirst(o) && forall x :: x in o ==> l.realizadaEm >= x.realizadaEm
    ensures LatestFirst([l] + o)
  {
  }

  lemma {:induction false} InsertedRows(l: Row, o: seq<Row>)
    ensures multiset(Insert(l, o)) == multiset(o) + multiset{l}
    ensures |Insert(l, o)| == |o| + 1
  {
    if o != [] && l.realizadaEm < o[0].realizadaEm {
      InsertedRows(l, o[1..]);
      assert o == [o[0]] + o[1..];
    }
  }

  lemma {:induction false} InsertKeepsOrder(l: Row, o: seq<Row>)
    requires LatestFirst(o)
    ensures LatestFirst(Insert(l, o))
  {
    if o != [] && l.realizadaEm < o[0].realizadaEm {
      InsertKeepsOrder(l, o[1..]);
      InsertedRows(l, o[1..]);
      forall x | x in Insert(l, o[1..])
        ensures o[0].realizadaEm >= x.realizadaEm
      {
        assert x in multiset(Insert(l, o[1..]));
        assert x == l || x in o[1..];
      }
      LatestFirstCons(o[0], Insert(l, o[1..]));
    } else {
      LatestFirstCons(l, o);
    }
  }

  lemma {:induction false} SortIsSorted(rows: seq<Row>)
    ensures LatestFirst(Sort(rows)) && multiset(Sort(rows)) == multiset(rows)
    ensures |Sort(rows)| == |rows|
  {
    if rows != [] {
      SortIsSorted(rows[1..]);
      InsertKeepsOrder(rows[0], Sort(rows[1..]));
      InsertedRows(rows[0], Sort(rows[1..]));
      assert rows == [rows[0]] + rows[1..];
    }
  }

  lemma LatestFirstSplit(o: seq<Row>, n: nat)
    requires LatestFirst(o) && n <= |o|
    ensures LatestFirst(o[..n])
    ensures forall y: Row, x: Row :: y in o[n..] && x in o[..n] ==> y.realizadaEm <= x.realizadaEm
  {
    forall y: Row, x: Row | y in o[n..] && x in o[..n]
      ensures y.realizadaEm <= x.realizadaEm
    {
      var i :| 0 <= i < n && o[i] == x;
      var j :| 0 <= j < |o| - n && o[n..][j] == y;
      assert o[n + j] == y;
    }
  }

  /** The query always has an answer; sorting and cutting gives one. */
  lemma QueryAnswers(rows: seq<Row>, id: int)
    ensures IsLastTen(rows, id, RunQuery(rows, id))
  {
    var all := RowsOf(rows, id);
    SortIsSorted(all);
    var o, list := Sort(all), RunQuery(rows, id);
    var rest := o[|list|..];
    LatestFirstSplit(o, |list|);
    assert list == o[..|list|];
    assert o == list + rest;
    assert multiset(all) - multiset(list) == multiset(rest);
  }

  /** Two answers to the same query carry the same dates, position by position. */
  lemma DatesDetermined(rows: seq<Row>, id: int, a: seq<Row>, b: seq<Row>, k: nat)
    requires IsLastTen(rows, id, a) && IsLastTen(rows, id, b) && k < |a|
    ensures |a| == |b| && a[k].realizadaEm == b[k].realizadaEm
  {
    DateNotLater(rows, id, a, b, k);
    DateNotLater(rows, id, b, a, k);
  }

  // Among the k + 1 rows b[..k + 1] one is not in a[..k], so it is no later than a[k].
  lemma DateNotLater(rows: seq<Row>, id: int, a: seq<Row>, b: seq<Row>, k: nat)
    requires IsLastTen(rows, id, a) && IsLastTen(rows, id, b) && k < |a|
    ensures b[k].realizadaEm <= a[k].realizadaEm
  {
    var all := multiset(RowsOf(rows, id));
    var head := b[..k + 1];
    var x := MissingRow(head, a[..k]);
    PrefixCount(b, k + 1, x);
    assert multiset(b)[x] <= all[x];
    RowBeyond(all, a, k, x);
    EarlierInList(b, k, x);
  }

  lemma PrefixCount(b: seq<Row>, n: nat, x: Row)
    requires n <= |b|
    ensures multiset(b[..n])[x] <= multiset(b)[x]
  {
    assert b == b[..n] + b[n..];
  }

  lemma EarlierInList(b: seq<Row>, k: nat, x: Row)
    requires k < |b| && LatestFirst(b) && x in b[..k + 1]
    ensures b[k].realizadaEm <= x.realizadaEm
  {
    var i :| 0 <= i < k + 1 && b[..k + 1][i] == x;
  }

  lemma SplitCount(a: seq<Row>, k: nat, x: Row)
    requires k <= |a| && x !in a[k..]
    ensures multiset(a)[x] == multiset(a[..k])[x]
  {
    assert a == a[..k] + a[k..];
    assert x !in multiset(a[k..]);
  }

  lemma RowBeyond(all: multiset<Row>, a: seq<Row>, k: nat, x: Row)
    requires k < |a| && LatestFirst(a) && all[x] > multiset(a[..k])[x]
    requires forall left, y :: left in all - multiset(a) && y in a ==> left.realizadaEm <= y.realizadaEm
    ensures x.realizadaEm <= a[k].realizadaEm
  {
    if x in a[k..] {
      var j :| 0 <= j < |a| - k && a[k..][j] == x;
      assert a[k + j] == x;
    } else {
      SplitCount(a, k, x);
      assert x in all - multiset(a);
      assert a[k] in a;
    }
  }

  lemma MissingRow(longer: seq<Row>, shorter: seq<Row>) returns (x: Row)
    requires |longer| > |shorter|
    ensures x in longer && multiset(longer)[x] > multiset(shorter)[x]
  {
    if multiset(longer) <= multiset(shorter) {
      SubmultisetSize(multiset(longer), multiset(shorter));
      assert false;
    }
    x :| multiset(longer)[x] > multiset(shorter)[x];
    assert x in multiset(longer);
  }

  lemma SubmultisetSize(m: multiset<Row>, n: multiset<Row>)
    requires m <= n
    ensures |m| <= |n|
  {
    assert n == m + (n - m);
  }

  /** Exactly the rows of the client, each as often as it is there. */
  lemma {:induction false} RowsOfCount(rows: seq<Row>, id: int, row: Row)
    ensures multiset(RowsOf(rows, id))[row] == if row.transacao.idCliente == id then multiset(rows)[row] else 0
  {
    if rows != [] {
      var init := rows[..|rows| - 1];
      RowsOfCount(init, id, row);
      assert rows == init + [rows[|rows| - 1]];
    }
  }

  // When rows are stored in the order of their dates.

  predicate Before(a: int, b: int, strict: bool) {
    a < b || (a == b && !strict)
  }

  predicate DatesAscend(rows: seq<Row>, strict: bool) {
    forall i, j :: 0 <= i < j < |rows| ==> Before(rows[i].realizadaEm, rows[j].realizadaEm, strict)
  }

  lemma {:induction false} RowsOfIn(rows: seq<Row>, id: int, row: Row)
    requires row in RowsOf(rows, id)
    ensures row in rows
  {
    var init := rows[..|rows| - 1];
    if row in RowsOf(init, id) {
      RowsOfIn(init, id, row);
    }
  }

  lemma AscendSnoc(rows: seq<Row>, row: Row, strict: bool)
    requires DatesAscend(rows, strict)
    requires forall r :: r in rows ==> Before(r.realizadaEm, row.realizadaEm, strict)
    ensures DatesAscend(rows + [row], strict)
  {
    assert forall i :: 0 <= i < |rows| ==> rows[i] in rows;
  }

  lemma {:induction false} RowsOfAscend(rows: seq<Row>, id: int, strict: bool)
    requires DatesAscend(rows, strict)
    ensures DatesAscend(RowsOf(rows, id), strict)
  {
    if rows != [] {
      var k := |rows| - 1;
      RowsOfAscend(rows[..k], id, strict);
      if rows[k].transacao.idCliente == id {
        forall row | row in RowsOf(rows[..k], id)
          ensures Before(row.realizadaEm, rows[k].realizadaEm, strict)
        {
          RowsOfIn(rows[..k], id, row);
        }
        AscendSnoc(RowsOf(rows[..k], id), rows[k], strict);
      }
    }
  }

  lemma LatestAreLater(all: seq<Row>, n: nat)
    requires DatesAscend(all, false) && n <= |all|
    ensures forall left: Row, x: Row :: left in all[..n] && x in all[n..] ==> left.realizadaEm <= x.realizadaEm
  {
    forall left: Row, x: Row | left in all[..n] && x in all[n..]
      ensures left.realizadaEm <= x.realizadaEm
    {
      var i :| 0 <= i < n && all[i] == left;
      var j :| 0 <= j < |all| - n && all[n..][j] == x;
      assert all[n + j] == x;
    }
  }

  lemma LatestSplit(all: seq<Row>, n: nat)
    requires n == |all| - |LatestTen(all)|
    ensures multiset(LatestTen(all)) == multiset(all[n..])
  {
    SameRows(all[n..], LatestTen(all));
  }

  lemma LeftOutEarlier(all: seq<Row>, n: nat, list: seq<Row>, left: Row, x: Row)
    requires DatesAscend(all, false) && n <= |all| && multiset(list) == multiset(all[n..])
    requires left in multiset(all) - multiset(list) && x in list
    ensures left.realizadaEm <= x.realizadaEm
  {
    assert all == all[..n] + all[n..];
    assert left in multiset(all[..n]) && x in multiset(list);
    LatestAreLater(all, n);
  }

  lemma TailWithin(all: seq<Row>, n: nat)
    requires n <= |all|
    ensures multiset(all[n..]) <= multiset(all)
  {
    assert all == all[..n] + all[n..];
  }

  lemma LatestWithin(all: seq<Row>, list: seq<Row>)
    requires DatesAscend(all, false) && list == LatestTen(all)
    ensures LatestFirst(list) && multiset(list) <= multiset(all)
  {
    LatestSplit(all, |all| - |list|);
    TailWithin(all, |all| - |list|);
  }

  lemma LatestOfAll(all: seq<Row>, list: seq<Row>)
    requires DatesAscend(all, false) && list == LatestTen(all)
    ensures LatestFirst(list) && multiset(list) <= multiset(all)
    ensures forall left, x :: left in multiset(all) - multiset(list) && x in list ==> left.realizadaEm <= x.realizadaEm
  {
    LatestWithin(all, list);
    LatestSplit(all, |all| - |list|);
    forall left: Row, x: Row | left in multiset(all) - multiset(list) && x in list
      ensures left.realizadaEm <= x.realizadaEm
    {
      LeftOutEarlier(all, |all| - |list|, list, left, x);
    }
  }

  /** Rows in the order of their dates: the last ten, latest first, answer the query. */
  lemma LatestAnswers(rows: seq<Row>, id: int, list: seq<Row>)
    requires DatesAscend(rows, false) && list == LatestTen(RowsOf(rows, id))
    ensures IsLastTen(rows, id, list)
  {
    RowsOfAscend(rows, id, false);
    LatestOfAll(RowsOf(rows, id), list);
  }

  lemma OnlyRowOfDate(all: seq<Row>, j: nat, row: Row)
    requires DatesAscend(all, true) && j < |all| && row in all && row.realizadaEm == all[j].realizadaEm
    ensures row == all[j]
  {
    var i :| 0 <= i < |all| && all[i] == row;
  }

  lemma SameDatesSameRows(all: seq<Row>, list: seq<Row>, latest: seq<Row>)
    requires DatesAscend(all, true) && latest == LatestTen(all) && |list| == |latest|
    requires forall k :: 0 <= k < |list| ==> list[k] in all && list[k].realizadaEm == latest[k].realizadaEm
    ensures list == latest
  {
    forall k | 0 <= k < |list|
      ensures list[k] == latest[k]
    {
      OnlyRowOfDate(all, |all| - 1 - k, list[k]);
    }
  }

  lemma ListedRow(rows: seq<Row>, id: int, list: seq<Row>, k: nat)
    requires IsLastTen(rows, id, list) && k < |list|
    ensures list[k] in RowsOf(rows, id)
  {
    assert list[k] in multiset(list);
    assert list[k] in multiset(RowsOf(rows, id));
  }

  /** Then every answer has their dates. */
  lemma LatestDates(rows: seq<Row>, id: int, list: seq<Row>, latest: seq<Row>)
    requires DatesAscend(rows, false) && IsLastTen(rows, id, list) && latest == LatestTen(RowsOf(rows, id))
    ensures |list| == |latest| && forall k :: 0 <= k < |list| ==> list[k].realizadaEm == latest[k].realizadaEm
  {
    LatestAnswers(rows, id, latest);
    forall k | 0 <= k < |list|
      ensures list[k].realizadaEm == latest[k].realizadaEm
    {
      DatesDetermined(rows, id, list, latest, k);
    }
  }

  /** If no two dates are equal, they are the only answer. */
  lemma LatestOnly(rows: seq<Row>, id: int, list: seq<Row>, latest: seq<Row>)
    requires DatesAscend(rows, true) && IsLastTen(rows, id, list) && latest == LatestTen(RowsOf(rows, id))
    ensures list == latest
  {
    LatestDates(rows, id, list, latest);
    RowsOfAscend(rows, id, true);
    forall k | 0 <= k < |list|
      ensures list[k] in RowsOf(rows, id)
    {
      ListedRow(rows, id, list, k);
    }
    SameDatesSameRows(RowsOf(rows, id), list, latest);
  }

  // Sums, as the audit query at the end of init.sql writes them.

  function Credits(rows: seq<Row>, id: int): int {
    if rows == [] then 0
    else
      var l := rows[|rows| - 1].transacao;
      Credits(rows[..|rows| - 1], id) + (if l.idCliente == id && l.tipo == 'c' then l.valor else 0)
  }

  function Debits(rows: seq<Row>, id: int): int {
    if rows == [] then 0
    else
      var l := rows[|rows| - 1].transacao;
      Debits(rows[..|rows| - 1], id) + (if l.idCliente == id && l.tipo == 'd' then l.valor else 0)
  }

  function Net(rows: seq<Row>, id: int): int {
    Credits(rows, id) - Debits(rows, id)
  }

  lemma SumsSnoc(rows: seq<Row>, l: Row, id: int)
    ensures Credits(rows + [l], id)
            == Credits(rows, id) + (if l.transacao.idCliente == id && l.transacao.tipo == 'c' then l.transacao.valor else 0)
    ensures Debits(rows + [l], id)
            == Debits(rows, id) + (if l.transacao.idCliente == id && l.transacao.tipo == 'd' then l.transacao.valor else 0)
  {
    assert (rows + [l])[..|rows + [l]| - 1] == rows;
  }

  lemma {:induction false} NetConcat(a: seq<Row>, b: seq<Row>, id: int)
    ensures Net(a + b, id) == Net(a, id) + Net(b, id)
  {
    if b == [] {
      assert a + b == a;
    } else {
      NetConcat(a, b[..|b| - 1], id);
      assert (a + b)[..|a + b| - 1] == a + b[..|b| - 1];
    }
  }

  lemma NetOne(l: Row, id: int)
    ensures Net([l], id) == if l.transacao.idCliente != id then 0
                                else if l.transacao.tipo == 'c' then l.transacao.valor
                                else if l.transacao.tipo == 'd' then -l.transacao.valor else 0
  {
    assert [l][..|[l]| - 1] == [];
    assert Credits([], id) == 0 && Debits([], id) == 0;
  }

  lemma {:induction false} NetOfRows(rows: seq<Row>, id: int)
    ensures Net(RowsOf(rows, id), id) == Net(rows, id)
  {
    if rows != [] {
      var l := rows[|rows| - 1];
      NetOfRows(rows[..|rows| - 1], id);
      NetConcat(RowsOf(rows[..|rows| - 1], id), if l.transacao.idCliente == id then [l] else [], id);
      NetOne(l, id);
    }
  }

  lemma NetInsert(a: seq<Row>, l: Row, b: seq<Row>, id: int)
    ensures Net(a + ([l] + b), id) == Net(a + b, id) + Net([l], id)
  {
    NetConcat(a, b, id);
    NetConcat(a, [l] + b, id);
    NetConcat([l], b, id);
  }

  lemma WithoutOne(b: seq<Row>, i: nat)
    requires i < |b|
    ensures b == b[..i] + ([b[i]] + b[i + 1..])
    ensures multiset(b[..i] + b[i + 1..]) == multiset(b) - multiset{b[i]}
  {
    assert b == b[..i] + ([b[i]] + b[i + 1..]);
    assert multiset(b) == multiset(b[..i]) + (multiset{b[i]} + multiset(b[i + 1..]));
  }

  /** Where a row stands in b, and what is left of b without it. */
  lemma TakeOut(rest: seq<Row>, l: Row, b: seq<Row>) returns (b1: seq<Row>, b2: seq<Row>)
    requires multiset(rest + [l]) == multiset(b)
    ensures b == b1 + ([l] + b2) && multiset(rest) == multiset(b1 + b2)
  {
    assert l in multiset(rest + [l]);
    var i: nat :| i < |b| && b[i] == l;
    b1, b2 := b[..i], b[i + 1..];
    WithoutOne(b, i);
    assert multiset(rest) == multiset(rest + [l]) - multiset{l};
  }

  /** The sum of a list of rows does not depend on their order. */
  lemma {:induction false} NetPermutation(a: seq<Row>, b: seq<Row>, id: int)
    requires multiset(a) == multiset(b)
    ensures Net(a, id) == Net(b, id)
    decreases |a|
  {
    if a == [] {
      assert |multiset(b)| == |multiset(a)| == 0;
    } else {
      var l, rest := a[|a| - 1], a[..|a| - 1];
      assert a == rest + [l];
      var b1, b2 := TakeOut(rest, l, b);
      NetPermutation(rest, b1 + b2, id);
      NetConcat(rest, [l], id);
      NetInsert(b1, l, b2, id);
    }
  }

  /** With at most ten rows, the list holds them all. */
  lemma CompleteList(rows: seq<Row>, id: int, list: seq<Row>)
    requires IsLastTen(rows, id, list) && |RowsOf(rows, id)| <= 10
    ensures multiset(list) == multiset(RowsOf(rows, id))
    ensures Net(list, id) == Net(rows, id)
  {
    var all := RowsOf(rows, id);
    assert multiset(all) == multiset(list) + (multiset(all) - multiset(list));
    assert |multiset(all) - multiset(list)| == 0;
    NetPermutation(list, all, id);
    NetOfRows(rows, id);
  }
}
