/** The one connection of a process (src/util/db_connection.c) and the copy of a result. */
module DbConnection {

  /**
   A libpq connection that stays up. Queries are sent one at a time; each leaves a number
   of results, and it has ended once a further PQgetResult answers NULL.
   */
  class PGconn<Query> {
    var sent: seq<Query>   // every query string handed to the server
    var ended: nat         // how many of them are finished and drained
    var results: nat       // results of the last one that were not fetched yet
    var busy: bool

    /** At most one query is in flight, and it is the last one sent. */
    ghost predicate Valid()
      reads this
    {
      && ended + (if busy then 1 else 0) == |sent|
      && (!busy ==> results == 0)
    }

    constructor ()
      ensures Valid() && sent == [] && !busy
    {
      sent, ended, results, busy := [], 0, 0, false;
    }

    method PQgetResult() returns (some: bool)
      requires Valid()
      modifies this
      ensures Valid() && sent == old(sent)
      ensures some <==> old(busy) && old(results) > 0
      ensures some ==> busy && results == old(results) - 1
      ensures !some ==> !busy
    {
      some := busy && results > 0;
      if some {
        results := results - 1;
      } else if busy {
        busy := false;
        ended := ended + 1;
      }
    }

    /** libpq refuses a second query while one is in progress. */
    method PQsendQuery(query: Query, produces: nat) returns (ok: bool)
      requires Valid()
      modifies this
      ensures Valid() && ok == !old(busy)
      ensures ok ==> busy && sent == old(sent) + [query] && ended == |old(sent)|
      ensures !ok ==> busy && sent == old(sent) && ended == old(ended)
    {
      ok := !busy;
      if ok {
        sent := sent + [query];
        busy := true;
        results := produces;
      }
    }

    method Drain()
      requires Valid()
      modifies this
      ensures Valid() && !busy && sent == old(sent) && ended == |sent|
    {
      var some := PQgetResult();
      while some
        invariant Valid() && sent == old(sent) && (!some ==> !busy)
        decreases some, results
      {
        some := PQgetResult();
      }
    }

    /**
     db_execute_async: whatever was in flight is drained first, so the send always succeeds,
     all earlier queries have ended and this one is the only one in flight.
     */
    method ExecuteAsync(query: Query, produces: nat) returns (ok: bool)
      requires Valid()
      modifies this
      ensures Valid() && ok && busy
      ensures sent == old(sent) + [query] && ended == |old(sent)|
    {
      Drain();
      ok := PQsendQuery(query, produces);
    }

    /** db_query: PQexec drains what is pending, runs the query and waits for it. */
    method ExecuteQuery(query: Query, produces: nat)
      requires Valid()
      modifies this
      ensures Valid() && !busy
      ensures sent == old(sent) + [query] && ended == |sent|
    {
      Drain();
      var ok := PQsendQuery(query, produces);
      Drain();
    }
  }

  /** DBResultSet: one heap array of fields for each row. */
  class ResultSet {
    const records: array<array<string>>

    ghost predicate Holds(res: seq<seq<string>>)
      reads this, records, set i | 0 <= i < records.Length :: records[i]
    {
      && records.Length == |res|
      && forall i :: 0 <= i < |res| ==> records[i][..] == res[i]
    }

    /** db_create_result_set with db_copy_field: every field of every row is copied. */
    constructor (res: seq<seq<string>>, fields: nat)
      requires forall i :: 0 <= i < |res| ==> |res[i]| == fields
      ensures Holds(res) && fresh(records) && forall i :: 0 <= i < records.Length ==> fresh(records[i])
    {
      var none := new string[0];
      var rows := new array<string>[|res|](i => none);
      for i := 0 to |res|
        invariant fresh(rows)
        invariant forall k :: 0 <= k < rows.Length ==> fresh(rows[k])
        invariant forall k :: 0 <= k < i ==> rows[k][..] == res[k]
      {
        var values := CopyFields(res[i], fields);
        rows[i] := values;
      }
      records := rows;
    }

    static method CopyFields(row: seq<string>, fields: nat) returns (values: array<string>)
      requires |row| == fields
      ensures fresh(values) && values[..] == row
    {
      values := new string[fields];
      for j := 0 to fields
        invariant values[..j] == row[..j]
      {
        values[j] := row[j];
      }
    }
  }
}
