/** Reading a table in the order of an integer column, as
    `prisma.<table>.findMany({ orderBy: { <column>: 'asc' | 'desc' } })`
    does: every row once, as (id, record). */
module Listing {
  import opened Ledger
  import opened Query

  /** `rows` lists every entry of `m` exactly once, as (id, record). */
  predicate RowsOf<V(==)>(rows: seq<(string, V)>, m: map<string, V>)
  {
    && |rows| == |m|
    && (forall i :: 0 <= i < |rows| ==> rows[i].0 in m && rows[i].1 == m[rows[i].0])
    && (forall id :: id in m ==> exists i :: 0 <= i < |rows| && rows[i] == (id, m[id]))
    && (forall i, j :: 0 <= i < j < |rows| ==> rows[i].0 != rows[j].0)
  }

  /** The rows for `ids`, in that order. */
  function RowsFor<V>(ids: seq<string>, m: map<string, V>): (rows: seq<(string, V)>)
    requires forall i :: 0 <= i < |ids| ==> ids[i] in m
    ensures |rows| == |ids|
    ensures forall i :: 0 <= i < |ids| ==> rows[i] == (ids[i], m[ids[i]])
  {
    seq(|ids|, i requires 0 <= i < |ids| => (ids[i], m[ids[i]]))
  }

  /** The ids of every entry, each once, give every row once. */
  lemma RowsForAllIds<V>(ids: seq<string>, m: map<string, V>)
    requires Distinct(ids)
    requires forall i :: 0 <= i < |ids| ==> ids[i] in m
    requires forall id :: id in m ==> id in ids
    ensures RowsOf(RowsFor(ids, m), m)
  {
    var rows := RowsFor(ids, m);
    assert (set i | 0 <= i < |ids| :: ids[i]) == m.Keys;
    DistinctCardinality(ids);
    forall id | id in m
      ensures exists i :: 0 <= i < |rows| && rows[i] == (id, m[id])
    {
      var i :| 0 <= i < |ids| && ids[i] == id;
      assert rows[i] == (id, m[id]);
    }
  }

  /** Every entry once, ordered by `key` in the requested direction. */
  method SortedRows<V(==)>(m: map<string, V>, key: map<string, int>, ascending: bool)
    returns (rows: seq<(string, V)>)
    requires key.Keys == m.Keys
    ensures RowsOf(rows, m)
    ensures forall i, j :: 0 <= i < j < |rows| ==> InOrder(key[rows[i].0], key[rows[j].0], ascending)
  {
    var ids := SortIdsByKey(key, ascending);
    rows := RowsFor(ids, m);
    RowsForAllIds(ids, m);
  }

  predicate DateOrdered(rows: seq<(string, Event)>, ascending: bool)
  {
    forall i, j :: 0 <= i < j < |rows| ==> InOrder(rows[i].1.date, rows[j].1.date, ascending)
  }

  /** Every event once, ordered by date in the requested direction. */
  method EventsByDate(events: map<string, Event>, ascending: bool) returns (rows: seq<(string, Event)>)
    ensures RowsOf(rows, events)
    ensures DateOrdered(rows, ascending)
  {
    var key := map id | id in events :: events[id].date;
    rows := SortedRows(events, key, ascending);
  }
}
