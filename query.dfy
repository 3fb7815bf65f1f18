/** The ordering Prisma's `findMany({ orderBy: { <field>: 'asc' | 'desc' } })`
    applies: every record once, ordered by an integer field. Records with equal
    keys may come back in any order, as from the database. */
module Query {

  /** `a` may come before `b` in the requested direction. */
  predicate InOrder(a: int, b: int, ascending: bool)
  {
    if ascending then a <= b else a >= b
  }

  predicate Distinct(ids: seq<string>)
  {
    forall i, j :: 0 <= i < j < |ids| ==> ids[i] != ids[j]
  }

  predicate AllKeyed(ids: seq<string>, key: map<string, int>)
  {
    forall i :: 0 <= i < |ids| ==> ids[i] in key
  }

  /** The ids are ordered by their keys in the requested direction. */
  predicate SortedBy(ids: seq<string>, key: map<string, int>, ascending: bool)
    requires AllKeyed(ids, key)
  {
    forall i, j :: 0 <= i < j < |ids| ==> InOrder(key[ids[i]], key[ids[j]], ascending)
  }

  /** `id` put in front of the first id it may precede. */
  function Insert(ids: seq<string>, id: string, key: map<string, int>, ascending: bool): (r: seq<string>)
    requires id in key && AllKeyed(ids, key)
    ensures multiset(r) == multiset(ids) + multiset{id}
  {
    if ids == [] then [id]
    else if InOrder(key[id], key[ids[0]], ascending) then [id] + ids
    else
      assert ids == [ids[0]] + ids[1..];
      [ids[0]] + Insert(ids[1..], id, key, ascending)
  }

  /** Insertion adds `id` and nothing else. */
  lemma {:induction false} InsertMembers(ids: seq<string>, id: string, key: map<string, int>, ascending: bool)
    requires id in key && AllKeyed(ids, key)
    ensures forall x :: x in Insert(ids, id, key, ascending) <==> x in ids || x == id
    ensures AllKeyed(Insert(ids, id, key, ascending), key)
  {
    var r := Insert(ids, id, key, ascending);
    if ids != [] && !InOrder(key[id], key[ids[0]], ascending) {
      var rest := Insert(ids[1..], id, key, ascending);
      InsertMembers(ids[1..], id, key, ascending);
      assert r == [ids[0]] + rest;
      assert ids == [ids[0]] + ids[1..];
    }
  }

  /** Insertion into a sorted sequence keeps it sorted. */
  lemma {:induction false} InsertSorted(ids: seq<string>, id: string, key: map<string, int>, ascending: bool)
    requires id in key && AllKeyed(ids, key)
    requires SortedBy(ids, key, ascending)
    ensures AllKeyed(Insert(ids, id, key, ascending), key)
    ensures SortedBy(Insert(ids, id, key, ascending), key, ascending)
  {
    InsertMembers(ids, id, key, ascending);
    var r := Insert(ids, id, key, ascending);
    if ids != [] && !InOrder(key[id], key[ids[0]], ascending) {
      var rest := Insert(ids[1..], id, key, ascending);
      InsertSorted(ids[1..], id, key, ascending);
      InsertMembers(ids[1..], id, key, ascending);
      assert r == [ids[0]] + rest;
      forall k | 0 <= k < |rest|
        ensures InOrder(key[ids[0]], key[rest[k]], ascending)
      {
        if rest[k] != id {
          assert rest[k] in rest;
          assert rest[k] in ids[1..];
          var m :| 0 <= m < |ids[1..]| && ids[1..][m] == rest[k];
          assert ids[m + 1] == rest[k];
        }
      }
      forall i, j | 0 <= i < j < |r|
        ensures InOrder(key[r[i]], key[r[j]], ascending)
      {
        if i > 0 {
          assert r[i] == rest[i - 1] && r[j] == rest[j - 1];
        }
      }
    }
  }

  /** Inserting a new id into a sequence without repetitions gives one. */
  lemma {:induction false} InsertDistinct(ids: seq<string>, id: string, key: map<string, int>, ascending: bool)
    requires id in key && AllKeyed(ids, key)
    requires Distinct(ids) && id !in ids
    ensures Distinct(Insert(ids, id, key, ascending))
  {
    var r := Insert(ids, id, key, ascending);
    if ids != [] && !InOrder(key[id], key[ids[0]], ascending) {
      var rest := Insert(ids[1..], id, key, ascending);
      assert id !in ids[1..];
      assert Distinct(ids[1..]) by {
        forall i, j | 0 <= i < j < |ids[1..]| ensures ids[1..][i] != ids[1..][j] {
          assert ids[1..][i] == ids[i + 1] && ids[1..][j] == ids[j + 1];
        }
      }
      InsertDistinct(ids[1..], id, key, ascending);
      InsertMembers(ids[1..], id, key, ascending);
      assert ids[0] !in ids[1..];
      assert ids[0] !in rest;
      assert r == [ids[0]] + rest;
      forall i, j | 0 <= i < j < |r| ensures r[i] != r[j] {
        if i > 0 {
          assert r[i] == rest[i - 1] && r[j] == rest[j - 1];
        } else {
          assert r[j] == rest[j - 1];
        }
      }
    }
  }

  /** Every keyed record exactly once, ordered by its key. */
  method SortIdsByKey(key: map<string, int>, ascending: bool) returns (ids: seq<string>)
    ensures Distinct(ids)
    ensures AllKeyed(ids, key)
    ensures forall id :: id in key ==> id in ids
    ensures SortedBy(ids, key, ascending)
  {
    ids := [];
    var rest := key.Keys;
    while rest != {}
      invariant rest <= key.Keys
      invariant Distinct(ids) && AllKeyed(ids, key) && SortedBy(ids, key, ascending)
      invariant forall id :: id in key ==> (id in ids <==> id !in rest)
      decreases rest
    {
      var id :| id in rest;
      InsertMembers(ids, id, key, ascending);
      InsertSorted(ids, id, key, ascending);
      InsertDistinct(ids, id, key, ascending);
      ids := Insert(ids, id, key, ascending);
      rest := rest - {id};
    }
  }

  /** A sequence without repetitions has as many elements as its set. */
  lemma {:induction false} DistinctCardinality(ids: seq<string>)
    requires Distinct(ids)
    ensures |set i | 0 <= i < |ids| :: ids[i]| == |ids|
  {
    if ids != [] {
      var last := ids[|ids| - 1];
      var init := ids[..|ids| - 1];
      assert Distinct(init);
      DistinctCardinality(init);
      assert (set i | 0 <= i < |ids| :: ids[i]) == (set i | 0 <= i < |init| :: init[i]) + {last};
      assert last !in (set i | 0 <= i < |init| :: init[i]);
    }
  }
}
