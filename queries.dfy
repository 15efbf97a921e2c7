/** The two query operators the listings are built from: Where over a table and OrderBy. */
module Queries {

  import opened Sorting

  /** Where: the rows of a table that satisfy keep, each once, in no particular
      order. Every row is stored under its own key, keyOf(row). */
  method Where<K, V>(table: map<K, V>, keep: V -> bool, keyOf: V -> K) returns (rows: seq<V>)
    requires forall k :: k in table ==> keyOf(table[k]) == k
    ensures forall v :: v in rows ==> keyOf(v) in table && table[keyOf(v)] == v && keep(v)
    ensures forall k :: k in table && keep(table[k]) ==> table[k] in rows
    ensures Distinct(rows)
  {
    var pending := table.Keys;
    rows := [];
    while pending != {}
      invariant pending <= table.Keys
      invariant forall v :: v in rows ==> keyOf(v) in table && keyOf(v) !in pending && table[keyOf(v)] == v && keep(v)
      invariant forall k :: k in table && k !in pending && keep(table[k]) ==> table[k] in rows
      invariant Distinct(rows)
      decreases pending
    {
      var k :| k in pending;
      var v := table[k];
      if keep(v) {
        rows := rows + [v];
      }
      pending := pending - {k};
    }
  }

  /** OrderBy: rows ordered by key; a permutation, so the same rows, still each once. */
  function OrderBy<V(!new)>(rows: seq<V>, key: V -> int): (ordered: seq<V>)
    requires Distinct(rows)
    ensures SortedBy(ordered, key)
    ensures forall v :: v in ordered <==> v in rows
    ensures Distinct(ordered)
    ensures multiset(ordered) == multiset(rows)
  {
    var ordered := InsertionSort(rows, key);
    DistinctPermutation(rows, ordered);
    assert forall v :: v in ordered <==> v in rows by {
      forall v ensures v in ordered <==> v in rows {
        assert v in ordered <==> v in multiset(ordered);
        assert v in rows <==> v in multiset(rows);
      }
    }
    ordered
  }

  /** Where followed by OrderBy: exactly the stored rows that satisfy keep,
      each once, ordered by key. */
  method SortedWhere<K, V(!new)>(table: map<K, V>, keep: V -> bool, keyOf: V -> K, key: V -> int)
    returns (ordered: seq<V>)
    requires forall k :: k in table ==> keyOf(table[k]) == k
    ensures forall v :: v in ordered <==> keyOf(v) in table && table[keyOf(v)] == v && keep(v)
    ensures Distinct(ordered)
    ensures SortedBy(ordered, key)
  {
    var rows := Where(table, keep, keyOf);
    ordered := OrderBy(rows, key);
  }
}
