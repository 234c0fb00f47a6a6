/** Grouping rows under a key, as `groupReactions` does with `reduce` and the trip lists do with a `Map`. */
module Grouping {
  import opened Common

  /** One step of the grouping: append the value to its key's list, starting the list if needed. */
  function AddTo<K, V>(groups: map<K, seq<V>>, k: K, v: V): map<K, seq<V>> {
    groups[k := (if k in groups then groups[k] else []) + [v]]
  }

  function GroupBy<R, K, V>(rows: seq<R>, key: R -> K, val: R -> V): map<K, seq<V>> {
    if rows == [] then map[]
    else AddTo(GroupBy(rows[..|rows| - 1], key, val), key(rows[|rows| - 1]), val(rows[|rows| - 1]))
  }

  /** The rows with a given key. */
  function WithKey<R, K(==)>(key: R -> K, k: K): R -> bool {
    (r: R) => key(r) == k
  }

  /**
   * Nothing is lost, duplicated or reordered: a key is present exactly when some row has it, and its list is
   * the values of the rows with that key, in row order.
   */
  lemma {:induction false} GroupByExact<R, K, V>(rows: seq<R>, key: R -> K, val: R -> V, k: K)
    ensures k in GroupBy(rows, key, val) <==> exists r :: r in rows && key(r) == k
    ensures k in GroupBy(rows, key, val) ==> GroupBy(rows, key, val)[k] == Map(val, Filter(rows, WithKey(key, k)))
    ensures k !in GroupBy(rows, key, val) ==> Filter(rows, WithKey(key, k)) == []
  {
    if rows != [] {
      var init, last := rows[..|rows| - 1], rows[|rows| - 1];
      GroupByExact(init, key, val, k);
      assert rows == init + [last];
      FilterConcat(init, [last], WithKey(key, k));
      assert Filter([last], WithKey(key, k)) == if key(last) == k then [last] else [];
      var kept := Filter(init, WithKey(key, k));
      assert kept + [] == kept;
      assert Map(val, kept + [last]) == Map(val, kept) + [val(last)];
      assert last in rows;
      assert forall r :: r in rows <==> r in init || r == last;
    }
  }
}
