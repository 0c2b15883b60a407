/** Facts about tables keyed by integer ids and about lists of requested ids. */
module Tables {

  /** No element of `s` occurs twice. */
  predicate Distinct<T(==)>(s: seq<T>)
  {
    forall i, j :: 0 <= i < j < |s| ==> s[i] != s[j]
  }

  /** Every requested id names a row of `table`. */
  predicate AllKnown<V>(table: map<int, V>, ids: seq<int>)
  {
    forall i :: 0 <= i < |ids| ==> ids[i] in table
  }

  /** The ids of the rows an `id IN (ids)` query selects: each matching row once. */
  function Found<V>(table: map<int, V>, ids: seq<int>): set<int>
  {
    set k | k in ids && k in table
  }

  /**
   * Comparing the number of rows found with the number of ids requested
   * succeeds exactly when every id is known AND no id is repeated.
   */
  lemma {:induction false} FoundCount<V>(table: map<int, V>, ids: seq<int>)
    ensures |Found(table, ids)| <= |ids|
    ensures |Found(table, ids)| == |ids| <==> AllKnown(table, ids) && Distinct(ids)
  {
    if ids == [] {
      assert Found(table, ids) == {};
    } else {
      var p, x := ids[..|ids| - 1], ids[|ids| - 1];
      assert ids == p + [x];
      FoundCount(table, p);
      assert Found(table, ids) == Found(table, p) + (if x in table then {x} else {});
      assert AllKnown(table, ids) <==> AllKnown(table, p) && x in table;
      assert Distinct(ids) <==> Distinct(p) && x !in p by {
        if Distinct(ids) {
          forall i, j | 0 <= i < j < |p| ensures p[i] != p[j] {
            assert p[i] == ids[i] && p[j] == ids[j];
          }
          forall i | 0 <= i < |p| ensures p[i] != x {
            assert p[i] == ids[i];
          }
        }
        if Distinct(p) && x !in p {
          forall i, j | 0 <= i < j < |ids| ensures ids[i] != ids[j] {
            if j < |p| {
              assert ids[i] == p[i] && ids[j] == p[j];
            } else {
              assert ids[i] == p[i];
            }
          }
        }
      }
      if x !in table {
        assert Found(table, ids) == Found(table, p);
      } else if x in Found(table, p) {
        assert Found(table, ids) == Found(table, p);
      } else {
        assert |Found(table, ids)| == |Found(table, p)| + 1;
        assert AllKnown(table, p) ==> x !in p;
      }
    }
  }

  /** A set of ids is empty or has a member (the witness for choosing a key). */
  lemma EmptyOrInhabited(s: set<int>)
    ensures s == {} || exists k :: k in s
  {
    if forall k :: k !in s {
      assert s == {};
    }
  }

  /**
   * Lists every row of `m` once: `keys` enumerates the keys without repetition
   * and `rows[i]` is the row stored under `keys[i]`.
   */
  method Rows<V>(m: map<int, V>) returns (keys: seq<int>, rows: seq<V>)
    ensures Distinct(keys)
    ensures forall k :: k in m <==> k in keys
    ensures |keys| == |rows| == |m|
    ensures forall i :: 0 <= i < |keys| ==> keys[i] in m && rows[i] == m[keys[i]]
  {
    keys, rows := [], [];
    var rest := m.Keys;
    while rest != {}
      invariant rest <= m.Keys
      invariant forall k :: k in m && k !in rest ==> k in keys
      invariant forall i :: 0 <= i < |keys| ==> keys[i] in m && keys[i] !in rest
      invariant Distinct(keys)
      invariant |keys| == |rows| && |keys| + |rest| == |m.Keys|
      invariant forall i :: 0 <= i < |keys| ==> rows[i] == m[keys[i]]
      decreases |rest|
    {
      EmptyOrInhabited(rest);
      var key :| key in rest;
      keys, rows := keys + [key], rows + [m[key]];
      rest := rest - {key};
    }
  }
}
