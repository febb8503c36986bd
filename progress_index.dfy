/**
 * Progress indexes: how far a data region's history has been captured. The
 * model uses a concrete instance of the partially ordered, mergeable index:
 * a map from a writer to the highest position seen from it. One index is at
 * or after another when it has seen at least as far from every writer the
 * other has seen, and the merge of two indexes is their least upper bound.
 */
module ProgressIndexes {

  datatype ProgressIndex = ProgressIndex(positions: map<nat, nat>)

  /** The index before anything was captured. */
  function Minimum(): ProgressIndex
  {
    ProgressIndex(map[])
  }

  /** `isAfterOrEqual`: `a` has seen at least as far as `b` from every writer. */
  predicate AfterOrEqual(a: ProgressIndex, b: ProgressIndex)
  {
    forall w | w in b.positions :: w in a.positions && a.positions[w] >= b.positions[w]
  }

  /**
   * `updateToMinimumEqualOrIsAfterProgressIndex`: the smallest index at or
   * after both `a` and `b`.
   */
  function Merge(a: ProgressIndex, b: ProgressIndex): (r: ProgressIndex)
    ensures AfterOrEqual(r, a) && AfterOrEqual(r, b)
    ensures forall c :: AfterOrEqual(c, a) && AfterOrEqual(c, b) ==> AfterOrEqual(c, r)
  {
    ProgressIndex(map w | w in a.positions.Keys + b.positions.Keys ::
      if w !in a.positions then b.positions[w]
      else if w !in b.positions then a.positions[w]
      else if a.positions[w] < b.positions[w] then b.positions[w]
      else a.positions[w])
  }

  lemma MinimumIsLeast(a: ProgressIndex)
    ensures AfterOrEqual(a, Minimum())
    ensures AfterOrEqual(Minimum(), a) <==> a == Minimum()
  {
    if AfterOrEqual(Minimum(), a) {
      assert a.positions.Keys == {};
      assert a.positions == map[];
    }
  }

  /** Being at or after is a partial order on indexes. */
  lemma {:induction false} AfterOrEqualIsPartialOrder(a: ProgressIndex, b: ProgressIndex, c: ProgressIndex)
    ensures AfterOrEqual(a, a)
    ensures AfterOrEqual(a, b) && AfterOrEqual(b, c) ==> AfterOrEqual(a, c)
    ensures AfterOrEqual(a, b) && AfterOrEqual(b, a) ==> a == b
  {
    if AfterOrEqual(a, b) && AfterOrEqual(b, a) {
      assert a.positions.Keys == b.positions.Keys;
      assert a.positions == b.positions;
    }
  }

  /**
   * Merging with an index that is already covered changes nothing, so the
   * merge is idempotent; merging is also symmetric.
   */
  lemma MergeProperties(a: ProgressIndex, b: ProgressIndex)
    ensures AfterOrEqual(a, b) ==> Merge(a, b) == a
    ensures Merge(a, a) == a
    ensures Merge(a, b) == Merge(b, a)
  {
    if AfterOrEqual(a, b) {
      assert Merge(a, b).positions == a.positions;
    }
    assert Merge(a, a).positions == a.positions;
    assert Merge(a, b).positions == Merge(b, a).positions;
  }
}
