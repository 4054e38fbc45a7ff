/**
 * The facts quick sort rests on: the Lomuto partition invariant, the split
 * a partition leaves around its pivot, and how sorting both sides of that
 * split sorts the whole segment.
 */
module Partitioning {
  import opened Elements

  /** The state of the partition loop over the values `v`: the slots
      `[lo, i]` hold values below the pivot value `pv`, the slots `(i, j)`
      values not below it; `j` is the next slot to examine. */
  ghost predicate Partitioned(v: seq<int>, lo: int, i: int, j: int, pv: int)
  {
    && 0 <= lo && lo - 1 <= i < j <= |v|
    && (forall t :: lo <= t <= i ==> v[t] < pv)
    && (forall t :: i < t < j ==> pv <= v[t])
  }

  /** `v[p]` splits `[lo, hi]`: everything left of it is smaller, everything
      right of it at least as large. */
  ghost predicate SplitAt(v: seq<int>, lo: int, p: int, hi: int)
  {
    && 0 <= lo <= p <= hi < |v|
    && (forall t :: lo <= t < p ==> v[t] < v[p])
    && (forall t :: p < t <= hi ==> v[p] <= v[t])
  }

  /** The values after one turn of the partition loop at slot `j`: a value
      below the pivot value `pv` is exchanged into slot `i + 1` (a no-op
      when that is `j` itself), any other value stays where it is. */
  function Visit(v: seq<int>, i: int, j: int, pv: int): (w: seq<int>)
    requires -1 <= i < j < |v|
    ensures |w| == |v| && multiset(w) == multiset(v)
    ensures forall t :: 0 <= t < |v| && t != i + 1 && t != j ==> w[t] == v[t]
  {
    if v[j] < pv then v[i + 1 := v[j]][j := v[i + 1]] else v
  }

  /** The last slot holding a value below the pivot value after that turn. */
  function VisitIndex(v: seq<int>, i: int, j: int, pv: int): int
    requires 0 <= j < |v|
  {
    if v[j] < pv then i + 1 else i
  }

  /** One turn of the partition loop keeps its invariant, one slot further. */
  lemma PartitionAdvance(v: seq<int>, lo: int, i: int, j: int, pv: int)
    requires Partitioned(v, lo, i, j, pv) && j < |v|
    ensures Partitioned(Visit(v, i, j, pv), lo, VisitIndex(v, i, j, pv), j + 1, pv)
  {
  }

  /** Moving the pivot from `hi` into the slot `i + 1` just past the smaller
      values ends the partition: the pivot then splits `[lo, hi]`. */
  lemma PartitionFinish(v: seq<int>, lo: int, i: int, hi: int)
    requires 0 <= hi < |v| && Partitioned(v, lo, i, hi, v[hi])
    ensures SplitAt(v[i + 1 := v[hi]][hi := v[i + 1]], lo, i + 1, hi)
  {
  }

  /** A sorted run, a value no smaller than the run and no larger than a
      second sorted run, then that run: together they are sorted. */
  lemma AscendingAround(s: seq<Element>, lo: int, p: int, hi: int)
    requires 0 <= lo <= p < hi <= |s|
    requires AscendingOn(s, lo, p) && AscendingOn(s, p + 1, hi)
    requires forall t :: lo <= t < p ==> s[t].value < s[p].value
    requires forall t :: p < t < hi ==> s[p].value <= s[t].value
    ensures AscendingOn(s, lo, hi)
  {
    forall a, b | lo <= a < b < hi
      ensures s[a].value <= s[b].value
    {
      if b < p || a > p {
      } else if a < p && b > p {
        assert s[a].value < s[p].value <= s[b].value;
      }
    }
  }

  /** A side that is rearranged keeps its bound. */
  lemma BoundKept(before: seq<Element>, after: seq<Element>, pv: int, below: bool)
    requires multiset(Values(after)) == multiset(Values(before))
    requires below ==> forall t :: 0 <= t < |before| ==> before[t].value < pv
    requires !below ==> forall t :: 0 <= t < |before| ==> pv <= before[t].value
    ensures below ==> forall t :: 0 <= t < |after| ==> after[t].value < pv
    ensures !below ==> forall t :: 0 <= t < |after| ==> pv <= after[t].value
  {
    BoundsPointwise(before, pv);
    BoundsPointwise(after, pv);
  }

  /** Quick sort composes: with `p1` split around slot `p`, sort the left
      side into `p2`, then the right side into `p3`, each stage keeping the
      array's values and changing nothing outside its own side; then the
      segment `[lo, hi]` of `p3` is sorted, the array keeps the values of
      `p1`, and nothing outside the segment has moved. */
  lemma QuickSortStep(p1: seq<Element>, p2: seq<Element>, p3: seq<Element>, lo: int, p: int, hi: int)
    requires SplitAt(Values(p1), lo, p, hi)
    requires AscendingOn(p2, lo, p) && multiset(Values(p2)) == multiset(Values(p1))
    requires SameOutside(p2, p1, lo, p)
    requires AscendingOn(p3, p + 1, hi + 1) && multiset(Values(p3)) == multiset(Values(p2))
    requires SameOutside(p3, p2, p + 1, hi + 1)
    ensures AscendingOn(p3, lo, hi + 1)
    ensures multiset(Values(p3)) == multiset(Values(p1)) && SameOutside(p3, p1, lo, hi + 1)
  {
    BagFromWhole(p2, p1, lo, p);
    BagFromWhole(p3, p2, p + 1, hi + 1);
    SidesSorted(p1, p2, p3, lo, p, hi);
    SameOutsideCompose(p3, p2, p1, p + 1, hi + 1, lo, hi + 1);
  }

  /** The order half of `QuickSortStep`. */
  lemma SidesSorted(p1: seq<Element>, p2: seq<Element>, p3: seq<Element>, lo: int, p: int, hi: int)
    requires 0 <= lo <= p <= hi < |p1| == |p2| == |p3|
    requires SplitAt(Values(p1), lo, p, hi)
    requires AscendingOn(p2, lo, p) && Bag(p2, lo, p) == Bag(p1, lo, p) && SameOutside(p2, p1, lo, p)
    requires AscendingOn(p3, p + 1, hi + 1) && Bag(p3, p + 1, hi + 1) == Bag(p2, p + 1, hi + 1)
    requires SameOutside(p3, p2, p + 1, hi + 1)
    ensures AscendingOn(p3, lo, hi + 1)
  {
    var pv := p1[p].value;
    assert p3[p] == p1[p];
    assert p3[lo..p] == p2[lo..p];
    assert p2[p + 1..hi + 1] == p1[p + 1..hi + 1];
    BoundKept(p1[lo..p], p2[lo..p], pv, true);
    BoundKept(p1[p + 1..hi + 1], p3[p + 1..hi + 1], pv, false);
    assert forall t :: lo <= t < p ==> p3[t].value == p3[lo..p][t - lo].value;
    assert forall t :: p < t < hi + 1 ==> p3[t].value == p3[p + 1..hi + 1][t - p - 1].value;
    AscendingBySlice(p2, p3, lo, p);
    AscendingAround(p3, lo, p, hi + 1);
  }

  /** The comparison counter across one call of quick sort: at most `a + b`
      for the partition, then at most `Pairs(a) + Pairs(b)` for the sides,
      is at most `Pairs(n)` in all. */
  lemma PairsBudget(c0: int, c1: int, c2: int, a: nat, b: nat, n: nat)
    requires n == a + b + 1
    requires c0 <= c1 <= c0 + (a + b) && c1 <= c2 <= c1 + Pairs(a) + Pairs(b)
    ensures c0 <= c2 <= c0 + Pairs(n)
  {
    PairsSplit(a, b, n);
  }

  /** Partitioning `n = a + b + 1` values costs `a + b` comparisons and
      leaves sides of `a` and `b` values; with at most `Pairs` comparisons
      for each side, the whole stays within `Pairs(n)`. */
  lemma {:induction false} PairsSplit(a: nat, b: nat, n: nat)
    requires n == a + b + 1
    ensures Pairs(a) + Pairs(b) + a + b <= Pairs(n)
    decreases b
  {
    assert Pairs(n) == Pairs(a + b) + (a + b);
    if b > 0 {
      PairsSplit(a, b - 1, n - 1);
      assert Pairs(b) == Pairs(b - 1) + (b - 1);
    }
  }
}
