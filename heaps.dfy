/**
 * The facts heap sort rests on: the max-heap order of the implicit binary
 * tree in `[0, n)` (children of slot `k` at `2k + 1` and `2k + 2`), one
 * step of sifting down, the maximum at the root, and the sorted tail that
 * the extraction loop grows.
 */
module Heaps {
  import opened Elements

  /** Slot `k` is no smaller than those of its children that lie in `[0, n)`. */
  ghost predicate NodeOk(v: seq<int>, n: int, k: int)
    requires 0 <= k && n <= |v|
  {
    && (2 * k + 1 < n ==> v[2 * k + 1] <= v[k])
    && (2 * k + 2 < n ==> v[2 * k + 2] <= v[k])
  }

  /** Every slot of `[lo, n)` except `x` is no smaller than its children. */
  ghost predicate HeapExcept(v: seq<int>, lo: int, n: int, x: int)
  {
    0 <= lo && n <= |v| && forall k :: lo <= k < n && k != x ==> NodeOk(v, n, k)
  }

  /** Every slot of `[lo, n)` is no smaller than its children. */
  ghost predicate Heap(v: seq<int>, lo: int, n: int)
  {
    HeapExcept(v, lo, n, -1)
  }

  /** The parent of `x`, when it lies in `[lo, n)`, is no smaller than the
      children of `x`: the only slot `x` may break, it does not break for
      its grandchildren. */
  ghost predicate ParentOk(v: seq<int>, lo: int, n: int, x: int)
    requires 0 <= x && n <= |v|
  {
    forall k :: 0 <= lo <= k < n && (2 * k + 1 == x || 2 * k + 2 == x) ==>
      (2 * x + 1 < n ==> v[2 * x + 1] <= v[k]) && (2 * x + 2 < n ==> v[2 * x + 2] <= v[k])
  }

  /** Slots of the upper half have no children in `[0, n)`. */
  lemma LeavesHeap(v: seq<int>, lo: int, n: int)
    requires 0 <= n <= |v| && n / 2 <= lo
    ensures Heap(v, lo, n)
  {
  }

  /** Sifting down stops: `x` is no smaller than its children. */
  lemma SiftDone(v: seq<int>, lo: int, n: int, x: int)
    requires 0 <= x && HeapExcept(v, lo, n, x) && NodeOk(v, n, x)
    ensures Heap(v, lo, n)
  {
  }

  /** Sifting down moves on: the larger child `c` of `x`, larger than `x`,
      trades places with it; then only `c` may break the order, and the
      parent of `c` (now `x`) is no smaller than the children of `c`. */
  lemma SiftSwap(v: seq<int>, lo: int, n: int, x: int, c: int)
    requires 0 <= lo <= x && HeapExcept(v, lo, n, x) && ParentOk(v, lo, n, x)
    requires (c == 2 * x + 1 || c == 2 * x + 2) && c < n
    requires v[x] < v[c]
    requires 2 * x + 1 < n ==> v[2 * x + 1] <= v[c]
    requires 2 * x + 2 < n ==> v[2 * x + 2] <= v[c]
    ensures HeapExcept(v[x := v[c]][c := v[x]], lo, n, c)
    ensures ParentOk(v[x := v[c]][c := v[x]], lo, n, c)
  {
    var w := v[x := v[c]][c := v[x]];
    forall k | lo <= k < n && k != c
      ensures NodeOk(w, n, k)
    {
      if k != x {
        assert NodeOk(v, n, k);
        if 2 * k + 1 == x || 2 * k + 2 == x {
          assert v[c] <= v[k];
        }
      }
    }
    assert NodeOk(v, n, c);
  }

  /** In a heap over `[0, n)` no slot exceeds the root. */
  lemma {:induction false} HeapRootMax(v: seq<int>, n: int, k: int)
    requires Heap(v, 0, n) && 0 <= k < n
    ensures v[k] <= v[0]
    decreases k
  {
    if k > 0 {
      var p := (k - 1) / 2;
      assert NodeOk(v, n, p);
      HeapRootMax(v, n, p);
    }
  }

  /** Every value of `s` left of `m` is at most every value from `m` on. */
  ghost predicate SplitBelow(s: seq<Element>, m: int)
  {
    forall a, b :: 0 <= a < m <= b < |s| ==> s[a].value <= s[b].value
  }

  /** Rearranging the slots left of `m` keeps them below the rest, and
      keeps the rest sorted. */
  lemma TailKept(s: seq<Element>, o: seq<Element>, m: int)
    requires 0 <= m <= |o| && SameOutside(s, o, 0, m)
    requires multiset(Values(s)) == multiset(Values(o))
    requires SplitBelow(o, m) && AscendingOn(o, m, |o|)
    ensures SplitBelow(s, m) && AscendingOn(s, m, |s|)
  {
    SplitKept(s, o, m);
    assert s[m..|s|] == o[m..|o|];
    AscendingBySlice(o, s, m, |s|);
  }

  /** Rearranging the slots left of `m` keeps them below the rest. */
  lemma SplitKept(s: seq<Element>, o: seq<Element>, m: int)
    requires 0 <= m <= |o| && SameOutside(s, o, 0, m)
    requires multiset(Values(s)) == multiset(Values(o))
    requires SplitBelow(o, m)
    ensures SplitBelow(s, m)
  {
    BagFromWhole(s, o, 0, m);
    forall b | m <= b < |s|
      ensures forall a :: 0 <= a < m ==> s[a].value <= s[b].value
    {
      var x := o[b].value;
      BoundsPointwise(o[0..m], x + 1);
      BoundsPointwise(s[0..m], x + 1);
      forall a | 0 <= a < m
        ensures s[a].value <= s[b].value
      {
        assert s[0..m][a] == s[a];
      }
    }
  }

  /** One turn of the extraction loop, on values: exchanging the root of
      the heap over `[0, i]` with slot `i` grows the sorted tail to `[i, n)`,
      keeps it above the rest, and leaves a heap over `[0, i)` broken only
      at the root. */
  lemma ExtractStep(s: seq<Element>, t: seq<Element>, i: int)
    requires 0 < i < |s| == |t|
    requires Heap(Values(s), 0, i + 1) && AscendingOn(s, i + 1, |s|) && SplitBelow(s, i + 1)
    requires Values(t) == Values(s)[0 := s[i].value][i := s[0].value]
    ensures HeapExcept(Values(t), 0, i, 0) && ParentOk(Values(t), 0, i, 0)
    ensures AscendingOn(t, i, |t|) && SplitBelow(t, i)
  {
    var v, w := Values(s), Values(t);
    forall k | 0 <= k < i && k != 0
      ensures NodeOk(w, i, k)
    {
      assert NodeOk(v, i + 1, k);
    }
    forall a | 0 <= a < i
      ensures t[a].value <= t[i].value
    {
      if a == 0 {
        HeapRootMax(v, i + 1, i);
      } else {
        HeapRootMax(v, i + 1, a);
      }
    }
    forall a, b | 0 <= a < i < b < |t|
      ensures t[a].value <= t[b].value
    {
      if a == 0 {
        assert s[i].value <= s[b].value;
      } else {
        assert s[a].value <= s[b].value;
      }
    }
    forall b | i < b < |t|
      ensures t[i].value <= t[b].value
    {
      assert s[0].value <= s[b].value;
    }
  }

  /** The loop ends with the whole array sorted. */
  lemma ExtractDone(s: seq<Element>)
    requires 0 < |s| && AscendingOn(s, 1, |s|) && SplitBelow(s, 1)
    ensures Ascending(s)
  {
  }
}
