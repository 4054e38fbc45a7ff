/**
 * The element and array model shared by every sort: one slot of the
 * visualised array, the presentational state tag it carries, and the
 * predicates the sorts are specified with (sortedness by value, the
 * multiset of values, comparison counts).
 */
module Elements {

  /** The presentational tag a slot carries; it never influences ordering. */
  datatype State = Default | Comparing | Swapping | Sorted | Pivot

  /**
   * One slot of the array. `index` is the position the element was created
   * at; nothing ever updates it, and records are moved or copied whole, so
   * it identifies the element for as long as it lives.
   */
  datatype Element = Element(value: int, state: State, index: int)

  /** How a sort (or a whole run) ended: returned normally, threw the
      cancellation signal, or hit a run-time fault of the host language. */
  datatype Outcome = Done | Aborted | Faulted

  /** The values of a sequence of elements, slot by slot. */
  function Values(s: seq<Element>): (r: seq<int>)
    ensures |r| == |s|
    ensures forall k :: 0 <= k < |s| ==> r[k] == s[k].value
  {
    seq(|s|, k requires 0 <= k < |s| => s[k].value)
  }

  /** `Values` distributes over concatenation. */
  lemma ValuesAppend(a: seq<Element>, b: seq<Element>)
    ensures Values(a + b) == Values(a) + Values(b)
  {
  }

  /** The multiset of values of a non-empty sequence: its head and the rest. */
  lemma ValuesCons(s: seq<Element>)
    requires s != []
    ensures multiset(Values(s)) == multiset{s[0].value} + multiset(Values(s[1..]))
  {
    assert Values(s) == [s[0].value] + Values(s[1..]);
  }

  /** The element with its presentational tag cleared: what is left is the
      value and the identity of the element. */
  function Plain(e: Element): Element
  {
    e.(state := Default)
  }

  /** `s[lo..hi]` is non-decreasing by value. */
  ghost predicate AscendingOn(s: seq<Element>, lo: int, hi: int)
  {
    forall p, q :: 0 <= lo <= p < q < hi <= |s| ==> s[p].value <= s[q].value
  }

  /** The whole sequence is non-decreasing by value. */
  ghost predicate Ascending(s: seq<Element>)
  {
    AscendingOn(s, 0, |s|)
  }

  /** Sortedness depends on the values only. */
  lemma AscendingByValues(s: seq<Element>, t: seq<Element>, lo: int, hi: int)
    requires Values(s) == Values(t) && AscendingOn(s, lo, hi)
    ensures AscendingOn(t, lo, hi)
  {
    forall p, q | 0 <= lo <= p < q < hi <= |t|
      ensures t[p].value <= t[q].value
    {
      assert Values(s)[p] <= Values(s)[q];
    }
  }

  /** Sortedness of a segment depends on that segment only. */
  lemma AscendingBySlice(s: seq<Element>, t: seq<Element>, lo: int, hi: int)
    requires 0 <= lo <= hi <= |s| && hi <= |t| && s[lo..hi] == t[lo..hi]
    requires AscendingOn(s, lo, hi)
    ensures AscendingOn(t, lo, hi)
  {
    forall p, q | lo <= p < q < hi
      ensures t[p].value <= t[q].value
    {
      assert t[p] == s[lo..hi][p - lo] && t[q] == s[lo..hi][q - lo];
    }
  }

  /** Every value is strictly positive, as generation and custom input make them. */
  ghost predicate AllPositive(s: seq<Element>)
  {
    forall x :: x in multiset(Values(s)) ==> 0 < x
  }

  /** Every value in `s` is at least `x`. */
  ghost predicate AtLeast(s: seq<Element>, x: int)
  {
    forall y :: y in multiset(Values(s)) ==> x <= y
  }

  /** Every value in `s` is below `x`. */
  ghost predicate Below(s: seq<Element>, x: int)
  {
    forall y :: y in multiset(Values(s)) ==> y < x
  }

  /** Both bounds read slot by slot. */
  lemma BoundsPointwise(s: seq<Element>, x: int)
    ensures AtLeast(s, x) <==> forall k :: 0 <= k < |s| ==> x <= s[k].value
    ensures Below(s, x) <==> forall k :: 0 <= k < |s| ==> s[k].value < x
  {
    if forall k :: 0 <= k < |s| ==> x <= s[k].value {
      forall y | y in multiset(Values(s))
        ensures x <= y
      {
        assert y in Values(s);
      }
    }
    if forall k :: 0 <= k < |s| ==> s[k].value < x {
      forall y | y in multiset(Values(s))
        ensures y < x
      {
        assert y in Values(s);
      }
    }
    if AtLeast(s, x) {
      forall k | 0 <= k < |s|
        ensures x <= s[k].value
      {
        assert Values(s)[k] in multiset(Values(s));
      }
    }
    if Below(s, x) {
      forall k | 0 <= k < |s|
        ensures s[k].value < x
      {
        assert Values(s)[k] in multiset(Values(s));
      }
    }
  }

  /** Every slot carries the given tag. */
  ghost predicate AllTagged(s: seq<Element>, st: State)
  {
    forall k :: 0 <= k < |s| ==> s[k].state == st
  }

  /** The number of unordered pairs drawn from `n` items, defined the way the
      nested loops of bubble and selection sort count them: pass `i` of an
      `n`-element array makes `n - 1 - i` comparisons. */
  function Pairs(n: nat): nat
  {
    if n == 0 then 0 else Pairs(n - 1) + (n - 1)
  }

  /** The loop count is the closed form n(n-1)/2. */
  lemma {:induction false} PairsClosedForm(n: nat)
    ensures 2 * Pairs(n) == n * (n - 1)
  {
    if n > 0 {
      PairsClosedForm(n - 1);
      calc {
        2 * Pairs(n);
        2 * Pairs(n - 1) + 2 * (n - 1);
        (n - 1) * (n - 2) + 2 * (n - 1);
        n * (n - 1);
      }
    }
  }

  /** More items make more pairs. */
  lemma PairsMonotone(a: nat, b: nat)
    requires a <= b
    ensures Pairs(a) <= Pairs(b)
  {
  }

  /** Exchanging two slots keeps the multiset of values. */
  lemma SwapKeepsValues(s: seq<Element>, i: int, j: int)
    requires 0 <= i < |s| && 0 <= j < |s|
    ensures multiset(Values(s[i := s[j]][j := s[i]])) == multiset(Values(s))
  {
    var t := s[i := s[j]][j := s[i]];
    assert Values(t) == Values(s)[i := s[j].value][j := s[i].value];
  }

  /** Retagging a slot keeps every value. */
  lemma RetagKeepsValues(s: seq<Element>, i: int, st: State)
    requires 0 <= i < |s|
    ensures Values(s[i := s[i].(state := st)]) == Values(s)
  {
  }

  /** A slice of a sequence of positive values is positive. */
  lemma SlicePositive(s: seq<Element>, lo: int, hi: int)
    requires 0 <= lo <= hi <= |s| && AllPositive(s)
    ensures AllPositive(s[lo..hi])
  {
    forall x | x in multiset(Values(s[lo..hi]))
      ensures 0 < x
    {
      assert x in Values(s[lo..hi]);
      var k :| 0 <= k < hi - lo && Values(s[lo..hi])[k] == x;
      assert Values(s)[lo + k] == x;
      assert x in multiset(Values(s));
    }
  }

  /** Overwriting the slots `[lo, lo + w)` of a positive array with the
      first `w` values of a positive sequence `m` keeps it positive. */
  lemma WrittenPositive(o: seq<Element>, c: seq<Element>, lo: int, w: int, m: seq<Element>)
    requires 0 <= lo && 0 <= w <= |m| && lo + w <= |o| == |c|
    requires forall t :: lo <= t < lo + w ==> c[t].value == m[t - lo].value
    requires forall t :: 0 <= t < |c| && !(lo <= t < lo + w) ==> c[t].value == o[t].value
    requires AllPositive(o) && AllPositive(m)
    ensures AllPositive(c)
  {
    forall x | x in multiset(Values(c))
      ensures 0 < x
    {
      assert x in Values(c);
      var k :| 0 <= k < |c| && Values(c)[k] == x;
      if lo <= k < lo + w {
        assert Values(m)[k - lo] == x;
        assert x in multiset(Values(m));
      } else {
        assert Values(o)[k] == x;
        assert x in multiset(Values(o));
      }
    }
  }

  /** `s` and `o` have the same length and agree outside the slots
      `[lo, hi)`. */
  ghost predicate SameOutside(s: seq<Element>, o: seq<Element>, lo: int, hi: int)
  {
    |s| == |o| && forall t :: 0 <= t < |s| && !(lo <= t < hi) ==> s[t] == o[t]
  }

  /** Changes confined to `[lo, hi)` are confined to any wider range. */
  lemma SameOutsideWiden(s: seq<Element>, o: seq<Element>, lo: int, hi: int, lo': int, hi': int)
    requires SameOutside(s, o, lo, hi) && lo' <= lo && hi <= hi'
    ensures SameOutside(s, o, lo', hi')
  {
  }

  /** Changes confined to `[lo, hi)` after changes confined to the wider
      `[lo', hi')` are confined to `[lo', hi')`. */
  lemma SameOutsideCompose(s: seq<Element>, m: seq<Element>, o: seq<Element>,
                           lo: int, hi: int, lo': int, hi': int)
    requires SameOutside(s, m, lo, hi) && SameOutside(m, o, lo', hi')
    requires lo' <= lo && hi <= hi'
    ensures SameOutside(s, o, lo', hi')
  {
  }

  /** Two sequences that agree on `[lo, hi)` have the same slice there. */
  lemma SameSlice(a: seq<Element>, b: seq<Element>, lo: int, hi: int)
    requires 0 <= lo <= hi <= |a| && hi <= |b|
    requires forall t :: lo <= t < hi ==> a[t] == b[t]
    ensures a[lo..hi] == b[lo..hi]
  {
  }

  /** The slots `[h, i)` of `a` moved one place to the right, with `a[i]`
      put into the freed slot `h`, is a permutation of `a`: what the
      shifting loop of insertion sort does once the key goes back. */
  lemma RotateKeepsValues(a: seq<int>, b: seq<int>, h: int, i: int)
    requires 0 <= h <= i < |a| == |b|
    requires forall k :: 0 <= k < h ==> b[k] == a[k]
    requires forall k :: h < k <= i ==> b[k] == a[k - 1]
    requires forall k :: i < k < |a| ==> b[k] == a[k]
    ensures multiset(b[h := a[i]]) == multiset(a)
  {
    assert b[h := a[i]] == a[..h] + [a[i]] + a[h..i] + a[i + 1..];
    assert a == a[..h] + a[h..i] + [a[i]] + a[i + 1..];
  }

  /** What the shifting loop of insertion sort leaves: `c` is `o` with the
      values of the slots `[h, i)` moved one place to the right, all of them
      larger than `key`, the slots up to `h` keeping their values and the
      slots past `i` untouched. */
  ghost predicate Shifted(c: seq<Element>, o: seq<Element>, h: int, i: int, key: int)
  {
    && 0 <= h <= i < |o| == |c|
    && (forall k :: 0 <= k <= h ==> c[k].value == o[k].value)
    && (forall k :: h < k <= i ==> c[k].value == o[k - 1].value)
    && (forall k :: h < k <= i ==> c[k].value > key)
    && (forall k :: i < k < |o| ==> c[k] == o[k])
  }

  /** The same rotation stated on elements: putting the value `key` of
      `o[i]` into the hole `h` of the shifted `c` restores the multiset of
      values. */
  lemma ShiftedKeepsValues(o: seq<Element>, c: seq<Element>, h: int, i: int, key: int)
    requires Shifted(c, o, h, i, key) && o[i].value == key
    ensures multiset(Values(c)[h := key]) == multiset(Values(o))
    ensures AllPositive(o) ==> AllPositive(c)
  {
    RotateKeepsValues(Values(o), Values(c), h, i);
    if AllPositive(o) {
      forall x | x in multiset(Values(c))
        ensures 0 < x
      {
        assert x in Values(c);
        var k :| 0 <= k < |c| && Values(c)[k] == x;
        var from := if h < k <= i then k - 1 else k;
        assert Values(o)[from] == x;
        assert x in multiset(Values(o));
      }
    }
  }

  /** Insertion of one key into a sorted prefix: `c` is `b` with the slots
      left of the hole `h` kept and the slots `(h, i]` holding the values of
      `[h, i)`, all larger than the key `e`; the key is not below the left
      neighbour of the hole. Putting it into the hole sorts `[0, i]`. */
  lemma InsertKeepsOrder(b: seq<Element>, c0: seq<Element>, h: int, i: int, e: Element)
    requires Shifted(c0, b, h, i, e.value) && AscendingOn(b, 0, i)
    requires h == 0 || c0[h - 1].value <= e.value
    ensures AscendingOn(c0[h := e], 0, i + 1)
  {
    var c := c0[h := e];
    forall p, q | 0 <= p < q < i + 1
      ensures c[p].value <= c[q].value
    {
      if q < h {
      } else if q == h {
        if p < h - 1 {
          assert c[p].value <= c[h - 1].value;
        }
      } else if p < h {
        assert c[p].value <= c[h - 1].value || p == h - 1;
        assert b[p].value <= b[q - 1].value || p == q - 1;
      } else if p > h {
        assert b[p - 1].value <= b[q - 1].value;
      }
    }
  }

  /** The values of `s` differ from the multiset `m` in at most one slot:
      putting the right value back into that slot restores `m`. */
  ghost predicate OneSlotFrom(s: seq<Element>, m: multiset<int>)
  {
    exists h, v :: 0 <= h < |s| && multiset(Patched(s, h, v)) == m
  }

  /** The values of `s` with the one at `h` replaced by `v`. */
  function Patched(s: seq<Element>, h: int, v: int): seq<int>
    requires 0 <= h < |s|
  {
    Values(s)[h := v]
  }

  /** The multiset of values of `s[lo..hi]`. */
  ghost function Bag(s: seq<Element>, lo: int, hi: int): multiset<int>
    requires 0 <= lo <= hi <= |s|
  {
    multiset(Values(s[lo..hi]))
  }

  /** A segment's values are those left of a slot, the slot's, and those
      right of it. */
  lemma BagSplit(s: seq<Element>, lo: int, p: int, hi: int)
    requires 0 <= lo <= p < hi <= |s|
    ensures Bag(s, lo, hi) == Bag(s, lo, p) + multiset{s[p].value} + Bag(s, p + 1, hi)
  {
    assert s[lo..hi] == s[lo..p] + [s[p]] + s[p + 1..hi];
    ValuesAppend(s[lo..p] + [s[p]], s[p + 1..hi]);
    ValuesAppend(s[lo..p], [s[p]]);
  }

  /** When only a segment may have changed and the whole array keeps its
      values, the segment keeps its values. */
  lemma BagFromWhole(s: seq<Element>, o: seq<Element>, lo: int, hi: int)
    requires 0 <= lo <= hi <= |o| && SameOutside(s, o, lo, hi)
    requires multiset(Values(s)) == multiset(Values(o))
    ensures Bag(s, lo, hi) == Bag(o, lo, hi)
  {
    WholeBag(s, lo, hi);
    WholeBag(o, lo, hi);
    assert s[..lo] == o[..lo] && s[hi..] == o[hi..];
    var before, after := multiset(Values(s[..lo])), multiset(Values(s[hi..]));
    forall x
      ensures Bag(s, lo, hi)[x] == Bag(o, lo, hi)[x]
    {
      assert (before + Bag(s, lo, hi) + after)[x] == (before + Bag(o, lo, hi) + after)[x];
    }
  }

  /** An array's values: those before a segment, the segment's, those after. */
  lemma WholeBag(s: seq<Element>, lo: int, hi: int)
    requires 0 <= lo <= hi <= |s|
    ensures multiset(Values(s)) == multiset(Values(s[..lo])) + Bag(s, lo, hi) + multiset(Values(s[hi..]))
  {
    assert s == s[..lo] + s[lo..hi] + s[hi..];
    ValuesAppend(s[..lo] + s[lo..hi], s[hi..]);
    ValuesAppend(s[..lo], s[lo..hi]);
  }
}
