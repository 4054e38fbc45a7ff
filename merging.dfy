/**
 * What one `merge` of merge sort computes, as a function on records, and
 * the facts about it: the output is sorted when both inputs are, it is a
 * permutation of their concatenation, and it is stable — records of equal
 * value keep their left-before-right order.
 */
module Merging {
  import opened Elements

  /** The merge of two runs, taking from the left run on ties and leaving the
      tags cleared; once one run is exhausted the other is copied. */
  function Merged(a: seq<Element>, b: seq<Element>): (r: seq<Element>)
    ensures |r| == |a| + |b|
    decreases |a| + |b|
  {
    if a == [] && b == [] then []
    else if b == [] || (a != [] && a[0].value <= b[0].value) then [Plain(a[0])] + Merged(a[1..], b)
    else [Plain(b[0])] + Merged(a, b[1..])
  }

  /** The records of `s` with value `v`, in order, tags cleared. A sort is
      stable when this subsequence is the same before and after for every
      `v`. */
  function Keyed(s: seq<Element>, v: int): seq<Element>
  {
    if s == [] then []
    else (if s[0].value == v then [Plain(s[0])] else []) + Keyed(s[1..], v)
  }

  lemma {:induction false} KeyedAppend(a: seq<Element>, b: seq<Element>, v: int)
    ensures Keyed(a + b, v) == Keyed(a, v) + Keyed(b, v)
  {
    if a == [] {
      assert a + b == b;
    } else {
      var head := if a[0].value == v then [Plain(a[0])] else [];
      assert a + b == [a[0]] + (a[1..] + b) && a == [a[0]] + a[1..];
      KeyedCons(a[0], a[1..] + b, v);
      KeyedCons(a[0], a[1..], v);
      KeyedAppend(a[1..], b, v);
      assert head + (Keyed(a[1..], v) + Keyed(b, v)) == (head + Keyed(a[1..], v)) + Keyed(b, v);
    }
  }

  lemma KeyedSplit(s: seq<Element>, h: int, v: int)
    requires 0 <= h <= |s|
    ensures Keyed(s, v) == Keyed(s[..h], v) + Keyed(s[h..], v)
  {
    KeyedAppend(s[..h], s[h..], v);
    assert s[..h] + s[h..] == s;
  }

  /** A run whose values all exceed `v` holds no record of value `v`. */
  lemma {:induction false} KeyedAbove(s: seq<Element>, v: int)
    requires forall k :: 0 <= k < |s| ==> v < s[k].value
    ensures Keyed(s, v) == []
  {
    if s != [] {
      KeyedAbove(s[1..], v);
    }
  }

  /** The merge is a permutation of the two runs. */
  lemma {:induction false} MergedValues(a: seq<Element>, b: seq<Element>)
    ensures multiset(Values(Merged(a, b))) == multiset(Values(a)) + multiset(Values(b))
    decreases |a| + |b|
  {
    if a == [] && b == [] {
    } else if b == [] || (a != [] && a[0].value <= b[0].value) {
      var r := Merged(a, b);
      MergedValues(a[1..], b);
      assert r[1..] == Merged(a[1..], b);
      ValuesCons(r);
      ValuesCons(a);
    } else {
      var r := Merged(a, b);
      MergedValues(a, b[1..]);
      assert r[1..] == Merged(a, b[1..]);
      ValuesCons(r);
      ValuesCons(b);
    }
  }

  /** A lower bound of both runs bounds their merge. */
  lemma MergedAtLeast(a: seq<Element>, b: seq<Element>, x: int)
    requires AtLeast(a, x) && AtLeast(b, x)
    ensures AtLeast(Merged(a, b), x)
  {
    MergedValues(a, b);
  }

  /** The head of a sorted run bounds the run. */
  lemma HeadBounds(s: seq<Element>)
    requires s != [] && Ascending(s)
    ensures AtLeast(s, s[0].value)
  {
    forall y | y in multiset(Values(s))
      ensures s[0].value <= y
    {
      assert y in Values(s);
      var k :| 0 <= k < |s| && Values(s)[k] == y;
    }
  }

  lemma TailAscending(s: seq<Element>)
    requires s != [] && Ascending(s)
    ensures Ascending(s[1..])
  {
    forall p, q | 0 <= p < q < |s| - 1
      ensures s[1..][p].value <= s[1..][q].value
    {
      assert s[p + 1].value <= s[q + 1].value;
    }
  }

  /** A record followed by a sorted run it bounds is sorted. */
  lemma ConsAscending(e: Element, s: seq<Element>)
    requires Ascending(s) && AtLeast(s, e.value)
    ensures Ascending([e] + s)
  {
    var t := [e] + s;
    forall p, q | 0 <= p < q < |t|
      ensures t[p].value <= t[q].value
    {
      if p == 0 {
        assert Values(s)[q - 1] == s[q - 1].value;
        assert s[q - 1].value in multiset(Values(s));
      } else {
        assert s[p - 1].value <= s[q - 1].value;
      }
    }
  }

  /** Merging two sorted runs gives a sorted run. */
  lemma {:induction false} MergedAscending(a: seq<Element>, b: seq<Element>)
    requires Ascending(a) && Ascending(b)
    ensures Ascending(Merged(a, b))
    decreases |a| + |b|
  {
    if a == [] && b == [] {
    } else if b == [] || (a != [] && a[0].value <= b[0].value) {
      TailAscending(a);
      MergedAscending(a[1..], b);
      HeadBounds(a);
      AtLeastTail(a);
      if b != [] {
        HeadBounds(b);
        AtLeastWeaken(b, b[0].value, a[0].value);
      }
      MergedAtLeast(a[1..], b, a[0].value);
      ConsAscending(Plain(a[0]), Merged(a[1..], b));
    } else {
      TailAscending(b);
      MergedAscending(a, b[1..]);
      HeadBounds(b);
      AtLeastTail(b);
      if a != [] {
        HeadBounds(a);
        AtLeastWeaken(a, a[0].value, b[0].value);
      }
      MergedAtLeast(a, b[1..], b[0].value);
      ConsAscending(Plain(b[0]), Merged(a, b[1..]));
    }
  }

  lemma AtLeastTail(s: seq<Element>)
    requires s != [] && AtLeast(s, s[0].value)
    ensures AtLeast(s[1..], s[0].value)
  {
    ValuesCons(s);
    forall y | y in multiset(Values(s[1..]))
      ensures s[0].value <= y
    {
      assert y in multiset(Values(s));
    }
  }

  lemma AtLeastWeaken(s: seq<Element>, x: int, y: int)
    requires AtLeast(s, x) && y <= x
    ensures AtLeast(s, y)
  {
  }

  /** The merge is stable: for every value, the records of that value come
      out as those of the left run followed by those of the right run. */
  lemma {:induction false} MergedStable(a: seq<Element>, b: seq<Element>, v: int)
    requires Ascending(a)
    ensures Keyed(Merged(a, b), v) == Keyed(a, v) + Keyed(b, v)
    decreases |a| + |b|
  {
    if a == [] && b == [] {
    } else if b == [] || (a != [] && a[0].value <= b[0].value) {
      TailAscending(a);
      MergedStable(a[1..], b, v);
      StableTakeLeft(a, b, v);
    } else {
      MergedStable(a, b[1..], v);
      if a != [] {
        KeyedBelowHead(a, b[0].value);
      }
      StableTakeRight(a, b, v);
    }
  }

  /** A sorted run holds no record of a value below its head. */
  lemma KeyedBelowHead(a: seq<Element>, v: int)
    requires a != [] && Ascending(a) && v < a[0].value
    ensures Keyed(a, v) == []
  {
    forall k | 0 <= k < |a|
      ensures v < a[k].value
    {
      assert a[0].value <= a[k].value;
    }
    KeyedAbove(a, v);
  }

  /** `Keyed` of a record followed by a run. */
  lemma KeyedCons(e: Element, s: seq<Element>, v: int)
    ensures Keyed([e] + s, v) == (if e.value == v then [Plain(e)] else []) + Keyed(s, v)
  {
    assert ([e] + s)[1..] == s;
  }

  /** A record put in front of an output run whose records of value `v` are
      those of `a` then those of `b`: with the record also put in front of
      `a`, the output's records of value `v` are still those of the two. */
  lemma KeyedFrontLeft(x: Element, m: seq<Element>, a: seq<Element>, b: seq<Element>, v: int)
    requires Keyed(m, v) == Keyed(a, v) + Keyed(b, v)
    ensures Keyed([Plain(x)] + m, v) == Keyed([x] + a, v) + Keyed(b, v)
  {
    KeyedCons(Plain(x), m, v);
    KeyedCons(x, a, v);
  }

  /** The same with the record put in front of `b`, when `a` holds no record
      of its value. */
  lemma KeyedFrontRight(x: Element, m: seq<Element>, a: seq<Element>, b: seq<Element>, v: int)
    requires Keyed(m, v) == Keyed(a, v) + Keyed(b, v)
    requires x.value == v ==> Keyed(a, v) == []
    ensures Keyed([Plain(x)] + m, v) == Keyed(a, v) + Keyed([x] + b, v)
  {
    KeyedCons(Plain(x), m, v);
    KeyedCons(x, b, v);
  }

  /** The step of `MergedStable` that takes the head of the left run. */
  lemma StableTakeLeft(a: seq<Element>, b: seq<Element>, v: int)
    requires a != [] && (b == [] || a[0].value <= b[0].value)
    requires Keyed(Merged(a[1..], b), v) == Keyed(a[1..], v) + Keyed(b, v)
    ensures Keyed(Merged(a, b), v) == Keyed(a, v) + Keyed(b, v)
  {
    MergedHead(a, b);
    assert Merged(a, b) == [Plain(a[0])] + Merged(a[1..], b);
    KeyedFrontLeft(a[0], Merged(a[1..], b), a[1..], b, v);
    assert [a[0]] + a[1..] == a;
  }

  /** The step of `MergedStable` that takes the head of the right run, when
      the left run holds no record of its value. */
  lemma StableTakeRight(a: seq<Element>, b: seq<Element>, v: int)
    requires b != [] && (a == [] || a[0].value > b[0].value)
    requires b[0].value == v ==> Keyed(a, v) == []
    requires Keyed(Merged(a, b[1..]), v) == Keyed(a, v) + Keyed(b[1..], v)
    ensures Keyed(Merged(a, b), v) == Keyed(a, v) + Keyed(b, v)
  {
    MergedHead(a, b);
    assert Merged(a, b) == [Plain(b[0])] + Merged(a, b[1..]);
    KeyedFrontRight(b[0], Merged(a, b[1..]), a, b[1..], v);
    assert [b[0]] + b[1..] == b;
  }

  /** One step of the merge: which run the next record comes from. */
  lemma MergedHead(a: seq<Element>, b: seq<Element>)
    requires a != [] || b != []
    ensures b == [] || (a != [] && a[0].value <= b[0].value) ==>
              Merged(a, b)[0] == Plain(a[0]) && Merged(a, b)[1..] == Merged(a[1..], b)
    ensures !(b == [] || (a != [] && a[0].value <= b[0].value)) ==>
              Merged(a, b)[0] == Plain(b[0]) && Merged(a, b)[1..] == Merged(a, b[1..])
  {
  }

  /** Advancing in the left run: when the merge of what is left of the runs
      is the rest of `m` from `i + j` on and the left head comes next, that
      head is `m[i + j]` and the rest moves one on. */
  lemma MergedTakeLeft(a: seq<Element>, b: seq<Element>, i: int, j: int, m: seq<Element>)
    requires 0 <= i < |a| && 0 <= j <= |b| && i + j <= |m|
    requires Merged(a[i..], b[j..]) == m[i + j..]
    requires j == |b| || a[i].value <= b[j].value
    ensures i + j < |m| && m[i + j] == Plain(a[i])
    ensures Merged(a[i + 1..], b[j..]) == m[i + j + 1..]
  {
    MergedHead(a[i..], b[j..]);
    assert a[i..][1..] == a[i + 1..];
    assert m[i + j..][1..] == m[i + j + 1..];
  }

  /** The next record of a merge comes from the left run when its head is
      not larger than the head of the right run, otherwise from the right
      run; the merge of what remains is the rest of the merge. */
  lemma MergedTake(a: seq<Element>, b: seq<Element>, i: int, j: int)
    requires 0 <= i < |a| && 0 <= j < |b|
    requires Merged(a[i..], b[j..]) == Merged(a, b)[i + j..]
    ensures var takeLeft := a[i].value <= b[j].value;
            var i', j' := if takeLeft then i + 1 else i, if takeLeft then j else j + 1;
            i + j < |Merged(a, b)| &&
            Merged(a, b)[i + j] == Plain(if takeLeft then a[i] else b[j]) &&
            Merged(a[i'..], b[j'..]) == Merged(a, b)[i' + j'..]
  {
    if a[i].value <= b[j].value {
      MergedTakeLeft(a, b, i, j, Merged(a, b));
    } else {
      MergedTakeRight(a, b, i, j, Merged(a, b));
    }
  }

  /** Advancing in the right run, the mirror image of `MergedTakeLeft`. */
  lemma MergedTakeRight(a: seq<Element>, b: seq<Element>, i: int, j: int, m: seq<Element>)
    requires 0 <= i <= |a| && 0 <= j < |b| && i + j <= |m|
    requires Merged(a[i..], b[j..]) == m[i + j..]
    requires i == |a| || a[i].value > b[j].value
    ensures i + j < |m| && m[i + j] == Plain(b[j])
    ensures Merged(a[i..], b[j + 1..]) == m[i + j + 1..]
  {
    MergedHead(a[i..], b[j..]);
    assert b[j..][1..] == b[j + 1..];
    assert m[i + j..][1..] == m[i + j + 1..];
  }

  /** Every record of a merge has its tag cleared. */
  lemma {:induction false} MergedPlain(a: seq<Element>, b: seq<Element>)
    ensures forall t :: 0 <= t < |Merged(a, b)| ==> Merged(a, b)[t].state == Default
    decreases |a| + |b|
  {
    if a == [] && b == [] {
    } else if b == [] || (a != [] && a[0].value <= b[0].value) {
      MergedPlain(a[1..], b);
    } else {
      MergedPlain(a, b[1..]);
    }
  }

  /** `s` is `o` with the slots `[lo, lo + w)` overwritten by the first `w`
      records of `m`, tagged swapping: what `merge` has written so far. */
  ghost predicate CopiedInto(s: seq<Element>, o: seq<Element>, lo: int, w: int, m: seq<Element>)
  {
    && |s| == |o| && 0 <= lo && 0 <= w <= |m| && lo + w <= |s|
    && forall t :: 0 <= t < |s| ==> s[t] == if lo <= t < lo + w then m[t - lo].(state := Swapping) else o[t]
  }

  /** Nothing written yet. */
  lemma CopiedNone(s: seq<Element>, lo: int, m: seq<Element>)
    requires 0 <= lo <= |s|
    ensures CopiedInto(s, s, lo, 0, m)
  {
  }

  /** Writing the next record of `m` into the next slot. */
  lemma CopiedStep(s: seq<Element>, o: seq<Element>, lo: int, w: int, m: seq<Element>)
    requires CopiedInto(s, o, lo, w, m) && w < |m| && lo + w < |s|
    ensures CopiedInto(s[lo + w := m[w].(state := Swapping)], o, lo, w + 1, m)
  {
  }

  /** Every value of a merge comes from one of the runs, so positive runs
      merge into a positive run. */
  lemma MergedPositive(a: seq<Element>, b: seq<Element>)
    requires AllPositive(a) && AllPositive(b)
    ensures AllPositive(Merged(a, b))
  {
    MergedValues(a, b);
  }

  /** Writing records of a positive run over a positive array keeps it
      positive. */
  lemma CopiedPositive(s: seq<Element>, o: seq<Element>, lo: int, w: int, m: seq<Element>)
    requires CopiedInto(s, o, lo, w, m) && AllPositive(o) && AllPositive(m)
    ensures AllPositive(s)
  {
    WrittenPositive(o, s, lo, w, m);
  }

  /** What `merge` leaves in a positive array is positive: the array `o`
      retagged to `tagged`, then `w` records of the merge of its two halves
      written over `[left, left + w)`. */
  lemma MergePositive(o: seq<Element>, tagged: seq<Element>, c: seq<Element>,
                      left: int, mid: int, right: int, w: int)
    requires 0 <= left <= mid < right < |o|
    requires Values(tagged) == Values(o)
    requires CopiedInto(c, tagged, left, w, Merged(o[left..mid + 1], o[mid + 1..right + 1]))
    ensures AllPositive(o) ==> AllPositive(c)
  {
    if AllPositive(o) {
      SlicePositive(o, left, mid + 1);
      SlicePositive(o, mid + 1, right + 1);
      MergedPositive(o[left..mid + 1], o[mid + 1..right + 1]);
      CopiedPositive(c, tagged, left, w, Merged(o[left..mid + 1], o[mid + 1..right + 1]));
    }
  }

  /** Once all of `m` is written and the tags are cleared again, the segment
      holds exactly `m` and nothing outside it has changed. */
  lemma CopiedAll(s: seq<Element>, c: seq<Element>, o: seq<Element>, lo: int, m: seq<Element>)
    requires CopiedInto(c, o, lo, |m|, m)
    requires forall t :: 0 <= t < |m| ==> m[t].state == Default
    requires |s| == |c|
    requires forall t :: lo <= t < lo + |m| ==> s[t] == c[t].(state := Default)
    requires forall t :: 0 <= t < |s| && !(lo <= t < lo + |m|) ==> s[t] == c[t]
    ensures s[lo..lo + |m|] == m
    ensures forall t :: 0 <= t < |s| && !(lo <= t < lo + |m|) ==> s[t] == o[t]
  {
    forall t | 0 <= t < |m|
      ensures s[lo..lo + |m|][t] == m[t]
    {
      assert s[lo + t] == m[t].(state := Swapping).(state := Default);
    }
  }

  /** The number of records `mergeSort` writes into a segment of `n` slots:
      every merge rewrites its whole segment, and the left half of a segment
      of `n` slots has `(n - 1) / 2 + 1` of them. */
  function MergeWrites(n: nat): nat
  {
    if n <= 1 then 0
    else MergeWrites(LeftHalf(n)) + MergeWrites(n - LeftHalf(n)) + n
  }

  /** The number of records `mergeSort(left, right)` writes, following its
      recursion over positions. */
  function MergeWritesOn(left: int, right: int): nat
    decreases right - left
  {
    if left >= right then 0
    else MergeWritesOn(left, (left + right) / 2) + MergeWritesOn((left + right) / 2 + 1, right) + (right - left + 1)
  }

  /** One level of the split: the two halves' counts plus one write per slot. */
  lemma MergeWritesSplit(left: int, mid: int, right: int)
    requires left < right && mid == (left + right) / 2
    ensures MergeWritesOn(left, right) == MergeWritesOn(left, mid) + MergeWritesOn(mid + 1, right) + (right - left + 1)
  {
  }

  /** The count depends only on the size of the segment. */
  lemma {:induction false} MergeWritesBySize(left: int, right: int)
    requires left <= right + 1
    ensures MergeWritesOn(left, right) == MergeWrites(right - left + 1)
    decreases right - left
  {
    if left < right {
      var mid := (left + right) / 2;
      MergeWritesBySize(left, mid);
      MergeWritesBySize(mid + 1, right);
      assert mid - left + 1 == LeftHalf(right - left + 1);
    }
  }

  /** The size of the left half `mergeSort` makes of a segment of `n > 1`
      slots. */
  function LeftHalf(n: nat): (h: nat)
    requires n > 1
    ensures 1 <= h < n && n - h <= h
  {
    (n - 1) / 2 + 1
  }

  /** Merge sort as a function: a run of at most one record is left as it is
      (tag included); a longer one is split as `mergeSort` splits it, both
      halves sorted and merged. */
  function MergeSorted(s: seq<Element>): (r: seq<Element>)
    ensures |r| == |s|
    decreases |s|
  {
    if |s| <= 1 then s
    else Merged(MergeSorted(s[..LeftHalf(|s|)]), MergeSorted(s[LeftHalf(|s|)..]))
  }

  /** Merge sort sorts. */
  lemma {:induction false} MergeSortedAscending(s: seq<Element>)
    ensures Ascending(MergeSorted(s))
    decreases |s|
  {
    if |s| > 1 {
      var h := LeftHalf(|s|);
      MergeSortedAscending(s[..h]);
      MergeSortedAscending(s[h..]);
      MergedAscending(MergeSorted(s[..h]), MergeSorted(s[h..]));
    }
  }

  /** Merge sort permutes the values. */
  lemma {:induction false} MergeSortedValues(s: seq<Element>)
    ensures multiset(Values(MergeSorted(s))) == multiset(Values(s))
    decreases |s|
  {
    if |s| > 1 {
      var h := LeftHalf(|s|);
      var x, y := MergeSorted(s[..h]), MergeSorted(s[h..]);
      MergeSortedValues(s[..h]);
      MergeSortedValues(s[h..]);
      assert MergeSorted(s) == Merged(x, y);
      MergedValues(x, y);
      HalvesValues(s, h, x, y, Merged(x, y));
    }
  }

  /** Runs holding the values of the two halves of `s`, and a run holding
      theirs, hold the values of `s`. */
  lemma HalvesValues(s: seq<Element>, h: int, x: seq<Element>, y: seq<Element>, m: seq<Element>)
    requires 0 <= h <= |s|
    requires multiset(Values(x)) == multiset(Values(s[..h]))
    requires multiset(Values(y)) == multiset(Values(s[h..]))
    requires multiset(Values(m)) == multiset(Values(x)) + multiset(Values(y))
    ensures multiset(Values(m)) == multiset(Values(s))
  {
    assert s == s[..h] + s[h..];
    ValuesAppend(s[..h], s[h..]);
  }

  /** Merge sort is stable: the records of every value keep their order. */
  lemma {:induction false} MergeSortedStable(s: seq<Element>, v: int)
    ensures Keyed(MergeSorted(s), v) == Keyed(s, v)
    decreases |s|
  {
    if |s| > 1 {
      var h := LeftHalf(|s|);
      MergeSortedStable(s[..h], v);
      MergeSortedStable(s[h..], v);
      MergeSortedAscending(s[..h]);
      MergedStable(MergeSorted(s[..h]), MergeSorted(s[h..]), v);
      KeyedSplit(s, h, v);
    }
  }

  /** Merge sort of a run split where `mergeSort` splits it. */
  lemma MergeSortedSplit(a: seq<Element>, b: seq<Element>)
    requires |a| + |b| > 1 && |a| == LeftHalf(|a| + |b|)
    ensures MergeSorted(a + b) == Merged(MergeSorted(a), MergeSorted(b))
  {
    assert (a + b)[..|a|] == a && (a + b)[|a|..] == b;
  }

  /** One level of `mergeSort` over an array: `o` before, `s1` after sorting
      `[left, mid]`, `s2` after sorting `(mid, right]`, `s3` after merging.
      The segment then holds the merge sort of what it held before, and
      nothing outside it has moved. */
  lemma MergeSortStep(o: seq<Element>, s1: seq<Element>, s2: seq<Element>, s3: seq<Element>,
                      left: int, mid: int, right: int)
    requires 0 <= left <= mid < right < |o| == |s1| == |s2| == |s3|
    requires mid == (left + right) / 2
    requires s1[left..mid + 1] == MergeSorted(o[left..mid + 1]) && SameOutside(s1, o, left, mid + 1)
    requires s2[mid + 1..right + 1] == MergeSorted(s1[mid + 1..right + 1]) && SameOutside(s2, s1, mid + 1, right + 1)
    requires s3[left..right + 1] == Merged(s2[left..mid + 1], s2[mid + 1..right + 1]) && SameOutside(s3, s2, left, right + 1)
    ensures s3[left..right + 1] == MergeSorted(o[left..right + 1])
    ensures SameOutside(s3, o, left, right + 1)
  {
    var a, b := o[left..mid + 1], o[mid + 1..right + 1];
    HalvesSlices(o, s1, s2, left, mid, right);
    assert LeftHalf(|a + b|) == |a|;
    MergeSortedSplit(a, b);
    SameOutsideCompose(s3, s2, o, left, right + 1, left, right + 1);
  }

  /** How the slices of one level of `mergeSort` relate: sorting the left
      half leaves the right half as it was, sorting the right half leaves the
      left half as it was, and the segment is the two halves. */
  lemma HalvesSlices(o: seq<Element>, s1: seq<Element>, s2: seq<Element>, left: int, mid: int, right: int)
    requires 0 <= left <= mid < right < |o| == |s1| == |s2|
    requires SameOutside(s1, o, left, mid + 1) && SameOutside(s2, s1, mid + 1, right + 1)
    ensures s1[mid + 1..right + 1] == o[mid + 1..right + 1]
    ensures s2[left..mid + 1] == s1[left..mid + 1]
    ensures o[left..right + 1] == o[left..mid + 1] + o[mid + 1..right + 1]
    ensures SameOutside(s2, o, left, right + 1)
  {
    SameSlice(s2, s1, left, mid + 1);
    SameSlice(s1, o, mid + 1, right + 1);
    SameOutsideCompose(s2, s1, o, mid + 1, right + 1, left, right + 1);
  }
}
