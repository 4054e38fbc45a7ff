/**
 * The facts counting sort and each pass of radix sort rest on. Both count
 * the records per key, turn the counts into prefix sums, and place the
 * records back to front; what they build is the "stack" of the records'
 * buckets, key by key, each bucket in the records' original order. The
 * stack is sorted by key, holds the same values, and keeps every value's
 * records in their order (stability); for radix sort, a stack by one
 * decimal digit extends the order on the lower digits by that digit.
 */
module Buckets {
  import opened Elements
  import opened Merging

  /** A positive divisor. */
  type Positive = x: int | x > 0 witness 1

  /** How a record's value is turned into a count index: counting sort
      subtracts the minimum, a radix pass takes the decimal digit of
      weight `exp`. */
  datatype Keying = ByValue(min: int) | ByDigit(exp: Positive)

  function KeyOf(v: int, k: Keying): int
  {
    match k
    case ByValue(min) => v - min
    case ByDigit(exp) => (v / exp) % 10
  }

  /** The records of `s` whose key is `d`, in their order in `s`. */
  function Bucket(s: seq<Element>, k: Keying, d: int): (r: seq<Element>)
    ensures |r| <= |s|
    ensures forall j :: 0 <= j < |r| ==> KeyOf(r[j].value, k) == d
  {
    if s == [] then []
    else
      var last := s[|s| - 1];
      Bucket(s[..|s| - 1], k, d) + (if KeyOf(last.value, k) == d then [last] else [])
  }

  /** Every record of a bucket comes from `s`. */
  lemma {:induction false} BucketMembers(s: seq<Element>, k: Keying, d: int)
    ensures forall j :: 0 <= j < |Bucket(s, k, d)| ==> Bucket(s, k, d)[j] in s
    decreases |s|
  {
    if s != [] {
      BucketMembers(s[..|s| - 1], k, d);
    }
  }

  /** The buckets of keys `0 .. r - 1`, one after another. */
  function Stack(s: seq<Element>, k: Keying, r: int): seq<Element>
    decreases r
  {
    if r <= 0 then [] else Stack(s, k, r - 1) + Bucket(s, k, r - 1)
  }

  /** Every record of `s` has a key in `[0, r)`. */
  ghost predicate KeysIn(s: seq<Element>, k: Keying, r: int)
  {
    forall j :: 0 <= j < |s| ==> 0 <= KeyOf(s[j].value, k) < r
  }

  /** Bucketing a concatenation concatenates the buckets. */
  lemma {:induction false} BucketAppend(a: seq<Element>, b: seq<Element>, k: Keying, d: int)
    ensures Bucket(a + b, k, d) == Bucket(a, k, d) + Bucket(b, k, d)
    decreases |b|
  {
    if b == [] {
      assert a + b == a;
    } else {
      var b' := b[..|b| - 1];
      assert (a + b)[..|a + b| - 1] == a + b';
      BucketAppend(a, b', k, d);
    }
  }

  /** Growing a prefix of `s` by one record. */
  lemma BucketPrefix(s: seq<Element>, k: Keying, d: int, i: int)
    requires 0 <= i < |s|
    ensures Bucket(s[..i + 1], k, d) == Bucket(s[..i], k, d) + (if KeyOf(s[i].value, k) == d then [s[i]] else [])
  {
    assert s[..i + 1][..i] == s[..i];
  }

  /** Record `i` of `s` sits in its bucket right after the records of the
      same key that precede it. */
  lemma BucketAt(s: seq<Element>, k: Keying, i: int)
    requires 0 <= i < |s|
    ensures var d := KeyOf(s[i].value, k);
      |Bucket(s[..i], k, d)| < |Bucket(s, k, d)| && Bucket(s, k, d)[|Bucket(s[..i], k, d)|] == s[i]
  {
    var d := KeyOf(s[i].value, k);
    assert s == s[..i + 1] + s[i + 1..];
    BucketAppend(s[..i + 1], s[i + 1..], k, d);
    BucketPrefix(s, k, d, i);
  }

  /** A value occurs in `s` once per record of that value. */
  lemma {:induction false} KeyedCount(s: seq<Element>, v: int)
    ensures |Keyed(s, v)| == multiset(Values(s))[v]
    decreases |s|
  {
    if s != [] {
      KeyedCount(s[1..], v);
      ValuesCons(s);
    }
  }

  /** With every key in range, the stack holds exactly the values of `s`. */
  lemma StackKeepsValues(s: seq<Element>, k: Keying, r: int)
    requires KeysIn(s, k, r)
    ensures |Stack(s, k, r)| == |s|
    ensures multiset(Values(Stack(s, k, r))) == multiset(Values(s))
  {
    var t := Stack(s, k, r);
    forall v
      ensures multiset(Values(t))[v] == multiset(Values(s))[v]
    {
      StackStable(s, k, r, v);
      KeyedCount(t, v);
      KeyedCount(s, v);
    }
    assert multiset(Values(t)) == multiset(Values(s));
    assert |multiset(Values(t))| == |t|;
  }

  /** The stack of no records is empty. */
  lemma {:induction false} StackEmpty(s: seq<Element>, k: Keying, r: int)
    requires s == []
    ensures Stack(s, k, r) == []
    decreases r
  {
    if r > 0 {
      StackEmpty(s, k, r - 1);
    }
  }

  /** Every record of the stack of keys below `r` has a key below `r`. */
  lemma {:induction false} StackKeys(s: seq<Element>, k: Keying, r: int)
    ensures forall j :: 0 <= j < |Stack(s, k, r)| ==> KeyOf(Stack(s, k, r)[j].value, k) < r
    decreases r
  {
    if r > 0 {
      StackKeys(s, k, r - 1);
    }
  }

  /** The stack is sorted by key. */
  lemma {:induction false} StackSortedByKey(s: seq<Element>, k: Keying, r: int)
    ensures forall a, b :: 0 <= a < b < |Stack(s, k, r)| ==>
      KeyOf(Stack(s, k, r)[a].value, k) <= KeyOf(Stack(s, k, r)[b].value, k)
    decreases r
  {
    if r > 0 {
      StackSortedByKey(s, k, r - 1);
      StackKeys(s, k, r - 1);
    }
  }

  /** Slot `j` of bucket `d` is slot `|Stack(s, k, d)| + j` of the stack. */
  lemma {:induction false} StackIndex(s: seq<Element>, k: Keying, r: int, d: int, j: int)
    requires 0 <= d < r && 0 <= j < |Bucket(s, k, d)|
    ensures |Stack(s, k, d)| + j < |Stack(s, k, r)|
    ensures Stack(s, k, r)[|Stack(s, k, d)| + j] == Bucket(s, k, d)[j]
    decreases r
  {
    if d < r - 1 {
      StackIndex(s, k, r - 1, d, j);
    }
  }

  /** Every slot of the stack lies in some bucket. */
  lemma {:induction false} StackCover(s: seq<Element>, k: Keying, r: int, p: int) returns (d: int, j: int)
    requires 0 <= p < |Stack(s, k, r)|
    ensures 0 <= d < r && 0 <= j < |Bucket(s, k, d)| && p == |Stack(s, k, d)| + j
    decreases r
  {
    if p < |Stack(s, k, r - 1)| {
      d, j := StackCover(s, k, r - 1, p);
    } else {
      d, j := r - 1, p - |Stack(s, k, r - 1)|;
    }
  }

  /** A bucket keeps the records of each value whose key it is, in order. */
  lemma {:induction false} BucketKeyed(s: seq<Element>, k: Keying, d: int, v: int)
    ensures Keyed(Bucket(s, k, d), v) == if KeyOf(v, k) == d then Keyed(s, v) else []
    decreases |s|
  {
    if s != [] {
      var s', x := s[..|s| - 1], s[|s| - 1];
      assert s == s' + [x];
      BucketKeyed(s', k, d, v);
      KeyedAppend(Bucket(s', k, d), if KeyOf(x.value, k) == d then [x] else [], v);
      KeyedAppend(s', [x], v);
      assert Keyed([x], v) == (if x.value == v then [Plain(x)] else []) + Keyed([], v);
    }
  }

  /** The stack keeps the records of each value with a key in range, in
      order, and of no other value. */
  lemma {:induction false} StackKeyedRange(s: seq<Element>, k: Keying, r: int, v: int)
    ensures Keyed(Stack(s, k, r), v) == if 0 <= KeyOf(v, k) < r then Keyed(s, v) else []
    decreases r
  {
    if r > 0 {
      StackKeyedRange(s, k, r - 1, v);
      KeyedAppend(Stack(s, k, r - 1), Bucket(s, k, r - 1), v);
      BucketKeyed(s, k, r - 1, v);
    } else {
      assert Stack(s, k, r) == [];
    }
  }

  /** A value no record holds has no records. */
  lemma {:induction false} KeyedAbsent(s: seq<Element>, v: int)
    requires forall j :: 0 <= j < |s| ==> s[j].value != v
    ensures Keyed(s, v) == []
    decreases |s|
  {
    if s != [] {
      KeyedAbsent(s[1..], v);
    }
  }

  /** Stability: with every key in range, the stack keeps the records of
      every value in their order. */
  lemma StackStable(s: seq<Element>, k: Keying, r: int, v: int)
    requires KeysIn(s, k, r)
    ensures Keyed(Stack(s, k, r), v) == Keyed(s, v)
  {
    StackKeyedRange(s, k, r, v);
    if !(0 <= KeyOf(v, k) < r) {
      KeyedAbsent(s, v);
    }
  }

  /** Counting sort's stack, keyed by value less the minimum, is sorted by
      value. */
  lemma StackAscending(s: seq<Element>, min: int, r: int)
    ensures Ascending(Stack(s, ByValue(min), r))
  {
    StackSortedByKey(s, ByValue(min), r);
  }

  // Building the stack with counts: the count loop, the prefix sums and
  // the back-to-front placement.

  /** The records of `s` with their tags cleared. */
  function Plains(s: seq<Element>): (r: seq<Element>)
    ensures |r| == |s| && forall j :: 0 <= j < |s| ==> r[j] == Plain(s[j])
  {
    seq(|s|, j requires 0 <= j < |s| => Plain(s[j]))
  }

  /** Clearing the tags changes neither the values nor any value's records. */
  lemma {:induction false} PlainsKeep(s: seq<Element>, v: int)
    ensures Values(Plains(s)) == Values(s)
    ensures Keyed(Plains(s), v) == Keyed(s, v)
    decreases |s|
  {
    if s != [] {
      PlainsKeep(s[1..], v);
      assert Plains(s)[1..] == Plains(s[1..]);
    }
  }

  /** Stacks grow with the number of keys they hold. */
  lemma {:induction false} StackGrows(s: seq<Element>, k: Keying, a: int, b: int)
    requires 0 <= a <= b
    ensures |Stack(s, k, a)| <= |Stack(s, k, b)|
    decreases b
  {
    if a < b {
      StackGrows(s, k, a, b - 1);
    }
  }

  /** The count loop after `i` records: `count[d]` is the size of bucket `d`
      of those records. */
  ghost predicate Counted(count: seq<int>, t: seq<Element>, k: Keying, i: int)
    requires 0 <= i <= |t|
  {
    forall d :: 0 <= d < |count| ==> count[d] == |Bucket(t[..i], k, d)|
  }

  /** One more record counted under its key. */
  lemma CountStep(count: seq<int>, t: seq<Element>, k: Keying, i: int)
    requires 0 <= i < |t| && Counted(count, t, k, i)
    requires 0 <= KeyOf(t[i].value, k) < |count|
    ensures var d := KeyOf(t[i].value, k); Counted(count[d := count[d] + 1], t, k, i + 1)
  {
    var d := KeyOf(t[i].value, k);
    var count' := count[d := count[d] + 1];
    forall e | 0 <= e < |count|
      ensures count'[e] == |Bucket(t[..i + 1], k, e)|
    {
      BucketPrefix(t, k, e, i);
    }
  }

  /** Where the stack of `t` puts each bucket: bucket `d` starts at slot
      `starts[d]`, the buckets follow each other in key order, every record
      of `t` sits in its bucket after the records of its key that precede
      it, and every slot of `goal` lies in the bucket of its record's key. */
  ghost predicate Layout(goal: seq<Element>, starts: seq<int>, t: seq<Element>, k: Keying, r: int)
  {
    && |starts| == r && |goal| == |t|
    && (r > 0 ==> starts[0] == 0)
    && (forall d :: 0 <= d < r - 1 ==> starts[d + 1] == starts[d] + |Bucket(t, k, d)|)
    && (forall i :: 0 <= i < |t| ==> SlotOf(goal, starts, t, k, i))
    && (forall p :: 0 <= p < |goal| ==> InBucket(goal, starts, t, k, p))
  }

  /** Record `t[i]` sits at slot `starts[d] + c` of `goal`, where `d` is its
      key and `c` the number of records of key `d` before it. */
  ghost predicate SlotOf(goal: seq<Element>, starts: seq<int>, t: seq<Element>, k: Keying, i: int)
    requires 0 <= i < |t|
  {
    var d := KeyOf(t[i].value, k);
    && 0 <= d < |starts|
    && 0 <= starts[d] + |Bucket(t[..i], k, d)| < |goal|
    && goal[starts[d] + |Bucket(t[..i], k, d)|] == t[i]
  }

  /** Slot `p` of `goal` lies in the bucket of its record's key. */
  ghost predicate InBucket(goal: seq<Element>, starts: seq<int>, t: seq<Element>, k: Keying, p: int)
    requires 0 <= p < |goal|
  {
    var d := KeyOf(goal[p].value, k);
    0 <= d < |starts| && starts[d] <= p < starts[d] + |Bucket(t, k, d)|
  }

  /** The start of every bucket in the stack. */
  ghost function Starts(t: seq<Element>, k: Keying, r: nat): (starts: seq<int>)
    ensures |starts| == r && forall d :: 0 <= d < r ==> starts[d] == |Stack(t, k, d)|
  {
    seq(r, d requires 0 <= d < r => |Stack(t, k, d)|)
  }

  /** The stack is laid out as `Layout` says. */
  lemma StackLayout(t: seq<Element>, k: Keying, r: nat)
    requires KeysIn(t, k, r)
    ensures Layout(Stack(t, k, r), Starts(t, k, r), t, k, r)
  {
    var goal, starts := Stack(t, k, r), Starts(t, k, r);
    StackKeepsValues(t, k, r);
    forall d | 0 <= d < r - 1
      ensures starts[d + 1] == starts[d] + |Bucket(t, k, d)|
    {
      assert Stack(t, k, d + 1) == Stack(t, k, d) + Bucket(t, k, d);
    }
    forall i | 0 <= i < |t|
      ensures SlotOf(goal, starts, t, k, i)
    {
      StackSlot(t, k, r, i);
    }
    forall p | 0 <= p < |goal|
      ensures InBucket(goal, starts, t, k, p)
    {
      StackBucket(t, k, r, p);
    }
  }

  /** `StackLayout` for one record of `t`. */
  lemma StackSlot(t: seq<Element>, k: Keying, r: nat, i: int)
    requires KeysIn(t, k, r) && 0 <= i < |t|
    ensures SlotOf(Stack(t, k, r), Starts(t, k, r), t, k, i)
  {
    var d := KeyOf(t[i].value, k);
    var p := StackSlotIndex(t, k, r, i, d);
    SlotAt(Stack(t, k, r), Starts(t, k, r), t, k, i, p);
  }

  /** Record `t[i]`, of key `d`, sits in the stack right after the stack of
      the keys below `d` and the records of key `d` before it. */
  lemma StackSlotIndex(t: seq<Element>, k: Keying, r: nat, i: int, d: int) returns (p: int)
    requires 0 <= i < |t| && d == KeyOf(t[i].value, k) && 0 <= d < r
    ensures p == |Stack(t, k, d)| + |Bucket(t[..i], k, d)|
    ensures 0 <= p < |Stack(t, k, r)| && Stack(t, k, r)[p] == t[i]
  {
    var c := |Bucket(t[..i], k, d)|;
    assert c < |Bucket(t, k, d)| && Bucket(t, k, d)[c] == t[i] by {
      BucketAt(t, k, i);
    }
    p := |Stack(t, k, d)| + c;
    StackIndex(t, k, r, d, c);
    assert Stack(t, k, r)[p] == Bucket(t, k, d)[c];
  }

  /** `SlotOf` from the slot the record sits at. */
  lemma SlotAt(goal: seq<Element>, starts: seq<int>, t: seq<Element>, k: Keying, i: int, p: int)
    requires 0 <= i < |t| && 0 <= KeyOf(t[i].value, k) < |starts|
    requires starts[KeyOf(t[i].value, k)] + |Bucket(t[..i], k, KeyOf(t[i].value, k))| == p
    requires 0 <= p < |goal| && goal[p] == t[i]
    ensures SlotOf(goal, starts, t, k, i)
  {
  }

  /** `StackLayout` for one slot of the stack. */
  lemma StackBucket(t: seq<Element>, k: Keying, r: nat, p: int)
    requires 0 <= p < |Stack(t, k, r)|
    ensures InBucket(Stack(t, k, r), Starts(t, k, r), t, k, p)
  {
    var d, j := StackCover(t, k, r, p);
    StackIndex(t, k, r, d, j);
  }

  /** The placement loop after the records `t[i..]` are placed:
      `count[d] - 1` is the slot the next record of bucket `d` goes to, and
      every slot of `goal` at or above the count of its record's key holds
      that record, tagged swapping. */
  ghost predicate Placed(out: seq<Element>, count: seq<int>, goal: seq<Element>, starts: seq<int>,
                         t: seq<Element>, k: Keying, r: int, i: int)
  {
    && 0 <= i <= |t| && |count| == r == |starts| && |out| == |goal|
    && (forall d :: 0 <= d < r ==> count[d] == starts[d] + |Bucket(t[..i], k, d)|)
    && (forall p :: (0 <= p < |out| && 0 <= KeyOf(goal[p].value, k) < r && count[KeyOf(goal[p].value, k)] <= p) ==>
          out[p] == goal[p].(state := Swapping))
  }

  /** After the prefix sums nothing is placed yet. */
  lemma PlaceStart(out: seq<Element>, count: seq<int>, goal: seq<Element>, starts: seq<int>,
                   t: seq<Element>, k: Keying, r: int)
    requires Layout(goal, starts, t, k, r) && |count| == r && |out| == |t|
    requires forall d :: 0 <= d < r ==> count[d] == starts[d] + |Bucket(t, k, d)|
    ensures Placed(out, count, goal, starts, t, k, r, |t|)
  {
    assert t[..|t|] == t;
    forall p | 0 <= p < |out| && 0 <= KeyOf(goal[p].value, k) < r
      ensures p < count[KeyOf(goal[p].value, k)]
    {
      assert InBucket(goal, starts, t, k, p);
    }
  }

  /** One turn of the placement loop: record `t[i - 1]` goes, tagged
      swapping, to the slot one below its count, and that count drops. */
  lemma PlaceStep(out: seq<Element>, count: seq<int>, goal: seq<Element>, starts: seq<int>,
                  t: seq<Element>, k: Keying, r: int, i: int)
    requires Layout(goal, starts, t, k, r) && KeysIn(t, k, r)
    requires Placed(out, count, goal, starts, t, k, r, i) && 0 < i
    ensures var d := KeyOf(t[i - 1].value, k);
      && 0 <= d < r && 0 <= count[d] - 1 < |out|
      && Placed(out[count[d] - 1 := t[i - 1].(state := Swapping)], count[d := count[d] - 1],
                goal, starts, t, k, r, i - 1)
  {
    var d := KeyOf(t[i - 1].value, k);
    assert SlotOf(goal, starts, t, k, i - 1);
    assert count[d] == starts[d] + |Bucket(t[..i - 1], k, d)| + 1 by {
      BucketPrefix(t[..i], k, d, i - 1);
      assert t[..i][..i - 1] == t[..i - 1];
    }
    PlaceCounts(count, starts, t, k, r, i);
    PlaceSlots(out, count, goal, k, r, d, t[i - 1]);
  }

  /** The counts after one turn of the placement loop. */
  lemma PlaceCounts(count: seq<int>, starts: seq<int>, t: seq<Element>, k: Keying, r: int, i: int)
    requires 0 < i <= |t| && |count| == r == |starts| && 0 <= KeyOf(t[i - 1].value, k) < r
    requires forall e :: 0 <= e < r ==> count[e] == starts[e] + |Bucket(t[..i], k, e)|
    ensures var d := KeyOf(t[i - 1].value, k);
      forall e :: 0 <= e < r ==> count[d := count[d] - 1][e] == starts[e] + |Bucket(t[..i - 1], k, e)|
  {
    assert t[..i][..i - 1] == t[..i - 1];
    forall e | 0 <= e < r
      ensures |Bucket(t[..i], k, e)| == |Bucket(t[..i - 1], k, e)| + (if KeyOf(t[i - 1].value, k) == e then 1 else 0)
    {
      BucketPrefix(t[..i], k, e, i - 1);
    }
  }

  /** The placed slots after one turn of the placement loop: `x`, the
      record whose slot is one below the count of its key `d`. */
  lemma PlaceSlots(out: seq<Element>, count: seq<int>, goal: seq<Element>, k: Keying, r: int, d: int, x: Element)
    requires |out| == |goal| && |count| == r && 0 <= d < r && 0 <= count[d] - 1 < |out|
    requires goal[count[d] - 1] == x && KeyOf(x.value, k) == d
    requires forall p :: (0 <= p < |out| && 0 <= KeyOf(goal[p].value, k) < r && count[KeyOf(goal[p].value, k)] <= p) ==>
          out[p] == goal[p].(state := Swapping)
    ensures var out', count' := out[count[d] - 1 := x.(state := Swapping)], count[d := count[d] - 1];
      forall p :: (0 <= p < |out'| && 0 <= KeyOf(goal[p].value, k) < r && count'[KeyOf(goal[p].value, k)] <= p) ==>
          out'[p] == goal[p].(state := Swapping)
  {
  }

  /** The placement loop ends with `goal`, tagged swapping, in `out`. */
  lemma PlaceDone(out: seq<Element>, count: seq<int>, goal: seq<Element>, starts: seq<int>,
                  t: seq<Element>, k: Keying, r: int)
    requires Layout(goal, starts, t, k, r)
    requires Placed(out, count, goal, starts, t, k, r, 0)
    ensures forall p :: 0 <= p < |out| ==> out[p] == goal[p].(state := Swapping)
  {
    forall p | 0 <= p < |out|
      ensures out[p] == goal[p].(state := Swapping)
    {
      assert InBucket(goal, starts, t, k, p);
      assert Bucket(t[..0], k, KeyOf(goal[p].value, k)) == [];
    }
  }

  /** The sum of a sequence of counts. */
  function Sum(s: seq<int>): int
  {
    if s == [] then 0 else Sum(s[..|s| - 1]) + s[|s| - 1]
  }

  /** The prefix sums of the bucket sizes are the ends of the buckets. */
  lemma {:induction false} LayoutSum(goal: seq<Element>, starts: seq<int>, t: seq<Element>, k: Keying, r: int,
                                     sizes: seq<int>, d: int)
    requires Layout(goal, starts, t, k, r) && |sizes| == r
    requires forall e :: 0 <= e < r ==> sizes[e] == |Bucket(t, k, e)|
    requires 0 <= d < r
    ensures Sum(sizes[..d + 1]) == starts[d] + |Bucket(t, k, d)|
    decreases d
  {
    assert sizes[..d + 1][..d] == sizes[..d];
    if d > 0 {
      LayoutSum(goal, starts, t, k, r, sizes, d - 1);
      assert sizes[..d] == sizes[..d - 1 + 1];
    }
  }

  /** After the prefix sums, `count[d]` is the end of bucket `d`. */
  lemma PrefixStarts(count: seq<int>, sizes: seq<int>, goal: seq<Element>, starts: seq<int>,
                     t: seq<Element>, k: Keying, r: int)
    requires Layout(goal, starts, t, k, r) && |sizes| == |count| == r
    requires Counted(sizes, t, k, |t|)
    requires forall d :: 0 <= d < r ==> count[d] == Sum(sizes[..d + 1])
    ensures forall d :: 0 <= d < r ==> count[d] == starts[d] + |Bucket(t, k, d)|
  {
    assert t[..|t|] == t;
    forall d | 0 <= d < r
      ensures count[d] == starts[d] + |Bucket(t, k, d)|
    {
      LayoutSum(goal, starts, t, k, r, sizes, d);
    }
  }

  /** Copying `goal`, tagged swapping, back with the default tag restores
      `goal` when it is untagged. */
  lemma CopiedStack(s: seq<Element>, out: seq<Element>, goal: seq<Element>)
    requires |s| == |out| == |goal| && AllTagged(goal, Default)
    requires forall p :: 0 <= p < |out| ==> out[p] == goal[p].(state := Swapping)
    requires forall p :: 0 <= p < |s| ==> s[p] == out[p].(state := Default)
    ensures s == goal
  {
  }

  /** A stack of untagged records is untagged. */
  lemma StackPlain(t: seq<Element>, k: Keying, r: int)
    requires forall j :: 0 <= j < |t| ==> t[j].state == Default
    ensures forall p :: 0 <= p < |Stack(t, k, r)| ==> Stack(t, k, r)[p].state == Default
  {
    forall p | 0 <= p < |Stack(t, k, r)|
      ensures Stack(t, k, r)[p].state == Default
    {
      var d, j := StackCover(t, k, r, p);
      StackIndex(t, k, r, d, j);
      BucketMembers(t, k, d);
    }
  }

  /** What a bucket pass leaves in the array: the stack of the records,
      tags cleared, is as long as the array, holds its values, is untagged,
      and keeps the records of every value in their order. */
  lemma StackOfRecords(s: seq<Element>, k: Keying, r: int)
    requires KeysIn(Plains(s), k, r)
    ensures var g := Stack(Plains(s), k, r);
      && |g| == |s| && multiset(Values(g)) == multiset(Values(s))
      && AllTagged(g, Default)
      && forall v :: Keyed(g, v) == Keyed(s, v)
  {
    var t := Plains(s);
    StackKeepsValues(t, k, r);
    PlainsKeep(s, 0);
    StackPlain(t, k, r);
    forall v
      ensures Keyed(Stack(t, k, r), v) == Keyed(s, v)
    {
      StackStable(t, k, r, v);
      PlainsKeep(s, v);
    }
  }

  // Radix passes.

  /** `s` is sorted by the value modulo `m`: the digits below weight `m`. */
  ghost predicate LowSorted(s: seq<Element>, m: Positive)
  {
    forall a, b :: 0 <= a < b < |s| ==> s[a].value % m <= s[b].value % m
  }

  /** A bucket of a sequence sorted on the low digits is sorted on them. */
  lemma {:induction false} BucketLowSorted(s: seq<Element>, k: Keying, d: int, m: Positive)
    requires LowSorted(s, m)
    ensures LowSorted(Bucket(s, k, d), m)
    decreases |s|
  {
    if s != [] {
      var s', x := s[..|s| - 1], s[|s| - 1];
      assert LowSorted(s', m);
      BucketLowSorted(s', k, d, m);
      BucketMembers(s', k, d);
      var b := Bucket(s', k, d);
      forall j | 0 <= j < |b|
        ensures b[j].value % m <= x.value % m
      {
        var t :| 0 <= t < |s'| && s'[t] == b[j];
      }
    }
  }

  /** Products grow with their first factor. */
  lemma {:induction false} MulMono(x: int, y: int, m: nat)
    requires x <= y
    ensures x * m <= y * m
    decreases y - x
  {
    if x < y {
      MulMono(x, y - 1, m);
      assert y * m == (y - 1) * m + m;
    }
  }

  /** `p` rounds of `n`, added up round by round. */
  function Rounds(p: nat, n: int): int
  {
    if p == 0 then 0 else Rounds(p - 1, n) + n
  }

  /** Rounds add up to the product. */
  lemma {:induction false} RoundsProduct(p: nat, n: int)
    ensures Rounds(p, n) == p * n
  {
    if p > 0 {
      RoundsProduct(p - 1, n);
      MulStep(p - 1, n);
    }
  }

  /** One more factor adds one more `m`. */
  lemma MulStep(x: int, m: int)
    ensures (x + 1) * m == x * m + m
  {
  }

  /** Quotient and remainder are unique. */
  lemma DivModUnique(v: int, m: Positive, a: int, c: int)
    requires v == a * m + c && 0 <= c < m
    ensures v / m == a && v % m == c
  {
    var q, r := v / m, v % m;
    assert v == q * m + r;
    if q > a {
      MulStep(a, m);
      MulMono(a + 1, q, m);
    } else if q < a {
      MulStep(q, m);
      MulMono(q + 1, a, m);
    }
  }

  /** The digits of `v` below weight `10 * exp` are its digit of weight
      `exp` above its digits below `exp`; and dividing by `exp`, then by
      10, is dividing by `10 * exp`. */
  lemma DigitSplit(v: int, exp: Positive)
    requires 0 <= v
    ensures v % (10 * exp) == ((v / exp) % 10) * exp + v % exp
    ensures v / exp / 10 == v / (10 * exp)
  {
    var q, r := v / exp, v % exp;
    var a, b := q / 10, q % 10;
    assert v == q * exp + r;
    assert q == 10 * a + b;
    assert q * exp == a * (10 * exp) + b * exp by {
      assert q * exp == (10 * a + b) * exp;
    }
    MulMono(b, 9, exp);
    assert 9 * exp + exp == 10 * exp;
    DivModUnique(v, 10 * exp, a, b * exp + r);
  }

  /** One radix pass: the stack by the digit of weight `exp` of a sequence
      sorted on the digits below it is sorted on the digits up to it. */
  lemma RadixPass(s: seq<Element>, exp: Positive)
    requires forall j :: 0 <= j < |s| ==> 0 <= s[j].value
    requires LowSorted(s, exp)
    ensures LowSorted(Stack(s, ByDigit(exp), 10), 10 * exp)
  {
    var t := Stack(s, ByDigit(exp), 10);
    forall a, b | 0 <= a < b < |t|
      ensures t[a].value % (10 * exp) <= t[b].value % (10 * exp)
    {
      RadixPair(s, exp, a, b);
    }
  }

  /** `RadixPass` for one pair of slots. */
  lemma RadixPair(s: seq<Element>, exp: Positive, a: int, b: int)
    requires forall j :: 0 <= j < |s| ==> 0 <= s[j].value
    requires LowSorted(s, exp)
    requires 0 <= a < b < |Stack(s, ByDigit(exp), 10)|
    ensures Stack(s, ByDigit(exp), 10)[a].value % (10 * exp) <= Stack(s, ByDigit(exp), 10)[b].value % (10 * exp)
  {
    var t := Stack(s, ByDigit(exp), 10);
    StackPair(s, ByDigit(exp), 10, a, b, exp);
    var u, w := t[a].value, t[b].value;
    assert KeyOf(u, ByDigit(exp)) == (u / exp) % 10;
    assert KeyOf(w, ByDigit(exp)) == (w / exp) % 10;
    DigitOrder(u, w, exp);
  }

  /** Two slots of the stack, in order: both hold records of `s`, their keys
      are in order, and records of the same key keep the order on the low
      digits that `s` has. */
  lemma StackPair(s: seq<Element>, k: Keying, r: int, a: int, b: int, m: Positive)
    requires LowSorted(s, m)
    requires 0 <= a < b < |Stack(s, k, r)|
    ensures Stack(s, k, r)[a] in s && Stack(s, k, r)[b] in s
    ensures KeyOf(Stack(s, k, r)[a].value, k) <= KeyOf(Stack(s, k, r)[b].value, k)
    ensures KeyOf(Stack(s, k, r)[a].value, k) == KeyOf(Stack(s, k, r)[b].value, k) ==>
      Stack(s, k, r)[a].value % m <= Stack(s, k, r)[b].value % m
  {
    var t := Stack(s, k, r);
    var da, ja := StackCover(s, k, r, a);
    var db, jb := StackCover(s, k, r, b);
    StackIndex(s, k, r, da, ja);
    StackIndex(s, k, r, db, jb);
    assert t[a] in s && t[b] in s by {
      BucketMembers(s, k, da);
      BucketMembers(s, k, db);
    }
    assert KeyOf(t[a].value, k) <= KeyOf(t[b].value, k) by {
      StackSortedByKey(s, k, r);
    }
    if da == db {
      var g := Bucket(s, k, da);
      assert ja < jb && t[a] == g[ja] && t[b] == g[jb];
      BucketLowSorted(s, k, da, m);
      assert g[ja].value % m <= g[jb].value % m;
    }
  }

  /** Sorted on the digit of weight `exp`, ties sorted on the digits below
      it: sorted on the digits up to it. */
  lemma DigitOrder(u: int, w: int, exp: Positive)
    requires 0 <= u && 0 <= w
    requires (u / exp) % 10 <= (w / exp) % 10
    requires (u / exp) % 10 == (w / exp) % 10 ==> u % exp <= w % exp
    ensures u % (10 * exp) <= w % (10 * exp)
  {
    var du, dw := (u / exp) % 10, (w / exp) % 10;
    DigitSplit(u, exp);
    DigitSplit(w, exp);
    if du < dw {
      MulMono(du + 1, dw, exp);
      MulStep(du, exp);
    }
  }

  /** Below weight 1 there are no digits. */
  lemma LowSortedStart(s: seq<Element>)
    ensures LowSorted(s, 1)
  {
  }

  /** A rearrangement of non-negative values whose maximum is below `m`
      lies in `[0, m)`. */
  lemma ValuesBelow(s: seq<Element>, t: seq<Element>, max: int, m: int)
    requires s != [] && max == MaxOf(Values(s)) && max < m
    requires AtLeast(s, 0) && multiset(Values(t)) == multiset(Values(s))
    ensures forall j :: 0 <= j < |t| ==> 0 <= t[j].value < m
  {
    BoundsPointwise(s, m);
    BoundsPointwise(t, m);
    BoundsPointwise(t, 0);
  }

  /** Once every value is below `m`, sorted on the digits below `m` is
      sorted. */
  lemma LowSortedDone(s: seq<Element>, m: Positive)
    requires forall j :: 0 <= j < |s| ==> 0 <= s[j].value < m
    requires LowSorted(s, m)
    ensures Ascending(s)
  {
    forall a, b | 0 <= a < b < |s|
      ensures s[a].value <= s[b].value
    {
      assert s[a].value % m == s[a].value && s[b].value % m == s[b].value;
    }
  }

  /** Counting sort's keys: every value less the minimum lies below
      `max - min + 1`. */
  lemma ValueKeys(s: seq<Element>)
    requires s != []
    ensures KeysIn(Plains(s), ByValue(MinOf(Values(s))), MaxOf(Values(s)) - MinOf(Values(s)) + 1)
  {
  }

  /** A radix pass's keys are decimal digits. */
  lemma DigitKeys(s: seq<Element>, exp: Positive)
    ensures KeysIn(s, ByDigit(exp), 10)
  {
  }

  /** A radix pass on values that are sorted on their digits below `exp`
      leaves them sorted on their digits up to weight `exp`. */
  lemma RadixStep(s: seq<Element>, exp: Positive)
    requires AtLeast(s, 0) && LowSorted(s, exp)
    ensures LowSorted(Stack(Plains(s), ByDigit(exp), 10), 10 * exp)
  {
    BoundsPointwise(s, 0);
    RadixPass(Plains(s), exp);
  }

  /** What counting sort leaves: the stack of the records by value less
      the minimum is sorted, holds the values of `s`, is untagged, and keeps
      every value's records in their order. */
  lemma CountingResult(s: seq<Element>, g: seq<Element>, min: int, r: int)
    requires KeysIn(Plains(s), ByValue(min), r)
    requires g == Stack(Plains(s), ByValue(min), r)
    ensures Ascending(g) && AllTagged(g, Default)
    ensures multiset(Values(g)) == multiset(Values(s))
    ensures forall v :: Keyed(g, v) == Keyed(s, v)
  {
    StackOfRecords(s, ByValue(min), r);
    StackAscending(Plains(s), min, r);
  }

  /** What one radix pass leaves: the stack of the records by the digit of
      weight `exp` holds the values of `s`, keeps every value's records in
      their order, and extends the order on the digits below `exp` to the
      digits up to it. */
  lemma RadixResult(s: seq<Element>, g: seq<Element>, exp: Positive)
    requires AtLeast(s, 0) && LowSorted(s, exp)
    requires g == Stack(Plains(s), ByDigit(exp), 10)
    ensures LowSorted(g, 10 * exp)
    ensures multiset(Values(g)) == multiset(Values(s))
    ensures forall v :: Keyed(g, v) == Keyed(s, v)
  {
    DigitKeys(Plains(s), exp);
    StackOfRecords(s, ByDigit(exp), 10);
    RadixStep(s, exp);
  }

  /** One more radix pass is one digit fewer left: while `max / exp` is
      positive, it has one digit more than `max / (10 * exp)`. */
  lemma DigitsStep(max: int, exp: Positive)
    requires 0 <= max && max / exp > 0
    ensures Digits(max / exp) == 1 + Digits(max / (10 * exp))
    ensures exp <= max
  {
    DigitSplit(max, exp);
    MulMono(1, max / exp, exp);
    assert max == (max / exp) * exp + max % exp;
  }

  /** The radix loop stops once `exp` exceeds the maximum. */
  lemma DigitsDone(max: int, exp: Positive)
    requires 0 <= max && !(max / exp > 0)
    ensures max < exp && Digits(max / exp) == 0
  {
    assert max == exp * (max / exp) + max % exp;
  }

  /** The number of decimal digits of `m`, the number of radix passes. */
  function Digits(m: int): nat
    decreases if m < 0 then 0 else m
  {
    if m <= 0 then 0 else 1 + Digits(m / 10)
  }

  /** The largest value of a non-empty sequence (`Math.max(...)`). */
  function MaxOf(v: seq<int>): (r: int)
    requires v != []
    ensures r in v && forall j :: 0 <= j < |v| ==> v[j] <= r
  {
    if |v| == 1 then v[0]
    else
      var m := MaxOf(v[1..]);
      if v[0] > m then v[0] else m
  }

  /** The smallest value of a non-empty sequence (`Math.min(...)`). */
  function MinOf(v: seq<int>): (r: int)
    requires v != []
    ensures r in v && forall j :: 0 <= j < |v| ==> r <= v[j]
  {
    if |v| == 1 then v[0]
    else
      var m := MinOf(v[1..]);
      if v[0] < m then v[0] else m
  }
}
