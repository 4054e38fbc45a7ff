/**
 * The stepwise sorting engine of the visualiser: one object owning the
 * array, the two counters and the run controller, and the eight sorts that
 * work on the array in place.
 *
 * Every `await this.animateAndRender()` of the source is a call of
 * `Suspend`: control goes to the host, which may press pause, start or
 * reset before the sort resumes. What the host does is a script of events
 * (`hostEvents`), consumed one per suspension; the array is never touched
 * by a suspension. Cancellation checks sit exactly where the source has
 * them, and every write to the array goes through `Tag`, `Exchange` or
 * `Put`, which demand that the running sort has not yet observed a
 * cancellation: the verifier thereby checks that no write follows a check
 * that failed.
 */
module Engine {
  import opened Elements
  import opened Merging
  import opened Partitioning
  import opened Heaps
  import opened Buckets
  import Controls
  import CustomInput
  import JsText

  /** What the host does while a sort is suspended. */
  datatype HostEvent = Idle | PausePressed | StartPressed | ResetPressed

  class Visualizer {
    /** The array being sorted (`this.array`). */
    var items: array<Element>
    /** The length `generateArray` gives a fresh array (`this.arraySize`). */
    var arraySize: nat
    /** The slider position and the algorithm it selects. */
    var algorithmIndex: int
    var algorithm: Controls.Algorithm
    /** Counters shown as "Comparisons" and "Swaps"/"Shifts". */
    var comparisons: nat
    var swaps: nat
    /** Run controller. */
    var runToken: nat
    var isPaused: bool
    var isRunning: bool
    /** The host's actions at the coming suspension points, in order. */
    var hostEvents: seq<HostEvent>
    /** Set by a cancellation check that fails, with the array as it was then. */
    ghost var seenCancel: bool
    ghost var atCancel: seq<Element>

    /** What holds between two operations of the page: every value is
        positive (both ways of filling the array only produce positive
        values) and the slider points into the catalogue. */
    ghost predicate Valid()
      reads this, items
    {
      AllPositive(items[..]) && 0 <= algorithmIndex < |Controls.Catalogue| && algorithm == Controls.Catalogue[algorithmIndex]
    }

    /** The constructor and `init` (app.js:2-44, 230-235): fifty slots, bubble
        sort selected, the controller idle, then a first `generateArray`
        drawing `draws`. */
    constructor (draws: seq<int>)
      requires |draws| == 50 && forall i :: 0 <= i < |draws| ==> 0 <= draws[i] < 300
      ensures Valid() && algorithm == Controls.Bubble && arraySize == 50
      ensures items.Length == 50 && forall i :: 0 <= i < 50 ==> items[i] == Element(draws[i] + 10, Default, i)
      ensures comparisons == 0 && swaps == 0
      ensures runToken == 0 && !isPaused && !isRunning && hostEvents == []
      ensures !seenCancel
    {
      arraySize := 50;
      algorithmIndex, algorithm := 0, Controls.Bubble;
      runToken, isPaused, isRunning := 0, false, false;
      hostEvents := [];
      seenCancel, atCancel := false, [];
      new;
      GenerateArray(draws);
    }

    // ---------------------------------------------------------------------
    // Run controller

    /** `pauseSorting` (app.js:618-627): only a running run can be paused;
        the token is left alone. */
    method PauseSorting()
      modifies this`isPaused, this`isRunning
      ensures runToken == old(runToken)
      ensures old(isRunning) ==> isPaused && !isRunning
      ensures !old(isRunning) ==> isPaused == old(isPaused) && !isRunning
    {
      if !isRunning {
        return;
      }
      isPaused := true;
      isRunning := false;
    }

    /** The synchronous part of `startSorting` (app.js:589-596): a no-op while
        a run is active, otherwise a fresh token and a cleared pause flag. */
    method BeginRun() returns (started: bool, myToken: nat)
      modifies this`runToken, this`isRunning, this`isPaused
      ensures started == !old(isRunning)
      ensures !started ==> runToken == old(runToken) && isRunning == old(isRunning) && isPaused == old(isPaused)
      ensures started ==> runToken == old(runToken) + 1 && myToken == runToken && isRunning && !isPaused
    {
      if isRunning {
        return false, runToken;
      }
      runToken := runToken + 1;
      myToken := runToken;
      isRunning := true;
      isPaused := false;
      started := true;
    }

    /** The controller part of `resetVisualization` (app.js:631-634): the
        token always advances, invalidating any run in flight. */
    method CancelRun()
      modifies this`runToken, this`isRunning, this`isPaused
      ensures runToken == old(runToken) + 1 && !isPaused && !isRunning
    {
      runToken := runToken + 1;
      isPaused := false;
      isRunning := false;
    }

    /** A suspension point (`await this.animateAndRender()`, app.js:1119-1122):
        the host may act on the controller; the array and counters stay. */
    method Suspend()
      modifies this`runToken, this`isPaused, this`isRunning, this`hostEvents
      ensures runToken >= old(runToken)
      ensures hostEvents == if old(hostEvents) == [] then [] else old(hostEvents)[1..]
      ensures old(hostEvents) == [] || old(hostEvents)[0] == Idle ==>
                runToken == old(runToken) && isPaused == old(isPaused) && isRunning == old(isRunning)
      ensures runToken + (if isPaused then 1 else 0) <= old(runToken) + (if old(isPaused) then 1 else 0) + (old(|hostEvents|) - |hostEvents|)
    {
      if hostEvents == [] {
        return;
      }
      var e := hostEvents[0];
      hostEvents := hostEvents[1..];
      match e
      case Idle =>
      case PausePressed =>
        PauseSorting();
      case StartPressed =>
        var _, _ := BeginRun();
      case ResetPressed =>
        CancelRun();
    }

    /** The check `this.isPaused || this.runToken !== myRunToken`. */
    method CheckRun(myToken: nat) returns (live: bool)
      modifies this`seenCancel, this`atCancel
      ensures live == (!isPaused && runToken == myToken)
      ensures seenCancel == (old(seenCancel) || !live)
      ensures !live ==> atCancel == items[..]
      ensures live ==> atCancel == old(atCancel)
    {
      live := !isPaused && runToken == myToken;
      if !live {
        seenCancel := true;
        atCancel := items[..];
      }
    }

    /** The token-only check `this.runToken !== myRunToken` of the merge tail
        loops and of the final pass. */
    method CheckToken(myToken: nat) returns (live: bool)
      modifies this`seenCancel, this`atCancel
      ensures live == (runToken == myToken)
      ensures seenCancel == (old(seenCancel) || !live)
      ensures !live ==> atCancel == items[..]
      ensures live ==> atCancel == old(atCancel)
    {
      live := runToken == myToken;
      if !live {
        seenCancel := true;
        atCancel := items[..];
      }
    }

    // ---------------------------------------------------------------------
    // The three primitive writes; each demands that no check has failed.

    /** `this.array[i].state = st`. */
    method Tag(i: int, st: State)
      requires 0 <= i < items.Length && !seenCancel
      modifies items
      ensures items[i] == old(items[i]).(state := st)
      ensures forall k :: 0 <= k < items.Length && k != i ==> items[k] == old(items[k])
      ensures Values(items[..]) == Values(old(items[..]))
    {
      RetagKeepsValues(items[..], i, st);
      items[i] := items[i].(state := st);
    }

    /** `[this.array[i], this.array[j]] = [this.array[j], this.array[i]]`. */
    method Exchange(i: int, j: int)
      requires 0 <= i < items.Length && 0 <= j < items.Length && !seenCancel
      modifies items
      ensures items[i] == old(items[j]) && items[j] == old(items[i])
      ensures forall k :: 0 <= k < items.Length && k != i && k != j ==> items[k] == old(items[k])
      ensures multiset(Values(items[..])) == multiset(Values(old(items[..])))
      ensures Values(items[..]) == Values(old(items[..]))[i := old(items[j]).value][j := old(items[i]).value]
    {
      SwapKeepsValues(items[..], i, j);
      items[i], items[j] := items[j], items[i];
    }

    /** `this.array[k] = record`. */
    method Put(k: int, e: Element)
      requires 0 <= k < items.Length && !seenCancel
      modifies items
      ensures items[k] == e
      ensures forall t :: 0 <= t < items.Length && t != k ==> items[t] == old(items[t])
      ensures items[..] == old(items[..])[k := e]
      ensures Values(items[..]) == Values(old(items[..]))[k := e.value]
    {
      items[k] := e;
      assert Values(items[..]) == Values(old(items[..]))[k := e.value];
    }


    // ---------------------------------------------------------------------
    // Bubble sort (app.js:671-701)

    /** One pass of the inner loop of bubble sort (app.js:676-697): check,
        compare the neighbours at `j` and `j + 1`, exchange them when they are
        out of order, and clear both tags. */
    method BubbleStep(j: int, myToken: nat) returns (live: bool)
      requires 0 <= j && j + 1 < items.Length && !seenCancel
      modifies this`comparisons, this`swaps, this`runToken, this`isPaused, this`isRunning,
               this`hostEvents, this`seenCancel, this`atCancel, items
      ensures runToken >= old(runToken)
      ensures live == !seenCancel
      ensures !live ==> items[..] == old(items[..]) == atCancel && (isPaused || runToken != myToken)
      ensures !live ==> comparisons == old(comparisons) && swaps == old(swaps)
      ensures live ==> comparisons == old(comparisons) + 1
      ensures live && old(items[j].value > items[j + 1].value) ==>
                items[j] == Plain(old(items[j + 1])) && items[j + 1] == Plain(old(items[j])) &&
                swaps == old(swaps) + 1
      ensures live && old(items[j].value <= items[j + 1].value) ==>
                items[j] == Plain(old(items[j])) && items[j + 1] == Plain(old(items[j + 1])) &&
                swaps == old(swaps)
      ensures forall k :: 0 <= k < items.Length && k != j && k != j + 1 ==> items[k] == old(items[k])
      ensures multiset(Values(items[..])) == multiset(Values(old(items[..])))
      ensures runToken + (if isPaused then 1 else 0) <= old(runToken) + (if old(isPaused) then 1 else 0) + (old(|hostEvents|) - |hostEvents|)
    {
      live := CheckRun(myToken);
      if live {
        BubbleCompare(j);
      }
    }

    /** The inner-loop body of bubble sort past its check (app.js:678-697). */
    method BubbleCompare(j: int)
      requires 0 <= j && j + 1 < items.Length && !seenCancel
      modifies this`comparisons, this`swaps, this`runToken, this`isPaused, this`isRunning,
               this`hostEvents, items
      ensures runToken >= old(runToken)
      ensures comparisons == old(comparisons) + 1
      ensures old(items[j].value > items[j + 1].value) ==>
                items[j] == Plain(old(items[j + 1])) && items[j + 1] == Plain(old(items[j])) &&
                swaps == old(swaps) + 1
      ensures old(items[j].value <= items[j + 1].value) ==>
                items[j] == Plain(old(items[j])) && items[j + 1] == Plain(old(items[j + 1])) &&
                swaps == old(swaps)
      ensures forall k :: 0 <= k < items.Length && k != j && k != j + 1 ==> items[k] == old(items[k])
      ensures multiset(Values(items[..])) == multiset(Values(old(items[..])))
      ensures runToken + (if isPaused then 1 else 0) <= old(runToken) + (if old(isPaused) then 1 else 0) + (old(|hostEvents|) - |hostEvents|)
    {
      Tag(j, Comparing);
      Tag(j + 1, Comparing);
      comparisons := comparisons + 1;
      Suspend();
      if items[j].value > items[j + 1].value {
        Tag(j, Swapping);
        Tag(j + 1, Swapping);
        Suspend();
        Exchange(j, j + 1);
        swaps := swaps + 1;
      }
      Tag(j, Default);
      Tag(j + 1, Default);
    }

    /** `bubbleSort` (app.js:671-701). */
    method BubbleSort(myToken: nat) returns (outcome: Outcome)
      requires !seenCancel
      modifies this`comparisons, this`swaps, this`runToken, this`isPaused, this`isRunning,
               this`hostEvents, this`seenCancel, this`atCancel, items
      ensures runToken >= old(runToken)
      ensures outcome == Done || outcome == Aborted
      ensures seenCancel <==> outcome == Aborted
      ensures outcome == Aborted ==> items[..] == atCancel && (isPaused || runToken != myToken)
      ensures multiset(Values(items[..])) == multiset(Values(old(items[..])))
      ensures outcome == Done ==> Ascending(items[..]) && AllTagged(items[..], Sorted)
      ensures outcome == Done ==> comparisons == old(comparisons) + Pairs(items.Length)
      ensures swaps - old(swaps) <= comparisons - old(comparisons)
      ensures runToken + (if isPaused then 1 else 0) <= old(runToken) + (if old(isPaused) then 1 else 0) + (old(|hostEvents|) - |hostEvents|)
    {
      var n := items.Length;
      for i := 0 to n
        invariant !seenCancel && runToken >= old(runToken)
        invariant multiset(Values(items[..])) == multiset(Values(old(items[..])))
        invariant forall p, q :: 0 <= p < q < n && n - i <= q ==> items[p].value <= items[q].value
        invariant forall k :: n - i <= k < n ==> items[k].state == Sorted
        invariant comparisons == old(comparisons) + Pairs(n) - Pairs(n - i)
        invariant swaps - old(swaps) <= comparisons - old(comparisons)
        invariant runToken + (if isPaused then 1 else 0) <= old(runToken) + (if old(isPaused) then 1 else 0) + (old(|hostEvents|) - |hostEvents|)
      {
        assert Pairs(n - i) == Pairs(n - i - 1) + (n - i - 1);
        var live := BubbleRound(i, myToken);
        if !live {
          return Aborted;
        }
      }
      outcome := Done;
    }

    /** One turn of the outer loop of bubble sort (app.js:674-700): the
        pass, then slot `n - i - 1`, which now holds its final value, tagged
        sorted. */
    method BubbleRound(i: int, myToken: nat) returns (live: bool)
      requires 0 <= i < items.Length && !seenCancel
      requires forall p, q :: 0 <= p < q < items.Length && items.Length - i <= q ==> items[p].value <= items[q].value
      requires forall k :: items.Length - i <= k < items.Length ==> items[k].state == Sorted
      modifies this`comparisons, this`swaps, this`runToken, this`isPaused, this`isRunning,
               this`hostEvents, this`seenCancel, this`atCancel, items
      ensures runToken >= old(runToken)
      ensures live == !seenCancel
      ensures !live ==> items[..] == atCancel && (isPaused || runToken != myToken)
      ensures multiset(Values(items[..])) == multiset(Values(old(items[..])))
      ensures live ==> forall p, q :: 0 <= p < q < items.Length && items.Length - i - 1 <= q ==>
                items[p].value <= items[q].value
      ensures live ==> forall k :: items.Length - i - 1 <= k < items.Length ==> items[k].state == Sorted
      ensures live ==> comparisons == old(comparisons) + (items.Length - i - 1)
      ensures swaps - old(swaps) <= comparisons - old(comparisons)
      ensures runToken + (if isPaused then 1 else 0) <= old(runToken) + (if old(isPaused) then 1 else 0) + (old(|hostEvents|) - |hostEvents|)
    {
      live := BubblePass(i, myToken);
      if live {
        ghost var passed := items[..];
        Tag(items.Length - i - 1, Sorted);
        assert Values(items[..]) == Values(passed);
      }
    }

    /** One pass of the outer loop of bubble sort (app.js:675-698): the
        inner loop over `j` in `[0, n - i - 1)` carries the largest value of
        `[0, n - i)` to slot `n - i - 1`, with one comparison per step. */
    method BubblePass(i: int, myToken: nat) returns (live: bool)
      requires 0 <= i < items.Length && !seenCancel
      requires forall p, q :: 0 <= p < q < items.Length && items.Length - i <= q ==> items[p].value <= items[q].value
      requires forall k :: items.Length - i <= k < items.Length ==> items[k].state == Sorted
      modifies this`comparisons, this`swaps, this`runToken, this`isPaused, this`isRunning,
               this`hostEvents, this`seenCancel, this`atCancel, items
      ensures runToken >= old(runToken)
      ensures live == !seenCancel
      ensures !live ==> items[..] == atCancel && (isPaused || runToken != myToken)
      ensures multiset(Values(items[..])) == multiset(Values(old(items[..])))
      ensures live ==> forall p, q :: 0 <= p < q < items.Length && items.Length - i - 1 <= q ==>
                items[p].value <= items[q].value
      ensures forall k :: items.Length - i <= k < items.Length ==> items[k].state == Sorted
      ensures live ==> comparisons == old(comparisons) + (items.Length - i - 1)
      ensures swaps - old(swaps) <= comparisons - old(comparisons)
      ensures runToken + (if isPaused then 1 else 0) <= old(runToken) + (if old(isPaused) then 1 else 0) + (old(|hostEvents|) - |hostEvents|)
    {
      var n := items.Length;
      for j := 0 to n - i - 1
        invariant !seenCancel && runToken >= old(runToken)
        invariant multiset(Values(items[..])) == multiset(Values(old(items[..])))
        invariant forall p, q :: 0 <= p < q < n && n - i <= q ==> items[p].value <= items[q].value
        invariant forall k :: n - i <= k < n ==> items[k].state == Sorted
        invariant forall p :: 0 <= p <= j ==> items[p].value <= items[j].value
        invariant comparisons == old(comparisons) + j
        invariant swaps - old(swaps) <= comparisons - old(comparisons)
        invariant runToken + (if isPaused then 1 else 0) <= old(runToken) + (if old(isPaused) then 1 else 0) + (old(|hostEvents|) - |hostEvents|)
      {
        var ok := BubbleStep(j, myToken);
        if !ok {
          return false;
        }
      }
      live := true;
    }
  
    // ---------------------------------------------------------------------
    // Selection sort (app.js:703-748)

    /** The inner loop of selection sort (app.js:709-729): scan `[i, n)` for
        the first minimum, tagging the running candidate. Only tags change. */
    method SelectionScan(i: int, myToken: nat) returns (live: bool, minIdx: int)
      requires 0 <= i < items.Length && !seenCancel
      modifies this`comparisons, this`runToken, this`isPaused, this`isRunning,
               this`hostEvents, this`seenCancel, this`atCancel, items
      ensures runToken >= old(runToken)
      ensures live == !seenCancel
      ensures !live ==> items[..] == atCancel && (isPaused || runToken != myToken)
      ensures Values(items[..]) == Values(old(items[..]))
      ensures forall k :: 0 <= k < items.Length ==> items[k].index == old(items[k].index)
      ensures forall k :: 0 <= k < i ==> items[k] == old(items[k])
      ensures live ==> i <= minIdx < items.Length
      ensures live ==> forall k :: i <= k < items.Length ==> items[minIdx].value <= items[k].value
      ensures live ==> forall k :: i <= k < minIdx ==> items[minIdx].value < items[k].value
      ensures live ==> comparisons == old(comparisons) + (items.Length - 1 - i)
      ensures runToken + (if isPaused then 1 else 0) <= old(runToken) + (if old(isPaused) then 1 else 0) + (old(|hostEvents|) - |hostEvents|)
    {
      var n := items.Length;
      minIdx := i;
      Tag(minIdx, Comparing);
      for j := i + 1 to n
        invariant !seenCancel && runToken >= old(runToken)
        invariant Values(items[..]) == Values(old(items[..]))
        invariant forall k :: 0 <= k < n ==> items[k].index == old(items[k].index)
        invariant forall k :: 0 <= k < i ==> items[k] == old(items[k])
        invariant i <= minIdx < j
        invariant forall k :: i <= k < j ==> items[minIdx].value <= items[k].value
        invariant forall k :: i <= k < minIdx ==> items[minIdx].value < items[k].value
        invariant comparisons == old(comparisons) + (j - 1 - i)
        invariant runToken + (if isPaused then 1 else 0) <= old(runToken) + (if old(isPaused) then 1 else 0) + (old(|hostEvents|) - |hostEvents|)
      {
        live := CheckRun(myToken);
        if !live {
          return;
        }
        Tag(j, Comparing);
        comparisons := comparisons + 1;
        Suspend();
        if items[j].value < items[minIdx].value {
          Tag(minIdx, Default);
          minIdx := j;
          Tag(minIdx, Comparing);
        } else {
          Tag(j, Default);
        }
      }
      live := true;
    }

    /** `selectionSort` (app.js:703-748). */
    method SelectionSort(myToken: nat) returns (outcome: Outcome)
      requires !seenCancel
      modifies this`comparisons, this`swaps, this`runToken, this`isPaused, this`isRunning,
               this`hostEvents, this`seenCancel, this`atCancel, items
      ensures runToken >= old(runToken)
      ensures outcome == Done || outcome == Aborted
      ensures seenCancel <==> outcome == Aborted
      ensures outcome == Aborted ==> items[..] == atCancel && (isPaused || runToken != myToken)
      ensures multiset(Values(items[..])) == multiset(Values(old(items[..])))
      ensures outcome == Done ==> Ascending(items[..]) && AllTagged(items[..], Sorted)
      ensures outcome == Done ==> comparisons == old(comparisons) + Pairs(items.Length)
      ensures swaps <= old(swaps) + (if items.Length == 0 then 0 else items.Length - 1)
      ensures runToken + (if isPaused then 1 else 0) <= old(runToken) + (if old(isPaused) then 1 else 0) + (old(|hostEvents|) - |hostEvents|)
    {
      var n := items.Length;
      for i := 0 to n
        invariant !seenCancel && runToken >= old(runToken)
        invariant multiset(Values(items[..])) == multiset(Values(old(items[..])))
        invariant forall p, q :: 0 <= p < q < n && p < i ==> items[p].value <= items[q].value
        invariant forall k :: 0 <= k < i ==> items[k].state == Sorted
        invariant comparisons == old(comparisons) + Pairs(n) - Pairs(n - i)
        invariant swaps <= old(swaps) + i
        invariant n == 0 || swaps <= old(swaps) + (n - 1)
        invariant runToken + (if isPaused then 1 else 0) <= old(runToken) + (if old(isPaused) then 1 else 0) + (old(|hostEvents|) - |hostEvents|)
      {
        var live := SelectionPass(i, myToken);
        if !live {
          return Aborted;
        }
      }
      outcome := Done;
    }

    /** One pass of the outer loop of selection sort (app.js:706-747): the
        check, the scan for the minimum of `[i, n)`, and its placement at
        slot `i`, which then holds its final value, tagged sorted. */
    method SelectionPass(i: int, myToken: nat) returns (live: bool)
      requires 0 <= i < items.Length && !seenCancel
      requires forall p, q :: 0 <= p < q < items.Length && p < i ==> items[p].value <= items[q].value
      requires forall k :: 0 <= k < i ==> items[k].state == Sorted
      modifies this`comparisons, this`swaps, this`runToken, this`isPaused, this`isRunning,
               this`hostEvents, this`seenCancel, this`atCancel, items
      ensures runToken >= old(runToken)
      ensures live == !seenCancel
      ensures !live ==> items[..] == atCancel && (isPaused || runToken != myToken)
      ensures multiset(Values(items[..])) == multiset(Values(old(items[..])))
      ensures live ==> forall p, q :: 0 <= p < q < items.Length && p <= i ==> items[p].value <= items[q].value
      ensures live ==> forall k :: 0 <= k <= i ==> items[k].state == Sorted
      ensures live ==> comparisons == old(comparisons) + (items.Length - 1 - i)
      ensures swaps <= old(swaps) + 1 && (i == items.Length - 1 ==> swaps == old(swaps))
      ensures runToken + (if isPaused then 1 else 0) <= old(runToken) + (if old(isPaused) then 1 else 0) + (old(|hostEvents|) - |hostEvents|)
    {
      live := CheckRun(myToken);
      if !live {
        return;
      }
      var minIdx;
      live, minIdx := SelectionScan(i, myToken);
      if !live {
        return;
      }
      SelectionPlace(i, minIdx);
    }

    /** The tail of one outer pass of selection sort (app.js:731-744): bring
        the minimum found to slot `i` unless it is already there, and mark
        slot `i` sorted. No check precedes the exchange. */
    method SelectionPlace(i: int, minIdx: int)
      requires 0 <= i <= minIdx < items.Length && !seenCancel
      modifies this`swaps, this`runToken, this`isPaused, this`isRunning, this`hostEvents, items
      ensures runToken >= old(runToken)
      ensures items[i] == old(items[minIdx]).(state := Sorted)
      ensures minIdx != i ==> items[minIdx] == Plain(old(items[i])) && swaps == old(swaps) + 1
      ensures minIdx == i ==> swaps == old(swaps)
      ensures forall k :: 0 <= k < items.Length && k != i && k != minIdx ==> items[k] == old(items[k])
      ensures multiset(Values(items[..])) == multiset(Values(old(items[..])))
      ensures runToken + (if isPaused then 1 else 0) <= old(runToken) + (if old(isPaused) then 1 else 0) + (old(|hostEvents|) - |hostEvents|)
    {
      if minIdx != i {
        Tag(i, Swapping);
        Tag(minIdx, Swapping);
        Suspend();
        Exchange(i, minIdx);
        swaps := swaps + 1;
      }
      Tag(i, Sorted);
      if minIdx != i {
        Tag(minIdx, Default);
      }
    }

    // ---------------------------------------------------------------------
    // Insertion sort (app.js:750-791)

    /** One iteration of the shifting loop of insertion sort
        (app.js:764-783): check, then copy the record at `j` one slot to the
        right, counting a comparison and a shift. */
    method ShiftOne(j: int, myToken: nat) returns (live: bool)
      requires 0 <= j && j + 1 < items.Length && !seenCancel
      modifies this`comparisons, this`swaps, this`runToken, this`isPaused, this`isRunning,
               this`hostEvents, this`seenCancel, this`atCancel, items
      ensures runToken >= old(runToken)
      ensures live == !seenCancel
      ensures !live ==> items[..] == old(items[..]) == atCancel && (isPaused || runToken != myToken)
      ensures !live ==> comparisons == old(comparisons) && swaps == old(swaps)
      ensures live ==> comparisons == old(comparisons) + 1 && swaps == old(swaps) + 1
      ensures live ==> items[j + 1] == Plain(old(items[j])) && items[j] == old(items[j]).(state := Swapping)
      ensures live && j > 0 ==> items[j - 1] == Plain(old(items[j - 1]))
      ensures live ==> forall k :: 0 <= k < items.Length && k != j - 1 && k != j && k != j + 1 ==> items[k] == old(items[k])
      ensures runToken + (if isPaused then 1 else 0) <= old(runToken) + (if old(isPaused) then 1 else 0) + (old(|hostEvents|) - |hostEvents|)
    {
      live := CheckRun(myToken);
      if !live {
        return;
      }
      Tag(j, Swapping);
      comparisons := comparisons + 1;
      Suspend();
      Put(j + 1, items[j].(state := Swapping));
      swaps := swaps + 1;
      Suspend();
      if j - 1 >= 0 {
        Tag(j - 1, Default);
      }
      Tag(j + 1, Default);
    }

    /** The shifting loop of insertion sort (app.js:763-784): while the slot
        left of the hole holds a larger value than `key`, copy it one slot to
        the right. Each shift counts one comparison and one shift; the
        comparison that ends the loop is not counted. */
    method InsertionShift(i: int, key: Element, myToken: nat) returns (live: bool, j: int)
      requires 0 < i < items.Length && !seenCancel
      requires key.value == items[i].value
      modifies this`comparisons, this`swaps, this`runToken, this`isPaused, this`isRunning,
               this`hostEvents, this`seenCancel, this`atCancel, items
      ensures runToken >= old(runToken)
      ensures live == !seenCancel
      ensures !live ==> items[..] == atCancel && (isPaused || runToken != myToken)
      ensures -1 <= j < i && Shifted(items[..], old(items[..]), j + 1, i, key.value)
      ensures live ==> j < 0 || items[j].value <= key.value
      ensures comparisons - old(comparisons) == swaps - old(swaps) == i - 1 - j
      ensures runToken + (if isPaused then 1 else 0) <= old(runToken) + (if old(isPaused) then 1 else 0) + (old(|hostEvents|) - |hostEvents|)
    {
      var n := items.Length;
      j := i - 1;
      live := true;
      while j >= 0 && items[j].value > key.value
        invariant -1 <= j < i
        invariant !seenCancel && runToken >= old(runToken)
        invariant forall k :: 0 <= k <= j + 1 ==> items[k].value == old(items[k].value)
        invariant forall k :: j + 1 < k <= i ==> items[k].value == old(items[k - 1].value)
        invariant forall k :: j + 1 < k <= i ==> items[k].value > key.value
        invariant forall k :: i < k < n ==> items[k] == old(items[k])
        invariant comparisons - old(comparisons) == swaps - old(swaps) == i - 1 - j
        invariant runToken + (if isPaused then 1 else 0) <= old(runToken) + (if old(isPaused) then 1 else 0) + (old(|hostEvents|) - |hostEvents|)
      {
        live := ShiftOne(j, myToken);
        if !live {
          return;
        }
        j := j - 1;
      }
    }

    /** One pass of the outer loop of insertion sort (app.js:753-790): take
        the key out of slot `i`, shift the larger values of the sorted prefix
        right, and put the key back into the hole. A cancellation observed
        while shifting leaves the key out of the array and the value next to
        the hole duplicated. */
    method InsertOne(i: int, myToken: nat) returns (live: bool)
      requires 0 < i < items.Length && !seenCancel
      requires AscendingOn(items[..], 0, i)
      modifies this`comparisons, this`swaps, this`runToken, this`isPaused, this`isRunning,
               this`hostEvents, this`seenCancel, this`atCancel, items
      ensures runToken >= old(runToken)
      ensures live == !seenCancel
      ensures !live ==> items[..] == atCancel && (isPaused || runToken != myToken)
      ensures live ==> multiset(Values(items[..])) == multiset(Values(old(items[..])))
      ensures !live ==> OneSlotFrom(items[..], multiset(Values(old(items[..]))))
      ensures live ==> AscendingOn(items[..], 0, i + 1)
      ensures AllPositive(old(items[..])) ==> AllPositive(items[..])
      ensures comparisons - old(comparisons) == swaps - old(swaps) <= i
      ensures runToken + (if isPaused then 1 else 0) <= old(runToken) + (if old(isPaused) then 1 else 0) + (old(|hostEvents|) - |hostEvents|)
    {
      live := CheckRun(myToken);
      if !live {
        assert Patched(items[..], 0, items[0].value) == Values(items[..]);
        return;
      }
      var key := items[i].(state := Comparing);
      Tag(i, Comparing);
      Suspend();
      assert Values(items[..]) == Values(old(items[..]));
      AscendingByValues(old(items[..]), items[..], 0, i);
      live := InsertKey(i, key, myToken);
    }

    /** The rest of one pass of the outer loop of insertion sort, once the
        key is taken out of slot `i`: the shifting loop and, unless it
        observed a cancellation, the key put into the hole. */
    method InsertKey(i: int, key: Element, myToken: nat) returns (live: bool)
      requires 0 < i < items.Length && !seenCancel
      requires key.value == items[i].value && AscendingOn(items[..], 0, i)
      modifies this`comparisons, this`swaps, this`runToken, this`isPaused, this`isRunning,
               this`hostEvents, this`seenCancel, this`atCancel, items
      ensures runToken >= old(runToken)
      ensures live == !seenCancel
      ensures !live ==> items[..] == atCancel && (isPaused || runToken != myToken)
      ensures live ==> multiset(Values(items[..])) == multiset(Values(old(items[..])))
      ensures !live ==> OneSlotFrom(items[..], multiset(Values(old(items[..]))))
      ensures live ==> AscendingOn(items[..], 0, i + 1)
      ensures AllPositive(old(items[..])) ==> AllPositive(items[..])
      ensures comparisons - old(comparisons) == swaps - old(swaps) <= i
      ensures runToken + (if isPaused then 1 else 0) <= old(runToken) + (if old(isPaused) then 1 else 0) + (old(|hostEvents|) - |hostEvents|)
    {
      ghost var before := items[..];
      var j;
      live, j := InsertionShift(i, key, myToken);
      ShiftedKeepsValues(before, items[..], j + 1, i, key.value);
      if live {
        InsertPut(i, j + 1, key, before);
      } else {
        assert multiset(Patched(items[..], j + 1, key.value)) == multiset(Values(before));
      }
    }

    /** The end of one pass of the outer loop of insertion sort
        (app.js:786-787): the key goes into the hole at `h`, which the
        shifting loop left between the values of `before`'s sorted prefix
        no larger than the key and those larger than it. */
    method InsertPut(i: int, h: int, key: Element, ghost before: seq<Element>)
      requires 0 <= h <= i < items.Length == |before| && !seenCancel
      requires AscendingOn(before, 0, i) && key.value == before[i].value
      requires Shifted(items[..], before, h, i, key.value)
      requires h == 0 || items[h - 1].value <= key.value
      requires multiset(Values(items[..])[h := key.value]) == multiset(Values(before))
      requires AllPositive(before) ==> AllPositive(items[..])
      modifies items
      ensures items[..] == old(items[..])[h := key.(state := Default)]
      ensures multiset(Values(items[..])) == multiset(Values(before))
      ensures AscendingOn(items[..], 0, i + 1)
      ensures AllPositive(before) ==> AllPositive(items[..])
    {
      InsertKeepsOrder(before, items[..], h, i, key.(state := Default));
      Put(h, key.(state := Default));
    }

    /** `insertionSort` (app.js:750-791). */
    method InsertionSort(myToken: nat) returns (outcome: Outcome)
      requires !seenCancel
      modifies this`comparisons, this`swaps, this`runToken, this`isPaused, this`isRunning,
               this`hostEvents, this`seenCancel, this`atCancel, items
      ensures runToken >= old(runToken)
      ensures outcome == Done || outcome == Aborted
      ensures seenCancel <==> outcome == Aborted
      ensures outcome == Aborted ==> items[..] == atCancel && (isPaused || runToken != myToken)
      ensures outcome == Done ==> multiset(Values(items[..])) == multiset(Values(old(items[..])))
      ensures outcome == Done ==> Ascending(items[..])
      ensures outcome == Aborted ==> OneSlotFrom(items[..], multiset(Values(old(items[..]))))
      ensures AllPositive(old(items[..])) ==> AllPositive(items[..])
      ensures comparisons - old(comparisons) == swaps - old(swaps) <= Pairs(items.Length)
      ensures runToken + (if isPaused then 1 else 0) <= old(runToken) + (if old(isPaused) then 1 else 0) + (old(|hostEvents|) - |hostEvents|)
    {
      var n := items.Length;
      var i := 1;
      while i < n
        invariant 1 <= i && (i <= n || i == 1)
        invariant !seenCancel && runToken >= old(runToken)
        invariant multiset(Values(items[..])) == multiset(Values(old(items[..])))
        invariant AscendingOn(items[..], 0, i)
        invariant AllPositive(old(items[..])) ==> AllPositive(items[..])
        invariant comparisons - old(comparisons) == swaps - old(swaps) <= Pairs(i)
        invariant runToken + (if isPaused then 1 else 0) <= old(runToken) + (if old(isPaused) then 1 else 0) + (old(|hostEvents|) - |hostEvents|)
      {
        PairsMonotone(i + 1, n);
        assert Pairs(i + 1) == Pairs(i) + i;
        var live := InsertOne(i, myToken);
        if !live {
          return Aborted;
        }
        i := i + 1;
      }
      outcome := Done;
    }

    // ---------------------------------------------------------------------
    // Merge sort (app.js:793-860)

    /** `for (idx = lo; idx < hi; idx++) this.array[idx].state = st`. */
    method TagRange(lo: int, hi: int, st: State)
      requires 0 <= lo <= hi <= items.Length && !seenCancel
      modifies items
      ensures forall t :: lo <= t < hi ==> items[t] == old(items[t]).(state := st)
      ensures forall t :: 0 <= t < items.Length && !(lo <= t < hi) ==> items[t] == old(items[t])
      ensures Values(items[..]) == Values(old(items[..]))
    {
      for idx := lo to hi
        invariant forall t :: lo <= t < idx ==> items[t] == old(items[t]).(state := st)
        invariant forall t :: 0 <= t < items.Length && !(lo <= t < idx) ==> items[t] == old(items[t])
        invariant Values(items[..]) == Values(old(items[..]))
      {
        Tag(idx, st);
      }
    }

    /** One copy of `merge` (app.js:817-834, 838-843, 847-852): the check —
        pause and token in the main loop (`main`), the token alone in the
        tail loops — then the record `e` written into slot `k` tagged
        swapping, one shift counted (and, in the main loop, one comparison),
        and a suspension. */
    method MergeCopy(k: int, e: Element, main: bool, myToken: nat) returns (live: bool)
      requires 0 <= k < items.Length && !seenCancel
      modifies this`comparisons, this`swaps, this`runToken, this`isPaused, this`isRunning,
               this`hostEvents, this`seenCancel, this`atCancel, items
      ensures runToken >= old(runToken)
      ensures live == !seenCancel
      ensures !live ==> items[..] == atCancel && (runToken != myToken || (main && isPaused))
      ensures items[..] == if live then old(items[..])[k := e.(state := Swapping)] else old(items[..])
      ensures comparisons == old(comparisons) + (if live && main then 1 else 0)
      ensures swaps == old(swaps) + (if live then 1 else 0)
      ensures runToken + (if isPaused then 1 else 0) <= old(runToken) + (if old(isPaused) then 1 else 0) + (old(|hostEvents|) - |hostEvents|)
    {
      if main {
        live := CheckRun(myToken);
      } else {
        live := CheckToken(myToken);
      }
      if !live {
        return;
      }
      if main {
        comparisons := comparisons + 1;
      }
      Put(k, e.(state := Swapping));
      swaps := swaps + 1;
      Suspend();
    }

    /** One turn of the main loop of `merge` (app.js:817-834): the head of
        the left run is copied when it is not larger than the head of the
        right run, otherwise the head of the right run; either way the next
        record of the merge lands in slot `left + i + j`. */
    method MergeStep(left: int, a: seq<Element>, b: seq<Element>, i: int, j: int,
                     ghost o: seq<Element>, myToken: nat)
      returns (live: bool, i': int, j': int)
      requires 0 <= i < |a| && 0 <= j < |b| && left + |a| + |b| <= items.Length && !seenCancel
      requires Merged(a[i..], b[j..]) == Merged(a, b)[i + j..]
      requires CopiedInto(items[..], o, left, i + j, Merged(a, b))
      modifies this`comparisons, this`swaps, this`runToken, this`isPaused, this`isRunning,
               this`hostEvents, this`seenCancel, this`atCancel, items
      ensures runToken >= old(runToken)
      ensures live == !seenCancel
      ensures !live ==> items[..] == atCancel && (isPaused || runToken != myToken)
      ensures !live ==> i' == i && j' == j
      ensures live ==> (i' == i + 1 && j' == j) || (i' == i && j' == j + 1)
      ensures Merged(a[i'..], b[j'..]) == Merged(a, b)[i' + j'..]
      ensures CopiedInto(items[..], o, left, i' + j', Merged(a, b))
      ensures comparisons == old(comparisons) + (i' + j') - (i + j)
      ensures swaps == old(swaps) + (i' + j') - (i + j)
      ensures runToken + (if isPaused then 1 else 0) <= old(runToken) + (if old(isPaused) then 1 else 0) + (old(|hostEvents|) - |hostEvents|)
    {
      var takeLeft := a[i].value <= b[j].value;
      MergedTake(a, b, i, j);
      live, i', j' := MergeAdvance(left, a, b, i, j, if takeLeft then i + 1 else i, if takeLeft then j else j + 1,
                                   if takeLeft then a[i] else b[j], o, myToken);
    }

    /** The copy half of `MergeStep` once the record `e` to copy is chosen:
        `(ni, nj)` are the positions in the runs after it. */
    method MergeAdvance(left: int, a: seq<Element>, b: seq<Element>, i: int, j: int, ni: int, nj: int,
                        e: Element, ghost o: seq<Element>, myToken: nat)
      returns (live: bool, i': int, j': int)
      requires 0 <= i <= ni <= |a| && 0 <= j <= nj <= |b| && ni + nj == i + j + 1
      requires left + |a| + |b| <= items.Length && !seenCancel
      requires Merged(a[i..], b[j..]) == Merged(a, b)[i + j..]
      requires i + j < |Merged(a, b)| && Merged(a, b)[i + j] == Plain(e)
      requires Merged(a[ni..], b[nj..]) == Merged(a, b)[ni + nj..]
      requires CopiedInto(items[..], o, left, i + j, Merged(a, b))
      modifies this`comparisons, this`swaps, this`runToken, this`isPaused, this`isRunning,
               this`hostEvents, this`seenCancel, this`atCancel, items
      ensures runToken >= old(runToken)
      ensures live == !seenCancel
      ensures !live ==> items[..] == atCancel && (isPaused || runToken != myToken)
      ensures (live && i' == ni && j' == nj) || (!live && i' == i && j' == j)
      ensures Merged(a[i'..], b[j'..]) == Merged(a, b)[i' + j'..]
      ensures CopiedInto(items[..], o, left, i' + j', Merged(a, b))
      ensures comparisons == old(comparisons) + (i' + j') - (i + j)
      ensures swaps == old(swaps) + (i' + j') - (i + j)
      ensures runToken + (if isPaused then 1 else 0) <= old(runToken) + (if old(isPaused) then 1 else 0) + (old(|hostEvents|) - |hostEvents|)
    {
      CopiedStep(items[..], o, left, i + j, Merged(a, b));
      i', j' := i, j;
      live := MergeCopy(left + i + j, e, true, myToken);
      if live {
        i', j' := ni, nj;
      }
    }

    /** The main loop of `merge` (app.js:816-835): while both runs have
        records left, check, compare their heads and copy the smaller one
        (the left one on ties) into the next slot, counting a comparison and
        a shift. After `i + j` copies the slots `[left, left + i + j)` hold
        the first `i + j` records of the merge. */
    method MergeMain(left: int, a: seq<Element>, b: seq<Element>, myToken: nat)
      returns (live: bool, i: int, j: int)
      requires 0 <= left && left + |a| + |b| <= items.Length && !seenCancel
      modifies this`comparisons, this`swaps, this`runToken, this`isPaused, this`isRunning,
               this`hostEvents, this`seenCancel, this`atCancel, items
      ensures runToken >= old(runToken)
      ensures live == !seenCancel
      ensures !live ==> items[..] == atCancel && (isPaused || runToken != myToken)
      ensures 0 <= i <= |a| && 0 <= j <= |b|
      ensures live ==> i == |a| || j == |b|
      ensures a != [] && b != [] ==> i < |a| || j < |b|
      ensures Merged(a[i..], b[j..]) == Merged(a, b)[i + j..]
      ensures CopiedInto(items[..], old(items[..]), left, i + j, Merged(a, b))
      ensures comparisons == old(comparisons) + i + j && swaps == old(swaps) + i + j
      ensures runToken + (if isPaused then 1 else 0) <= old(runToken) + (if old(isPaused) then 1 else 0) + (old(|hostEvents|) - |hostEvents|)
    {
      CopiedNone(items[..], left, Merged(a, b));
      i, j := 0, 0;
      live := true;
      while i < |a| && j < |b|
        invariant 0 <= i <= |a| && 0 <= j <= |b|
        invariant a != [] && b != [] ==> i < |a| || j < |b|
        invariant !seenCancel && runToken >= old(runToken)
        invariant Merged(a[i..], b[j..]) == Merged(a, b)[i + j..]
        invariant CopiedInto(items[..], old(items[..]), left, i + j, Merged(a, b))
        invariant comparisons == old(comparisons) + i + j && swaps == old(swaps) + i + j
        invariant runToken + (if isPaused then 1 else 0) <= old(runToken) + (if old(isPaused) then 1 else 0) + (old(|hostEvents|) - |hostEvents|)
        decreases |a| + |b| - (i + j)
      {
        live, i, j := MergeStep(left, a, b, i, j, old(items[..]), myToken);
        if !live {
          return;
        }
      }
    }
    /** One turn of a tail loop of `merge` (app.js:838-843 when the right
        run is used up, 847-852 when the left one is): the token check, then
        the next record of the remaining run copied into slot `left + i + j`
        and one shift counted; no comparison. */
    method DrainStep(left: int, a: seq<Element>, b: seq<Element>, i: int, j: int,
                     ghost o: seq<Element>, myToken: nat)
      returns (live: bool, i': int, j': int)
      requires (i < |a| && j == |b|) || (i == |a| && j < |b|)
      requires 0 <= i && 0 <= j && left + |a| + |b| <= items.Length && !seenCancel
      requires Merged(a[i..], b[j..]) == Merged(a, b)[i + j..]
      requires CopiedInto(items[..], o, left, i + j, Merged(a, b))
      modifies this`comparisons, this`swaps, this`runToken, this`isPaused, this`isRunning,
               this`hostEvents, this`seenCancel, this`atCancel, items
      ensures runToken >= old(runToken)
      ensures live == !seenCancel
      ensures !live ==> items[..] == atCancel && runToken != myToken
      ensures !live ==> i' == i && j' == j
      ensures live ==> if i < |a| then i' == i + 1 && j' == j else i' == i && j' == j + 1
      ensures Merged(a[i'..], b[j'..]) == Merged(a, b)[i' + j'..]
      ensures CopiedInto(items[..], o, left, i' + j', Merged(a, b))
      ensures comparisons == old(comparisons)
      ensures swaps == old(swaps) + (i' + j') - (i + j)
      ensures runToken + (if isPaused then 1 else 0) <= old(runToken) + (if old(isPaused) then 1 else 0) + (old(|hostEvents|) - |hostEvents|)
    {
      ghost var m := Merged(a, b);
      i', j' := i, j;
      if i < |a| {
        MergedTakeLeft(a, b, i, j, m);
      } else {
        MergedTakeRight(a, b, i, j, m);
      }
      CopiedStep(items[..], o, left, i + j, m);
      live := MergeCopy(left + i + j, if i < |a| then a[i] else b[j], false, myToken);
      if live {
        if i < |a| {
          i' := i + 1;
        } else {
          j' := j + 1;
        }
      }
    }

    /** The two tail loops of `merge` (app.js:837-853): copy what is left of
        the left run, then what is left of the right run. */
    method MergeDrain(left: int, a: seq<Element>, b: seq<Element>, i0: int, j0: int,
                      ghost o: seq<Element>, myToken: nat)
      returns (live: bool, ghost w: int)
      requires 0 <= i0 <= |a| && 0 <= j0 <= |b| && (i0 == |a| || j0 == |b|)
      requires 0 <= left && left + |a| + |b| <= items.Length && !seenCancel
      requires Merged(a[i0..], b[j0..]) == Merged(a, b)[i0 + j0..]
      requires CopiedInto(items[..], o, left, i0 + j0, Merged(a, b))
      modifies this`comparisons, this`swaps, this`runToken, this`isPaused, this`isRunning,
               this`hostEvents, this`seenCancel, this`atCancel, items
      ensures runToken >= old(runToken)
      ensures live == !seenCancel
      ensures !live ==> items[..] == atCancel && runToken != myToken
      ensures CopiedInto(items[..], o, left, w, Merged(a, b))
      ensures live ==> w == |a| + |b|
      ensures comparisons == old(comparisons)
      ensures live ==> swaps == old(swaps) + (|a| + |b|) - (i0 + j0)
      ensures runToken + (if isPaused then 1 else 0) <= old(runToken) + (if old(isPaused) then 1 else 0) + (old(|hostEvents|) - |hostEvents|)
    {
      var i, j := i0, j0;
      live, w := true, i0 + j0;
      while i < |a|
        invariant i0 <= i <= |a| && j == j0 && (i < |a| ==> j == |b|) && w == i + j
        invariant !seenCancel && runToken >= old(runToken)
        invariant Merged(a[i..], b[j..]) == Merged(a, b)[i + j..]
        invariant CopiedInto(items[..], o, left, i + j, Merged(a, b))
        invariant comparisons == old(comparisons) && swaps == old(swaps) + (i + j) - (i0 + j0)
        invariant runToken + (if isPaused then 1 else 0) <= old(runToken) + (if old(isPaused) then 1 else 0) + (old(|hostEvents|) - |hostEvents|)
        decreases |a| - i
      {
        live, i, j := DrainStep(left, a, b, i, j, o, myToken);
        w := i + j;
        if !live {
          return;
        }
      }
      while j < |b|
        invariant j0 <= j <= |b| && i == |a| && w == i + j
        invariant !seenCancel && runToken >= old(runToken)
        invariant Merged(a[i..], b[j..]) == Merged(a, b)[i + j..]
        invariant CopiedInto(items[..], o, left, i + j, Merged(a, b))
        invariant comparisons == old(comparisons) && swaps == old(swaps) + (i + j) - (i0 + j0)
        invariant runToken + (if isPaused then 1 else 0) <= old(runToken) + (if old(isPaused) then 1 else 0) + (old(|hostEvents|) - |hostEvents|)
        decreases |b| - j
      {
        live, i, j := DrainStep(left, a, b, i, j, o, myToken);
        w := i + j;
        if !live {
          return;
        }
      }
    }
    /** The main loop and the tail loops of `merge` (app.js:816-853) over
        two non-empty runs: `w` records of their merge written from slot
        `left` on, all of them when the run goes on; one comparison per turn
        of the main loop, one shift per record. */
    method MergeRuns(left: int, a: seq<Element>, b: seq<Element>, myToken: nat)
      returns (live: bool, ghost w: int)
      requires a != [] && b != []
      requires 0 <= left && left + |a| + |b| <= items.Length && !seenCancel
      modifies this`comparisons, this`swaps, this`runToken, this`isPaused, this`isRunning,
               this`hostEvents, this`seenCancel, this`atCancel, items
      ensures runToken >= old(runToken)
      ensures live == !seenCancel
      ensures !live ==> items[..] == atCancel && (isPaused || runToken != myToken)
      ensures CopiedInto(items[..], old(items[..]), left, w, Merged(a, b))
      ensures live ==> w == |a| + |b|
      ensures live ==> old(comparisons) <= comparisons < old(comparisons) + |a| + |b|
      ensures live ==> swaps == old(swaps) + |a| + |b|
      ensures runToken + (if isPaused then 1 else 0) <= old(runToken) + (if old(isPaused) then 1 else 0) + (old(|hostEvents|) - |hostEvents|)
    {
      var i, j;
      live, i, j := MergeMain(left, a, b, myToken);
      w := i + j;
      if !live {
        return;
      }
      live, w := MergeDrain(left, a, b, i, j, old(items[..]), myToken);
    }

    /** `merge` (app.js:803-860): the check, the two runs copied out, the
        segment tagged comparing, the main loop and the tail loops, and the
        tags cleared. Completed, the segment `[left, right]` holds the merge
        of its two halves, with at most `right - left` comparisons and
        exactly `right - left + 1` shifts; on every outcome nothing outside
        the segment changes. */
    method Merge(left: int, mid: int, right: int, myToken: nat) returns (live: bool)
      requires 0 <= left <= mid < right < items.Length && !seenCancel
      modifies this`comparisons, this`swaps, this`runToken, this`isPaused, this`isRunning,
               this`hostEvents, this`seenCancel, this`atCancel, items
      ensures runToken >= old(runToken)
      ensures live == !seenCancel
      ensures !live ==> items[..] == atCancel && (isPaused || runToken != myToken)
      ensures live ==> items[left..right + 1] == Merged(old(items[left..mid + 1]), old(items[mid + 1..right + 1]))
      ensures SameOutside(items[..], old(items[..]), left, right + 1)
      ensures live ==> old(comparisons) <= comparisons <= old(comparisons) + (right - left)
      ensures live ==> swaps == old(swaps) + (right - left + 1)
      ensures AllPositive(old(items[..])) ==> AllPositive(items[..])
      ensures runToken + (if isPaused then 1 else 0) <= old(runToken) + (if old(isPaused) then 1 else 0) + (old(|hostEvents|) - |hostEvents|)
    {
      live := CheckRun(myToken);
      if live {
        live := MergeSegment(left, mid, right, myToken);
      }
    }

    /** `merge` past its opening check (app.js:806-860). */
    method MergeSegment(left: int, mid: int, right: int, myToken: nat) returns (live: bool)
      requires 0 <= left <= mid < right < items.Length && !seenCancel
      modifies this`comparisons, this`swaps, this`runToken, this`isPaused, this`isRunning,
               this`hostEvents, this`seenCancel, this`atCancel, items
      ensures runToken >= old(runToken)
      ensures live == !seenCancel
      ensures !live ==> items[..] == atCancel && (isPaused || runToken != myToken)
      ensures live ==> items[left..right + 1] == Merged(old(items[left..mid + 1]), old(items[mid + 1..right + 1]))
      ensures SameOutside(items[..], old(items[..]), left, right + 1)
      ensures live ==> old(comparisons) <= comparisons <= old(comparisons) + (right - left)
      ensures live ==> swaps == old(swaps) + (right - left + 1)
      ensures AllPositive(old(items[..])) ==> AllPositive(items[..])
      ensures runToken + (if isPaused then 1 else 0) <= old(runToken) + (if old(isPaused) then 1 else 0) + (old(|hostEvents|) - |hostEvents|)
    {
      var a := items[left..mid + 1];
      var b := items[mid + 1..right + 1];
      ghost var m := Merged(a, b);
      TagRange(left, right + 1, Comparing);
      Suspend();
      ghost var tagged := items[..];
      ghost var w;
      live, w := MergeRuns(left, a, b, myToken);
      ghost var copied := items[..];
      MergePositive(old(items[..]), tagged, copied, left, mid, right, w);
      if live {
        TagRange(left, right + 1, Default);
        MergedPlain(a, b);
        CopiedAll(items[..], copied, tagged, left, m);
      }
    }
    /** `mergeSort` (app.js:793-801): segments of more than one slot are split
        at `mid = floor((left + right) / 2)`, both halves sorted, then merged.
        Completed, the segment holds the merge sort of what it held (sorted,
        a permutation, and stable: see `MergeSorted`), with exactly
        `MergeWritesOn(left, right)` shifts and no more comparisons than
        shifts; nothing outside it
        changes on any outcome. */
    method MergeSort(left: int, right: int, myToken: nat) returns (live: bool)
      requires 0 <= left <= right + 1 <= items.Length && !seenCancel
      modifies this`comparisons, this`swaps, this`runToken, this`isPaused, this`isRunning,
               this`hostEvents, this`seenCancel, this`atCancel, items
      ensures runToken >= old(runToken)
      ensures live == !seenCancel
      ensures !live ==> items[..] == atCancel && (isPaused || runToken != myToken)
      ensures live ==> items[left..right + 1] == MergeSorted(old(items[left..right + 1]))
      ensures SameOutside(items[..], old(items[..]), left, right + 1)
      ensures live ==> swaps == old(swaps) + MergeWritesOn(left, right)
      ensures live ==> old(comparisons) <= comparisons && comparisons - old(comparisons) <= swaps - old(swaps)
      ensures AllPositive(old(items[..])) ==> AllPositive(items[..])
      ensures runToken + (if isPaused then 1 else 0) <= old(runToken) + (if old(isPaused) then 1 else 0) + (old(|hostEvents|) - |hostEvents|)
      decreases right - left, 2
    {
      live := true;
      if left < right {
        live := MergeHalves(left, (left + right) / 2, right, myToken);
      }
    }

    /** `mergeSort` on a segment of two or more slots (app.js:795-799): sort
        the left half, then the right half, then merge them. */
    method MergeHalves(left: int, mid: int, right: int, myToken: nat) returns (live: bool)
      requires 0 <= left <= mid < right < items.Length && mid == (left + right) / 2 && !seenCancel
      modifies this`comparisons, this`swaps, this`runToken, this`isPaused, this`isRunning,
               this`hostEvents, this`seenCancel, this`atCancel, items
      ensures runToken >= old(runToken)
      ensures live == !seenCancel
      ensures !live ==> items[..] == atCancel && (isPaused || runToken != myToken)
      ensures live ==> items[left..right + 1] == MergeSorted(old(items[left..right + 1]))
      ensures SameOutside(items[..], old(items[..]), left, right + 1)
      ensures live ==> swaps == old(swaps) + MergeWritesOn(left, right)
      ensures live ==> old(comparisons) <= comparisons && comparisons - old(comparisons) <= swaps - old(swaps)
      ensures AllPositive(old(items[..])) ==> AllPositive(items[..])
      ensures runToken + (if isPaused then 1 else 0) <= old(runToken) + (if old(isPaused) then 1 else 0) + (old(|hostEvents|) - |hostEvents|)
      decreases right - left, 1
    {
      ghost var o, w := items[..], swaps;
      live := MergeSort(left, mid, myToken);
      if live {
        ghost var w1 := swaps;
        live := MergeRest(left, mid, right, myToken, o);
        if live {
          MergeWritesSplit(left, mid, right);
        }
      } else {
        SameOutsideWiden(items[..], o, left, mid + 1, left, right + 1);
      }
    }

    /** The rest of `mergeSort` once the left half `[left, mid]` of `o` is
        sorted: sort the right half, then merge the two. */
    method MergeRest(left: int, mid: int, right: int, myToken: nat, ghost o: seq<Element>) returns (live: bool)
      requires 0 <= left <= mid < right < items.Length && mid == (left + right) / 2 && !seenCancel
      requires |o| == items.Length && items[left..mid + 1] == MergeSorted(o[left..mid + 1])
      requires SameOutside(items[..], o, left, mid + 1)
      requires AllPositive(o) ==> AllPositive(items[..])
      modifies this`comparisons, this`swaps, this`runToken, this`isPaused, this`isRunning,
               this`hostEvents, this`seenCancel, this`atCancel, items
      ensures runToken >= old(runToken)
      ensures live == !seenCancel
      ensures !live ==> items[..] == atCancel && (isPaused || runToken != myToken)
      ensures live ==> items[left..right + 1] == MergeSorted(o[left..right + 1])
      ensures SameOutside(items[..], o, left, right + 1)
      ensures live ==> swaps == old(swaps) + MergeWritesOn(mid + 1, right) + (right - left + 1)
      ensures live ==> old(comparisons) <= comparisons && comparisons - old(comparisons) <= swaps - old(swaps)
      ensures AllPositive(o) ==> AllPositive(items[..])
      ensures runToken + (if isPaused then 1 else 0) <= old(runToken) + (if old(isPaused) then 1 else 0) + (old(|hostEvents|) - |hostEvents|)
      decreases right - left, 0
    {
      ghost var s1 := items[..];
      live := MergeSort(mid + 1, right, myToken);
      SameOutsideCompose(items[..], s1, o, mid + 1, right + 1, left, right + 1);
      if live {
        live := MergeTail(left, mid, right, myToken, o, s1);
      }
    }

    /** The closing `merge` of `mergeSort` once both halves are sorted: `o`
        was the segment before, `s1` the array after sorting the left half. */
    method MergeTail(left: int, mid: int, right: int, myToken: nat, ghost o: seq<Element>, ghost s1: seq<Element>)
      returns (live: bool)
      requires 0 <= left <= mid < right < items.Length && mid == (left + right) / 2 && !seenCancel
      requires |o| == |s1| == items.Length
      requires s1[left..mid + 1] == MergeSorted(o[left..mid + 1]) && SameOutside(s1, o, left, mid + 1)
      requires items[mid + 1..right + 1] == MergeSorted(s1[mid + 1..right + 1])
      requires SameOutside(items[..], s1, mid + 1, right + 1)
      requires AllPositive(o) ==> AllPositive(items[..])
      modifies this`comparisons, this`swaps, this`runToken, this`isPaused, this`isRunning,
               this`hostEvents, this`seenCancel, this`atCancel, items
      ensures runToken >= old(runToken)
      ensures live == !seenCancel
      ensures !live ==> items[..] == atCancel && (isPaused || runToken != myToken)
      ensures live ==> items[left..right + 1] == MergeSorted(o[left..right + 1])
      ensures SameOutside(items[..], old(items[..]), left, right + 1)
      ensures live ==> swaps == old(swaps) + (right - left + 1)
      ensures live ==> old(comparisons) <= comparisons && comparisons - old(comparisons) <= swaps - old(swaps)
      ensures AllPositive(o) ==> AllPositive(items[..])
      ensures runToken + (if isPaused then 1 else 0) <= old(runToken) + (if old(isPaused) then 1 else 0) + (old(|hostEvents|) - |hostEvents|)
    {
      ghost var s2 := items[..];
      live := Merge(left, mid, right, myToken);
      if live {
        MergeSortStep(o, s1, s2, items[..], left, mid, right);
      }
    }

    /** `mergeSort(0, n - 1)` as `runAlgorithm` starts it (app.js:654):
        completed, the array is sorted, a permutation of what it held, and
        stable — the records of every value in their old order — with
        exactly `MergeWrites(n)` shifts. */
    method MergeSortAll(myToken: nat) returns (outcome: Outcome)
      requires !seenCancel
      modifies this`comparisons, this`swaps, this`runToken, this`isPaused, this`isRunning,
               this`hostEvents, this`seenCancel, this`atCancel, items
      ensures runToken >= old(runToken)
      ensures outcome == Done || outcome == Aborted
      ensures seenCancel <==> outcome == Aborted
      ensures outcome == Aborted ==> items[..] == atCancel && (isPaused || runToken != myToken)
      ensures outcome == Done ==> Ascending(items[..])
      ensures outcome == Done ==> multiset(Values(items[..])) == multiset(Values(old(items[..])))
      ensures outcome == Done ==> forall v :: Keyed(items[..], v) == Keyed(old(items[..]), v)
      ensures outcome == Done ==> swaps == old(swaps) + MergeWrites(items.Length)
      ensures outcome == Done ==> old(comparisons) <= comparisons && comparisons - old(comparisons) <= swaps - old(swaps)
      ensures AllPositive(old(items[..])) ==> AllPositive(items[..])
      ensures runToken + (if isPaused then 1 else 0) <= old(runToken) + (if old(isPaused) then 1 else 0) + (old(|hostEvents|) - |hostEvents|)
    {
      var live := MergeSort(0, items.Length - 1, myToken);
      if !live {
        return Aborted;
      }
      assert items[0..items.Length] == items[..];
      assert old(items[0..items.Length]) == old(items[..]);
      MergeSortedAscending(old(items[..]));
      MergeSortedValues(old(items[..]));
      forall v
        ensures Keyed(items[..], v) == Keyed(old(items[..]), v)
      {
        MergeSortedStable(old(items[..]), v);
      }
      MergeWritesBySize(0, items.Length - 1);
      outcome := Done;
    }
    // ---------------------------------------------------------------------
    // Quick sort (app.js:862-921)

    /** One turn of the loop of `partition` (app.js:879-904) at slot `j`,
        with `i` the last slot holding a value below the pivot value `pv`:
        check, tag `j` comparing, count a comparison, suspend; a smaller
        value is exchanged into slot `i + 1` (with a suspension first, and
        no exchange when it is already there); then the tags are reset —
        except that a record left in place at `i == j` stays comparing. */
    method PartitionStep(low: int, high: int, i: int, j: int, pv: int, myToken: nat)
      returns (live: bool, i': int)
      requires 0 <= low <= j < high < items.Length && !seenCancel
      requires Partitioned(Values(items[..]), low, i, j, pv)
      requires low == 0 || items[low - 1].state != Swapping
      modifies this`comparisons, this`swaps, this`runToken, this`isPaused, this`isRunning,
               this`hostEvents, this`seenCancel, this`atCancel, items
      ensures runToken >= old(runToken)
      ensures live == !seenCancel
      ensures !live ==> items[..] == old(items[..]) == atCancel && (isPaused || runToken != myToken)
      ensures !live ==> i' == i
      ensures live ==> Partitioned(Values(items[..]), low, i', j + 1, pv)
      ensures multiset(Values(items[..])) == multiset(Values(old(items[..])))
      ensures SameOutside(items[..], old(items[..]), low, high)
      ensures comparisons == old(comparisons) + (if live then 1 else 0)
      ensures old(swaps) <= swaps <= old(swaps) + (if live then 1 else 0)
      ensures runToken + (if isPaused then 1 else 0) <= old(runToken) + (if old(isPaused) then 1 else 0) + (old(|hostEvents|) - |hostEvents|)
    {
      i' := i;
      live := CheckRun(myToken);
      if live {
        Tag(j, Comparing);
        comparisons := comparisons + 1;
        Suspend();
        ghost var v := Values(items[..]);
        i' := PartitionVisit(low, high, i, j, pv);
        PartitionAdvance(v, low, i, j, pv);
      }
    }

    /** What `partition` does with slot `j` once compared (app.js:886-902):
        a value below the pivot value `pv` moves `i` on and, unless that is
        `j` itself, is exchanged into slot `i` after tagging both slots
        swapping and suspending, counting a swap; then `j` and a swapping
        slot `i` go back to default. */
    method PartitionVisit(low: int, high: int, i: int, j: int, pv: int) returns (i': int)
      requires 0 <= low <= j < high < items.Length && !seenCancel && low - 1 <= i < j
      requires low == 0 || items[low - 1].state != Swapping
      modifies this`swaps, this`runToken, this`isPaused, this`isRunning, this`hostEvents, items
      ensures runToken >= old(runToken)
      ensures i' == VisitIndex(Values(old(items[..])), i, j, pv)
      ensures Values(items[..]) == Visit(Values(old(items[..])), i, j, pv)
      ensures SameOutside(items[..], old(items[..]), low, j + 1)
      ensures old(swaps) <= swaps <= old(swaps) + 1
      ensures runToken + (if isPaused then 1 else 0) <= old(runToken) + (if old(isPaused) then 1 else 0) + (old(|hostEvents|) - |hostEvents|)
    {
      ghost var v := Values(items[..]);
      i' := i;
      if items[j].value < pv {
        i' := i + 1;
        if i' != j {
          PartitionExchange(i', j);
        } else {
          assert v[i' := v[j]][j := v[i']] == v;
        }
      }
      PartitionRetag(low, i', j);
    }

    /** The exchange of `partition` (app.js:888-898): tag both slots
        swapping, suspend, exchange them and count a swap. */
    method PartitionExchange(i: int, j: int)
      requires 0 <= i < j < items.Length && !seenCancel
      modifies this`swaps, this`runToken, this`isPaused, this`isRunning, this`hostEvents, items
      ensures runToken >= old(runToken)
      ensures Values(items[..]) == Values(old(items[..]))[i := old(items[j].value)][j := old(items[i].value)]
      ensures multiset(Values(items[..])) == multiset(Values(old(items[..])))
      ensures SameOutside(items[..], old(items[..]), i, j + 1)
      ensures swaps == old(swaps) + 1
      ensures runToken + (if isPaused then 1 else 0) <= old(runToken) + (if old(isPaused) then 1 else 0) + (old(|hostEvents|) - |hostEvents|)
    {
      Tag(i, Swapping);
      Tag(j, Swapping);
      Suspend();
      Exchange(i, j);
      swaps := swaps + 1;
    }

    /** The tag reset after each compared slot (app.js:901-902): `j` goes
        back to default unless the last smaller value was left in place
        there, and so does a swapping slot `i`. */
    method PartitionRetag(low: int, i: int, j: int)
      requires 0 <= low <= j < items.Length && low - 1 <= i <= j && !seenCancel
      requires i == low - 1 ==> low == 0 || items[low - 1].state != Swapping
      modifies items
      ensures Values(items[..]) == Values(old(items[..]))
      ensures SameOutside(items[..], old(items[..]), low, j + 1)
    {
      if j != i {
        Tag(j, Default);
      }
      if i >= 0 && items[i].state == Swapping {
        Tag(i, Default);
      }
    }

    /** The end of `partition` (app.js:907-917): unless the pivot already
        sits just past the smaller values, tag that slot swapping, suspend
        and exchange it with the pivot, counting a swap; the pivot's new
        slot `p` is tagged sorted, and it splits `[low, high]`. */
    method PlacePivot(low: int, p: int, high: int)
      requires 0 <= p <= high < items.Length && !seenCancel
      requires Partitioned(Values(items[..]), low, p - 1, high, items[high].value)
      modifies this`swaps, this`runToken, this`isPaused, this`isRunning, this`hostEvents, items
      ensures runToken >= old(runToken)
      ensures SplitAt(Values(items[..]), low, p, high)
      ensures items[p] == old(items[high]).(state := Sorted)
      ensures SameOutside(items[..], old(items[..]), p, high + 1)
      ensures multiset(Values(items[..])) == multiset(Values(old(items[..])))
      ensures swaps == old(swaps) + (if p != high then 1 else 0)
      ensures runToken + (if isPaused then 1 else 0) <= old(runToken) + (if old(isPaused) then 1 else 0) + (old(|hostEvents|) - |hostEvents|)
    {
      PartitionFinish(Values(items[..]), low, p - 1, high);
      if p != high {
        Tag(p, Swapping);
        Suspend();
        Exchange(p, high);
        swaps := swaps + 1;
      }
      Tag(p, Sorted);
    }

    /** `partition` (app.js:870-921), Lomuto's scheme with the last slot as
        pivot. Completed, the pivot's value sits at `pi`, tagged sorted,
        everything left of it in `[low, high]` smaller and everything right
        of it at least as large, after exactly `high - low` comparisons. On
        every outcome the segment keeps its values and nothing outside it
        changes. */
    method Partition(low: int, high: int, myToken: nat) returns (live: bool, pi: int)
      requires 0 <= low < high < items.Length && !seenCancel
      requires low == 0 || items[low - 1].state != Swapping
      modifies this`comparisons, this`swaps, this`runToken, this`isPaused, this`isRunning,
               this`hostEvents, this`seenCancel, this`atCancel, items
      ensures runToken >= old(runToken)
      ensures live == !seenCancel
      ensures !live ==> items[..] == atCancel && (isPaused || runToken != myToken)
      ensures low <= pi <= high
      ensures live ==> SplitAt(Values(items[..]), low, pi, high)
      ensures live ==> items[pi].value == old(items[high].value) && items[pi].state == Sorted
      ensures multiset(Values(items[..])) == multiset(Values(old(items[..])))
      ensures SameOutside(items[..], old(items[..]), low, high + 1)
      ensures low == 0 || items[low - 1].state != Swapping
      ensures live ==> comparisons == old(comparisons) + (high - low)
      ensures old(comparisons) <= comparisons <= old(comparisons) + (high - low)
      ensures old(swaps) <= swaps <= old(swaps) + (high - low + 1)
      ensures runToken + (if isPaused then 1 else 0) <= old(runToken) + (if old(isPaused) then 1 else 0) + (old(|hostEvents|) - |hostEvents|)
    {
      pi := low;
      live := CheckRun(myToken);
      if live {
        live, pi := PartitionRun(low, high, myToken);
      }
    }

    /** `partition` past its first check (app.js:873-921): the loop, then
        the pivot moved into place. */
    method PartitionRun(low: int, high: int, myToken: nat) returns (live: bool, pi: int)
      requires 0 <= low < high < items.Length && !seenCancel
      requires low == 0 || items[low - 1].state != Swapping
      modifies this`comparisons, this`swaps, this`runToken, this`isPaused, this`isRunning,
               this`hostEvents, this`seenCancel, this`atCancel, items
      ensures runToken >= old(runToken)
      ensures live == !seenCancel
      ensures !live ==> items[..] == atCancel && (isPaused || runToken != myToken)
      ensures low <= pi <= high
      ensures live ==> SplitAt(Values(items[..]), low, pi, high)
      ensures live ==> items[pi].value == old(items[high].value) && items[pi].state == Sorted
      ensures multiset(Values(items[..])) == multiset(Values(old(items[..])))
      ensures SameOutside(items[..], old(items[..]), low, high + 1)
      ensures low == 0 || items[low - 1].state != Swapping
      ensures live ==> comparisons == old(comparisons) + (high - low)
      ensures old(comparisons) <= comparisons <= old(comparisons) + (high - low)
      ensures old(swaps) <= swaps <= old(swaps) + (high - low + 1)
      ensures runToken + (if isPaused then 1 else 0) <= old(runToken) + (if old(isPaused) then 1 else 0) + (old(|hostEvents|) - |hostEvents|)
    {
      var i;
      live, i := PartitionScan(low, high, myToken);
      pi := low;
      if live {
        ghost var scanned := items[..];
        PlacePivot(low, i + 1, high);
        pi := i + 1;
        SameOutsideCompose(items[..], scanned, old(items[..]), i + 1, high + 1, low, high + 1);
      }
    }

    /** The pivot tag and the loop of `partition` (app.js:873-904): every
        slot `j` of `[low, high)` in turn, through `PartitionStep`.
        Completed, the values below the pivot's value fill `[low, i]` and
        the rest of `[low, high)` holds values not below it, after one
        comparison per slot. */
    method PartitionScan(low: int, high: int, myToken: nat) returns (live: bool, i: int)
      requires 0 <= low < high < items.Length && !seenCancel
      requires low == 0 || items[low - 1].state != Swapping
      modifies this`comparisons, this`swaps, this`runToken, this`isPaused, this`isRunning,
               this`hostEvents, this`seenCancel, this`atCancel, items
      ensures runToken >= old(runToken)
      ensures live == !seenCancel
      ensures !live ==> items[..] == atCancel && (isPaused || runToken != myToken)
      ensures low - 1 <= i < high
      ensures items[high] == old(items[high]).(state := Pivot)
      ensures live ==> Partitioned(Values(items[..]), low, i, high, items[high].value)
      ensures multiset(Values(items[..])) == multiset(Values(old(items[..])))
      ensures SameOutside(items[..], old(items[..]), low, high + 1)
      ensures live ==> comparisons == old(comparisons) + (high - low)
      ensures old(comparisons) <= comparisons <= old(comparisons) + (high - low)
      ensures old(swaps) <= swaps <= old(swaps) + (high - low)
      ensures runToken + (if isPaused then 1 else 0) <= old(runToken) + (if old(isPaused) then 1 else 0) + (old(|hostEvents|) - |hostEvents|)
    {
      var pv := items[high].value;
      Tag(high, Pivot);
      i := low - 1;
      var j := low;
      live := true;
      while j < high && live
        invariant low <= j <= high && low - 1 <= i < j && runToken >= old(runToken)
        invariant live == !seenCancel
        invariant !live ==> items[..] == atCancel && (isPaused || runToken != myToken)
        invariant items[high] == old(items[high]).(state := Pivot)
        invariant live ==> Partitioned(Values(items[..]), low, i, j, pv)
        invariant SameOutside(items[..], old(items[..]), low, high + 1)
        invariant multiset(Values(items[..])) == multiset(Values(old(items[..])))
        invariant old(comparisons) <= comparisons <= old(comparisons) + (j - low)
        invariant live ==> comparisons == old(comparisons) + (j - low)
        invariant old(swaps) <= swaps <= old(swaps) + (j - low)
        invariant runToken + (if isPaused then 1 else 0) <= old(runToken) + (if old(isPaused) then 1 else 0) + (old(|hostEvents|) - |hostEvents|)
      {
        live, i := PartitionStep(low, high, i, j, pv, myToken);
        j := j + 1;
      }
    }

    /** `quickSort(low, high)` (app.js:862-868): a segment of two or more
        slots is partitioned and both sides are sorted in turn. Completed,
        the segment is sorted; on every outcome the array keeps its values,
        nothing outside the segment changes, and the comparisons stay within
        `Pairs` of the segment's length, the worst case of the scheme. */
    method QuickSort(low: int, high: int, myToken: nat) returns (live: bool)
      requires 0 <= low <= high + 1 <= items.Length && !seenCancel
      requires low == 0 || items[low - 1].state != Swapping
      modifies this`comparisons, this`swaps, this`runToken, this`isPaused, this`isRunning,
               this`hostEvents, this`seenCancel, this`atCancel, items
      ensures runToken >= old(runToken)
      ensures live == !seenCancel
      ensures !live ==> items[..] == atCancel && (isPaused || runToken != myToken)
      ensures live ==> AscendingOn(items[..], low, high + 1)
      ensures multiset(Values(items[..])) == multiset(Values(old(items[..])))
      ensures SameOutside(items[..], old(items[..]), low, high + 1)
      ensures old(comparisons) <= comparisons <= old(comparisons) + Pairs(high - low + 1)
      ensures runToken + (if isPaused then 1 else 0) <= old(runToken) + (if old(isPaused) then 1 else 0) + (old(|hostEvents|) - |hostEvents|)
      decreases high - low, 3
    {
      live := true;
      if low < high {
        live := QuickSplit(low, high, myToken);
      }
    }

    /** `quickSort` on a segment of two or more slots (app.js:862-868):
        partition, then sort both sides. */
    method QuickSplit(low: int, high: int, myToken: nat) returns (live: bool)
      requires 0 <= low < high < items.Length && !seenCancel
      requires low == 0 || items[low - 1].state != Swapping
      modifies this`comparisons, this`swaps, this`runToken, this`isPaused, this`isRunning,
               this`hostEvents, this`seenCancel, this`atCancel, items
      ensures runToken >= old(runToken)
      ensures live == !seenCancel
      ensures !live ==> items[..] == atCancel && (isPaused || runToken != myToken)
      ensures live ==> AscendingOn(items[..], low, high + 1)
      ensures multiset(Values(items[..])) == multiset(Values(old(items[..])))
      ensures SameOutside(items[..], old(items[..]), low, high + 1)
      ensures old(comparisons) <= comparisons <= old(comparisons) + Pairs(high - low + 1)
      ensures runToken + (if isPaused then 1 else 0) <= old(runToken) + (if old(isPaused) then 1 else 0) + (old(|hostEvents|) - |hostEvents|)
      decreases high - low, 2
    {
      ghost var o, c0 := items[..], comparisons;
      var pi;
      live, pi := Partition(low, high, myToken);
      if live {
        live := QuickSortSides(low, pi, high, myToken, o, c0);
      } else {
        PairsBudget(c0, comparisons, comparisons, pi - low, high - pi, high - low + 1);
      }
    }

    /** The two recursive calls of `quickSort` after `partition` has split
        `[low, high]` of `o` at `pi` after at most `high - low` comparisons
        since `c0`: the left side, then the right side. */
    method QuickSortSides(low: int, pi: int, high: int, myToken: nat, ghost o: seq<Element>, ghost c0: int)
      returns (live: bool)
      requires 0 <= low <= pi <= high < items.Length == |o| && !seenCancel
      requires SplitAt(Values(items[..]), low, pi, high) && items[pi].state == Sorted
      requires low == 0 || items[low - 1].state != Swapping
      requires multiset(Values(items[..])) == multiset(Values(o)) && SameOutside(items[..], o, low, high + 1)
      requires c0 <= comparisons <= c0 + (high - low)
      modifies this`comparisons, this`swaps, this`runToken, this`isPaused, this`isRunning,
               this`hostEvents, this`seenCancel, this`atCancel, items
      ensures runToken >= old(runToken)
      ensures live == !seenCancel
      ensures !live ==> items[..] == atCancel && (isPaused || runToken != myToken)
      ensures live ==> AscendingOn(items[..], low, high + 1)
      ensures multiset(Values(items[..])) == multiset(Values(o))
      ensures SameOutside(items[..], o, low, high + 1)
      ensures c0 <= comparisons <= c0 + Pairs(high - low + 1)
      ensures runToken + (if isPaused then 1 else 0) <= old(runToken) + (if old(isPaused) then 1 else 0) + (old(|hostEvents|) - |hostEvents|)
      decreases high - low, 1
    {
      ghost var p1, c1 := items[..], comparisons;
      live := QuickSort(low, pi - 1, myToken);
      if live {
        assert items[pi] == p1[pi];
        live := QuickSortRight(low, pi, high, myToken, p1, o, c0, c1);
      } else {
        SameOutsideCompose(items[..], p1, o, low, pi, low, high + 1);
        PairsBudget(c0, c1, comparisons, pi - low, high - pi, high - low + 1);
      }
    }

    /** The second recursive call of `quickSort` after `partition` has
        split `[low, high]` of `o` at `pi` into `p1`, after at most
        `high - low` comparisons from `c0` to `c1`, and the left side is
        sorted: the right side. */
    method QuickSortRight(low: int, pi: int, high: int, myToken: nat,
                          ghost p1: seq<Element>, ghost o: seq<Element>, ghost c0: int, ghost c1: int)
      returns (live: bool)
      requires 0 <= low <= pi <= high < items.Length == |p1| == |o| && !seenCancel
      requires SplitAt(Values(p1), low, pi, high) && items[pi].state == Sorted
      requires AscendingOn(items[..], low, pi) && multiset(Values(items[..])) == multiset(Values(p1))
      requires SameOutside(items[..], p1, low, pi)
      requires multiset(Values(p1)) == multiset(Values(o)) && SameOutside(p1, o, low, high + 1)
      requires c0 <= c1 <= c0 + (high - low) && c1 <= comparisons <= c1 + Pairs(pi - low)
      modifies this`comparisons, this`swaps, this`runToken, this`isPaused, this`isRunning,
               this`hostEvents, this`seenCancel, this`atCancel, items
      ensures runToken >= old(runToken)
      ensures live == !seenCancel
      ensures !live ==> items[..] == atCancel && (isPaused || runToken != myToken)
      ensures live ==> AscendingOn(items[..], low, high + 1)
      ensures multiset(Values(items[..])) == multiset(Values(o))
      ensures SameOutside(items[..], o, low, high + 1)
      ensures c0 <= comparisons <= c0 + Pairs(high - low + 1)
      ensures runToken + (if isPaused then 1 else 0) <= old(runToken) + (if old(isPaused) then 1 else 0) + (old(|hostEvents|) - |hostEvents|)
      decreases high - low, 0
    {
      ghost var p2 := items[..];
      live := QuickSort(pi + 1, high, myToken);
      if live {
        QuickSortStep(p1, p2, items[..], low, pi, high);
      } else {
        SameOutsideCompose(items[..], p2, p1, pi + 1, high + 1, low, high + 1);
      }
      SameOutsideCompose(items[..], p1, o, low, high + 1, low, high + 1);
      PairsBudget(c0, c1, comparisons, pi - low, high - pi, high - low + 1);
    }

    /** `quickSort(0, n - 1)` as `runAlgorithm` starts it (app.js:655):
        completed, the array is sorted and a permutation of what it held,
        after at most n(n-1)/2 comparisons. */
    method QuickSortAll(myToken: nat) returns (outcome: Outcome)
      requires !seenCancel
      modifies this`comparisons, this`swaps, this`runToken, this`isPaused, this`isRunning,
               this`hostEvents, this`seenCancel, this`atCancel, items
      ensures runToken >= old(runToken)
      ensures outcome == Done || outcome == Aborted
      ensures seenCancel <==> outcome == Aborted
      ensures outcome == Aborted ==> items[..] == atCancel && (isPaused || runToken != myToken)
      ensures outcome == Done ==> Ascending(items[..])
      ensures multiset(Values(items[..])) == multiset(Values(old(items[..])))
      ensures 2 * (comparisons - old(comparisons)) <= items.Length * (items.Length - 1)
      ensures AllPositive(old(items[..])) ==> AllPositive(items[..])
      ensures runToken + (if isPaused then 1 else 0) <= old(runToken) + (if old(isPaused) then 1 else 0) + (old(|hostEvents|) - |hostEvents|)
    {
      var live := QuickSort(0, items.Length - 1, myToken);
      PairsClosedForm(items.Length);
      outcome := Aborted;
      if live {
        assert items[0..items.Length] == items[..];
        outcome := Done;
      }
    }

    // ---------------------------------------------------------------------
    // Heap sort (app.js:924-1007)

    /** The comparisons of `heapify` (app.js:959-981): tag slot `i` and its
        children in `[0, n)` comparing, count one comparison per child, and
        pick `largest`, the slot of the largest value, preferring `i` and
        then the left child on ties. */
    method SiftPick(n: int, i: int) returns (largest: int)
      requires 0 <= i < n <= items.Length && !seenCancel
      modifies this`comparisons, items
      ensures largest == i || ((largest == 2 * i + 1 || largest == 2 * i + 2) && largest < n)
      ensures items[i].value <= items[largest].value
      ensures largest != i ==> items[i].value < items[largest].value
      ensures 2 * i + 1 < n ==> items[2 * i + 1].value <= items[largest].value
      ensures 2 * i + 2 < n ==> items[2 * i + 2].value <= items[largest].value
      ensures Values(items[..]) == Values(old(items[..]))
      ensures SameOutside(items[..], old(items[..]), i, n)
      ensures comparisons == old(comparisons) + (if 2 * i + 1 < n then 1 else 0)
                                             + (if 2 * i + 2 < n then 1 else 0)
    {
      largest := i;
      var left, right := 2 * i + 1, 2 * i + 2;
      Tag(i, Comparing);
      if left < n {
        Tag(left, Comparing);
        comparisons := comparisons + 1;
        if items[left].value > items[largest].value {
          largest := left;
        }
      }
      if right < n {
        Tag(right, Comparing);
        comparisons := comparisons + 1;
        if items[right].value > items[largest].value {
          largest := right;
        }
      }
    }

    /** `heapify(n, i)` (app.js:956-1007), sifting the value at `i` down the
        heap over `[0, n)`. With every slot of `[lo, n)` but `i` in heap
        order (and the parent of `i` above the children of `i`), a completed
        call leaves all of `[lo, n)` in heap order; on every outcome the
        array keeps its values and nothing outside `[i, n)` changes. */
    method Heapify(n: int, i: int, ghost lo: int, myToken: nat) returns (live: bool)
      requires 0 <= lo <= i < n <= items.Length && !seenCancel
      requires HeapExcept(Values(items[..]), lo, n, i) && ParentOk(Values(items[..]), lo, n, i)
      modifies this`comparisons, this`swaps, this`runToken, this`isPaused, this`isRunning,
               this`hostEvents, this`seenCancel, this`atCancel, items
      ensures runToken >= old(runToken)
      ensures live == !seenCancel
      ensures !live ==> items[..] == atCancel && (isPaused || runToken != myToken)
      ensures live ==> Heap(Values(items[..]), lo, n)
      ensures multiset(Values(items[..])) == multiset(Values(old(items[..])))
      ensures SameOutside(items[..], old(items[..]), i, n)
      ensures old(comparisons) <= comparisons && old(swaps) <= swaps
      ensures runToken + (if isPaused then 1 else 0) <= old(runToken) + (if old(isPaused) then 1 else 0) + (old(|hostEvents|) - |hostEvents|)
      decreases n - i
    {
      live := CheckRun(myToken);
      if live {
        var largest := SiftPick(n, i);
        Suspend();
        if largest != i {
          live := SiftDown(n, i, largest, lo, myToken);
        } else {
          SiftDone(Values(items[..]), lo, n, i);
          ResetFamily(n, i);
        }
      }
    }

    /** The tail of `heapify` when nothing moves (app.js:1003-1005): slot
        `i` and its children in `[0, n)` go back to default. */
    method ResetFamily(n: int, i: int)
      requires 0 <= i < n <= items.Length && !seenCancel
      modifies items
      ensures Values(items[..]) == Values(old(items[..]))
      ensures SameOutside(items[..], old(items[..]), i, n)
      ensures items[i].state == Default
      ensures 2 * i + 1 < n ==> items[2 * i + 1].state == Default
      ensures 2 * i + 2 < n ==> items[2 * i + 2].state == Default
    {
      Tag(i, Default);
      if 2 * i + 1 < n {
        Tag(2 * i + 1, Default);
      }
      if 2 * i + 2 < n {
        Tag(2 * i + 2, Default);
      }
    }

    /** The tail of `heapify` when the larger child `c` wins
        (app.js:985-1001): tag both swapping, suspend, exchange and count a
        swap, reset the tags, and sift on from `c`. */
    method SiftDown(n: int, i: int, c: int, ghost lo: int, myToken: nat) returns (live: bool)
      requires 0 <= lo <= i < n <= items.Length && !seenCancel
      requires (c == 2 * i + 1 || c == 2 * i + 2) && c < n
      requires HeapExcept(Values(items[..]), lo, n, i) && ParentOk(Values(items[..]), lo, n, i)
      requires items[i].value < items[c].value
      requires 2 * i + 1 < n ==> items[2 * i + 1].value <= items[c].value
      requires 2 * i + 2 < n ==> items[2 * i + 2].value <= items[c].value
      modifies this`comparisons, this`swaps, this`runToken, this`isPaused, this`isRunning,
               this`hostEvents, this`seenCancel, this`atCancel, items
      ensures runToken >= old(runToken)
      ensures live == !seenCancel
      ensures !live ==> items[..] == atCancel && (isPaused || runToken != myToken)
      ensures live ==> Heap(Values(items[..]), lo, n)
      ensures multiset(Values(items[..])) == multiset(Values(old(items[..])))
      ensures SameOutside(items[..], old(items[..]), i, n)
      ensures old(comparisons) <= comparisons && old(swaps) < swaps
      ensures runToken + (if isPaused then 1 else 0) <= old(runToken) + (if old(isPaused) then 1 else 0) + (old(|hostEvents|) - |hostEvents|)
      decreases n - i, 0
    {
      SiftSwap(Values(items[..]), lo, n, i, c);
      Promote(n, i, c);
      ghost var moved := items[..];
      live := Heapify(n, c, lo, myToken);
      SameOutsideCompose(items[..], moved, old(items[..]), c, n, i, n);
    }

    /** The exchange of `heapify` (app.js:985-999): tag `i` and its child
        `c` swapping, suspend, exchange them and count a swap, then put `i`,
        `c` and the other child back to default. */
    method Promote(n: int, i: int, c: int)
      requires 0 <= i < c < n <= items.Length && !seenCancel
      requires c == 2 * i + 1 || c == 2 * i + 2
      modifies this`swaps, this`runToken, this`isPaused, this`isRunning, this`hostEvents, items
      ensures runToken >= old(runToken)
      ensures Values(items[..]) == Values(old(items[..]))[i := old(items[c]).value][c := old(items[i]).value]
      ensures multiset(Values(items[..])) == multiset(Values(old(items[..])))
      ensures SameOutside(items[..], old(items[..]), i, n)
      ensures swaps == old(swaps) + 1
      ensures runToken + (if isPaused then 1 else 0) <= old(runToken) + (if old(isPaused) then 1 else 0) + (old(|hostEvents|) - |hostEvents|)
    {
      Tag(i, Swapping);
      Tag(c, Swapping);
      Suspend();
      Exchange(i, c);
      swaps := swaps + 1;
      ResetFamily(n, i);
    }

    /** The first loop of `heapSort` (app.js:927-929): `heapify(n, i)` for
        `i` from `n / 2 - 1` down to 0. Completed, the whole array is a
        max-heap. */
    method HeapBuild(myToken: nat) returns (live: bool)
      requires !seenCancel
      modifies this`comparisons, this`swaps, this`runToken, this`isPaused, this`isRunning,
               this`hostEvents, this`seenCancel, this`atCancel, items
      ensures runToken >= old(runToken)
      ensures live == !seenCancel
      ensures !live ==> items[..] == atCancel && (isPaused || runToken != myToken)
      ensures items.Length < 2 ==> live
      ensures live ==> Heap(Values(items[..]), 0, items.Length)
      ensures multiset(Values(items[..])) == multiset(Values(old(items[..])))
      ensures old(comparisons) <= comparisons && old(swaps) <= swaps
      ensures runToken + (if isPaused then 1 else 0) <= old(runToken) + (if old(isPaused) then 1 else 0) + (old(|hostEvents|) - |hostEvents|)
    {
      var n := items.Length;
      var i := n / 2 - 1;
      LeavesHeap(Values(items[..]), n / 2, n);
      live := true;
      while i >= 0 && live
        invariant -1 <= i < n / 2 && runToken >= old(runToken)
        invariant live == !seenCancel && (n < 2 ==> live)
        invariant !live ==> items[..] == atCancel && (isPaused || runToken != myToken)
        invariant live ==> Heap(Values(items[..]), i + 1, n)
        invariant multiset(Values(items[..])) == multiset(Values(old(items[..])))
        invariant old(comparisons) <= comparisons && old(swaps) <= swaps
        invariant runToken + (if isPaused then 1 else 0) <= old(runToken) + (if old(isPaused) then 1 else 0) + (old(|hostEvents|) - |hostEvents|)
      {
        live := Heapify(n, i, i, myToken);
        i := i - 1;
      }
    }

    /** One turn of the second loop of `heapSort` (app.js:931-950): check,
        tag the root and slot `i` swapping, suspend, exchange them and count
        a swap, tag `i` sorted and the root default, and sift the new root
        down the heap over `[0, i)`. Completed, the sorted tail has grown to
        `[i, n)`, every value before it is no larger than it, and the rest
        is a heap again. */
    method ExtractMax(i: int, myToken: nat) returns (live: bool)
      requires 0 < i < items.Length && !seenCancel
      requires Heap(Values(items[..]), 0, i + 1)
      requires AscendingOn(items[..], i + 1, items.Length) && SplitBelow(items[..], i + 1)
      modifies this`comparisons, this`swaps, this`runToken, this`isPaused, this`isRunning,
               this`hostEvents, this`seenCancel, this`atCancel, items
      ensures runToken >= old(runToken)
      ensures live == !seenCancel
      ensures !live ==> items[..] == atCancel && (isPaused || runToken != myToken)
      ensures live ==> Heap(Values(items[..]), 0, i)
      ensures live ==> AscendingOn(items[..], i, items.Length) && SplitBelow(items[..], i)
      ensures live ==> items[i].state == Sorted
      ensures multiset(Values(items[..])) == multiset(Values(old(items[..])))
      ensures SameOutside(items[..], old(items[..]), 0, i + 1)
      ensures old(comparisons) <= comparisons && old(swaps) <= swaps
      ensures runToken + (if isPaused then 1 else 0) <= old(runToken) + (if old(isPaused) then 1 else 0) + (old(|hostEvents|) - |hostEvents|)
    {
      live := CheckRun(myToken);
      if live {
        live := ExtractRest(i, myToken);
      }
    }

    /** One turn of the second loop of `heapSort` past its check
        (app.js:934-949). */
    method ExtractRest(i: int, myToken: nat) returns (live: bool)
      requires 0 < i < items.Length && !seenCancel
      requires Heap(Values(items[..]), 0, i + 1)
      requires AscendingOn(items[..], i + 1, items.Length) && SplitBelow(items[..], i + 1)
      modifies this`comparisons, this`swaps, this`runToken, this`isPaused, this`isRunning,
               this`hostEvents, this`seenCancel, this`atCancel, items
      ensures runToken >= old(runToken)
      ensures live == !seenCancel
      ensures !live ==> items[..] == atCancel && (isPaused || runToken != myToken)
      ensures live ==> Heap(Values(items[..]), 0, i)
      ensures live ==> AscendingOn(items[..], i, items.Length) && SplitBelow(items[..], i)
      ensures live ==> items[i].state == Sorted
      ensures multiset(Values(items[..])) == multiset(Values(old(items[..])))
      ensures SameOutside(items[..], old(items[..]), 0, i + 1)
      ensures old(comparisons) <= comparisons && old(swaps) <= swaps
      ensures runToken + (if isPaused then 1 else 0) <= old(runToken) + (if old(isPaused) then 1 else 0) + (old(|hostEvents|) - |hostEvents|)
    {
      ghost var before := items[..];
      SwapRoot(i);
      ghost var swapped := items[..];
      ExtractStep(before, swapped, i);
      live := Heapify(i, 0, 0, myToken);
      TailKept(items[..], swapped, i);
    }

    /** The exchange of the extraction loop (app.js:934-945). */
    method SwapRoot(i: int)
      requires 0 < i < items.Length && !seenCancel
      modifies this`swaps, this`runToken, this`isPaused, this`isRunning, this`hostEvents, items
      ensures runToken >= old(runToken)
      ensures Values(items[..]) == Values(old(items[..]))[0 := old(items[i]).value][i := old(items[0]).value]
      ensures multiset(Values(items[..])) == multiset(Values(old(items[..])))
      ensures SameOutside(items[..], old(items[..]), 0, i + 1)
      ensures items[i].state == Sorted
      ensures swaps == old(swaps) + 1
      ensures runToken + (if isPaused then 1 else 0) <= old(runToken) + (if old(isPaused) then 1 else 0) + (old(|hostEvents|) - |hostEvents|)
    {
      Tag(0, Swapping);
      Tag(i, Swapping);
      Suspend();
      Exchange(0, i);
      swaps := swaps + 1;
      Tag(i, Sorted);
      Tag(0, Default);
    }

    /** `heapSort` (app.js:924-953). Completed, the array is sorted, a
        permutation of what it held, and every slot is tagged sorted. On an
        empty array both loops are skipped and the final
        `this.array[0].state = 'sorted'` faults. */
    method HeapSort(myToken: nat) returns (outcome: Outcome)
      requires !seenCancel
      modifies this`comparisons, this`swaps, this`runToken, this`isPaused, this`isRunning,
               this`hostEvents, this`seenCancel, this`atCancel, items
      ensures runToken >= old(runToken)
      ensures seenCancel <==> outcome == Aborted
      ensures outcome == Faulted <==> items.Length == 0
      ensures outcome == Aborted ==> items[..] == atCancel && (isPaused || runToken != myToken)
      ensures multiset(Values(items[..])) == multiset(Values(old(items[..])))
      ensures outcome == Done ==> Ascending(items[..]) && AllTagged(items[..], Sorted)
      ensures old(comparisons) <= comparisons && old(swaps) <= swaps
      ensures runToken + (if isPaused then 1 else 0) <= old(runToken) + (if old(isPaused) then 1 else 0) + (old(|hostEvents|) - |hostEvents|)
    {
      var n := items.Length;
      var live := HeapBuild(myToken);
      if !live {
        return Aborted;
      }
      var i := n - 1;
      while i > 0
        invariant -1 <= i < n && (n > 0 ==> 0 <= i) && !seenCancel && runToken >= old(runToken)
        invariant Heap(Values(items[..]), 0, i + 1)
        invariant AscendingOn(items[..], i + 1, n) && SplitBelow(items[..], i + 1)
        invariant forall k :: i < k < n ==> items[k].state == Sorted
        invariant multiset(Values(items[..])) == multiset(Values(old(items[..])))
        invariant old(comparisons) <= comparisons && old(swaps) <= swaps
        invariant runToken + (if isPaused then 1 else 0) <= old(runToken) + (if old(isPaused) then 1 else 0) + (old(|hostEvents|) - |hostEvents|)
      {
        live := ExtractMax(i, myToken);
        if !live {
          return Aborted;
        }
        i := i - 1;
      }
      if n == 0 {
        return Faulted;
      }
      ExtractDone(items[..]);
      ghost var ordered := items[..];
      Tag(0, Sorted);
      AscendingByValues(ordered, items[..], 0, n);
      outcome := Done;
    }
      // ---------------------------------------------------------------------
    // Counting sort (app.js:1058-1101) and the passes of radix sort
    // (app.js:1018-1056): one bucket pass, keyed by value less the minimum
    // or by one decimal digit.

    /** The count loop (app.js:1068-1075, 1025-1030): every record is tagged
        comparing and counted under its key, one comparison each, with a
        suspension after each record when `suspendEach` (counting sort).
        Afterwards `count[d]` is the size of bucket `d` of `t`, the records
        with their tags cleared. */
    method Tally(k: Keying, count: array<int>, suspendEach: bool, ghost t: seq<Element>)
      requires !seenCancel && t == Plains(items[..]) && KeysIn(t, k, count.Length)
      requires forall d :: 0 <= d < count.Length ==> count[d] == 0
      modifies this`comparisons, this`runToken, this`isPaused, this`isRunning, this`hostEvents, items, count
      ensures runToken >= old(runToken)
      ensures forall j :: 0 <= j < items.Length ==> items[j] == old(items[j]).(state := Comparing)
      ensures Plains(items[..]) == t
      ensures Counted(count[..], t, k, |t|)
      ensures comparisons == old(comparisons) + items.Length
      ensures runToken + (if isPaused then 1 else 0) <= old(runToken) + (if old(isPaused) then 1 else 0) + (old(|hostEvents|) - |hostEvents|)
    {
      var i := 0;
      while i < items.Length
        invariant 0 <= i <= items.Length == |t| && runToken >= old(runToken)
        invariant forall j :: 0 <= j < i ==> items[j] == old(items[j]).(state := Comparing)
        invariant forall j :: i <= j < items.Length ==> items[j] == old(items[j])
        invariant Counted(count[..], t, k, i)
        invariant comparisons == old(comparisons) + i
        invariant runToken + (if isPaused then 1 else 0) <= old(runToken) + (if old(isPaused) then 1 else 0) + (old(|hostEvents|) - |hostEvents|)
      {
        TallyOne(k, count, i, t);
        ghost var s, c := items[..], count[..];
        if suspendEach {
          Suspend();
        }
        assert items[..] == s && count[..] == c;
        i := i + 1;
      }
      assert Plains(items[..]) == t;
    }

    /** One turn of the count loop: tag record `i` comparing, count it
        under its key and count a comparison. */
    method TallyOne(k: Keying, count: array<int>, i: int, ghost t: seq<Element>)
      requires !seenCancel && 0 <= i < items.Length == |t| && t[i] == Plain(items[i])
      requires KeysIn(t, k, count.Length) && Counted(count[..], t, k, i)
      modifies this`comparisons, items, count
      ensures items[i] == old(items[i]).(state := Comparing)
      ensures forall j :: 0 <= j < items.Length && j != i ==> items[j] == old(items[j])
      ensures Counted(count[..], t, k, i + 1)
      ensures comparisons == old(comparisons) + 1
    {
      Tag(i, Comparing);
      var d := KeyOf(items[i].value, k);
      CountStep(count[..], t, k, i);
      count[d] := count[d] + 1;
      comparisons := comparisons + 1;
    }

    /** The placement loop (app.js:1081-1093, 1038-1048): from the last
        record to the first, check, then put the record, tagged swapping,
        into `out` one slot below the count of its key, lower that count and
        count a swap, with a suspension after each record when
        `suspendEach`. Completed, it leaves the stack of `t`, tagged
        swapping, in `out`; the array itself is only read. */
    method Place(k: Keying, out: array<Element>, count: array<int>, suspendEach: bool, myToken: nat,
                 ghost goal: seq<Element>, ghost starts: seq<int>, ghost t: seq<Element>)
      returns (live: bool)
      requires !seenCancel && out != items && t == Plains(items[..]) && KeysIn(t, k, count.Length)
      requires Layout(goal, starts, t, k, count.Length)
      requires Placed(out[..], count[..], goal, starts, t, k, count.Length, |t|)
      modifies this`swaps, this`runToken, this`isPaused, this`isRunning, this`hostEvents,
               this`seenCancel, this`atCancel, out, count
      ensures runToken >= old(runToken)
      ensures live == !seenCancel
      ensures !live ==> items[..] == atCancel && (isPaused || runToken != myToken)
      ensures live ==> forall p :: 0 <= p < out.Length ==> out[p] == goal[p].(state := Swapping)
      ensures live ==> swaps == old(swaps) + items.Length
      ensures old(swaps) <= swaps
      ensures runToken + (if isPaused then 1 else 0) <= old(runToken) + (if old(isPaused) then 1 else 0) + (old(|hostEvents|) - |hostEvents|)
    {
      var i := items.Length;
      while i > 0
        invariant 0 <= i <= items.Length && !seenCancel && runToken >= old(runToken)
        invariant Placed(out[..], count[..], goal, starts, t, k, count.Length, i)
        invariant swaps == old(swaps) + (items.Length - i)
        invariant runToken + (if isPaused then 1 else 0) <= old(runToken) + (if old(isPaused) then 1 else 0) + (old(|hostEvents|) - |hostEvents|)
      {
        live := CheckRun(myToken);
        if !live {
          return;
        }
        PlaceOne(k, out, count, i, goal, starts, t);
        ghost var o, c := out[..], count[..];
        swaps := swaps + 1;
        if suspendEach {
          Suspend();
        }
        assert out[..] == o && count[..] == c;
        i := i - 1;
      }
      PlaceDone(out[..], count[..], goal, starts, t, k, count.Length);
      live := true;
    }

    /** One turn of the placement loop past its check: the record at
        `i - 1` goes, tagged swapping, one slot below the count of its key,
        and that count drops by one. */
    method PlaceOne(k: Keying, out: array<Element>, count: array<int>, i: int,
                    ghost goal: seq<Element>, ghost starts: seq<int>, ghost t: seq<Element>)
      requires out != items && t == Plains(items[..]) && KeysIn(t, k, count.Length) && 0 < i
      requires Layout(goal, starts, t, k, count.Length)
      requires Placed(out[..], count[..], goal, starts, t, k, count.Length, i)
      modifies out, count
      ensures Placed(out[..], count[..], goal, starts, t, k, count.Length, i - 1)
    {
      var d := KeyOf(items[i - 1].value, k);
      ghost var o, c := out[..], count[..];
      PlaceStep(o, c, goal, starts, t, k, count.Length, i);
      var e := items[i - 1].(state := Swapping);
      assert e == t[i - 1].(state := Swapping);
      out[count[d] - 1] := e;
      assert out[..] == o[c[d] - 1 := e];
      count[d] := count[d] - 1;
      assert count[..] == c[d := c[d] - 1];
    }

    /** The copy loop (app.js:1095-1098, 1050-1053): every slot takes the
        record of `out` and then the default tag. */
    method CopyBack(out: array<Element>)
      requires !seenCancel && out != items && out.Length == items.Length
      modifies items
      ensures forall p :: 0 <= p < items.Length ==> items[p] == out[p].(state := Default)
    {
      for p := 0 to items.Length
        invariant forall q :: 0 <= q < p ==> items[q] == out[q].(state := Default)
      {
        Put(p, out[p]);
        Tag(p, Default);
      }
    }

    /** One bucket pass over the `r` keys of `k`: count, take prefix sums,
        place back to front into a fresh array, copy back, suspend. Counting
        sort suspends after every record of the count and placement loops
        (`suspendEach`); a radix pass once after the count loop. A pass that
        completes leaves the stack of the records, tags cleared: the records
        bucket by bucket in key order, each bucket in the original order. */
    method BucketPass(k: Keying, r: int, suspendEach: bool, myToken: nat) returns (live: bool)
      requires !seenCancel && 1 <= r && KeysIn(Plains(items[..]), k, r)
      modifies this`comparisons, this`swaps, this`runToken, this`isPaused, this`isRunning,
               this`hostEvents, this`seenCancel, this`atCancel, items
      ensures runToken >= old(runToken)
      ensures live == !seenCancel
      ensures !live ==> items[..] == atCancel && (isPaused || runToken != myToken)
      ensures !live ==> Values(items[..]) == Values(old(items[..]))
      ensures live ==> items[..] == Stack(Plains(old(items[..])), k, r)
      ensures comparisons == old(comparisons) + items.Length
      ensures live ==> swaps == old(swaps) + items.Length
      ensures old(swaps) <= swaps
      ensures runToken + (if isPaused then 1 else 0) <= old(runToken) + (if old(isPaused) then 1 else 0) + (old(|hostEvents|) - |hostEvents|)
    {
      ghost var t := Plains(items[..]);
      var count := new int[r](_ => 0);
      var out := new Element[items.Length];
      Tally(k, count, suspendEach, t);
      if !suspendEach {
        Suspend();
      }
      PlainsKeep(items[..], 0);
      PlainsKeep(old(items[..]), 0);
      live := Distribute(k, count, out, suspendEach, myToken, t);
    }

    /** The rest of a bucket pass once the counts are taken: prefix sums,
        placement, copy back and the closing suspension. */
    method Distribute(k: Keying, count: array<int>, out: array<Element>, suspendEach: bool, myToken: nat,
                      ghost t: seq<Element>)
      returns (live: bool)
      requires !seenCancel && out != items && out.Length == items.Length && 1 <= count.Length
      requires t == Plains(items[..]) && KeysIn(t, k, count.Length) && Counted(count[..], t, k, |t|)
      modifies this`swaps, this`runToken, this`isPaused, this`isRunning, this`hostEvents,
               this`seenCancel, this`atCancel, items, out, count
      ensures runToken >= old(runToken)
      ensures live == !seenCancel
      ensures !live ==> items[..] == old(items[..]) == atCancel && (isPaused || runToken != myToken)
      ensures live ==> items[..] == Stack(t, k, count.Length)
      ensures live ==> swaps == old(swaps) + items.Length
      ensures old(swaps) <= swaps
      ensures runToken + (if isPaused then 1 else 0) <= old(runToken) + (if old(isPaused) then 1 else 0) + (old(|hostEvents|) - |hostEvents|)
    {
      ghost var goal, starts := Accumulate(k, count, out, t);
      live := Place(k, out, count, suspendEach, myToken, goal, starts, t);
      if !live {
        return;
      }
      CopyBack(out);
      StackPlain(t, k, count.Length);
      CopiedStack(items[..], out[..], goal);
      Suspend();
    }

    /** The prefix sums, after which each count is the end of its bucket in
        the stack of `t`: the placement loop is ready to start. */
    method Accumulate(k: Keying, count: array<int>, out: array<Element>, ghost t: seq<Element>)
      returns (ghost goal: seq<Element>, ghost starts: seq<int>)
      requires out.Length == |t| && 1 <= count.Length
      requires KeysIn(t, k, count.Length) && Counted(count[..], t, k, |t|)
      modifies count
      ensures goal == Stack(t, k, count.Length) && Layout(goal, starts, t, k, count.Length)
      ensures Placed(out[..], count[..], goal, starts, t, k, count.Length, |t|)
    {
      ghost var r := count.Length;
      goal, starts := Stack(t, k, r), Starts(t, k, r);
      StackLayout(t, k, r);
      ghost var sizes := count[..];
      PrefixSums(count);
      PrefixStarts(count[..], sizes, goal, starts, t, k, r);
      PlaceStart(out[..], count[..], goal, starts, t, k, r);
    }
      /** `countingSort` (app.js:1058-1101): check, then one bucket pass keyed
        by value less the minimum, over `max - min + 1` keys. An empty array
        faults once past the check (`new Array(-Infinity)` throws a
        RangeError). Completed, the array is sorted, holds the values it
        held, is untagged, and keeps the records of every value in their
        order (the sort is stable); every record costs one comparison and
        one swap. */
    method CountingSort(myToken: nat) returns (outcome: Outcome)
      requires !seenCancel
      modifies this`comparisons, this`swaps, this`runToken, this`isPaused, this`isRunning,
               this`hostEvents, this`seenCancel, this`atCancel, items
      ensures runToken >= old(runToken)
      ensures seenCancel <==> outcome == Aborted
      ensures outcome == Faulted ==> items.Length == 0
      ensures items.Length == 0 ==> outcome != Done
      ensures outcome == Aborted ==> items[..] == atCancel && (isPaused || runToken != myToken)
      ensures multiset(Values(items[..])) == multiset(Values(old(items[..])))
      ensures outcome == Done ==> Ascending(items[..]) && AllTagged(items[..], Default)
      ensures outcome == Done ==> forall v :: Keyed(items[..], v) == Keyed(old(items[..]), v)
      ensures outcome == Done ==> comparisons == old(comparisons) + items.Length
      ensures outcome == Done ==> swaps == old(swaps) + items.Length
      ensures old(comparisons) <= comparisons && old(swaps) <= swaps
      ensures runToken + (if isPaused then 1 else 0) <= old(runToken) + (if old(isPaused) then 1 else 0) + (old(|hostEvents|) - |hostEvents|)
    {
      var live := CheckRun(myToken);
      if !live {
        return Aborted;
      }
      if items.Length == 0 {
        return Faulted;
      }
      live := SortByValue(myToken);
      outcome := if live then Done else Aborted;
    }

    /** Counting sort past its check, on a non-empty array. */
    method SortByValue(myToken: nat) returns (live: bool)
      requires !seenCancel && items.Length > 0
      modifies this`comparisons, this`swaps, this`runToken, this`isPaused, this`isRunning,
               this`hostEvents, this`seenCancel, this`atCancel, items
      ensures runToken >= old(runToken)
      ensures live == !seenCancel
      ensures !live ==> items[..] == atCancel && (isPaused || runToken != myToken)
      ensures multiset(Values(items[..])) == multiset(Values(old(items[..])))
      ensures live ==> Ascending(items[..]) && AllTagged(items[..], Default)
      ensures live ==> forall v :: Keyed(items[..], v) == Keyed(old(items[..]), v)
      ensures comparisons == old(comparisons) + items.Length
      ensures live ==> swaps == old(swaps) + items.Length
      ensures old(swaps) <= swaps
      ensures runToken + (if isPaused then 1 else 0) <= old(runToken) + (if old(isPaused) then 1 else 0) + (old(|hostEvents|) - |hostEvents|)
    {
      var max := MaxOf(Values(items[..]));
      var min := MinOf(Values(items[..]));
      ValueKeys(items[..]);
      live := SortByKey(min, max - min + 1, myToken);
    }

    /** The bucket pass of counting sort, keyed by value less `min`, over
        `r` keys. */
    method SortByKey(min: int, r: int, myToken: nat) returns (live: bool)
      requires !seenCancel && 1 <= r && KeysIn(Plains(items[..]), ByValue(min), r)
      modifies this`comparisons, this`swaps, this`runToken, this`isPaused, this`isRunning,
               this`hostEvents, this`seenCancel, this`atCancel, items
      ensures runToken >= old(runToken)
      ensures live == !seenCancel
      ensures !live ==> items[..] == atCancel && (isPaused || runToken != myToken)
      ensures multiset(Values(items[..])) == multiset(Values(old(items[..])))
      ensures live ==> Ascending(items[..]) && AllTagged(items[..], Default)
      ensures live ==> forall v :: Keyed(items[..], v) == Keyed(old(items[..]), v)
      ensures comparisons == old(comparisons) + items.Length
      ensures live ==> swaps == old(swaps) + items.Length
      ensures old(swaps) <= swaps
      ensures runToken + (if isPaused then 1 else 0) <= old(runToken) + (if old(isPaused) then 1 else 0) + (old(|hostEvents|) - |hostEvents|)
    {
      ghost var before := items[..];
      live := BucketPass(ByValue(min), r, true, myToken);
      if live {
        CountingResult(before, items[..], min, r);
      }
    }

    /** `countingSortForRadix` (app.js:1018-1056): check, then one bucket
        pass keyed by the decimal digit of weight `exp`. */
    method DigitPass(exp: Positive, myToken: nat) returns (live: bool)
      requires !seenCancel
      modifies this`comparisons, this`swaps, this`runToken, this`isPaused, this`isRunning,
               this`hostEvents, this`seenCancel, this`atCancel, items
      ensures runToken >= old(runToken)
      ensures live == !seenCancel
      ensures !live ==> items[..] == atCancel && (isPaused || runToken != myToken)
      ensures !live ==> Values(items[..]) == Values(old(items[..]))
      ensures live ==> items[..] == Stack(Plains(old(items[..])), ByDigit(exp), 10)
      ensures live ==> comparisons == old(comparisons) + items.Length
      ensures live ==> swaps == old(swaps) + items.Length
      ensures old(comparisons) <= comparisons && old(swaps) <= swaps
      ensures runToken + (if isPaused then 1 else 0) <= old(runToken) + (if old(isPaused) then 1 else 0) + (old(|hostEvents|) - |hostEvents|)
    {
      live := CheckRun(myToken);
      if !live {
        return;
      }
      DigitKeys(Plains(items[..]), exp);
      live := BucketPass(ByDigit(exp), 10, false, myToken);
    }

    /** One turn of the loop of `radixSort` (app.js:1012-1015): a digit pass
        on values sorted on their digits below `exp` sorts them on their
        digits up to weight `exp`, keeping their values and every value's
        records in order. */
    method RadixRound(exp: Positive, myToken: nat) returns (live: bool)
      requires !seenCancel && AtLeast(items[..], 0) && LowSorted(items[..], exp)
      modifies this`comparisons, this`swaps, this`runToken, this`isPaused, this`isRunning,
               this`hostEvents, this`seenCancel, this`atCancel, items
      ensures runToken >= old(runToken)
      ensures live == !seenCancel
      ensures !live ==> items[..] == atCancel && (isPaused || runToken != myToken)
      ensures multiset(Values(items[..])) == multiset(Values(old(items[..])))
      ensures live ==> LowSorted(items[..], 10 * exp)
      ensures live ==> forall v :: Keyed(items[..], v) == Keyed(old(items[..]), v)
      ensures live ==> comparisons == old(comparisons) + items.Length
      ensures live ==> swaps == old(swaps) + items.Length
      ensures old(comparisons) <= comparisons && old(swaps) <= swaps
      ensures runToken + (if isPaused then 1 else 0) <= old(runToken) + (if old(isPaused) then 1 else 0) + (old(|hostEvents|) - |hostEvents|)
    {
      ghost var before := items[..];
      live := DigitPass(exp, myToken);
      if live {
        RadixResult(before, items[..], exp);
      }
    }

    /** `radixSort` (app.js:1009-1016): digit passes of weight 1, 10, 100,
        ... while the maximum has a digit of that weight; on an empty array
        the maximum is -Infinity and no pass runs. Values must not be
        negative (see the README). Completed, the array is sorted, holds the
        values it held, and keeps every value's records in their order; each
        pass costs one comparison and one swap per record, and there is one
        pass per decimal digit of the maximum. */
    method RadixSort(myToken: nat) returns (outcome: Outcome)
      requires !seenCancel && AtLeast(items[..], 0)
      modifies this`comparisons, this`swaps, this`runToken, this`isPaused, this`isRunning,
               this`hostEvents, this`seenCancel, this`atCancel, items
      ensures runToken >= old(runToken)
      ensures seenCancel <==> outcome == Aborted
      ensures outcome != Faulted
      ensures outcome == Aborted ==> items[..] == atCancel && (isPaused || runToken != myToken)
      ensures multiset(Values(items[..])) == multiset(Values(old(items[..])))
      ensures outcome == Done ==> Ascending(items[..])
      ensures outcome == Done ==> forall v :: Keyed(items[..], v) == Keyed(old(items[..]), v)
      ensures outcome == Done && items.Length > 0 ==>
        var passes := Digits(MaxOf(Values(old(items[..]))));
        comparisons == old(comparisons) + passes * items.Length && swaps == old(swaps) + passes * items.Length
      ensures old(comparisons) <= comparisons && old(swaps) <= swaps
      ensures runToken + (if isPaused then 1 else 0) <= old(runToken) + (if old(isPaused) then 1 else 0) + (old(|hostEvents|) - |hostEvents|)
    {
      var n := items.Length;
      if n == 0 {
        return Done;
      }
      var max := MaxOf(Values(items[..]));
      BoundsPointwise(items[..], 0);
      var live, exp := RadixPasses(max, myToken);
      if !live {
        return Aborted;
      }
      ValuesBelow(old(items[..]), items[..], max, exp);
      RoundsProduct(Digits(max), n);
      LowSortedDone(items[..], exp);
      outcome := Done;
    }

    /** The loop of `radixSort` (app.js:1012-1015): a digit pass of weight
        `exp` for `exp` = 1, 10, 100, ... while `max / exp` is positive.
        Completed, the array is sorted on its digits below the final `exp`,
        which exceeds `max`; there was one pass per decimal digit of
        `max`. */
    method RadixPasses(max: int, myToken: nat) returns (live: bool, exp: Positive)
      requires !seenCancel && AtLeast(items[..], 0) && 0 <= max
      modifies this`comparisons, this`swaps, this`runToken, this`isPaused, this`isRunning,
               this`hostEvents, this`seenCancel, this`atCancel, items
      ensures runToken >= old(runToken)
      ensures live == !seenCancel
      ensures !live ==> items[..] == atCancel && (isPaused || runToken != myToken)
      ensures multiset(Values(items[..])) == multiset(Values(old(items[..])))
      ensures live ==> forall v :: Keyed(items[..], v) == Keyed(old(items[..]), v)
      ensures live ==> LowSorted(items[..], exp) && max < exp
      ensures live ==> comparisons == old(comparisons) + Rounds(Digits(max), items.Length)
      ensures live ==> swaps == old(swaps) + Rounds(Digits(max), items.Length)
      ensures old(comparisons) <= comparisons && old(swaps) <= swaps
      ensures runToken + (if isPaused then 1 else 0) <= old(runToken) + (if old(isPaused) then 1 else 0) + (old(|hostEvents|) - |hostEvents|)
    {
      var n := items.Length;
      exp := 1;
      ghost var passes := 0;
      LowSortedStart(items[..]);
      while max / exp > 0
        invariant !seenCancel && runToken >= old(runToken)
        invariant multiset(Values(items[..])) == multiset(Values(old(items[..])))
        invariant forall v :: Keyed(items[..], v) == Keyed(old(items[..]), v)
        invariant LowSorted(items[..], exp)
        invariant Digits(max / exp) + passes == Digits(max)
        invariant comparisons == old(comparisons) + Rounds(passes, n) && swaps == old(swaps) + Rounds(passes, n)
        invariant old(comparisons) <= comparisons && old(swaps) <= swaps
        invariant runToken + (if isPaused then 1 else 0) <= old(runToken) + (if old(isPaused) then 1 else 0) + (old(|hostEvents|) - |hostEvents|)
        decreases max - exp
      {
        live := RadixRound(exp, myToken);
        if !live {
          return;
        }
        DigitsStep(max, exp);
        exp, passes := 10 * exp, passes + 1;
      }
      DigitsDone(max, exp);
      live := true;
    }

    // ---------------------------------------------------------------------
    // Filling the array, and the run as the page starts it

    /** `resetMetrics` (app.js:563-569): both counters back to zero. */
    method ResetMetrics()
      modifies this`comparisons, this`swaps
      ensures comparisons == 0 && swaps == 0
    {
      comparisons, swaps := 0, 0;
    }

    /** `generateArray` (app.js:522-536): a fresh array of `arraySize`
        records, record `i` holding `draws[i] + 10` — `draws[i]` stands for
        `Math.floor(Math.random() * 300)` — tagged default and numbered `i`;
        then the counters are reset. Every value lies in [10, 309]. */
    method GenerateArray(draws: seq<int>)
      requires |draws| == arraySize && forall i :: 0 <= i < |draws| ==> 0 <= draws[i] < 300
      modifies this`items, this`comparisons, this`swaps
      ensures fresh(items) && items.Length == arraySize
      ensures forall i :: 0 <= i < items.Length ==> items[i] == Element(draws[i] + 10, Default, i)
      ensures AtLeast(items[..], 10) && Below(items[..], 310) && AllPositive(items[..])
      ensures comparisons == 0 && swaps == 0
    {
      var a := new Element[arraySize];
      for i := 0 to arraySize
        invariant forall k :: 0 <= k < i ==> a[k] == Element(draws[k] + 10, Default, k)
      {
        a[i] := Element(draws[i] + 10, Default, i);
      }
      BoundsPointwise(a[..], 10);
      BoundsPointwise(a[..], 310);
      BoundsPointwise(a[..], 1);
      items := a;
      ResetMetrics();
    }

    /** `setCustomArray` (app.js:538-561) on the text `input`: when the text
        yields values (see `CustomInput.ParseCustom`), they are installed;
        blank text, or text with no positive integer in it, changes
        nothing. */
    method SetCustomArray(input: string)
      modifies this`items, this`arraySize, this`comparisons, this`swaps
      ensures CustomInput.ParseCustom(input).None? ==>
                items == old(items) && arraySize == old(arraySize) &&
                comparisons == old(comparisons) && swaps == old(swaps)
      ensures CustomInput.ParseCustom(input).Some? ==>
                var vs := CustomInput.ParseCustom(input).value;
                fresh(items) && items.Length == arraySize == |vs| &&
                (forall i :: 0 <= i < |vs| ==> items[i] == Element(vs[i], Default, i)) &&
                comparisons == 0 && swaps == 0
      ensures CustomInput.ParseCustom(input).Some? ==>
                items.Length >= 1 && AtLeast(items[..], 1) && Below(items[..], CustomInput.MaxValue + 1) && AllPositive(items[..])
    {
      CustomInput.CustomBounds(input);
      InstallParsed(CustomInput.ParseCustom(input));
    }

    /** What `setCustomArray` does with what the text yielded
        (app.js:544-556): nothing, or a fresh array holding the values in
        order, tagged default and numbered by position, with the array size
        following its length and the counters reset. */
    method InstallParsed(parsed: JsText.Option<seq<int>>)
      requires parsed.Some? ==> forall i :: 0 <= i < |parsed.value| ==> 1 <= parsed.value[i] <= CustomInput.MaxValue
      modifies this`items, this`arraySize, this`comparisons, this`swaps
      ensures parsed.None? ==>
                items == old(items) && arraySize == old(arraySize) &&
                comparisons == old(comparisons) && swaps == old(swaps)
      ensures parsed.Some? ==>
                fresh(items) && items.Length == arraySize == |parsed.value| &&
                (forall i :: 0 <= i < |parsed.value| ==> items[i] == Element(parsed.value[i], Default, i)) &&
                comparisons == 0 && swaps == 0
      ensures parsed.Some? ==> AtLeast(items[..], 1) && Below(items[..], CustomInput.MaxValue + 1) && AllPositive(items[..])
    {
      if parsed.None? {
        return;
      }
      var vs := parsed.value;
      var a := new Element[|vs|];
      for i := 0 to |vs|
        invariant forall k :: 0 <= k < i ==> a[k] == Element(vs[k], Default, k)
      {
        a[i] := Element(vs[i], Default, i);
      }
      BoundsPointwise(a[..], 1);
      BoundsPointwise(a[..], CustomInput.MaxValue + 1);
      items := a;
      arraySize := |vs|;
      ResetMetrics();
    }

    /** `resetVisualization` (app.js:629-647): the token advances, which
        invalidates any run in flight, pause and running are cleared, and a
        fresh array is generated from `draws`. */
    method ResetVisualization(draws: seq<int>)
      requires |draws| == arraySize && forall i :: 0 <= i < |draws| ==> 0 <= draws[i] < 300
      modifies this`runToken, this`isRunning, this`isPaused, this`items, this`comparisons, this`swaps
      ensures runToken == old(runToken) + 1 && !isPaused && !isRunning
      ensures fresh(items) && items.Length == arraySize
      ensures forall i :: 0 <= i < items.Length ==> items[i] == Element(draws[i] + 10, Default, i)
      ensures AllPositive(items[..])
      ensures comparisons == 0 && swaps == 0
    {
      CancelRun();
      GenerateArray(draws);
    }

    /** `changeAlgorithm` (app.js:463-471), pressed with `direction` -1 or 1:
        ignored while a run is active; otherwise the slider moves one step
        around the catalogue, the matching algorithm is selected and the
        visualisation is reset with `draws`. */
    method ChangeAlgorithm(direction: int, draws: seq<int>)
      requires Valid() && (direction == 1 || direction == -1)
      requires |draws| == arraySize && forall i :: 0 <= i < |draws| ==> 0 <= draws[i] < 300
      modifies this`algorithmIndex, this`algorithm, this`runToken, this`isRunning, this`isPaused,
               this`items, this`comparisons, this`swaps
      ensures Valid()
      ensures old(isRunning) ==>
                algorithmIndex == old(algorithmIndex) && algorithm == old(algorithm) && items == old(items) &&
                runToken == old(runToken) && isPaused == old(isPaused) && isRunning == old(isRunning) &&
                comparisons == old(comparisons) && swaps == old(swaps)
      ensures !old(isRunning) ==>
                algorithmIndex == Controls.WrapIndex(old(algorithmIndex), direction, |Controls.Catalogue|) &&
                algorithm == Controls.Catalogue[algorithmIndex] &&
                runToken == old(runToken) + 1 && !isRunning && !isPaused &&
                fresh(items) && items.Length == |draws| &&
                (forall i :: 0 <= i < |draws| ==> items[i] == Element(draws[i] + 10, Default, i)) &&
                comparisons == 0 && swaps == 0
    {
      if isRunning {
        return;
      }
      Controls.WrapIndexStep(algorithmIndex, direction, |Controls.Catalogue|);
      algorithmIndex := Controls.WrapIndex(algorithmIndex, direction, |Controls.Catalogue|);
      algorithm := Controls.Catalogue[algorithmIndex];
      ResetVisualization(draws);
    }

    /** `markAllSorted` (app.js:1103-1117): slot by slot, while the token is
        still the run's, tag the slot sorted, suspending after every slot
        whose index is a multiple of three. A stale token ends the pass
        quietly; pause is not looked at. Only tags change. */
    method MarkAllSorted(myToken: nat) returns (live: bool)
      requires !seenCancel
      modifies this`runToken, this`isPaused, this`isRunning, this`hostEvents, this`seenCancel, this`atCancel, items
      ensures runToken >= old(runToken)
      ensures Values(items[..]) == Values(old(items[..]))
      ensures live == !seenCancel
      ensures live ==> AllTagged(items[..], Sorted)
      ensures !live ==> runToken != myToken && items[..] == atCancel
      ensures runToken + (if isPaused then 1 else 0) <= old(runToken) + (if old(isPaused) then 1 else 0) + (old(|hostEvents|) - |hostEvents|)
    {
      live := true;
      for i := 0 to items.Length
        invariant live && !seenCancel && runToken >= old(runToken)
        invariant Values(items[..]) == Values(old(items[..]))
        invariant forall k :: 0 <= k < i ==> items[k].state == Sorted
        invariant runToken + (if isPaused then 1 else 0) <= old(runToken) + (if old(isPaused) then 1 else 0) + (old(|hostEvents|) - |hostEvents|)
      {
        live := CheckToken(myToken);
        if !live {
          return;
        }
        Tag(i, Sorted);
        if i % 3 == 0 {
          Suspend();
        }
      }
    }

    /** The table of `runAlgorithm` (app.js:650-663): the sort `alg` names,
        merge and quick sort over the whole array. Whatever the sort, a
        normal return leaves the array sorted and a permutation of what it
        held; only heap and counting sort fault, and only on an empty
        array. */
    method Dispatch(alg: Controls.Algorithm, myToken: nat) returns (outcome: Outcome)
      requires !seenCancel && AllPositive(items[..])
      modifies this`comparisons, this`swaps, this`runToken, this`isPaused, this`isRunning,
               this`hostEvents, this`seenCancel, this`atCancel, items
      ensures runToken >= old(runToken)
      ensures seenCancel <==> outcome == Aborted
      ensures outcome == Aborted ==> items[..] == atCancel && (isPaused || runToken != myToken)
      ensures outcome == Faulted ==> items.Length == 0 && (alg == Controls.Heap || alg == Controls.Counting)
      ensures items.Length == 0 && (alg == Controls.Heap || alg == Controls.Counting) ==> outcome != Done
      ensures outcome == Done ==> Ascending(items[..]) && multiset(Values(items[..])) == multiset(Values(old(items[..])))
      ensures AllPositive(items[..])
      ensures runToken + (if isPaused then 1 else 0) <= old(runToken) + (if old(isPaused) then 1 else 0) + (old(|hostEvents|) - |hostEvents|)
    {
      match alg
      case Bubble => outcome := BubbleSort(myToken);
      case Selection => outcome := SelectionSort(myToken);
      case Insertion => outcome := InsertionSort(myToken);
      case Merge => outcome := MergeSortAll(myToken);
      case Quick => outcome := QuickSortAll(myToken);
      case Heap => outcome := HeapSort(myToken);
      case Radix =>
        BoundsPointwise(items[..], 1);
        BoundsPointwise(items[..], 0);
        outcome := RadixSort(myToken);
      case Counting => outcome := CountingSort(myToken);
    }

    /** `runAlgorithm` (app.js:649-668): the sort, and, when it returned
        normally and the token is still the run's, the final pass that tags
        every slot sorted. A run whose token was current throughout and whose
        sort returned normally ends sorted, permuted and tagged sorted. */
    method RunAlgorithm(alg: Controls.Algorithm, myToken: nat) returns (outcome: Outcome)
      requires !seenCancel && AllPositive(items[..])
      modifies this`comparisons, this`swaps, this`runToken, this`isPaused, this`isRunning,
               this`hostEvents, this`seenCancel, this`atCancel, items
      ensures runToken >= old(runToken)
      ensures outcome == Aborted ==> isPaused || runToken != myToken
      ensures outcome == Faulted ==> items.Length == 0 && (alg == Controls.Heap || alg == Controls.Counting)
      ensures items.Length == 0 && (alg == Controls.Heap || alg == Controls.Counting) ==> outcome != Done
      ensures outcome == Done ==> Ascending(items[..]) && multiset(Values(items[..])) == multiset(Values(old(items[..])))
      ensures outcome == Done && old(runToken) == myToken == runToken ==> AllTagged(items[..], Sorted)
      ensures AllPositive(items[..])
      ensures runToken + (if isPaused then 1 else 0) <= old(runToken) + (if old(isPaused) then 1 else 0) + (old(|hostEvents|) - |hostEvents|)
    {
      outcome := Dispatch(alg, myToken);
      if outcome == Done && runToken == myToken {
        ghost var s := items[..];
        var _ := MarkAllSorted(myToken);
        AscendingByValues(s, items[..], 0, items.Length);
      }
    }

    /** `startSorting` (app.js:588-616): ignored while a run is active;
        otherwise a fresh token, the selected algorithm run with it (a
        cancellation or fault it throws is swallowed), and the running flag
        cleared if the token is still this run's. With no host action during
        the run, the run is never cancelled: it ends sorted and tagged
        sorted unless heap or counting sort faults on an empty array. */
    method StartSorting() returns (started: bool, outcome: Outcome)
      requires Valid()
      modifies this`comparisons, this`swaps, this`runToken, this`isPaused, this`isRunning,
               this`hostEvents, this`seenCancel, this`atCancel, items
      ensures Valid()
      ensures started == !old(isRunning)
      ensures !started ==>
                items[..] == old(items[..]) && runToken == old(runToken) && isRunning &&
                isPaused == old(isPaused) && hostEvents == old(hostEvents) &&
                comparisons == old(comparisons) && swaps == old(swaps)
      ensures started ==> runToken > old(runToken)
      ensures started && runToken == old(runToken) + 1 ==> !isRunning
      ensures started && outcome == Aborted ==> isPaused || runToken != old(runToken) + 1
      ensures started && outcome == Done ==>
                Ascending(items[..]) && multiset(Values(items[..])) == multiset(Values(old(items[..])))
      ensures started && outcome == Done && runToken == old(runToken) + 1 ==> AllTagged(items[..], Sorted)
      ensures started && old(hostEvents) == [] ==>
                runToken == old(runToken) + 1 && !isPaused && !isRunning &&
                outcome != Aborted &&
                (outcome == Done <==> !(items.Length == 0 && (algorithm == Controls.Heap || algorithm == Controls.Counting)))
    {
      var myToken;
      started, myToken := BeginRun();
      if !started {
        outcome := Aborted;
        return;
      }
      outcome := RunStarted(myToken);
    }

    /** `startSorting` once the run holds the token `myToken` (app.js:599-615):
        the selected algorithm run, then the running flag cleared if the
        token is still this run's. */
    method RunStarted(myToken: nat) returns (outcome: Outcome)
      requires Valid() && runToken == myToken && !isPaused
      modifies this`comparisons, this`swaps, this`runToken, this`isPaused, this`isRunning,
               this`hostEvents, this`seenCancel, this`atCancel, items
      ensures Valid()
      ensures runToken >= myToken
      ensures runToken == myToken ==> !isRunning
      ensures outcome == Aborted ==> isPaused || runToken != myToken
      ensures outcome == Done ==>
                Ascending(items[..]) && multiset(Values(items[..])) == multiset(Values(old(items[..])))
      ensures outcome == Done && runToken == myToken ==> AllTagged(items[..], Sorted)
      ensures old(hostEvents) == [] ==>
                runToken == myToken && !isPaused && !isRunning && outcome != Aborted &&
                (outcome == Done <==> !(items.Length == 0 && (algorithm == Controls.Heap || algorithm == Controls.Counting)))
    {
      seenCancel := false;
      outcome := RunAlgorithm(algorithm, myToken);
      if runToken == myToken {
        isRunning := false;
      }
    }
  }

  /** The prefix sums of app.js:1077-1079 and 1034-1036: each count becomes
      the sum of itself and all counts before it. */
  method PrefixSums(count: array<int>)
    requires 1 <= count.Length
    modifies count
    ensures forall d :: 0 <= d < count.Length ==> count[d] == Sum(old(count[..])[..d + 1])
  {
    ghost var c := count[..];
    assert c[..1] == [c[0]];
    for i := 1 to count.Length
      invariant forall d :: 0 <= d < i ==> count[d] == Sum(c[..d + 1])
      invariant forall d :: i <= d < count.Length ==> count[d] == c[d]
    {
      assert c[..i + 1][..i] == c[..i];
      count[i] := count[i] + count[i - 1];
    }
  }
}
