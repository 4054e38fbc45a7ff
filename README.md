# Sorting visualiser engine, modelled in Dafny

This project models the stepwise sorting engine of the `SortingVisualizer`
page (`app.js`). The page keeps an array of element records
`{value, state, index}`. The `state` tag is one of default, comparing,
swapping, sorted or pivot. The page sorts the array in place with one of
eight algorithms:

- bubble, selection and insertion sort;
- merge sort;
- quick sort (Lomuto partition);
- heap sort;
- LSD radix sort in base 10;
- counting sort.

Each sort counts comparisons and swaps (shown as "Shifts" for insertion and
merge sort). It pauses at every animation step, and at its check points it
gives up as soon as the user pauses or a newer run has started.

The model is a class, `Engine.Visualizer`, with the page's fields:

- `items` (`this.array`), `arraySize`, the algorithm slider and the two counters;
- the run controller: `runToken`, `isPaused`, `isRunning`.

Every sort and helper is a method that updates these fields in place. The
pure parts are functions and lemmas in their own modules:

- `Controls`: the slider catalogue, its wrap-around step and the counter label;
- `CustomInput`: the custom-array text pipeline;
- `JsText`: the pieces of JavaScript's `trim`, `split`, `parseInt` and ToInt32 the pipeline and the colour helpers rely on;
- `Colors` and `ColorLaws`: `lightenColor` and `darkenColor`.

Each sort is proved against a specification:

- **Merge sort:** the array ends as `MergeSorted` of the old contents, a pure top-down merge sort proved ascending, a permutation and stable.
- **Counting sort and each radix pass:** the array ends as `Stack`, the records distributed into buckets by key, proved stable and sorted by key.
- **Bubble, selection, insertion, quick and heap sort:** sortedness and a permutation of the values, through invariants such as the Lomuto partition (`Partitioned`, `SplitAt`) and the max-heap (`Heap`).

Every `await this.animateAndRender()` is a call of `Suspend`. The host then
acts on the controller from a script of events (`hostEvents`: idle, pause
pressed, start pressed, reset pressed). The array is never touched by a
suspension.

Cancellation is modelled as abort-before-write:

- The check methods `CheckRun` (pause or token) and `CheckToken` (token only) sit exactly where the source checks.
- A failed check sets the ghost flag `seenCancel` and records the array in `atCancel`.
- Every write to the array goes through `Tag`, `Exchange` or `Put`, and each of them requires `!seenCancel`.
- So the verifier checks that no write follows a failed check, and every sort ensures `outcome == Aborted ==> items[..] == atCancel`.

A sort ends `Done`, `Aborted` (the `'Paused'` exception) or `Faulted`. `Faulted` is a run-time error of the host language, which `startSorting` swallows. It occurs in two cases:

- heap sort on an empty array writes `array[0]`;
- counting sort on an empty array allocates `new Array(-Infinity)`.

The potential `runToken + (isPaused ? 1 : 0)` never grows by more than the
number of host events consumed. So with no host events a started run is never
cancelled, and `StartSorting` then proves the run completes unless one of the
two fault cases applies.

## Model

| member | source | states |
|---|---|---|
| Engine.Visualizer.constructor | app.js:2-44 | fifty slots of `draws[i] + 10` with state default and index `i`; bubble sort selected; counters zero; token 0, neither paused nor running |
| Engine.Visualizer.PauseSorting | app.js:618-627 | a running run becomes paused and not running; otherwise nothing changes except `isRunning` stays false; the token never changes |
| Engine.Visualizer.BeginRun | app.js:589-596 | started exactly when no run was active; then the token is one more than before, is the run's own token, and the run is active and unpaused; otherwise the controller is unchanged |
| Engine.Visualizer.CancelRun | app.js:631-634 | the token always advances by one; the controller ends idle and unpaused |
| Engine.Visualizer.Suspend | app.js:1119-1122 | consumes one host event; the token never decreases; an idle step changes nothing; the potential `runToken + isPaused` rises by at most one per event consumed |
| Engine.Visualizer.CheckRun | app.js:676 | live exactly when not paused and the token is the run's own; a failed check records the array as it was |
| Engine.Visualizer.CheckToken | app.js:838 | live exactly when the token is the run's own (pause is not looked at); a failed check records the array |
| Engine.Visualizer.Tag | app.js:678 | only the state of slot `i` changes; values stay |
| Engine.Visualizer.Exchange | app.js:690 | slots `i` and `j` trade their whole records; nothing else changes; the values are a permutation |
| Engine.Visualizer.Put | app.js:771 | slot `k` receives the record; nothing else changes |
| Engine.Visualizer.BubbleCompare | app.js:678-697 | one comparison; out-of-order neighbours trade places, with one swap counted; both leave with state default |
| Engine.Visualizer.BubbleStep | app.js:676-697 | a failed check changes neither array nor counters; otherwise as BubbleCompare |
| Engine.Visualizer.BubblePass | app.js:675-698 | after pass `i` the last `i + 1` slots hold the largest values in order; exactly `n - i - 1` comparisons; swaps never exceed comparisons |
| Engine.Visualizer.BubbleRound | app.js:674-700 | after turn `i` the last `i + 1` slots hold the largest values in order, all tagged sorted; a permutation; exactly `n - i - 1` comparisons |
| Engine.Visualizer.BubbleSort | app.js:671-701 | completed: ascending, all tagged sorted, exactly n(n-1)/2 comparisons; always a permutation of the values; aborted exactly when a check failed, with no write after it |
| Engine.Visualizer.SelectionScan | app.js:709-729 | `minIdx` is the first position of the minimum of `[i, n)`; exactly `n - 1 - i` comparisons; only tags change |
| Engine.Visualizer.SelectionPlace | app.js:731-744 | the minimum moves to slot `i`, tagged sorted; a swap is counted exactly when `minIdx != i` |
| Engine.Visualizer.SelectionPass | app.js:706-747 | slots `[0, i]` hold the `i + 1` smallest values in order, tagged sorted; at most one swap, none on the last pass |
| Engine.Visualizer.SelectionSort | app.js:703-748 | completed: ascending, all tagged sorted, exactly n(n-1)/2 comparisons; at most n-1 swaps; always a permutation |
| Engine.Visualizer.ShiftOne | app.js:764-783 | the record at `j` is copied one slot right; one comparison and one shift; a failed check changes nothing |
| Engine.Visualizer.InsertionShift | app.js:763-784 | the larger values of the sorted prefix move one slot right, leaving a hole at `j + 1` with no larger value left of it; comparisons and shifts rise equally, by `i - 1 - j` |
| Engine.Visualizer.InsertPut | app.js:786-787 | the key fills the hole, tagged default; the prefix `[0, i]` is ascending and the values are the ones before the pass |
| Engine.Visualizer.InsertKey | app.js:756-787 | the pass from the taken key on: completed, `[0, i]` is ascending and the values are a permutation; cancelled, the array differs from a permutation in one slot |
| Engine.Visualizer.InsertOne | app.js:753-790 | as InsertKey, from the check that opens the pass |
| Engine.Visualizer.InsertionSort | app.js:750-791 | completed: ascending and a permutation; cancelled: one value duplicated in place of the key; comparisons equal shifts and are at most n(n-1)/2 |
| Engine.Visualizer.TagRange | app.js:811-813 | the states of `[lo, hi)` change and nothing else |
| Engine.Visualizer.MergeCopy | app.js:817-834 | one record written into slot `k`, tagged swapping, with one shift counted (and one comparison in the main loop); a failed check writes nothing |
| Engine.Visualizer.MergeStep | app.js:817-834 | the next record of the merge (the left head on ties) lands in slot `left + i + j`; the runs' remainders still merge to the rest of the merge |
| Engine.Visualizer.MergeAdvance | app.js:821-834 | the chosen head is copied and the indices advance exactly when the copy went ahead |
| Engine.Visualizer.MergeMain | app.js:816-835 | after `i + j` turns, `[left, left + i + j)` holds the first `i + j` records of the merge; comparisons and shifts both rise by `i + j` |
| Engine.Visualizer.DrainStep | app.js:838-843 | the token-only check, then the next record of the remaining run copied; no comparison |
| Engine.Visualizer.MergeDrain | app.js:837-853 | completed, the whole merge is written; no comparison is counted |
| Engine.Visualizer.MergeRuns | app.js:816-853 | completed, the merge of the two runs is written from `left` on, with fewer comparisons than records and one shift per record |
| Engine.Visualizer.MergeSegment | app.js:806-860 | completed, `[left, right]` holds `Merged` of its two halves, with at most `right - left` comparisons and exactly `right - left + 1` shifts; nothing outside the segment changes |
| Engine.Visualizer.Merge | app.js:803-860 | as MergeSegment, from the opening check |
| Engine.Visualizer.MergeSort | app.js:793-801 | completed, `[left, right]` holds `MergeSorted` of its old contents; shifts total `MergeWritesOn(left, right)`; nothing outside the segment changes |
| Engine.Visualizer.MergeHalves | app.js:795-799 | the same for a segment of two or more slots, split at the floor of the midpoint |
| Engine.Visualizer.MergeRest | app.js:798-799 | the right half sorted, then the halves merged, giving `MergeSorted` of the original segment |
| Engine.Visualizer.MergeTail | app.js:799 | the merge of two sorted halves gives `MergeSorted` of the original segment |
| Engine.Visualizer.MergeSortAll | app.js:654 | completed: ascending, a permutation, stable (equal values keep their order), with shifts exactly `MergeWrites(n)` and comparisons at most shifts |
| Engine.Visualizer.PartitionExchange | app.js:888-898 | slots `i` and `j` trade values, one swap counted, nothing outside `[i, j]` changes |
| Engine.Visualizer.PartitionRetag | app.js:901-902 | only states change, within `[low, j]` |
| Engine.Visualizer.PartitionVisit | app.js:886-902 | the values after one compared slot are `Visit` of those before: a smaller value is swapped into the next slot of the low block |
| Engine.Visualizer.PartitionStep | app.js:879-904 | the Lomuto invariant `Partitioned` extends by one slot; one comparison; at most one swap |
| Engine.Visualizer.PartitionScan | app.js:873-904 | the pivot is tagged; completed, `[low, i]` holds values below the pivot and `(i, high)` values at least the pivot; exactly `high - low` comparisons |
| Engine.Visualizer.PlacePivot | app.js:907-917 | the pivot moves to `p`, tagged sorted, with smaller values left of it and values at least as large right of it in `[low, high]` |
| Engine.Visualizer.PartitionRun | app.js:873-921 | as Partition, past its first check |
| Engine.Visualizer.Partition | app.js:870-921 | completed: `low <= pi <= high`, the pivot value at `pi` tagged sorted, `SplitAt` around it, exactly `high - low` comparisons; always a permutation, and nothing outside `[low, high]` changes |
| Engine.Visualizer.QuickSort | app.js:862-868 | completed, `[low, high]` is ascending; always a permutation; nothing outside the segment changes; comparisons at most `Pairs(high - low + 1)` |
| Engine.Visualizer.QuickSplit | app.js:863-867 | the same for a segment of two or more slots |
| Engine.Visualizer.QuickSortSides | app.js:865-866 | the two sides sorted around a placed pivot give an ascending segment |
| Engine.Visualizer.QuickSortRight | app.js:866 | the right side sorted after the left completes the segment |
| Engine.Visualizer.QuickSortAll | app.js:655 | completed: ascending; always a permutation; at most n(n-1)/2 comparisons |
| Engine.Visualizer.SiftPick | app.js:959-981 | `largest` is `i` or a child within `n` holding the largest of the three values, preferring `i`; one comparison per child within `n` |
| Engine.Visualizer.ResetFamily | app.js:1003-1005 | `i` and its children go back to default; values unchanged |
| Engine.Visualizer.Promote | app.js:985-999 | `i` and child `c` trade values; one swap; nothing outside `[i, n)` changes |
| Engine.Visualizer.SiftDown | app.js:985-1001 | after the exchange and the recursive sift, `[lo, n)` is a max-heap |
| Engine.Visualizer.Heapify | app.js:956-1007 | if `[lo, n)` is a heap except at `i`, a completed call makes it a max-heap; always a permutation; nothing outside `[i, n)` changes, so no slot at or beyond `n` |
| Engine.Visualizer.HeapBuild | app.js:927-929 | completed, the whole array is a max-heap; always completes on fewer than two slots |
| Engine.Visualizer.SwapRoot | app.js:934-945 | the root and slot `i` trade values; slot `i` is tagged sorted; one swap |
| Engine.Visualizer.ExtractRest | app.js:934-949 | the maximum moves to slot `i`: `[0, i)` is a heap again, `[i, n)` ascending and no smaller than `[0, i)` |
| Engine.Visualizer.ExtractMax | app.js:931-950 | as ExtractRest, from the check that opens the turn |
| Engine.Visualizer.HeapSort | app.js:924-953 | faulted exactly on the empty array; completed: ascending and all tagged sorted; always a permutation |
| Engine.Visualizer.TallyOne | app.js:1069-1071 | one record tagged comparing and counted under its key |
| Engine.Visualizer.Tally | app.js:1068-1075 | `count[d]` becomes the size of bucket `d`; exactly one comparison per record |
| Engine.PrefixSums | app.js:1077-1079 | each count becomes the sum of itself and all counts before it |
| Engine.Visualizer.Accumulate | app.js:1077-1079 | the prefix sums lay the buckets out end to end, in the order `Stack` gives |
| Engine.Visualizer.PlaceOne | app.js:1084-1086 | the back-to-front placement of one record into the slot just below its bucket's count, keeping `Placed` |
| Engine.Visualizer.Place | app.js:1081-1093 | completed, `out` holds `Stack` of the records, tagged swapping; exactly one swap per record |
| Engine.Visualizer.CopyBack | app.js:1095-1098 | every slot takes the record in `out`, tagged default |
| Engine.Visualizer.Distribute | app.js:1077-1098 | completed, the array is `Stack` of its records by key, counting one swap per record |
| Engine.Visualizer.BucketPass | app.js:1065-1098 | counting, laying out and placing: completed, the array is `Stack` of its old records; one comparison and one swap per record |
| Engine.Visualizer.SortByKey | app.js:1063-1098 | keyed by value minus the minimum: completed, ascending, stable, all default; a permutation |
| Engine.Visualizer.SortByValue | app.js:1061-1098 | as SortByKey, with the key range from the minimum and maximum |
| Engine.Visualizer.CountingSort | app.js:1058-1101 | faulted only on the empty array, and never done on it; completed: ascending, stable, all default, exactly n comparisons and n swaps; always a permutation |
| Engine.Visualizer.DigitPass | app.js:1018-1056 | completed, the array is `Stack` by the digit of weight `exp`: stable by that digit |
| Engine.Visualizer.RadixRound | app.js:1013 | a digit pass turns an array sorted modulo `exp` into one sorted modulo `10 * exp`, stably and as a permutation |
| Engine.Visualizer.RadixPasses | app.js:1012-1015 | the loop runs exactly `Digits(max)` passes and stops at the first `exp` above `max`; the array is then sorted modulo `exp` |
| Engine.Visualizer.RadixSort | app.js:1009-1016 | completed: ascending, stable and a permutation, with `Digits(max) * n` comparisons and as many swaps |
| Engine.Visualizer.MarkAllSorted | app.js:1103-1117 | completed, every slot is tagged sorted; a token change stops it with no later write; values never change |
| Engine.Visualizer.Dispatch | app.js:650-663 | runs the sort the algorithm names; completed: ascending and a permutation; faulted only for heap or counting sort on an empty array, and those never complete |
| Engine.Visualizer.RunAlgorithm | app.js:649-668 | the sort, then, if it completed under the same token, the final pass; a completed run whose token never changed ends all tagged sorted |
| Engine.Visualizer.StartSorting | app.js:588-616 | ignored while running; otherwise a new token, and with no host interference the run finishes with the controller idle and completes unless heap or counting sort meets an empty array |
| Engine.Visualizer.RunStarted | app.js:599-615 | the run under its own token: if the token is still its own at the end, the running flag is cleared; with no host interference it completes unless heap or counting sort meets an empty array, and then ends tagged sorted |
| Engine.Visualizer.ResetMetrics | app.js:563-569 | both counters zero |
| Engine.Visualizer.GenerateArray | app.js:522-536 | a fresh array of `arraySize` records `draws[i] + 10`, state default, index `i`, all in [10, 310); counters zero |
| Engine.Visualizer.InstallParsed | app.js:544-556 | nothing changes on `None`; otherwise a fresh array of the values, state default, index = position, `arraySize` its length, counters zero |
| Engine.Visualizer.SetCustomArray | app.js:538-561 | blank input or no positive integer leaves array and counters unchanged; otherwise the kept values, clamped to [1, 300], installed as above |
| Engine.Visualizer.ResetVisualization | app.js:629-647 | the token advances, the controller is idle, and a fresh random array replaces the old one with counters zero |
| Engine.Visualizer.ChangeAlgorithm | app.js:463-471 | ignored while running, with the selection, array, counters, token and flags all unchanged; otherwise the slider moves one step with wrap-around, the algorithm follows it, the token advances, the controller goes idle and unpaused, and a fresh array of `draws[i] + 10` comes with counters zero |
| Controls.JsRem | app.js:466 | JavaScript's `%`: the remainder takes the sign of the dividend and is less than the divisor in size |
| Controls.WrapIndexStep | app.js:466 | one step from a valid position lands on the next (or previous) position around the circle |
| Controls.WrapIndexInverse | app.js:466 | a step forward then back, or back then forward, returns to the start |
| Controls.SwapsLabel | app.js:577-581 | "Shifts" exactly for insertion and merge sort, otherwise "Swaps" |
| CustomInput.Positives | app.js:543 | only integers above zero are kept, never more than were read |
| CustomInput.PositivesAppend | app.js:543 | the filter works reading by reading: what two runs of readings keep is what the first keeps followed by what the second keeps |
| CustomInput.PositivesOne | app.js:543 | a single reading is kept, as its value, exactly when it is an integer above zero |
| CustomInput.KeptAppend | app.js:543 | the pieces are read and filtered independently: invalid pieces among valid ones drop out and the rest keep their order |
| CustomInput.KeptOne | app.js:543 | a single piece is kept exactly when its trimmed text reads as a positive integer, and then as that integer |
| CustomInput.Clamped | app.js:547 | each result is at most 300 and at most its value, and is either the value or 300: the minimum of the two |
| CustomInput.CustomBounds | app.js:539-548 | what is installed is never empty and lies in [1, 300] |
| CustomInput.CustomRoundTrip | app.js:539-548 | comma-joined decimal values of [1, 300] read back as exactly those values |
| CustomInput.KeptPieces | app.js:543 | decimal pieces of positive values are all kept, as their values |
| JsText.TrimStart | app.js:539 | the result is a suffix of the input that does not start with white space, and everything removed before it is white space |
| JsText.TrimEnd | app.js:539 | the result is a prefix of the input that does not end with white space, and everything removed after it is white space |
| JsText.TrimBlank | app.js:539-540 | the text trims to nothing exactly when every character of it is white space, so the blank-input test rejects exactly the blank texts |
| JsText.Split | app.js:543 | at least one piece, and no piece holds the separator |
| JsText.JoinSplit | app.js:543 | joining the pieces of a split gives back the text |
| JsText.SplitJoin | app.js:543 | splitting a join of separator-free pieces gives back the pieces |
| JsText.ParseDecimal | app.js:543 | `parseInt` reads the decimal notation of a natural number as that number |
| JsText.ToInt32 | app.js:1129-1131 | the 32-bit two's-complement value congruent to the input modulo 2^32 |
| Colors.Clamp | app.js:1132-1134 | a channel clamped to [0, 255], unchanged inside it |
| Colors.PackChannels | app.js:1129-1135 | packing three channels and reading them back with the shifts and masks gives the channels |
| Colors.ChannelsPack | app.js:1129-1135 | a 24-bit number is the packing of its three channels |
| Colors.HexValue | app.js:1135 | `toString(16)` denotes the number it was made from |
| Colors.PadStart | app.js:1135 | the text padded on the left to the width |
| Colors.HexColor | app.js:1135 | a 24-bit number written as exactly six hex digits |
| Colors.HexColorValue | app.js:1128-1135 | `parseInt(_, 16)` reads the six-digit form back as the number |
| Colors.LightenNumber | app.js:1128-1135 | the lightened colour number stays a 24-bit number |
| Colors.LightenNumberInverse | app.js:1125-1140 | darkening by the amount undoes lightening when no channel was clamped |
| ColorLaws.LightenChannels | app.js:1125-1136 | the output keeps the `#` exactly when the input has one, has six digits, and each channel is the input channel plus the amount, clamped |
| ColorLaws.LightenReadsBack | app.js:1125-1136 | the output's digits read back as the lightened number |
| ColorLaws.DarkenReadsBack | app.js:1138-1140 | darkening is lightening by the negated amount |
| ColorLaws.DarkenUndoesLighten | app.js:1125-1140 | when no channel clamps, darkening a lightened colour restores its number, and the colour itself when it was in canonical `#rrggbb` form |
| Elements.PairsClosedForm | app.js:674-680 | `Pairs(n)`, the comparisons of bubble and selection sort, is n(n-1)/2 |
| Elements.BoundsPointwise | app.js:527-531 | the bound predicates hold exactly when every value obeys the bound |
| Elements.ShiftedKeepsValues | app.js:771 | after the shifts, putting the key in the hole restores the multiset of values |
| Elements.InsertKeepsOrder | app.js:786 | the key placed after the last smaller value extends the sorted prefix |
| Merging.Merged | app.js:816-853 | the merge of two runs has all their records |
| Merging.MergedValues | app.js:816-853 | the merge is a permutation of the two runs |
| Merging.MergedAscending | app.js:816-853 | the merge of two ascending runs is ascending |
| Merging.MergedStable | app.js:821 | equal values keep their order (left run first) in the merge |
| Merging.MergeSortedAscending | app.js:793-801 | top-down merge sort yields an ascending sequence |
| Merging.MergeSortedValues | app.js:793-801 | top-down merge sort is a permutation |
| Merging.MergeSortedStable | app.js:793-801 | top-down merge sort is stable |
| Merging.MergeSortStep | app.js:797-799 | sorting both halves and merging them gives `MergeSorted` of the segment |
| Merging.MergeWritesBySize | app.js:829-851 | the shifts of merge sort on a segment depend only on its length |
| Partitioning.Visit | app.js:886-895 | one compared slot permutes the values and touches only slots `i + 1` and `j` |
| Partitioning.PartitionAdvance | app.js:878-904 | each compared slot preserves the Lomuto invariant |
| Partitioning.PartitionFinish | app.js:907-917 | placing the pivot after the smaller values splits the segment at it |
| Partitioning.QuickSortStep | app.js:862-868 | two sorted sides around a placed pivot make the whole segment sorted |
| Partitioning.PairsSplit | app.js:862-882 | partition's comparisons plus those of both sides never exceed n(n-1)/2 |
| Heaps.SiftSwap | app.js:985-1001 | exchanging a node with its larger child moves the heap defect down to the child |
| Heaps.SiftDone | app.js:1002-1005 | a node no smaller than its children closes the heap |
| Heaps.LeavesHeap | app.js:927 | the leaves (from `n / 2` on) form a heap |
| Heaps.HeapRootMax | app.js:939 | the root of a max-heap holds its largest value |
| Heaps.ExtractStep | app.js:931-947 | moving the root to the end keeps the sorted tail and leaves a heap defect only at the root |
| Heaps.ExtractDone | app.js:953 | a sorted tail no smaller than the one slot before it is a sorted array |
| Buckets.StackKeepsValues | app.js:1081-1098 | the bucketed sequence is a permutation of the records |
| Buckets.StackSortedByKey | app.js:1081-1098 | the bucketed sequence is ordered by key |
| Buckets.StackStable | app.js:1081-1093 | equal values keep their order through the bucketing |
| Buckets.StackAscending | app.js:1058-1101 | bucketing by value minus the minimum yields an ascending sequence |
| Buckets.PlaceStep | app.js:1084-1086 | each back-to-front placement keeps the placed slots equal to the layout |
| Buckets.PlaceDone | app.js:1081-1093 | after the last placement the output is the layout |
| Buckets.PrefixStarts | app.js:1077-1079 | after the prefix sums each count is the end of its bucket in the layout |
| Buckets.RadixPass | app.js:1018-1056 | a stable pass by the digit of weight `exp` extends sortedness modulo `exp` to modulo `10 * exp` |
| Buckets.LowSortedDone | app.js:1012 | sorted modulo a bound above every value means sorted |
| Buckets.DigitsStep | app.js:1012 | each loop turn consumes one decimal digit of the maximum |
| Buckets.DigitsDone | app.js:1012 | the loop stops once `exp` exceeds the maximum |
| Buckets.MaxOf | app.js:1010 | `Math.max` of the values: a member no smaller than any |
| Buckets.MinOf | app.js:1062 | `Math.min` of the values: a member no larger than any |

## Left out

- Rendering, the canvas, audio, the progress bar, the elapsed-time display and all DOM and event wiring are not modelled. `playSound`, `updateProgress` and `updateMetrics` are no-ops here, and `render` and `delay` become the abstract suspension `Suspend`.
- `Math.random` in `generateArray` becomes the parameter `draws`, with each draw in [0, 300), so values lie in [10, 309].
- Real asynchronous interleaving is not modelled. A host event applies the controller's synchronous effect only. A start pressed during a suspension does not launch a second concurrent sort. A reset pressed during a suspension advances the token but does not replace the array under the stale run.
- Engine.Visualizer.SetCustomArray: the source does not refuse it while a run is active; the model states the result as if no run were in flight, since the concurrent run is not modelled.
- Engine.Visualizer.RadixSort: requires every value to be non-negative. The source's digit arithmetic breaks on negative values, and both ways of filling the array give positive values (the `Valid` invariant).
- Engine.Visualizer.QuickSort: requires that the slot just left of the segment is not tagged swapping. Otherwise the source's retag at app.js:902 can reach outside the segment. In a real run that slot is the previous pivot, tagged sorted.
- Engine.Visualizer.ChangeAlgorithm: requires a direction of -1 or 1, the only values the two slider buttons pass.
- Engine.Visualizer.InsertionSort: after a cancellation mid-shift the array holds one value twice and has lost the key. The contract states exactly that (`OneSlotFrom`) instead of a permutation.
- Engine.Visualizer.MergeSortAll: after a cancellation mid-merge the array may hold copies in place of records not yet written back. The contract states only that nothing was written after the check.
- Engine.Visualizer.RunAlgorithm: states the all-sorted result only when the token was the run's own from start to end. A run cancelled during the final pass stops where the pass was.
- Engine.Visualizer.QuickSortAll: bounds the comparisons by n(n-1)/2 rather than giving their exact number, which depends on the data.
- Engine.Visualizer.HeapSort: states only that the counters never decrease, since their exact values depend on the data.
- JsText.ParseInt: reads numbers exactly, while the source's doubles lose precision beyond 2^53. The custom input clamps such values to 300 anyway.
- The `algorithmInfo` tutorial texts, themes, tabs, keyboard shortcuts and scroll animations are not modelled.
