/**
 * The step generators of the algorithms playground (bubble, selection and
 * insertion sort). Each generator copies its input into a fresh array, sorts
 * the copy in place and records a snapshot after every comparison or swap.
 * The JavaScript generators yield lazily; here each one returns the whole
 * step sequence it would yield, in order.
 */
module SortSteps {

  /** One yielded step: a copy of the array, the compared indices, and whether they were swapped. */
  datatype Step = Step(arr: seq<int>, left: int, right: int, swapped: bool)

  datatype Algorithm = Bubble | Selection | Insertion

  predicate Sorted(s: seq<int>) {
    forall x, y :: 0 <= x < y < |s| ==> s[x] <= s[y]
  }

  /** `s` with positions i and j exchanged. */
  function Swap(s: seq<int>, i: int, j: int): (r: seq<int>)
    requires 0 <= i < |s| && 0 <= j < |s|
    ensures |r| == |s| && r[i] == s[j] && r[j] == s[i]
    ensures forall k :: 0 <= k < |s| && k != i && k != j ==> r[k] == s[k]
    ensures multiset(r) == multiset(s)
  {
    s[i := s[j]][j := s[i]]
  }

  /**
   * Step `s` is a step the generator of `algo` may yield right after `prev`:
   * it swaps its two indices or leaves the array alone, and its flag says
   * which. Bubble and insertion sort compare adjacent positions and swap
   * exactly when the left one is greater; selection sort swaps only to bring
   * a strictly smaller element forward.
   */
  ghost predicate Follows(algo: Algorithm, prev: seq<int>, s: Step) {
    && 0 <= s.left < s.right < |prev|
    && s.arr == (if s.swapped then Swap(prev, s.left, s.right) else prev)
    && match algo
       case Bubble => s.right == s.left + 1 && s.swapped == (prev[s.left] > prev[s.right])
       case Insertion => s.right == s.left + 1 && s.swapped == (prev[s.left] > prev[s.right])
       case Selection => s.swapped ==> prev[s.right] < prev[s.left]
  }

  /** The array before step k: the input for the first step, else the previous snapshot. */
  function Before(input: seq<int>, steps: seq<Step>, k: nat): seq<int>
    requires k <= |steps|
  {
    if k == 0 then input else steps[k - 1].arr
  }

  /** The array after the last step (the input when there are no steps). */
  function Final(input: seq<int>, steps: seq<Step>): seq<int> {
    Before(input, steps, |steps|)
  }

  /** Step k follows from the array before it. */
  ghost predicate StepOk(algo: Algorithm, input: seq<int>, steps: seq<Step>, k: nat)
    requires k < |steps|
  {
    Follows(algo, Before(input, steps, k), steps[k])
  }

  /** Every step follows from the array before it. */
  ghost predicate IsTrace(algo: Algorithm, input: seq<int>, steps: seq<Step>) {
    forall k :: 0 <= k < |steps| ==> StepOk(algo, input, steps, k)
  }

  function CountSwaps(steps: seq<Step>): (c: nat)
    ensures c <= |steps|
  {
    if steps == [] then 0
    else CountSwaps(steps[..|steps| - 1]) + (if steps[|steps| - 1].swapped then 1 else 0)
  }

  /** The left compared index of every step, in order. */
  function Lefts(steps: seq<Step>): (r: seq<int>)
    ensures |r| == |steps|
    ensures forall k :: 0 <= k < |steps| ==> r[k] == steps[k].left
  {
    seq(|steps|, k requires 0 <= k < |steps| => steps[k].left)
  }

  /** [0, 1, ..., m - 1]. */
  function Range(m: nat): (r: seq<int>)
    ensures |r| == m
    ensures forall k :: 0 <= k < m ==> r[k] == k
  {
    seq(m, k => k)
  }

  /**
   * The left indices bubble sort compares in its first `i` passes on an array
   * of length n: pass p compares (0,1), (1,2), ..., (n-2-p, n-1-p).
   */
  function BubbleSchedule(n: nat, i: nat): (r: seq<int>)
    requires i <= n
  {
    if i == 0 then [] else BubbleSchedule(n, i - 1) + Range(n - i)
  }

  /** Number of comparisons in the first `i` passes over n elements: (n-1) + (n-2) + ... */
  function PairsBefore(n: nat, i: nat): nat
    requires i <= n
  {
    if i == 0 then 0 else PairsBefore(n, i - 1) + (n - i)
  }

  /** Index of the last step of bubble pass p, plus one. */
  function PassEnd(n: nat, p: nat): nat
    requires p < n
  {
    PairsBefore(n, p + 1)
  }

  /** Positions m.. are sorted and hold values no smaller than any value before m. */
  predicate SuffixPlaced(s: seq<int>, m: int) {
    && (forall x, y :: 0 <= m <= x < y < |s| ==> s[x] <= s[y])
    && (forall x, y :: 0 <= x < m <= y < |s| ==> s[x] <= s[y])
  }

  /** The comparison count of the first i passes, in closed form. */
  lemma {:induction false} PairsBeforeClosed(n: nat, i: nat)
    requires i <= n
    ensures 2 * PairsBefore(n, i) == i * (2 * n - i - 1)
  {
    if i > 0 {
      PairsBeforeClosed(n, i - 1);
      assert i * (2 * n - i - 1) == (i - 1) * (2 * n - (i - 1) - 1) + 2 * (n - i);
    }
  }

  lemma {:induction false} BubbleScheduleLength(n: nat, i: nat)
    requires i <= n
    ensures |BubbleSchedule(n, i)| == PairsBefore(n, i)
  {
    if i > 0 {
      BubbleScheduleLength(n, i - 1);
    }
  }

  lemma {:induction false} PairsBeforeMonotone(n: nat, p: nat, q: nat)
    requires p <= q <= n
    ensures PairsBefore(n, p) <= PairsBefore(n, q)
  {
    if p < q {
      PairsBeforeMonotone(n, p, q - 1);
    }
  }

  lemma TraceAppend(algo: Algorithm, input: seq<int>, steps: seq<Step>, s: Step)
    requires IsTrace(algo, input, steps)
    requires Follows(algo, Final(input, steps), s)
    ensures IsTrace(algo, input, steps + [s])
    ensures Final(input, steps + [s]) == s.arr
  {
    var t := steps + [s];
    forall k | 0 <= k < |t|
      ensures StepOk(algo, input, t, k)
    {
      if k < |steps| {
        assert StepOk(algo, input, steps, k);
        assert Before(input, t, k) == Before(input, steps, k);
      }
    }
  }

  /** The array after `s + p` is the array reached by running `p` from the array after `s`. */
  lemma FinalAppend(input: seq<int>, s: seq<Step>, p: seq<Step>)
    ensures Final(input, s + p) == Final(Final(input, s), p)
  {
    if p == [] {
      assert s + p == s;
    } else {
      assert (s + p)[|s + p| - 1] == p[|p| - 1];
    }
  }

  lemma StepsAssoc(x: seq<Step>, y: seq<Step>, z: seq<Step>)
    ensures x + (y + z) == (x + y) + z
  {
  }

  lemma CountSwapsAppend(steps: seq<Step>, s: Step)
    ensures CountSwaps(steps + [s]) == CountSwaps(steps) + (if s.swapped then 1 else 0)
  {
    assert (steps + [s])[..|steps|] == steps;
  }

  /** Every snapshot of a trace is a permutation of the input. */
  lemma {:induction false} SnapshotPermutes(algo: Algorithm, input: seq<int>, steps: seq<Step>, k: nat)
    requires IsTrace(algo, input, steps)
    requires k <= |steps|
    ensures |Before(input, steps, k)| == |input|
    ensures multiset(Before(input, steps, k)) == multiset(input)
  {
    if k > 0 {
      SnapshotPermutes(algo, input, steps, k - 1);
      var prev, s := Before(input, steps, k - 1), steps[k - 1];
      assert StepOk(algo, input, steps, k - 1);
      assert Before(input, steps, k) == s.arr;
      if s.swapped {
        assert s.arr == Swap(prev, s.left, s.right);
      } else {
        assert s.arr == prev;
      }
    }
  }

  lemma TracePermutes(algo: Algorithm, input: seq<int>, steps: seq<Step>)
    requires IsTrace(algo, input, steps)
    ensures forall k :: 0 <= k < |steps| ==> multiset(steps[k].arr) == multiset(input)
    ensures multiset(Final(input, steps)) == multiset(input)
  {
    forall k | 0 <= k < |steps|
      ensures multiset(steps[k].arr) == multiset(input)
    {
      SnapshotPermutes(algo, input, steps, k + 1);
    }
    SnapshotPermutes(algo, input, steps, |steps|);
  }

  /**
   * For bubble and insertion sort, the compared positions alone determine the
   * whole trace: two traces from the same input that compare the same
   * positions are identical (the generator is deterministic).
   */
  lemma {:induction false} TraceDeterminedByLefts(algo: Algorithm, input: seq<int>, s1: seq<Step>, s2: seq<Step>)
    requires algo != Selection
    requires IsTrace(algo, input, s1) && IsTrace(algo, input, s2)
    requires Lefts(s1) == Lefts(s2)
    ensures s1 == s2
  {
    forall k | 0 <= k < |s1|
      ensures s1[k] == s2[k]
    {
      StepsAgree(algo, input, s1, s2, k);
    }
  }

  lemma {:induction false} StepsAgree(algo: Algorithm, input: seq<int>, s1: seq<Step>, s2: seq<Step>, k: nat)
    requires algo != Selection
    requires IsTrace(algo, input, s1) && IsTrace(algo, input, s2)
    requires Lefts(s1) == Lefts(s2)
    requires k < |s1|
    ensures s1[k] == s2[k]
  {
    if k > 0 {
      StepsAgree(algo, input, s1, s2, k - 1);
    }
    assert Before(input, s1, k) == Before(input, s2, k);
    assert s1[k].left == Lefts(s1)[k] == Lefts(s2)[k] == s2[k].left;
    assert StepOk(algo, input, s1, k);
    assert StepOk(algo, input, s2, k);
  }

  lemma LeftsAppend(steps: seq<Step>, s: Step)
    ensures Lefts(steps + [s]) == Lefts(steps) + [s.left]
  {
  }

  /** After each finished bubble pass p, positions n-1-p.. hold their final values. */
  ghost predicate PassesPlaced(n: nat, steps: seq<Step>, i: nat)
    requires i <= n
  {
    forall p :: 0 <= p < i && p < n - 1 ==>
      && 1 <= PassEnd(n, p) <= |steps|
      && SuffixPlaced(steps[PassEnd(n, p) - 1].arr, n - 1 - p)
  }

  lemma PassesPlacedAppend(n: nat, steps: seq<Step>, i: nat, s: Step)
    requires i <= n
    requires PassesPlaced(n, steps, i)
    ensures PassesPlaced(n, steps + [s], i)
  {
    forall p | 0 <= p < i && p < n - 1
      ensures 1 <= PassEnd(n, p) <= |steps + [s]|
      ensures SuffixPlaced((steps + [s])[PassEnd(n, p) - 1].arr, n - 1 - p)
    {
      assert (steps + [s])[PassEnd(n, p) - 1] == steps[PassEnd(n, p) - 1];
    }
  }

  lemma PassesPlacedExtend(n: nat, steps0: seq<Step>, steps: seq<Step>, i: nat)
    requires i <= n
    requires PassesPlaced(n, steps0, i)
    requires |steps0| <= |steps| && steps[..|steps0|] == steps0
    ensures PassesPlaced(n, steps, i)
  {
    forall p | 0 <= p < i && p < n - 1
      ensures 1 <= PassEnd(n, p) <= |steps|
      ensures SuffixPlaced(steps[PassEnd(n, p) - 1].arr, n - 1 - p)
    {
      assert steps[PassEnd(n, p) - 1] == steps[..|steps0|][PassEnd(n, p) - 1];
    }
  }

  /** One comparison of a bubble pass keeps the placed suffix and carries the maximum right. */
  lemma BubbleCompare(prev: seq<int>, j: nat, m: nat)
    requires j + 1 < m <= |prev|
    requires SuffixPlaced(prev, m)
    requires forall x :: 0 <= x < j ==> prev[x] <= prev[j]
    ensures var next := if prev[j] > prev[j + 1] then Swap(prev, j, j + 1) else prev;
      && SuffixPlaced(next, m)
      && forall x :: 0 <= x < j + 1 ==> next[x] <= next[j + 1]
  {
  }

  /** What one comparison of pass i does to the invariants of the pass. */
  lemma BubbleStep(input: seq<int>, steps0: seq<Step>, steps: seq<Step>, n: nat, i: nat, j: nat, s: Step)
    requires j < n - i - 1 && |Final(input, steps)| == n
    requires IsTrace(Bubble, input, steps)
    requires |steps0| <= |steps| && steps[..|steps0|] == steps0
    requires Lefts(steps) == Lefts(steps0) + Range(j)
    requires SuffixPlaced(Final(input, steps), n - i)
    requires forall x :: 0 <= x < j ==> Final(input, steps)[x] <= Final(input, steps)[j]
    requires var prev := Final(input, steps);
      && s.left == j && s.right == j + 1 && s.swapped == (prev[j] > prev[j + 1])
      && s.arr == if s.swapped then Swap(prev, j, j + 1) else prev
    ensures IsTrace(Bubble, input, steps + [s]) && Final(input, steps + [s]) == s.arr
    ensures |steps0| <= |steps + [s]| && (steps + [s])[..|steps0|] == steps0
    ensures Lefts(steps + [s]) == Lefts(steps0) + Range(j + 1)
    ensures SuffixPlaced(s.arr, n - i)
    ensures forall x :: 0 <= x < j + 1 ==> s.arr[x] <= s.arr[j + 1]
  {
    var prev := Final(input, steps);
    BubbleCompare(prev, j, n - i);
    TraceAppend(Bubble, input, steps, s);
    LeftsAppend(steps, s);
    assert Range(j) + [j] == Range(j + 1);
    assert (steps + [s])[..|steps0|] == steps[..|steps0|];
  }

  /** The inner loop of `bubbleSortSteps` for pass i. */
  method BubblePass(a: array<int>, i: nat, ghost input: seq<int>, steps0: seq<Step>) returns (steps: seq<Step>)
    requires i < a.Length
    requires IsTrace(Bubble, input, steps0) && Final(input, steps0) == a[..]
    requires SuffixPlaced(a[..], a.Length - i)
    modifies a
    ensures IsTrace(Bubble, input, steps) && Final(input, steps) == a[..]
    ensures |steps0| <= |steps| && steps[..|steps0|] == steps0
    ensures Lefts(steps) == Lefts(steps0) + Range(a.Length - i - 1)
    ensures SuffixPlaced(a[..], a.Length - i - 1)
  {
    var n := a.Length;
    steps := steps0;
    var j := 0;
    while j < n - i - 1
      invariant 0 <= j <= n - i - 1
      invariant IsTrace(Bubble, input, steps) && Final(input, steps) == a[..]
      invariant |steps0| <= |steps| && steps[..|steps0|] == steps0
      invariant Lefts(steps) == Lefts(steps0) + Range(j)
      invariant SuffixPlaced(a[..], n - i)
      invariant forall x :: 0 <= x < j ==> a[x] <= a[j]
    {
      ghost var prev := a[..];
      var shouldSwap := a[j] > a[j + 1];
      if shouldSwap {
        a[j], a[j + 1] := a[j + 1], a[j];
        assert a[..] == Swap(prev, j, j + 1);
      }
      var s := Step(a[..], j, j + 1, shouldSwap);
      BubbleStep(input, steps0, steps, n, i, j, s);
      steps := steps + [s];
      j := j + 1;
    }
  }

  /**
   * `bubbleSortSteps`: pass i compares every adjacent pair (j, j+1) with
   * j < n-1-i, swapping when the left value is greater, and yields after
   * each comparison.
   */
  method BubbleSortSteps(input: seq<int>) returns (steps: seq<Step>)
    ensures IsTrace(Bubble, input, steps)
    ensures Lefts(steps) == BubbleSchedule(|input|, |input|)
    ensures 2 * |steps| == |input| * (|input| - 1)
    ensures PassesPlaced(|input|, steps, |input|)
    ensures |input| <= 1 <==> steps == []
    ensures Sorted(Final(input, steps))
  {
    var n := |input|;
    var a := new int[n](k requires 0 <= k < n => input[k]);
    assert a[..] == input;
    steps := [];
    var i := 0;
    while i < n
      invariant 0 <= i <= n
      invariant IsTrace(Bubble, input, steps) && Final(input, steps) == a[..]
      invariant Lefts(steps) == BubbleSchedule(n, i)
      invariant PassesPlaced(n, steps, i)
      invariant SuffixPlaced(a[..], n - i)
    {
      ghost var steps0 := steps;
      steps := BubblePass(a, i, input, steps);
      PassesPlacedExtend(n, steps0, steps, i);
      assert Range(n - i - 1) == Range(n - (i + 1));
      assert Lefts(steps) == BubbleSchedule(n, i + 1);
      PassesPlacedNext(n, input, steps, i);
      i := i + 1;
    }
    BubbleScheduleLength(n, n);
    PairsBeforeClosed(n, n);
    assert SuffixPlaced(Final(input, steps), 0);
  }

  lemma PassesPlacedNext(n: nat, input: seq<int>, steps: seq<Step>, i: nat)
    requires i < n
    requires PassesPlaced(n, steps, i)
    requires Lefts(steps) == BubbleSchedule(n, i + 1)
    requires SuffixPlaced(Final(input, steps), n - i - 1)
    ensures PassesPlaced(n, steps, i + 1)
  {
    BubbleScheduleLength(n, i + 1);
    assert |steps| == PairsBefore(n, i + 1);
    if i < n - 1 {
      assert PassEnd(n, i) == |steps| >= 1;
    }
  }

  /** Positions ..m are sorted and hold values no larger than any value from m on. */
  predicate PrefixPlaced(s: seq<int>, m: int) {
    && (forall x, y :: 0 <= x < y < m && y < |s| ==> s[x] <= s[y])
    && (forall x, y :: 0 <= x < m <= y < |s| ==> s[x] <= s[y])
  }

  lemma ExtendByPrefix(steps0: seq<Step>, steps: seq<Step>, s: Step)
    requires |steps0| <= |steps| && steps[..|steps0|] == steps0
    ensures |steps0| <= |steps + [s]| && (steps + [s])[..|steps0|] == steps0
  {
    assert (steps + [s])[..|steps0|] == steps[..|steps0|];
  }

  /** One comparison step of selection pass i: the array is unchanged, `min` may move to j. */
  lemma SelectionCompare(input: seq<int>, steps0: seq<Step>, steps: seq<Step>, i: nat, j: nat, min: nat, s: Step)
    requires IsTrace(Selection, input, steps)
    requires |steps0| <= |steps| && steps[..|steps0|] == steps0
    requires i <= min < j < |Final(input, steps)|
    requires s == Step(Final(input, steps), min, j, false)
    ensures IsTrace(Selection, input, steps + [s]) && Final(input, steps + [s]) == Final(input, steps)
    ensures |steps0| <= |steps + [s]| && (steps + [s])[..|steps0|] == steps0
    ensures CountSwaps(steps + [s]) == CountSwaps(steps)
  {
    TraceAppend(Selection, input, steps, s);
    ExtendByPrefix(steps0, steps, s);
    CountSwapsAppend(steps, s);
  }

  /** The swap that ends selection pass i puts the smallest remaining value at i. */
  lemma SelectionSwap(input: seq<int>, steps: seq<Step>, i: nat, min: nat, s: Step)
    requires IsTrace(Selection, input, steps)
    requires var prev := Final(input, steps);
      && i < min < |prev| && prev[min] < prev[i]
      && PrefixPlaced(prev, i)
      && (forall x :: i <= x < |prev| ==> prev[min] <= prev[x])
    requires s == Step(Swap(Final(input, steps), i, min), i, min, true)
    ensures IsTrace(Selection, input, steps + [s]) && Final(input, steps + [s]) == s.arr
    ensures CountSwaps(steps + [s]) == CountSwaps(steps) + 1
    ensures PrefixPlaced(s.arr, i + 1)
  {
    TraceAppend(Selection, input, steps, s);
    CountSwapsAppend(steps, s);
  }

  /** Position m holds the first occurrence of the smallest value among positions i..end-1. */
  predicate LeastFrom(a: seq<int>, i: int, m: int, end: int) {
    && 0 <= i <= m < end <= |a|
    && (forall x :: i <= x < end ==> a[m] <= a[x])
    && (forall x :: i <= x < m ==> a[m] < a[x])
  }

  /**
   * The steps selection pass i yields on array `a` from the comparison with
   * position j on, `min` being the position of the smallest value seen so
   * far: one comparison step `[min, j]` for each remaining j (the array does
   * not change while scanning), then the swap `[i, min]` when the minimum is
   * not already at i.
   */
  function SelectionScan(a: seq<int>, i: nat, min: nat, j: nat): (r: seq<Step>)
    requires i <= min < j <= |a|
    ensures forall k :: 0 <= k < |r| ==> |r[k].arr| == |a|
    decreases |a| - j
  {
    if j == |a| then
      (if min != i then [Step(a[i := a[min]][min := a[i]], i, min, true)] else [])
    else
      [Step(a, min, j, false)] + SelectionScan(a, i, if a[j] < a[min] then j else min, j + 1)
  }

  /** The steps of selection passes i, i+1, ... on array `a`. */
  function SelectionPasses(a: seq<int>, i: nat): (r: seq<Step>)
    decreases |a| - i
  {
    if i >= |a| then []
    else
      var p := SelectionScan(a, i, i, i + 1);
      p + SelectionPasses(Final(a, p), i + 1)
  }

  /**
   * The shape of a selection pass from position j on: a comparison step
   * `[m, j + k]` on the unchanged array for every remaining position, m being
   * the first position of the minimum seen so far, then a swap step exactly
   * when some later value is smaller than the one at i, which exchanges i
   * with the first position of the minimum of the rest.
   */
  lemma {:induction false} SelectionScanShape(a: seq<int>, i: nat, min: nat, j: nat)
    requires i <= min < j <= |a|
    requires LeastFrom(a, i, min, j)
    ensures var r := SelectionScan(a, i, min, j);
      && |a| - j <= |r| <= |a| - j + 1
      && (forall k :: 0 <= k < |a| - j ==>
            LeastFrom(a, i, r[k].left, j + k) && r[k] == Step(a, r[k].left, j + k, false))
      && (|r| == |a| - j + 1 <==> exists x :: i <= x < |a| && a[x] < a[i])
      && (forall k :: |a| - j <= k < |r| ==>
            LeastFrom(a, i, r[k].right, |a|) && r[k] == Step(Swap(a, i, r[k].right), i, r[k].right, true))
    decreases |a| - j
  {
    var r := SelectionScan(a, i, min, j);
    if j == |a| {
      if min == i {
        assert forall x :: i <= x < |a| ==> a[i] <= a[x];
      } else {
        assert a[min] < a[i];
      }
    } else {
      var min' := if a[j] < a[min] then j else min;
      var rest := SelectionScan(a, i, min', j + 1);
      assert r == [Step(a, min, j, false)] + rest;
      SelectionScanShape(a, i, min', j + 1);
      forall k | 1 <= k < |r|
        ensures r[k] == rest[k - 1]
      {
      }
    }
  }

  /** One comparison of the scan consumes the first step of the remaining schedule. */
  lemma ScanStep(a0: seq<int>, i: nat, min: nat, j: nat, steps0: seq<Step>, steps: seq<Step>, s: Step)
    requires i <= min < j < |a0|
    requires s == Step(a0, min, j, false)
    requires steps + SelectionScan(a0, i, min, j) == steps0 + SelectionScan(a0, i, i, i + 1)
    ensures (steps + [s]) + SelectionScan(a0, i, if a0[j] < a0[min] then j else min, j + 1)
         == steps0 + SelectionScan(a0, i, i, i + 1)
  {
    var rest := SelectionScan(a0, i, if a0[j] < a0[min] then j else min, j + 1);
    assert SelectionScan(a0, i, min, j) == [s] + rest;
    StepsAssoc(steps, [s], rest);
  }

  /** A finished pass i consumes the first pass of the remaining schedule. */
  lemma SelectionPassesStep(input: seq<int>, a0: seq<int>, a1: seq<int>, i: nat, steps0: seq<Step>, steps: seq<Step>)
    requires i < |a0|
    requires Final(input, steps0) == a0
    requires steps == steps0 + SelectionScan(a0, i, i, i + 1)
    requires Final(input, steps) == a1
    requires steps0 + SelectionPasses(a0, i) == SelectionPasses(input, 0)
    ensures steps + SelectionPasses(a1, i + 1) == SelectionPasses(input, 0)
  {
    var p := SelectionScan(a0, i, i, i + 1);
    FinalAppend(input, steps0, p);
    assert SelectionPasses(a0, i) == p + SelectionPasses(a1, i + 1);
    StepsAssoc(steps0, p, SelectionPasses(a1, i + 1));
  }

  /**
   * The inner loop of selection pass i: yield a comparison step `[min, j]` for
   * each j > i while tracking the first position of the smallest value. The
   * array is only read.
   */
  method FindMin(a: array<int>, i: nat, ghost input: seq<int>, steps0: seq<Step>) returns (steps: seq<Step>, min: nat)
    requires i < a.Length
    requires IsTrace(Selection, input, steps0) && Final(input, steps0) == a[..]
    ensures IsTrace(Selection, input, steps) && Final(input, steps) == a[..]
    ensures |steps0| <= |steps| && steps[..|steps0|] == steps0
    ensures CountSwaps(steps) == CountSwaps(steps0)
    ensures |steps| == |steps0| + (a.Length - i - 1)
    ensures LeastFrom(a[..], i, min, a.Length)
    ensures steps + SelectionScan(a[..], i, min, a.Length) == steps0 + SelectionScan(a[..], i, i, i + 1)
  {
    var n := a.Length;
    steps := steps0;
    min := i;
    var j := i + 1;
    while j < n
      invariant i < j <= n && i <= min < j
      invariant steps + SelectionScan(a[..], i, min, j) == steps0 + SelectionScan(a[..], i, i, i + 1)
      invariant IsTrace(Selection, input, steps) && Final(input, steps) == a[..]
      invariant |steps0| <= |steps| && steps[..|steps0|] == steps0
      invariant CountSwaps(steps) == CountSwaps(steps0)
      invariant |steps| == |steps0| + (j - i - 1)
      invariant LeastFrom(a[..], i, min, j)
    {
      var s := Step(a[..], min, j, false);
      SelectionCompare(input, steps0, steps, i, j, min, s);
      ScanStep(a[..], i, min, j, steps0, steps, s);
      steps := steps + [s];
      if a[j] < a[min] {
        min := j;
      }
      j := j + 1;
    }
  }

  /** One pass of `selectionSortSteps`: scan for the minimum of positions i.., then swap it to i. */
  method SelectionPass(a: array<int>, i: nat, ghost input: seq<int>, steps0: seq<Step>) returns (steps: seq<Step>)
    requires i < a.Length
    requires IsTrace(Selection, input, steps0) && Final(input, steps0) == a[..]
    requires PrefixPlaced(a[..], i)
    modifies a
    ensures IsTrace(Selection, input, steps) && Final(input, steps) == a[..]
    ensures |steps0| <= |steps| && steps[..|steps0|] == steps0
    ensures |steps| - CountSwaps(steps) == |steps0| - CountSwaps(steps0) + (a.Length - i - 1)
    ensures CountSwaps(steps0) <= CountSwaps(steps) <= CountSwaps(steps0) + 1
    ensures i == a.Length - 1 ==> CountSwaps(steps) == CountSwaps(steps0)
    ensures PrefixPlaced(a[..], i + 1)
    ensures steps == steps0 + SelectionScan(old(a[..]), i, i, i + 1)
  {
    var min;
    steps, min := FindMin(a, i, input, steps0);
    if min != i {
      ghost var prev := a[..];
      a[i], a[min] := a[min], a[i];
      assert a[..] == Swap(prev, i, min);
      var s := Step(a[..], i, min, true);
      SelectionSwap(input, steps, i, min, s);
      ExtendByPrefix(steps0, steps, s);
      steps := steps + [s];
    }
  }

  /** What one finished pass adds to the loop facts of `selectionSortSteps`. */
  lemma SelectionRound(input: seq<int>, a0: seq<int>, a1: seq<int>, n: nat, i: nat, steps0: seq<Step>, steps: seq<Step>)
    requires i < n == |a0|
    requires Final(input, steps0) == a0 && Final(input, steps) == a1
    requires steps0 + SelectionPasses(a0, i) == SelectionPasses(input, 0)
    requires steps == steps0 + SelectionScan(a0, i, i, i + 1)
    requires |steps0| - CountSwaps(steps0) == PairsBefore(n, i)
    requires CountSwaps(steps0) <= i
    requires |steps| - CountSwaps(steps) == |steps0| - CountSwaps(steps0) + (n - i - 1)
    requires CountSwaps(steps0) <= CountSwaps(steps) <= CountSwaps(steps0) + 1
    requires i == n - 1 ==> CountSwaps(steps) == CountSwaps(steps0)
    ensures steps + SelectionPasses(a1, i + 1) == SelectionPasses(input, 0)
    ensures |steps| - CountSwaps(steps) == PairsBefore(n, i + 1)
    ensures CountSwaps(steps) <= i + 1 && CountSwaps(steps) <= n - 1
    ensures n >= 2 ==> steps != []
  {
    SelectionPassesStep(input, a0, a1, i, steps0, steps);
  }

  /**
   * `selectionSortSteps`: pass i yields one comparison step [min, j] for each
   * j > i, then one swap step [i, min] when the minimum is not already at i.
   */
  method SelectionSortSteps(input: seq<int>) returns (steps: seq<Step>)
    ensures IsTrace(Selection, input, steps)
    ensures 2 * (|steps| - CountSwaps(steps)) == |input| * (|input| - 1)
    ensures |input| > 0 ==> CountSwaps(steps) <= |input| - 1
    ensures |input| <= 1 <==> steps == []
    ensures Sorted(Final(input, steps))
    ensures steps == SelectionPasses(input, 0)
  {
    var n := |input|;
    var a := new int[n](k requires 0 <= k < n => input[k]);
    assert a[..] == input;
    steps := [];
    var i := 0;
    while i < n
      invariant 0 <= i <= n
      invariant IsTrace(Selection, input, steps) && Final(input, steps) == a[..]
      invariant steps + SelectionPasses(a[..], i) == SelectionPasses(input, 0)
      invariant PrefixPlaced(a[..], i)
      invariant |steps| - CountSwaps(steps) == PairsBefore(n, i)
      invariant CountSwaps(steps) <= i && (i > 0 ==> CountSwaps(steps) <= n - 1)
      invariant i >= 1 && n >= 2 ==> steps != []
    {
      ghost var steps0, a0 := steps, a[..];
      steps := SelectionPass(a, i, input, steps);
      SelectionRound(input, a0, a[..], n, i, steps0, steps);
      i := i + 1;
    }
    PairsBeforeClosed(n, n);
    assert PrefixPlaced(a[..], n);
  }

  /** One swap of the insertion loop moves the element at j one place left. */
  lemma InsertionSwap(input: seq<int>, steps: seq<Step>, i: nat, j: nat, s: Step)
    requires IsTrace(Insertion, input, steps)
    requires var prev := Final(input, steps);
      && 0 < j <= i < |prev| && prev[j - 1] > prev[j]
      && (forall x, y :: 0 <= x < y <= i && x != j && y != j ==> prev[x] <= prev[y])
      && (forall y :: j < y <= i ==> prev[j] <= prev[y])
    requires s == Step(Swap(Final(input, steps), j - 1, j), j - 1, j, true)
    ensures IsTrace(Insertion, input, steps + [s]) && Final(input, steps + [s]) == s.arr
    ensures forall x, y :: 0 <= x < y <= i && x != j - 1 && y != j - 1 ==> s.arr[x] <= s.arr[y]
    ensures forall y :: j - 1 < y <= i ==> s.arr[j - 1] <= s.arr[y]
  {
    TraceAppend(Insertion, input, steps, s);
  }

  /**
   * The steps insertion pass i yields on array `a` once element i has sunk to
   * position j: a swap step `[j-1, j]` for each further place it moves left,
   * then, when it never moved at all, the comparison step `[i-1, i]`.
   */
  function InsertionSink(a: seq<int>, i: nat, j: nat): (r: seq<Step>)
    requires 1 <= i < |a| && j <= i
    ensures forall k :: 0 <= k < |r| ==> |r[k].arr| == |a|
    decreases j
  {
    if j > 0 && a[j - 1] > a[j] then
      var b := a[j - 1 := a[j]][j := a[j - 1]];
      [Step(b, j - 1, j, true)] + InsertionSink(b, i, j - 1)
    else if j == i then [Step(a, if j - 1 < 0 then 0 else j - 1, j, false)]
    else []
  }

  /** The steps of insertion passes i, i+1, ... on array `a`. */
  function InsertionPasses(a: seq<int>, i: nat): seq<Step>
    requires 1 <= i
    decreases |a| - i
  {
    if i >= |a| then []
    else
      var p := InsertionSink(a, i, i);
      p + InsertionPasses(Final(a, p), i + 1)
  }

  /** Once element i has moved, every further step is a swap one place further left. */
  lemma {:induction false} InsertionSinkSwaps(a: seq<int>, i: nat, j: nat)
    requires 1 <= i < |a| && j < i
    ensures var r := InsertionSink(a, i, j);
      |r| <= j && forall k :: 0 <= k < |r| ==> r[k].swapped && r[k].left == j - 1 - k && r[k].right == j - k
    decreases j
  {
    var r := InsertionSink(a, i, j);
    if j > 0 && a[j - 1] > a[j] {
      var b := a[j - 1 := a[j]][j := a[j - 1]];
      var rest := InsertionSink(b, i, j - 1);
      assert r == [Step(b, j - 1, j, true)] + rest;
      InsertionSinkSwaps(b, i, j - 1);
      forall k | 1 <= k < |r|
        ensures r[k] == rest[k - 1]
      {
      }
    }
  }

  /**
   * Pass i yields the single non-swap step `[i-1, i]` exactly when element i
   * is already in place; otherwise it yields only swaps `[i-1, i]`,
   * `[i-2, i-1]`, ..., at least one and at most i.
   */
  lemma InsertionPassShape(a: seq<int>, i: nat)
    requires 1 <= i < |a|
    ensures a[i - 1] <= a[i] <==> InsertionSink(a, i, i) == [Step(a, i - 1, i, false)]
    ensures a[i - 1] > a[i] ==> var r := InsertionSink(a, i, i);
      1 <= |r| <= i && forall k :: 0 <= k < |r| ==> r[k].swapped && r[k].left == i - 1 - k && r[k].right == i - k
  {
    var r := InsertionSink(a, i, i);
    if a[i - 1] > a[i] {
      var b := a[i - 1 := a[i]][i := a[i - 1]];
      var rest := InsertionSink(b, i, i - 1);
      assert r == [Step(b, i - 1, i, true)] + rest;
      InsertionSinkSwaps(b, i, i - 1);
      forall k | 1 <= k < |r|
        ensures r[k] == rest[k - 1]
      {
      }
      assert r[0].swapped;
    }
  }

  /** One swap of the pass consumes the first step of the remaining schedule. */
  lemma SinkStep(cur: seq<int>, i: nat, j: nat, steps0: seq<Step>, steps: seq<Step>, a0: seq<int>, s: Step)
    requires 1 <= i < |cur| && 0 < j <= i && cur[j - 1] > cur[j]
    requires s == Step(Swap(cur, j - 1, j), j - 1, j, true)
    requires |a0| == |cur|
    requires steps + InsertionSink(cur, i, j) == steps0 + InsertionSink(a0, i, i)
    ensures (steps + [s]) + InsertionSink(s.arr, i, j - 1) == steps0 + InsertionSink(a0, i, i)
  {
    var rest := InsertionSink(s.arr, i, j - 1);
    assert InsertionSink(cur, i, j) == [s] + rest;
    StepsAssoc(steps, [s], rest);
  }

  /** A finished pass i consumes the first pass of the remaining schedule. */
  lemma InsertionPassesStep(input: seq<int>, a0: seq<int>, a1: seq<int>, i: nat, steps0: seq<Step>, steps: seq<Step>)
    requires 1 <= i < |a0|
    requires steps0 + InsertionPasses(a0, i) == InsertionPasses(input, 1)
    requires Final(input, steps0) == a0
    requires steps == steps0 + InsertionSink(a0, i, i)
    requires Final(input, steps) == a1
    ensures steps + InsertionPasses(a1, i + 1) == InsertionPasses(input, 1)
  {
    var p := InsertionSink(a0, i, i);
    FinalAppend(input, steps0, p);
    assert InsertionPasses(a0, i) == p + InsertionPasses(a1, i + 1);
    StepsAssoc(steps0, p, InsertionPasses(a1, i + 1));
  }

  /** Appended to the steps so far, pass i is a single non-swap step exactly when element i is in place. */
  lemma InsertionPassQuiet(a0: seq<int>, i: nat, steps0: seq<Step>, steps: seq<Step>)
    requires 1 <= i < |a0|
    requires steps == steps0 + InsertionSink(a0, i, i)
    ensures a0[i - 1] <= a0[i] <==> steps == steps0 + [Step(a0, i - 1, i, false)]
  {
    InsertionPassShape(a0, i);
    if steps == steps0 + [Step(a0, i - 1, i, false)] {
      assert InsertionSink(a0, i, i) == steps[|steps0|..] == [Step(a0, i - 1, i, false)];
    }
  }

  /**
   * The loop of insertion pass i: swap element i leftwards while its left
   * neighbour is greater, yielding after each swap; `j` is where it stops.
   */
  method SinkLoop(a: array<int>, i: nat, ghost input: seq<int>, steps0: seq<Step>) returns (steps: seq<Step>, j: nat)
    requires 1 <= i < a.Length
    requires IsTrace(Insertion, input, steps0) && Final(input, steps0) == a[..]
    requires forall x, y :: 0 <= x < y < i ==> a[x] <= a[y]
    modifies a
    ensures j <= i && !(j > 0 && a[j - 1] > a[j])
    ensures IsTrace(Insertion, input, steps) && Final(input, steps) == a[..]
    ensures forall x, y :: 0 <= x < y <= i && x != j && y != j ==> a[x] <= a[y]
    ensures forall y :: j < y <= i ==> a[j] <= a[y]
    ensures steps + InsertionSink(a[..], i, j) == steps0 + InsertionSink(old(a[..]), i, i)
  {
    ghost var a0 := a[..];
    steps := steps0;
    j := i;
    while j > 0 && a[j - 1] > a[j]
      invariant 0 <= j <= i
      invariant steps + InsertionSink(a[..], i, j) == steps0 + InsertionSink(a0, i, i)
      invariant IsTrace(Insertion, input, steps) && Final(input, steps) == a[..]
      invariant forall x, y :: 0 <= x < y <= i && x != j && y != j ==> a[x] <= a[y]
      invariant forall y :: j < y <= i ==> a[j] <= a[y]
    {
      ghost var prev := a[..];
      a[j - 1], a[j] := a[j], a[j - 1];
      assert a[..] == Swap(prev, j - 1, j);
      var s := Step(a[..], j - 1, j, true);
      InsertionSwap(input, steps, i, j, s);
      SinkStep(prev, i, j, steps0, steps, a0, s);
      steps := steps + [s];
      j := j - 1;
    }
  }

  /** One pass of `insertionSortSteps`: sink element i into the sorted prefix. */
  method InsertionPass(a: array<int>, i: nat, ghost input: seq<int>, steps0: seq<Step>) returns (steps: seq<Step>)
    requires 1 <= i < a.Length
    requires IsTrace(Insertion, input, steps0) && Final(input, steps0) == a[..]
    requires forall x, y :: 0 <= x < y < i ==> a[x] <= a[y]
    modifies a
    ensures IsTrace(Insertion, input, steps) && Final(input, steps) == a[..]
    ensures |steps0| < |steps|
    ensures forall x, y :: 0 <= x < y <= i ==> a[x] <= a[y]
    ensures steps == steps0 + InsertionSink(old(a[..]), i, i)
    ensures old(a[i - 1]) <= old(a[i]) <==> steps == steps0 + [Step(old(a[..]), i - 1, i, false)]
  {
    ghost var a0 := a[..];
    var j;
    steps, j := SinkLoop(a, i, input, steps0);
    if j == i {
      var s := Step(a[..], if j - 1 < 0 then 0 else j - 1, j, false);
      TraceAppend(Insertion, input, steps, s);
      steps := steps + [s];
    }
    InsertionPassQuiet(a0, i, steps0, steps);
  }

  /**
   * `insertionSortSteps`: for each i from 1, swap element i leftwards while
   * its left neighbour is greater, yielding after each swap; when no swap
   * happened, yield one comparison step [i-1, i].
   */
  method InsertionSortSteps(input: seq<int>) returns (steps: seq<Step>)
    ensures IsTrace(Insertion, input, steps)
    ensures |input| <= 1 <==> steps == []
    ensures Sorted(Final(input, steps))
    ensures steps == InsertionPasses(input, 1)
  {
    var n := |input|;
    var a := new int[n](k requires 0 <= k < n => input[k]);
    assert a[..] == input;
    steps := [];
    var i := 1;
    while i < n
      invariant 1 <= i <= if n == 0 then 1 else n
      invariant IsTrace(Insertion, input, steps) && Final(input, steps) == a[..]
      invariant steps + InsertionPasses(a[..], i) == InsertionPasses(input, 1)
      invariant forall x, y :: 0 <= x < y < i && y < n ==> a[x] <= a[y]
      invariant steps == [] <==> i == 1
    {
      ghost var steps0, a0 := steps, a[..];
      steps := InsertionPass(a, i, input, steps);
      InsertionPassesStep(input, a0, a[..], i, steps0, steps);
      i := i + 1;
    }
  }

  /** The generator `startSort` runs for an algorithm id. */
  function AlgorithmFor(selectedAlgo: string): Algorithm {
    if selectedAlgo == "bubble" then Bubble
    else if selectedAlgo == "selection" then Selection
    else if selectedAlgo == "insertion" then Insertion
    else Bubble
  }

  /**
   * `startSort`: run the generator chosen by the algorithm id on a copy of
   * the displayed values; the playback then shows the returned snapshots.
   */
  method StartSort(values: seq<int>, selectedAlgo: string) returns (algo: Algorithm, steps: seq<Step>)
    ensures algo == Selection <==> selectedAlgo == "selection"
    ensures algo == Insertion <==> selectedAlgo == "insertion"
    ensures IsTrace(algo, values, steps)
    ensures algo == Bubble ==> Lefts(steps) == BubbleSchedule(|values|, |values|)
    ensures algo == Selection ==> steps == SelectionPasses(values, 0)
    ensures algo == Insertion ==> steps == InsertionPasses(values, 1)
    ensures |values| <= 1 <==> steps == []
    ensures |Final(values, steps)| == |values|
    ensures multiset(Final(values, steps)) == multiset(values)
    ensures Sorted(Final(values, steps))
  {
    algo := AlgorithmFor(selectedAlgo);
    match algo {
      case Bubble => steps := BubbleSortSteps(values);
      case Selection => steps := SelectionSortSteps(values);
      case Insertion => steps := InsertionSortSteps(values);
    }
    TracePermutes(algo, values, steps);
    SnapshotPermutes(algo, values, steps, |steps|);
  }

  /** `generateArray`: `size` values `floor(u * 100) + 1`, one per random draw u in [0, 1). */
  function GenerateArray(size: nat, draws: seq<real>): (r: seq<int>)
    requires |draws| >= size
    requires forall k :: 0 <= k < |draws| ==> 0.0 <= draws[k] < 1.0
    ensures |r| == size
    ensures forall k :: 0 <= k < size ==> 1 <= r[k] <= 100
  {
    seq(size, k requires 0 <= k < size => (draws[k] * 100.0).Floor + 1)
  }
}
