/** The K-way merge of pthread/barrier_sort.c: `k` sorted segments of `t` numbers each, scanned with
    LONG_MAX as sentinel. Once only numbers equal to LONG_MAX are left the scan finds nothing, and the
    index of the previous turn (minidx) is reused; before the first find it is uninitialised. */
module Merge {
  import opened Options

  const LONG_MAX := 0x7FFF_FFFF_FFFF_FFFF

  ghost predicate Sorted(s: seq<int>) {
    forall i, j :: 0 <= i < j < |s| ==> s[i] <= s[j]
  }

  // ------------------------------------------------------------------ segments

  /** Where segment `i` begins: i*TNUM, by repeated addition to keep the proofs linear. */
  function Begin(i: nat, t: nat): nat {
    if i == 0 then 0 else Begin(i - 1, t) + t
  }

  lemma {:induction false} BeginIsProduct(i: nat, t: nat)
    ensures Begin(i, t) == i * t
  {
    if i > 0 {
      BeginIsProduct(i - 1, t);
    }
  }

  lemma {:induction false} BeginMonotone(i: nat, j: nat, t: nat)
    requires i <= j
    ensures Begin(i, t) <= Begin(j, t)
    ensures i < j ==> Begin(i, t) + t <= Begin(j, t)
    decreases j
  {
    if i < j {
      BeginMonotone(i, j - 1, t);
    }
  }

  ghost predicate Segmented(nums: seq<int>, k: nat, t: nat) {
    && |nums| == Begin(k, t)
    && (forall x :: x in nums ==> x <= LONG_MAX)
  }

  /** Segment `i` is sorted. */
  ghost predicate SortedSegment(nums: seq<int>, t: nat, i: nat) {
    forall a, b :: Begin(i, t) <= a < b < Begin(i + 1, t) && b < |nums| ==> nums[a] <= nums[b]
  }

  ghost predicate SortedSegments(nums: seq<int>, k: nat, t: nat) {
    forall i :: 0 <= i < k ==> SortedSegment(nums, t, i)
  }

  /** Indices start in their own segment and only grow; one may run past its segment's end. */
  ghost predicate Indexed(idx: seq<int>, k: nat, t: nat) {
    |idx| == k && forall i {:trigger idx[i]} :: 0 <= i < k ==> Begin(i, t) <= idx[i]
  }

  // ------------------------------------------------------------------ the code

  /** The inner loop after `i` turns: the least number found so far and the segment it heads. */
  function Scan(nums: seq<int>, idx: seq<int>, t: nat, last: Option<nat>, i: nat): (int, Option<nat>)
    requires i <= |idx| && Begin(i, t) <= |nums| && forall j :: 0 <= j < i ==> 0 <= idx[j]
  {
    if i == 0 then (LONG_MAX, last)
    else
      BeginMonotone(i - 1, i, t);
      var (num, minidx) := Scan(nums, idx, t, last, i - 1);
      if idx[i - 1] < Begin(i, t) && num > nums[idx[i - 1]] then (nums[idx[i - 1]], Some(i - 1))
      else (num, minidx)
  }

  /** Index `m` moved on by one. */
  function Advance(idx: seq<int>, m: nat): seq<int>
    requires m < |idx|
  {
    idx[m := idx[m] + 1]
  }

  datatype Progress = Progress(idx: seq<int>, minidx: Option<nat>, out: seq<int>)

  ghost predicate Ready(nums: seq<int>, k: nat, t: nat, p: Progress) {
    Segmented(nums, k, t) && Indexed(p.idx, k, t) && (p.minidx.Some? ==> p.minidx.value < k)
  }

  lemma {:induction false} ScanIndex(nums: seq<int>, idx: seq<int>, t: nat, last: Option<nat>, i: nat)
    requires i <= |idx| && Begin(i, t) <= |nums| && forall j :: 0 <= j < i ==> 0 <= idx[j]
    ensures var m := Scan(nums, idx, t, last, i).1; m == last || (m.Some? && m.value < i)
  {
    if i > 0 {
      BeginMonotone(i - 1, i, t);
      ScanIndex(nums, idx, t, last, i - 1);
    }
  }

  lemma {:induction false} IndexedNonNegative(idx: seq<int>, k: nat, t: nat)
    requires Indexed(idx, k, t)
    ensures forall j :: 0 <= j < k ==> 0 <= idx[j]
  {
    forall j | 0 <= j < k ensures 0 <= idx[j] {
      assert Begin(j, t) <= idx[j];
    }
  }

  /** One turn of the outer loop; None when minidx is used uninitialised. */
  ghost function Turn(nums: seq<int>, k: nat, t: nat, p: Progress): (r: Option<Progress>)
    requires Ready(nums, k, t, p)
    ensures r.Some? ==> Ready(nums, k, t, r.value)
  {
    IndexedNonNegative(p.idx, k, t);
    ScanIndex(nums, p.idx, t, p.minidx, k);
    var (num, minidx) := Scan(nums, p.idx, t, p.minidx, k);
    if minidx.None? then None
    else Some(Progress(Advance(p.idx, minidx.value), minidx, p.out + [num]))
  }

  ghost function Turns(nums: seq<int>, k: nat, t: nat, n: nat): (r: Option<Progress>)
    requires Segmented(nums, k, t)
    ensures r.Some? ==> Ready(nums, k, t, r.value)
  {
    if n == 0 then Some(Progress(seq(k, i requires 0 <= i < k => Begin(i, t)), None, []))
    else
      var r := Turns(nums, k, t, n - 1);
      if r.None? then None else Turn(nums, k, t, r.value)
  }

  /** The inner loop. */
  method ScanHeads(nums: array<int>, idx: array<int>, k: nat, t: nat, last: Option<nat>)
    returns (num: int, minidx: Option<nat>)
    requires idx.Length == k && nums.Length == Begin(k, t) && forall j :: 0 <= j < k ==> 0 <= idx[j]
    ensures (num, minidx) == Scan(nums[..], idx[..], t, last, k)
  {
    num, minidx := LONG_MAX, last;
    var i := 0;
    while i < k
      invariant 0 <= i <= k && Begin(i, t) <= Begin(k, t)
      invariant (num, minidx) == Scan(nums[..], idx[..], t, last, i)
    {
      BeginMonotone(i + 1, k, t);
      if idx[i] < Begin(i + 1, t) && num > nums[idx[i]] {
        num := nums[idx[i]];
        minidx := Some(i);
      }
      i := i + 1;
    }
  }

  /** The body of the outer loop. */
  method OneTurn(nums: array<int>, snums: array<int>, idx: array<int>, k: nat, t: nat, last: Option<nat>, sidx: nat)
    returns (minidx: Option<nat>)
    requires nums != snums && nums != idx && snums != idx && sidx < snums.Length
    requires Ready(nums[..], k, t, Progress(idx[..], last, snums[..sidx]))
    modifies snums, idx
    ensures var r := old(Turn(nums[..], k, t, Progress(idx[..], last, snums[..sidx])));
            r == if minidx.None? then None else Some(Progress(idx[..], minidx, snums[..sidx + 1]))
  {
    IndexedNonNegative(idx[..], k, t);
    ghost var p := Progress(idx[..], last, snums[..sidx]);
    var num;
    num, minidx := ScanHeads(nums, idx, k, t, last);
    ScanIndex(nums[..], p.idx, t, last, k);
    if minidx.Some? {
      snums[sidx] := num;
      idx[minidx.value] := idx[minidx.value] + 1;
      assert idx[..] == Advance(p.idx, minidx.value);
      assert snums[..sidx + 1] == p.out + [num];
    }
  }

  /** The loops of merge() do exactly these turns, and fail exactly when they do. */
  method MergeLoops(nums: array<int>, snums: array<int>, k: nat, t: nat) returns (ok: bool)
    requires nums != snums && nums.Length == snums.Length && Segmented(nums[..], k, t)
    modifies snums
    ensures ok <==> Turns(nums[..], k, t, nums.Length).Some?
    ensures ok ==> snums[..] == Turns(nums[..], k, t, nums.Length).value.out
  {
    ghost var ns := nums[..];
    var idx := new int[k](i => Begin(i, t));
    var minidx: Option<nat> := None;
    assert idx[..] == seq(k, i requires 0 <= i < k => Begin(i, t));
    var sidx := 0;
    ok := true;
    while ok && sidx < snums.Length
      invariant 0 <= sidx <= snums.Length && nums[..] == ns
      invariant ok ==> Turns(ns, k, t, sidx) == Some(Progress(idx[..], minidx, snums[..sidx]))
      invariant !ok ==> Turns(ns, k, t, sidx).None?
      decreases ok, snums.Length - sidx
      modifies snums, idx
    {
      minidx := OneTurn(nums, snums, idx, k, t, minidx, sidx);
      ok := minidx.Some?;
      sidx := sidx + 1;
    }
    if ok {
      assert snums[..sidx] == snums[..];
    } else {
      TurnsStayNone(ns, k, t, sidx, nums.Length);
    }
  }

  /** merge(): completes exactly when some number is below LONG_MAX or there is nothing to merge, and
      then leaves the input as a sorted permutation in snums. */
  method MergeInto(nums: array<int>, snums: array<int>, k: nat, t: nat) returns (ok: bool)
    requires nums != snums && nums.Length == snums.Length
    requires Segmented(nums[..], k, t) && SortedSegments(nums[..], k, t)
    modifies snums
    ensures ok <==> Mergeable(nums[..])
    ensures ok ==> Sorted(snums[..]) && multiset(snums[..]) == multiset(nums[..])
  {
    MergeSorts(nums[..], k, t);
    ok := MergeLoops(nums, snums, k, t);
  }

  lemma {:induction false} TurnsStayNone(nums: seq<int>, k: nat, t: nat, m: nat, n: nat)
    requires Segmented(nums, k, t) && m <= n && Turns(nums, k, t, m).None?
    ensures Turns(nums, k, t, n).None?
    decreases n
  {
    if m < n {
      TurnsStayNone(nums, k, t, m, n - 1);
    }
  }

  // ------------------------------------------------------------------ what is left to merge

  ghost predicate Scannable(nums: seq<int>, idx: seq<int>, t: nat, i: nat) {
    && i <= |idx| && Begin(i, t) <= |nums|
    && forall j {:trigger idx[j]} :: 0 <= j < i ==> Begin(j, t) <= idx[j]
  }

  /** How often `x` occurs from `lo` up to the segment end `hi`; never when `lo` has run past it. */
  function Count(nums: seq<int>, lo: nat, hi: nat, x: int): nat
    requires hi <= |nums|
    decreases hi - lo
  {
    if lo >= hi then 0 else (if nums[lo] == x then 1 else 0) + Count(nums, lo + 1, hi, x)
  }

  /** How often `x` occurs among the numbers the first `i` indices have not passed. */
  ghost function Left(nums: seq<int>, idx: seq<int>, t: nat, i: nat, x: int): nat
    requires Scannable(nums, idx, t, i)
  {
    if i == 0 then 0 else Left(nums, idx, t, i - 1, x) + Count(nums, idx[i - 1], Begin(i, t), x)
  }

  lemma {:induction false} CountSplit(nums: seq<int>, lo: nat, mid: nat, hi: nat, x: int)
    requires lo <= mid <= hi <= |nums|
    ensures Count(nums, lo, hi, x) == Count(nums, lo, mid, x) + Count(nums, mid, hi, x)
    decreases mid - lo
  {
    if lo < mid {
      CountSplit(nums, lo + 1, mid, hi, x);
    }
  }

  lemma {:induction false} CountAll(nums: seq<int>, lo: nat, x: int)
    requires lo <= |nums|
    ensures Count(nums, lo, |nums|, x) == multiset(nums[lo..])[x]
    decreases |nums| - lo
  {
    if lo < |nums| {
      CountAll(nums, lo + 1, x);
      assert nums[lo..] == [nums[lo]] + nums[lo + 1..];
    }
  }

  lemma {:induction false} CountWitness(nums: seq<int>, lo: nat, hi: nat, x: int)
    requires hi <= |nums|
    ensures Count(nums, lo, hi, x) > 0 <==> exists a :: lo <= a < hi && nums[a] == x
    decreases hi - lo
  {
    if lo < hi {
      CountWitness(nums, lo + 1, hi, x);
    }
  }

  lemma {:induction false} LeftAtStart(nums: seq<int>, idx: seq<int>, t: nat, i: nat, x: int)
    requires Scannable(nums, idx, t, i) && forall j :: 0 <= j < i ==> idx[j] == Begin(j, t)
    ensures Left(nums, idx, t, i, x) == Count(nums, 0, Begin(i, t), x)
  {
    if i > 0 {
      LeftAtStart(nums, idx, t, i - 1, x);
      CountSplit(nums, 0, Begin(i - 1, t), Begin(i, t), x);
    }
  }

  /** Moving an index inside its segment takes the number it points at; past the end, nothing. */
  lemma {:induction false} LeftAdvance(nums: seq<int>, idx: seq<int>, t: nat, i: nat, m: nat, x: int)
    requires Scannable(nums, idx, t, i) && m < |idx|
    ensures Scannable(nums, Advance(idx, m), t, i)
    ensures m < i && idx[m] < Begin(m + 1, t) ==> idx[m] < |nums|
    ensures Left(nums, idx, t, i, x) == Left(nums, Advance(idx, m), t, i, x) +
            if m < i && idx[m] < Begin(m + 1, t) && nums[idx[m]] == x then 1 else 0
  {
    if i > 0 {
      LeftAdvance(nums, idx, t, i - 1, m, x);
    }
  }

  /** A number the scan found heads the segment it names; otherwise minidx is left as it was. */
  lemma {:induction false} ScanSource(nums: seq<int>, idx: seq<int>, t: nat, last: Option<nat>, i: nat)
    requires Scannable(nums, idx, t, i)
    ensures var (num, m) := Scan(nums, idx, t, last, i);
            && num <= LONG_MAX
            && (num < LONG_MAX ==> m.Some? && m.value < i && idx[m.value] < Begin(m.value + 1, t) <= |nums| &&
                                   nums[idx[m.value]] == num)
            && (num == LONG_MAX ==> m == last)
  {
    if i > 0 {
      ScanSource(nums, idx, t, last, i - 1);
    }
  }

  /** Nothing that is left is smaller than what the scan found. */
  lemma {:induction false} ScanLeast(nums: seq<int>, idx: seq<int>, t: nat, last: Option<nat>, i: nat, x: int)
    requires Scannable(nums, idx, t, i) && SortedSegments(nums, i, t)
    requires forall y :: y in nums ==> y <= LONG_MAX
    ensures Left(nums, idx, t, i, x) > 0 ==> Scan(nums, idx, t, last, i).0 <= x
  {
    if i > 0 {
      ScanLeast(nums, idx, t, last, i - 1, x);
      CountWitness(nums, idx[i - 1], Begin(i, t), x);
      assert SortedSegment(nums, t, i - 1);
    }
  }

  // ------------------------------------------------------------------ the loop invariant

  /** The output so far does not exceed `y`. */
  predicate AtMost(out: seq<int>, y: int) {
    out == [] || out[|out| - 1] <= y
  }

  /** How often `x` is still owed to the output. */
  ghost function Owed(nums: seq<int>, out: seq<int>, x: int): int {
    multiset(nums)[x] as int - multiset(out)[x] as int
  }

  /** While the scan still finds numbers: what is left is what is owed, and none of it comes too late. */
  ghost predicate Merging(nums: seq<int>, k: nat, t: nat, p: Progress)
    requires Scannable(nums, p.idx, t, k)
  {
    forall x :: && Left(nums, p.idx, t, k, x) == Owed(nums, p.out, x)
                && (Left(nums, p.idx, t, k, x) > 0 ==> AtMost(p.out, x))
  }

  /** Once it finds none: only LONG_MAX is still owed, wherever the stale index has wandered. */
  ghost predicate Draining(nums: seq<int>, k: nat, t: nat, p: Progress)
    requires Scannable(nums, p.idx, t, k)
  {
    forall x :: x != LONG_MAX ==> Left(nums, p.idx, t, k, x) == 0 && Owed(nums, p.out, x) == 0
  }

  ghost predicate Inv(nums: seq<int>, k: nat, t: nat, p: Progress) {
    && Ready(nums, k, t, p) && Scannable(nums, p.idx, t, k)
    && (p.minidx.None? <==> p.out == [])
    && Sorted(p.out) && AtMost(p.out, LONG_MAX)
    && (forall x :: 0 <= Owed(nums, p.out, x))
    && (Merging(nums, k, t, p) || Draining(nums, k, t, p))
  }

  lemma OwedSnoc(nums: seq<int>, out: seq<int>, num: int, x: int)
    ensures Owed(nums, out + [num], x) == Owed(nums, out, x) - if x == num then 1 else 0
  {
  }

  /** When only LONG_MAX is owed, it is owed once per number that is missing. */
  lemma OwedMaxes(nums: seq<int>, out: seq<int>)
    requires forall x :: 0 <= Owed(nums, out, x)
    requires forall x :: x != LONG_MAX ==> Owed(nums, out, x) == 0
    ensures Owed(nums, out, LONG_MAX) == |nums| - |out|
  {
    var d := Owed(nums, out, LONG_MAX);
    var m := multiset(out)[LONG_MAX := multiset(out)[LONG_MAX] + d];
    forall x: int ensures m[x] == multiset(nums)[x] {
      assert Owed(nums, out, x) == if x == LONG_MAX then d else 0;
    }
    assert m == multiset(nums);
  }

  lemma SortedSnoc(out: seq<int>, num: int)
    requires Sorted(out) && AtMost(out, num)
    ensures Sorted(out + [num])
  {
  }

  /** A turn that finds a number below LONG_MAX. */
  lemma FindingTurn(nums: seq<int>, k: nat, t: nat, p: Progress, num: int, m: nat)
    requires Inv(nums, k, t, p) && Merging(nums, k, t, p)
    requires m < k && p.idx[m] < Begin(m + 1, t) <= |nums| && nums[p.idx[m]] == num < LONG_MAX
    requires forall x :: Left(nums, p.idx, t, k, x) > 0 ==> num <= x
    ensures Inv(nums, k, t, Progress(Advance(p.idx, m), Some(m), p.out + [num]))
  {
    var q := Progress(Advance(p.idx, m), Some(m), p.out + [num]);
    LeftAdvance(nums, p.idx, t, k, m, num);
    assert AtMost(p.out, num);
    SortedSnoc(p.out, num);
    forall x: int
      ensures Left(nums, q.idx, t, k, x) == Owed(nums, q.out, x)
      ensures Left(nums, q.idx, t, k, x) > 0 ==> AtMost(q.out, x)
    {
      LeftAdvance(nums, p.idx, t, k, m, x);
      OwedSnoc(nums, p.out, num, x);
    }
    assert Merging(nums, k, t, q);
  }

  /** A turn that finds nothing: LONG_MAX is put out although no index need point at it. */
  lemma StaleTurn(nums: seq<int>, k: nat, t: nat, p: Progress, m: nat)
    requires Inv(nums, k, t, p) && |p.out| < |nums| && m < k && p.minidx == Some(m)
    requires forall x :: Left(nums, p.idx, t, k, x) > 0 ==> LONG_MAX <= x
    ensures Inv(nums, k, t, Progress(Advance(p.idx, m), Some(m), p.out + [LONG_MAX]))
  {
    var q := Progress(Advance(p.idx, m), Some(m), p.out + [LONG_MAX]);
    OnlyMaxOwed(nums, k, t, p);
    SortedSnoc(p.out, LONG_MAX);
    forall x: int
      ensures 0 <= Owed(nums, q.out, x)
      ensures x != LONG_MAX ==> Left(nums, q.idx, t, k, x) == 0 && Owed(nums, q.out, x) == 0
    {
      LeftAdvance(nums, p.idx, t, k, m, x);
      OwedSnoc(nums, p.out, LONG_MAX, x);
    }
    assert Draining(nums, k, t, q);
  }

  lemma OnlyMaxOwed(nums: seq<int>, k: nat, t: nat, p: Progress)
    requires Inv(nums, k, t, p)
    requires forall x :: Left(nums, p.idx, t, k, x) > 0 ==> LONG_MAX <= x
    ensures Draining(nums, k, t, p) && Owed(nums, p.out, LONG_MAX) == |nums| - |p.out|
  {
    forall x | x != LONG_MAX ensures Left(nums, p.idx, t, k, x) == 0 && Owed(nums, p.out, x) == 0 {
      if Merging(nums, k, t, p) {
        assert Left(nums, p.idx, t, k, x) > 0 ==> multiset(nums)[x] > 0;
        assert multiset(nums)[x] > 0 ==> x in nums;
      }
    }
    OwedMaxes(nums, p.out);
  }

  lemma NothingBelow(nums: seq<int>, k: nat, t: nat, p: Progress)
    requires Inv(nums, k, t, p) && p.out == [] && nums != []
    requires forall x :: Left(nums, p.idx, t, k, x) > 0 ==> LONG_MAX <= x
    ensures !Mergeable(nums)
  {
    OnlyMaxOwed(nums, k, t, p);
    forall x | x in nums ensures x >= LONG_MAX {
      assert Owed(nums, p.out, x) > 0;
    }
  }

  lemma TurnKeepsInv(nums: seq<int>, k: nat, t: nat, p: Progress)
    requires Inv(nums, k, t, p) && SortedSegments(nums, k, t) && |p.out| < |nums|
    ensures var r := Turn(nums, k, t, p);
            && (r.Some? ==> Inv(nums, k, t, r.value) && |r.value.out| == |p.out| + 1)
            && (p.out == [] ==> (r.Some? <==> Mergeable(nums)))
            && (p.out != [] ==> r.Some?)
  {
    IndexedNonNegative(p.idx, k, t);
    ScanSource(nums, p.idx, t, p.minidx, k);
    var (num, m) := Scan(nums, p.idx, t, p.minidx, k);
    forall x: int ensures Left(nums, p.idx, t, k, x) > 0 ==> num <= x {
      ScanLeast(nums, p.idx, t, p.minidx, k, x);
    }
    if m.None? {
      NothingBelow(nums, k, t, p);
    } else if num < LONG_MAX {
      LeftAdvance(nums, p.idx, t, k, m.value, num);
      assert num in nums;
      FindingTurn(nums, k, t, p, num, m.value);
    } else {
      StaleTurn(nums, k, t, p, m.value);
    }
  }

  lemma StartInv(nums: seq<int>, k: nat, t: nat)
    requires Segmented(nums, k, t)
    ensures Inv(nums, k, t, Turns(nums, k, t, 0).value)
  {
    var p := Turns(nums, k, t, 0).value;
    forall x: int ensures Left(nums, p.idx, t, k, x) == Owed(nums, p.out, x) {
      LeftAtStart(nums, p.idx, t, k, x);
      CountAll(nums, 0, x);
      assert nums[0..] == nums;
    }
    assert Merging(nums, k, t, p);
  }

  /** Some number is below LONG_MAX, or there is nothing to merge. */
  ghost predicate Mergeable(nums: seq<int>) {
    nums == [] || exists x :: x in nums && x < 0x7FFF_FFFF_FFFF_FFFF
  }

  lemma {:induction false} TurnsKeepInv(nums: seq<int>, k: nat, t: nat, n: nat)
    requires Segmented(nums, k, t) && SortedSegments(nums, k, t) && n <= |nums|
    ensures var r := Turns(nums, k, t, n);
            && (n > 0 ==> (r.Some? <==> Mergeable(nums)))
            && (r.Some? ==> Inv(nums, k, t, r.value) && |r.value.out| == n)
  {
    if n == 0 {
      StartInv(nums, k, t);
    } else {
      TurnsKeepInv(nums, k, t, n - 1);
      var r := Turns(nums, k, t, n - 1);
      if r.Some? {
        TurnKeepsInv(nums, k, t, r.value);
      }
    }
  }

  /** merge() completes exactly when the input is mergeable, and then leaves a sorted permutation. */
  lemma MergeSorts(nums: seq<int>, k: nat, t: nat)
    requires Segmented(nums, k, t) && SortedSegments(nums, k, t)
    ensures var r := Turns(nums, k, t, |nums|);
            && (r.Some? <==> Mergeable(nums))
            && (r.Some? ==> Sorted(r.value.out) && multiset(r.value.out) == multiset(nums))
  {
    TurnsKeepInv(nums, k, t, |nums|);
    var r := Turns(nums, k, t, |nums|);
    if r.Some? {
      FullOutput(nums, k, t, r.value);
    }
  }

  lemma FullOutput(nums: seq<int>, k: nat, t: nat, p: Progress)
    requires Inv(nums, k, t, p) && |p.out| == |nums|
    ensures multiset(p.out) == multiset(nums)
  {
    var rest := multiset(nums) - multiset(p.out);
    forall x: int ensures multiset(p.out)[x] + rest[x] == multiset(nums)[x] {
      assert 0 <= Owed(nums, p.out, x);
    }
    assert multiset(nums) == multiset(p.out) + rest;
    assert |multiset(nums)| == |multiset(p.out)| + |rest|;
    assert rest == multiset{};
  }
}
