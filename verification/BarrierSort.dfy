/** The parallel sort of pthread/barrier_sort.c: `n` workers sort their own segment in place, meet the
    main thread at a barrier of n+1, and main then merges. qsort is any sequence of swaps inside the
    segment that ends with the segment sorted; every swap and every turn of merge() is one step. */
module BarrierSort {
  import opened Options
  import opened Merge

  datatype Worker = Unborn | Sorting | AtBarrier | Finished

  datatype Main = Creating | Waiting | Merging(p: Progress) | Undefined

  datatype State = State(nums: seq<int>, workers: seq<Worker>, created: nat, arrived: nat, main: Main)

  datatype Event =
    | Create
    | Swap(w: nat, a: nat, b: nat)
    | Arrive(w: nat)
    | Leave(w: nat)
    | MainArrive
    | MainLeave
    | MergeTurn

  /** Position `a` lies in the segment handed to worker `w`. */
  predicate Own(w: nat, t: nat, a: nat) {
    Begin(w, t) <= a < Begin(w + 1, t)
  }

  ghost predicate Enabled(n: nat, t: nat, s: State, e: Event) {
    match e
    case Create => s.main.Creating? && s.created < n && s.created < |s.workers|
    case Swap(w, a, b) =>
      && w < |s.workers| && s.workers[w].Sorting?
      && Own(w, t, a) && Own(w, t, b) && a < |s.nums| && b < |s.nums|
    case Arrive(w) => w < |s.workers| && s.workers[w].Sorting? && SortedSegment(s.nums, t, w)
    case Leave(w) => w < |s.workers| && s.workers[w].AtBarrier? && s.arrived == n + 1
    case MainArrive => s.main.Creating? && s.created == n
    case MainLeave => s.main.Waiting? && s.arrived == n + 1 && Segmented(s.nums, n, t)
    case MergeTurn => s.main.Merging? && |s.main.p.out| < |s.nums| && Ready(s.nums, n, t, s.main.p)
  }

  ghost function Apply(n: nat, t: nat, s: State, e: Event): State
    requires Enabled(n, t, s, e)
  {
    match e
    case Create => s.(workers := s.workers[s.created := Sorting], created := s.created + 1)
    case Swap(_, a, b) => s.(nums := s.nums[a := s.nums[b]][b := s.nums[a]])
    case Arrive(w) => s.(workers := s.workers[w := AtBarrier], arrived := s.arrived + 1)
    case Leave(w) => s.(workers := s.workers[w := Finished])
    case MainArrive => s.(main := Waiting, arrived := s.arrived + 1)
    case MainLeave => s.(main := Merging(Turns(s.nums, n, t, 0).value))
    case MergeTurn =>
      var r := Turn(s.nums, n, t, s.main.p);
      s.(main := if r.None? then Undefined else Merging(r.value))
  }

  ghost predicate CanRun(n: nat, t: nat, s: State, es: seq<Event>)
    decreases |es|
  {
    es == [] || (Enabled(n, t, s, es[0]) && CanRun(n, t, Apply(n, t, s, es[0]), es[1..]))
  }

  ghost function Run(n: nat, t: nat, s: State, es: seq<Event>): State
    requires CanRun(n, t, s, es)
    decreases |es|
  {
    if es == [] then s else Run(n, t, Apply(n, t, s, es[0]), es[1..])
  }

  function Start(n: nat, input: seq<int>): State {
    State(input, seq(n, _ => Unborn), 0, 0, Creating)
  }

  // ------------------------------------------------------------------ invariant

  /** The worker's qsort has returned. */
  predicate PastSort(w: Worker) {
    w.AtBarrier? || w.Finished?
  }

  function Count(ws: seq<Worker>): (c: nat)
    ensures c <= |ws|
  {
    if ws == [] then 0 else Count(ws[1..]) + if PastSort(ws[0]) then 1 else 0
  }

  lemma {:induction false} CountUpdate(ws: seq<Worker>, i: nat, w: Worker)
    requires i < |ws|
    ensures Count(ws[i := w]) == Count(ws) + (if PastSort(w) then 1 else 0) - if PastSort(ws[i]) then 1 else 0
  {
    if i > 0 {
      CountUpdate(ws[1..], i - 1, w);
      assert ws[i := w][1..] == ws[1..][i - 1 := w];
    } else {
      assert ws[0 := w][1..] == ws[1..];
    }
  }

  lemma {:induction false} CountFull(ws: seq<Worker>, i: nat)
    requires Count(ws) == |ws| && i < |ws|
    ensures PastSort(ws[i])
  {
    if i > 0 {
      CountFull(ws[1..], i - 1);
    }
  }

  lemma {:induction false} CountNone(ws: seq<Worker>)
    requires forall i :: 0 <= i < |ws| ==> ws[i].Unborn?
    ensures Count(ws) == 0
  {
    if ws != [] {
      CountNone(ws[1..]);
    }
  }

  ghost predicate Inv(n: nat, t: nat, input: seq<int>, s: State) {
    && Segmented(s.nums, n, t) && multiset(s.nums) == multiset(input)
    && |s.workers| == n && s.created <= n
    && (forall w :: 0 <= w < n ==> (s.workers[w].Unborn? <==> s.created <= w)) && (s.main.Creating? || s.created == n)
    && (forall w :: 0 <= w < n && PastSort(s.workers[w]) ==> SortedSegment(s.nums, t, w))
    && s.arrived == Count(s.workers) + (if s.main.Creating? then 0 else 1)
    && (s.main.Merging? || s.main.Undefined? ==> s.arrived == n + 1)
    && (s.main.Merging? ==> |s.main.p.out| <= |s.nums| && Turns(s.nums, n, t, |s.main.p.out|) == Some(s.main.p))
    && (s.main.Undefined? ==> !Mergeable(s.nums))
    && (forall w :: 0 <= w < n && s.workers[w].Finished? ==> s.arrived == n + 1)
  }

  /** Once main is past the barrier every qsort has returned and nobody writes the numbers any more. */
  lemma AllSorted(n: nat, t: nat, input: seq<int>, s: State)
    requires Inv(n, t, input, s) && (s.main.Merging? || s.main.Undefined? || s.arrived == n + 1)
    ensures SortedSegments(s.nums, n, t)
    ensures forall w :: 0 <= w < n ==> PastSort(s.workers[w])
  {
    forall w | 0 <= w < n ensures PastSort(s.workers[w]) {
      CountFull(s.workers, w);
    }
  }

  /** A swap by one worker leaves every other segment as it was. */
  lemma SwapStaysInside(t: nat, s: State, w: nat, a: nat, b: nat, v: nat, c: nat)
    requires Own(w, t, a) && Own(w, t, b) && Own(v, t, c) && v != w
    requires a < |s.nums| && b < |s.nums| && c < |s.nums|
    ensures s.nums[a := s.nums[b]][b := s.nums[a]][c] == s.nums[c]
  {
    if v < w {
      BeginMonotone(v + 1, w, t);
    } else {
      BeginMonotone(w + 1, v, t);
    }
  }

  lemma SwapKeepsSegment(t: nat, s: State, w: nat, a: nat, b: nat, v: nat)
    requires Own(w, t, a) && Own(w, t, b) && v != w && a < |s.nums| && b < |s.nums|
    requires SortedSegment(s.nums, t, v)
    ensures SortedSegment(s.nums[a := s.nums[b]][b := s.nums[a]], t, v)
  {
    var nums' := s.nums[a := s.nums[b]][b := s.nums[a]];
    forall c: nat | Own(v, t, c) && c < |s.nums| ensures nums'[c] == s.nums[c] {
      SwapStaysInside(t, s, w, a, b, v, c);
    }
  }

  lemma SwapPermutes(nums: seq<int>, a: nat, b: nat)
    requires a < |nums| && b < |nums|
    ensures var nums' := nums[a := nums[b]][b := nums[a]];
            multiset(nums') == multiset(nums) && forall x :: x in nums' ==> x in nums
  {
  }

  lemma SwapKeeps(n: nat, t: nat, input: seq<int>, s: State, w: nat, a: nat, b: nat)
    requires Inv(n, t, input, s) && Enabled(n, t, s, Swap(w, a, b))
    ensures Inv(n, t, input, Apply(n, t, s, Swap(w, a, b)))
  {
    var s' := Apply(n, t, s, Swap(w, a, b));
    SwapPermutes(s.nums, a, b);
    if s.main.Merging? || s.main.Undefined? {
      AllSorted(n, t, input, s);
      assert false;
    }
    forall v | 0 <= v < n && PastSort(s.workers[v]) ensures SortedSegment(s'.nums, t, v) {
      SwapKeepsSegment(t, s, w, a, b, v);
    }
  }

  lemma MergeTurnKeeps(n: nat, t: nat, input: seq<int>, s: State)
    requires Inv(n, t, input, s) && Enabled(n, t, s, MergeTurn)
    ensures Inv(n, t, input, Apply(n, t, s, MergeTurn))
  {
    AllSorted(n, t, input, s);
    TurnsKeepInv(s.nums, n, t, |s.main.p.out|);
    TurnsKeepInv(s.nums, n, t, |s.main.p.out| + 1);
  }

  lemma StepKeeps(n: nat, t: nat, input: seq<int>, s: State, e: Event)
    requires Inv(n, t, input, s) && Enabled(n, t, s, e)
    ensures Inv(n, t, input, Apply(n, t, s, e))
  {
    match e
    case Create => CountUpdate(s.workers, s.created, Sorting);
    case Swap(w, a, b) => SwapKeeps(n, t, input, s, w, a, b);
    case Arrive(w) => CountUpdate(s.workers, w, AtBarrier);
    case Leave(w) => CountUpdate(s.workers, w, Finished);
    case MergeTurn => MergeTurnKeeps(n, t, input, s);
    case _ =>
  }

  lemma {:induction false} RunKeeps(n: nat, t: nat, input: seq<int>, s: State, es: seq<Event>)
    requires Inv(n, t, input, s) && CanRun(n, t, s, es)
    ensures Inv(n, t, input, Run(n, t, s, es))
    decreases |es|
  {
    if es != [] {
      StepKeeps(n, t, input, s, es[0]);
      RunKeeps(n, t, input, Apply(n, t, s, es[0]), es[1..]);
    }
  }

  lemma EveryRun(n: nat, t: nat, input: seq<int>, es: seq<Event>)
    requires Segmented(input, n, t) && CanRun(n, t, Start(n, input), es)
    ensures Inv(n, t, input, Run(n, t, Start(n, input), es))
  {
    CountNone(Start(n, input).workers);
    RunKeeps(n, t, input, Start(n, input), es);
  }

  // ------------------------------------------------------------------ results

  /** Under every schedule main merges only after every worker has sorted its segment. */
  lemma MergeAfterSorts(n: nat, t: nat, input: seq<int>, es: seq<Event>)
    requires Segmented(input, n, t) && CanRun(n, t, Start(n, input), es)
    ensures var s := Run(n, t, Start(n, input), es);
            s.main.Merging? ==>
              SortedSegments(s.nums, n, t) && |s.workers| == n && forall w :: 0 <= w < n ==> PastSort(s.workers[w])
  {
    EveryRun(n, t, input, es);
    var s := Run(n, t, Start(n, input), es);
    if s.main.Merging? {
      AllSorted(n, t, input, s);
    }
  }

  /** Nobody leaves the barrier before everybody, main included, has come to it. */
  lemma NobodyLeavesEarly(n: nat, t: nat, input: seq<int>, es: seq<Event>, w: nat)
    requires Segmented(input, n, t) && CanRun(n, t, Start(n, input), es) && w < n
    ensures var s := Run(n, t, Start(n, input), es);
            && |s.workers| == n
            && (s.workers[w].Finished? ==> !s.main.Creating? && forall v :: 0 <= v < n ==> PastSort(s.workers[v]))
  {
    EveryRun(n, t, input, es);
    var s := Run(n, t, Start(n, input), es);
    if s.workers[w].Finished? {
      AllSorted(n, t, input, s);
      CountBound(s.workers);
    }
  }

  lemma CountBound(ws: seq<Worker>)
    ensures Count(ws) <= |ws|
  {
  }

  lemma HeadIsLeast(a: seq<int>, b: seq<int>)
    requires Sorted(a) && multiset(a) == multiset(b) && a != [] && b != []
    ensures a[0] <= b[0]
  {
    assert b[0] in multiset(a);
    var j :| 0 <= j < |a| && a[j] == b[0];
  }

  lemma TailMultiset(a: seq<int>)
    requires a != []
    ensures multiset(a[1..]) == multiset(a) - multiset{a[0]}
  {
    assert a == [a[0]] + a[1..];
  }

  lemma {:induction false} SortedUnique(a: seq<int>, b: seq<int>)
    requires Sorted(a) && Sorted(b) && multiset(a) == multiset(b)
    ensures a == b
  {
    assert |a| == |multiset(a)| == |multiset(b)| == |b|;
    if a != [] {
      HeadIsLeast(a, b);
      HeadIsLeast(b, a);
      TailMultiset(a);
      TailMultiset(b);
      SortedUnique(a[1..], b[1..]);
      assert a == [a[0]] + a[1..] && b == [b[0]] + b[1..];
    }
  }

  /** Under every schedule a completed merge equals the sequential sort of the same input. */
  lemma OutputIsTheSort(n: nat, t: nat, input: seq<int>, es: seq<Event>, sequential: seq<int>)
    requires Segmented(input, n, t) && CanRun(n, t, Start(n, input), es)
    requires Sorted(sequential) && multiset(sequential) == multiset(input)
    ensures var s := Run(n, t, Start(n, input), es);
            s.main.Merging? && |s.main.p.out| == |input| ==> s.main.p.out == sequential
  {
    EveryRun(n, t, input, es);
    var s := Run(n, t, Start(n, input), es);
    if s.main.Merging? && |s.main.p.out| == |input| {
      AllSorted(n, t, input, s);
      assert |s.nums| == |multiset(s.nums)| == |multiset(input)| == |input|;
      MergeSorts(s.nums, n, t);
      SortedUnique(s.main.p.out, sequential);
    }
  }

  /** Under every schedule, main's merge uses minidx uninitialised exactly when no number is below LONG_MAX. */
  lemma UndefinedExactly(n: nat, t: nat, input: seq<int>, es: seq<Event>)
    requires Segmented(input, n, t) && CanRun(n, t, Start(n, input), es)
    ensures var s := Run(n, t, Start(n, input), es);
            && (s.main.Undefined? ==> !Mergeable(input))
            && (Enabled(n, t, s, MergeTurn) ==> (Apply(n, t, s, MergeTurn).main.Undefined? <==> !Mergeable(input)))
  {
    EveryRun(n, t, input, es);
    var s := Run(n, t, Start(n, input), es);
    SameMergeable(s.nums, input);
    if Enabled(n, t, s, MergeTurn) {
      AllSorted(n, t, input, s);
      TurnsKeepInv(s.nums, n, t, |s.main.p.out| + 1);
    }
  }

  lemma SameMergeable(a: seq<int>, b: seq<int>)
    requires multiset(a) == multiset(b)
    ensures Mergeable(a) <==> Mergeable(b)
  {
    assert forall x :: x in a <==> x in multiset(a);
    assert forall x :: x in b <==> x in multiset(b);
    assert |a| == |multiset(a)| == |b|;
  }

  // ------------------------------------------------------------------ progress

  lemma {:induction false} CountMissing(ws: seq<Worker>) returns (w: nat)
    requires Count(ws) < |ws|
    ensures w < |ws| && !PastSort(ws[w])
  {
    if PastSort(ws[0]) {
      w := CountMissing(ws[1..]);
      w := w + 1;
    } else {
      w := 0;
    }
  }

  /** A worker that sorts can arrive, or has two numbers in the wrong order to swap. */
  lemma SorterMoves(n: nat, t: nat, input: seq<int>, s: State, w: nat) returns (e: Event)
    requires Inv(n, t, input, s) && w < n && s.workers[w].Sorting?
    ensures Enabled(n, t, s, e) && (e.Arrive? || (e.Swap? && e.a < e.b && s.nums[e.a] > s.nums[e.b]))
  {
    if SortedSegment(s.nums, t, w) {
      e := Arrive(w);
    } else {
      BeginMonotone(0, w, t);
      var a, b :| Begin(w, t) <= a < b < Begin(w + 1, t) && b < |s.nums| && s.nums[a] > s.nums[b];
      e := Swap(w, a, b);
    }
  }

  /** The merge is complete or has gone wrong, and the workers have returned. */
  predicate AtEnd(s: State) {
    Merged(s) && Left(s.workers) == 0
  }

  predicate Merged(s: State) {
    s.main.Undefined? || (s.main.Merging? && |s.main.p.out| == |s.nums|)
  }

  /** Workers that have not returned. */
  function Left(ws: seq<Worker>): nat {
    if ws == [] then 0 else Left(ws[1..]) + if ws[0].Finished? then 0 else 1
  }

  lemma {:induction false} LeftUpdate(ws: seq<Worker>, i: nat, w: Worker)
    requires i < |ws|
    ensures Left(ws[i := w]) == Left(ws) + (if w.Finished? then 0 else 1) - if ws[i].Finished? then 0 else 1
  {
    if i > 0 {
      LeftUpdate(ws[1..], i - 1, w);
      assert ws[i := w][1..] == ws[1..][i - 1 := w];
    } else {
      assert ws[0 := w][1..] == ws[1..];
    }
  }

  lemma {:induction false} SomebodyLeft(ws: seq<Worker>) returns (w: nat)
    requires Left(ws) > 0
    ensures w < |ws| && !ws[w].Finished?
  {
    if ws[0].Finished? {
      w := SomebodyLeft(ws[1..]);
      w := w + 1;
    } else {
      w := 0;
    }
  }

  lemma {:induction false} NobodyLeft(ws: seq<Worker>, w: nat)
    requires Left(ws) == 0 && w < |ws|
    ensures ws[w].Finished?
  {
    if w > 0 {
      NobodyLeft(ws[1..], w - 1);
    }
  }

  predicate Useful(s: State, e: Event) {
    e.Swap? ==> e.a < e.b < |s.nums| && s.nums[e.a] > s.nums[e.b]
  }

  lemma UnfinishedMoves(n: nat, t: nat, input: seq<int>, s: State) returns (e: Event)
    requires Inv(n, t, input, s) && !AtEnd(s)
    ensures Enabled(n, t, s, e) && Useful(s, e)
  {
    if Merged(s) {
      AllSorted(n, t, input, s);
      var w := SomebodyLeft(s.workers);
      e := Leave(w);
      return;
    }
    match s.main {
      case Creating => e := if s.created < n then Create else MainArrive;
      case Waiting =>
        if s.arrived == n + 1 {
          e := MainLeave;
        } else {
          var w := CountMissing(s.workers);
          e := SorterMoves(n, t, input, s, w);
        }
      case Merging(p) =>
        AllSorted(n, t, input, s);
        TurnsKeepInv(s.nums, n, t, |p.out|);
        e := MergeTurn;
    }
  }

  /** Under every schedule, until the merge is complete or undefined, somebody can move, and not by an idle
      swap: the barrier never leaves everybody waiting. */
  lemma SomebodyMoves(n: nat, t: nat, input: seq<int>, es: seq<Event>) returns (e: Event)
    requires Segmented(input, n, t) && CanRun(n, t, Start(n, input), es)
    requires !AtEnd(Run(n, t, Start(n, input), es))
    ensures Enabled(n, t, Run(n, t, Start(n, input), es), e) && Useful(Run(n, t, Start(n, input), es), e)
  {
    EveryRun(n, t, input, es);
    e := UnfinishedMoves(n, t, input, Run(n, t, Start(n, input), es));
  }

  // ------------------------------------------------------------------ every input can be sorted

  /** Falls with every swap of two numbers in the wrong order. */
  function Disorder(nums: seq<int>, n: nat): int
    requires n <= |nums|
  {
    if n == 0 then 0 else Disorder(nums, n - 1) + (n - 1) * (LONG_MAX - nums[n - 1])
  }

  lemma {:induction false} DisorderBounded(nums: seq<int>, n: nat)
    requires n <= |nums| && forall x :: x in nums ==> x <= LONG_MAX
    ensures Disorder(nums, n) >= 0
  {
    if n > 0 {
      DisorderBounded(nums, n - 1);
      assert nums[n - 1] in nums;
      NonNegative(n - 1, LONG_MAX - nums[n - 1]);
    }
  }

  lemma NonNegative(a: int, b: int)
    requires a >= 0 && b >= 0
    ensures a * b >= 0
  {
  }

  lemma Distributes(i: int, a: int, b: int)
    ensures i * (a + b) == i * a + i * b
  {
  }

  lemma {:induction false} DisorderUpdate(nums: seq<int>, i: nat, v: int, n: nat)
    requires i < |nums| && n <= |nums|
    ensures Disorder(nums[i := v], n) == Disorder(nums, n) + if i < n then i * (nums[i] - v) else 0
  {
    if n > 0 {
      DisorderUpdate(nums, i, v, n - 1);
      if n - 1 == i {
        Distributes(i, LONG_MAX - nums[i], nums[i] - v);
        assert LONG_MAX - nums[i] + (nums[i] - v) == LONG_MAX - v;
      }
    }
  }

  lemma SwapDescends(nums: seq<int>, a: nat, b: nat)
    requires a < b < |nums| && nums[a] > nums[b]
    ensures Disorder(nums[a := nums[b]][b := nums[a]], |nums|) < Disorder(nums, |nums|)
  {
    var x, y := nums[a], nums[b];
    DisorderUpdate(nums, a, y, |nums|);
    DisorderUpdate(nums[a := y], b, x, |nums|);
    assert a * (x - y) + b * (y - x) == (b - a) * (y - x);
    assert (b - a) * (y - x) < 0 by {
      ProductNegative(b - a, y - x);
    }
  }

  lemma ProductNegative(p: int, q: int)
    requires p > 0 && q < 0
    ensures p * q < 0
  {
  }

  function MainRank(m: Main): nat {
    match m case Creating => 3 case Waiting => 2 case Merging(_) => 1 case Undefined => 0
  }

  /** How far a state is from its end: in lexicographic order, every useful event brings it nearer. */
  ghost predicate Nearer(n: nat, s: State, s': State) {
    var m, m' := MainRank(s.main), MainRank(s'.main);
    || m' < m
    || (m' == m && (|| s'.created > s.created
                    || (s'.created == s.created && (|| Count(s'.workers) > Count(s.workers)
                                                    || (Count(s'.workers) == Count(s.workers) && Sorts(s, s'))))))
  }

  ghost predicate Sorts(s: State, s': State) {
    || (|s'.nums| == |s.nums| && Disorder(s'.nums, |s.nums|) < Disorder(s.nums, |s.nums|))
    || (s'.nums == s.nums && OutLength(s'.main) > OutLength(s.main))
    || (s'.nums == s.nums && s'.main == s.main && Left(s'.workers) < Left(s.workers))
  }

  lemma UsefulDescends(n: nat, t: nat, input: seq<int>, s: State, e: Event)
    requires Inv(n, t, input, s) && Enabled(n, t, s, e) && Useful(s, e)
    ensures Nearer(n, s, Apply(n, t, s, e))
  {
    match e
    case Create => CountUpdate(s.workers, s.created, Sorting);
    case Swap(w, a, b) => SwapDescends(s.nums, a, b);
    case Arrive(w) => CountUpdate(s.workers, w, AtBarrier);
    case Leave(w) =>
      CountUpdate(s.workers, w, Finished);
      LeftUpdate(s.workers, w, Finished);
    case MergeTurn =>
      AllSorted(n, t, input, s);
      TurnsKeepInv(s.nums, n, t, |s.main.p.out| + 1);
    case _ =>
  }

  function OutLength(m: Main): nat {
    if m.Merging? then |m.p.out| else 0
  }

  lemma {:induction false} Complete(n: nat, t: nat, input: seq<int>, s: State) returns (es: seq<Event>)
    requires Inv(n, t, input, s)
    ensures CanRun(n, t, s, es) && AtEnd(Run(n, t, s, es))
    decreases MainRank(s.main), n - s.created, n - Count(s.workers), Disorder(s.nums, |s.nums|),
              |s.nums| - OutLength(s.main), Left(s.workers)
  {
    es := [];
    if !AtEnd(s) {
      var e := UnfinishedMoves(n, t, input, s);
      var s' := Apply(n, t, s, e);
      StepKeeps(n, t, input, s, e);
      UsefulDescends(n, t, input, s, e);
      DisorderBounded(s.nums, |s.nums|);
      DisorderBounded(s'.nums, |s'.nums|);
      var rest := Complete(n, t, input, s');
      es := [e] + rest;
      assert es[1..] == rest;
    }
  }

  /** Every input has runs to the end: with a number below LONG_MAX, or none at all, to the sorted output. */
  lemma CanComplete(n: nat, t: nat, input: seq<int>) returns (es: seq<Event>)
    requires Segmented(input, n, t)
    ensures CanRun(n, t, Start(n, input), es)
    ensures var s := Run(n, t, Start(n, input), es);
            && (if Mergeable(input)
                then s.main.Merging? && Sorted(s.main.p.out) && multiset(s.main.p.out) == multiset(input)
                else s.main.Undefined?)
            && forall w :: 0 <= w < |s.workers| ==> s.workers[w].Finished?
  {
    CountNone(Start(n, input).workers);
    es := Complete(n, t, input, Start(n, input));
    EveryRun(n, t, input, es);
    var s := Run(n, t, Start(n, input), es);
    SameMergeable(s.nums, input);
    AllSorted(n, t, input, s);
    MergeSorts(s.nums, n, t);
    forall w | 0 <= w < |s.workers| ensures s.workers[w].Finished? {
      NobodyLeft(s.workers, w);
    }
  }
}
