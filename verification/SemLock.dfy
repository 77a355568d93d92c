/** IPC/semlock_test.c over the binary semaphore of IPC/sem_lock.c: any number of threads, each adding
    one `n` times to a shared int, with the load and the store of `cnt += 1` as separate steps. */
module SemLock {

  const INT_MAX := 0x7FFF_FFFF

  /** The value an int keeps of `v` (two's complement). */
  function Wrap(v: int): int {
    (v + 0x8000_0000) % 0x1_0000_0000 - 0x8000_0000
  }

  datatype Phase = Outside | Locked | Loaded(value: int) | Stored

  /** `turns` completed iterations of the loop. */
  datatype Thread = Thread(turns: nat, phase: Phase)

  /** `failed` counts s_lock calls that returned an error, which the threads do not look at. */
  datatype State = State(sem: nat, cnt: int, threads: seq<Thread>, failed: nat)

  /** A step of thread `t`; `Try` is s_trylock, which fails instead of waiting; `LockFails` is an s_lock
      whose sem_wait fails, after which the thread goes on as if it had the lock. */
  datatype Event = Lock(t: nat) | LockFails(t: nat) | Try(t: nat) | Load(t: nat) | Store(t: nat) | Unlock(t: nat)

  predicate Enabled(n: nat, s: State, e: Event) {
    && e.t < |s.threads|
    && var th := s.threads[e.t];
       match e
       case Lock(_) => th.phase.Outside? && th.turns < n && s.sem > 0
       case LockFails(_) => th.phase.Outside? && th.turns < n
       case Try(_) => th.phase.Outside? && th.turns < n
       case Load(_) => th.phase.Locked?
       case Store(_) => th.phase.Loaded?
       case Unlock(_) => th.phase.Stored?
  }

  function Set(s: State, t: nat, th: Thread): State
    requires t < |s.threads|
  {
    s.(threads := s.threads[t := th])
  }

  function Apply(n: nat, s: State, e: Event): State
    requires Enabled(n, s, e)
  {
    var th := s.threads[e.t];
    match e
    case Lock(t) => Set(s, t, th.(phase := Locked)).(sem := s.sem - 1)
    case LockFails(t) => Set(s, t, th.(phase := Locked)).(failed := s.failed + 1)
    case Try(t) => if s.sem > 0 then Set(s, t, th.(phase := Locked)).(sem := s.sem - 1) else s
    case Load(t) => Set(s, t, th.(phase := Loaded(s.cnt)))
    case Store(t) => Set(s, t, th.(phase := Stored)).(cnt := Wrap(th.phase.value + 1))
    case Unlock(t) => Set(s, t, Thread(th.turns + 1, Outside)).(sem := s.sem + 1)
  }

  predicate CanRun(n: nat, s: State, es: seq<Event>)
    decreases |es|
  {
    es == [] || (Enabled(n, s, es[0]) && CanRun(n, Apply(n, s, es[0]), es[1..]))
  }

  function Run(n: nat, s: State, es: seq<Event>): State
    requires CanRun(n, s, es)
    decreases |es|
  {
    if es == [] then s else Run(n, Apply(n, s, es[0]), es[1..])
  }

  /** s_alloc opens the semaphore with value 1. */
  function Start(threads: nat): State {
    State(1, 0, seq(threads, _ => Thread(0, Outside)), 0)
  }

  // ------------------------------------------------------------------ invariant

  /** Threads between s_lock and s_unlock. */
  function Busy(ts: seq<Thread>): nat {
    if ts == [] then 0 else Busy(ts[1..]) + if ts[0].phase.Outside? then 0 else 1
  }

  /** Increments stored so far. */
  function Total(ts: seq<Thread>): nat {
    if ts == [] then 0 else Total(ts[1..]) + ts[0].turns + if ts[0].phase.Stored? then 1 else 0
  }

  lemma {:induction false} Update(ts: seq<Thread>, i: nat, th: Thread)
    requires i < |ts|
    ensures Busy(ts[i := th]) + Busy([ts[i]]) == Busy(ts) + Busy([th])
    ensures Total(ts[i := th]) + Total([ts[i]]) == Total(ts) + Total([th])
  {
    if i == 0 {
      assert ts[0 := th][1..] == ts[1..];
    } else {
      Update(ts[1..], i - 1, th);
      assert ts[i := th][1..] == ts[1..][i - 1 := th];
    }
  }

  lemma {:induction false} BusyBound(ts: seq<Thread>, i: nat, j: nat)
    requires i < j < |ts| && !ts[i].phase.Outside? && !ts[j].phase.Outside?
    ensures Busy(ts) >= 2
  {
    if i > 0 {
      BusyBound(ts[1..], i - 1, j - 1);
    } else {
      BusyOne(ts[1..], j - 1);
    }
  }

  lemma {:induction false} BusyOne(ts: seq<Thread>, i: nat)
    requires i < |ts| && !ts[i].phase.Outside?
    ensures Busy(ts) >= 1
  {
    if i > 0 {
      BusyOne(ts[1..], i - 1);
    }
  }

  ghost predicate Inv(n: nat, s: State) {
    && s.sem + Busy(s.threads) == 1 + s.failed
    && (s.failed == 0 ==> s.cnt == Wrap(Total(s.threads)))
    && (forall i :: 0 <= i < |s.threads| ==> Good(n, s, s.threads[i]))
  }

  predicate Good(n: nat, s: State, th: Thread) {
    && th.turns <= n && (!th.phase.Outside? ==> th.turns < n)
    && (s.failed == 0 && th.phase.Loaded? ==> th.phase.value == s.cnt)
  }

  lemma WrapNext(v: int)
    ensures Wrap(Wrap(v) + 1) == Wrap(v + 1)
  {
  }

  lemma Alone(n: nat, s: State, t: nat, j: nat)
    requires Inv(n, s) && s.failed == 0 && t < |s.threads| && j < |s.threads| && t != j && !s.threads[t].phase.Outside?
    ensures s.threads[j].phase.Outside?
  {
    if !s.threads[j].phase.Outside? {
      BusyBound(s.threads, if t < j then t else j, if t < j then j else t);
    }
  }

  lemma StepKeeps(n: nat, s: State, e: Event)
    requires Inv(n, s) && Enabled(n, s, e)
    ensures Inv(n, Apply(n, s, e))
  {
    var s' := Apply(n, s, e);
    Update(s.threads, e.t, s'.threads[e.t]);
    assert s'.threads == s.threads[e.t := s'.threads[e.t]];
    WrapNext(Total(s.threads));
    forall j | 0 <= j < |s'.threads| ensures Good(n, s', s'.threads[j]) {
      assert Good(n, s, s.threads[j]);
      if e.Store? && j != e.t && s.failed == 0 {
        Alone(n, s, e.t, j);
      }
    }
  }

  lemma {:induction false} RunKeeps(n: nat, s: State, es: seq<Event>)
    requires Inv(n, s) && CanRun(n, s, es)
    ensures Inv(n, Run(n, s, es)) && |Run(n, s, es).threads| == |s.threads|
    decreases |es|
  {
    if es != [] {
      StepKeeps(n, s, es[0]);
      RunKeeps(n, Apply(n, s, es[0]), es[1..]);
    }
  }

  lemma {:induction false} Fresh(ts: seq<Thread>)
    requires forall i :: 0 <= i < |ts| ==> ts[i] == Thread(0, Outside)
    ensures Busy(ts) == 0 && Total(ts) == 0
  {
    if ts != [] {
      Fresh(ts[1..]);
    }
  }

  lemma EveryRun(threads: nat, n: nat, es: seq<Event>)
    requires CanRun(n, Start(threads), es)
    ensures var s := Run(n, Start(threads), es); Inv(n, s) && |s.threads| == threads
  {
    Fresh(Start(threads).threads);
    RunKeeps(n, Start(threads), es);
  }

  // ------------------------------------------------------------------ results

  /** The s_lock calls of a schedule that fail. */
  function Failures(es: seq<Event>): nat {
    if es == [] then 0 else Failures(es[1..]) + if es[0].LockFails? then 1 else 0
  }

  lemma {:induction false} FailuresCounted(n: nat, s: State, es: seq<Event>)
    requires CanRun(n, s, es)
    ensures Run(n, s, es).failed == s.failed + Failures(es)
    decreases |es|
  {
    if es != [] {
      FailuresCounted(n, Apply(n, s, es[0]), es[1..]);
    }
  }

  /** The semaphore's value plus the threads inside is always one more than the s_lock calls that failed, so
      until one fails nobody is inside with somebody else. */
  lemma MutualExclusion(threads: nat, n: nat, es: seq<Event>, i: nat, j: nat)
    requires CanRun(n, Start(threads), es) && i < threads && j < threads && i != j
    ensures var s := Run(n, Start(threads), es);
            && |s.threads| == threads && s.sem + Busy(s.threads) == 1 + Failures(es)
            && (Failures(es) == 0 ==> s.threads[i].phase.Outside? || s.threads[j].phase.Outside?)
  {
    EveryRun(threads, n, es);
    FailuresCounted(n, Start(threads), es);
    var s := Run(n, Start(threads), es);
    if s.failed == 0 && !s.threads[i].phase.Outside? {
      Alone(n, s, i, j);
    }
  }

  /** As long as no s_lock has failed, s_trylock takes the lock exactly when no other thread is inside. */
  lemma TrylockExactly(threads: nat, n: nat, es: seq<Event>, t: nat)
    requires CanRun(n, Start(threads), es) && Failures(es) == 0
    requires Enabled(n, Run(n, Start(threads), es), Try(t))
    ensures var s := Run(n, Start(threads), es); var s' := Apply(n, s, Try(t));
            && |s'.threads| == |s.threads|
            && (s'.threads[t].phase.Locked? <==>
                  forall j :: 0 <= j < |s.threads| ==> s.threads[j].phase.Outside?)
            && (!s'.threads[t].phase.Locked? ==> s' == s)
  {
    EveryRun(threads, n, es);
    FailuresCounted(n, Start(threads), es);
    var s := Run(n, Start(threads), es);
    if s.sem == 0 {
      var j := SomebodyBusy(s.threads);
    } else {
      forall j | 0 <= j < |s.threads| ensures s.threads[j].phase.Outside? {
        if !s.threads[j].phase.Outside? {
          BusyOne(s.threads, j);
        }
      }
    }
  }

  /** One failing s_lock is enough to have two threads inside at once. */
  lemma FailedLockAdmitsTwo(threads: nat, n: nat)
    requires threads >= 2 && n >= 1
    ensures var es := [Lock(0), LockFails(1)];
            CanRun(n, Start(threads), es) && Failures(es) == 1 &&
            var s := Run(n, Start(threads), es);
            |s.threads| == threads && !s.threads[0].phase.Outside? && !s.threads[1].phase.Outside?
  {
    var es := [Lock(0), LockFails(1)];
    var s1 := Apply(n, Start(threads), es[0]);
    assert Enabled(n, s1, es[1]);
    assert es[1..][1..] == [];
  }

  lemma {:induction false} AllTurns(n: nat, ts: seq<Thread>)
    requires forall i :: 0 <= i < |ts| ==> ts[i] == Thread(n, Outside)
    ensures Total(ts) == |ts| * n
  {
    if ts != [] {
      AllTurns(n, ts[1..]);
      assert |ts| * n == (|ts| - 1) * n + n;
    }
  }

  /** Every thread has returned. */
  ghost predicate Over(n: nat, s: State) {
    forall i :: 0 <= i < |s.threads| ==> s.threads[i] == Thread(n, Outside)
  }

  /** No update is lost unless an s_lock failed: the counter ends at threads*n, as an int keeps it, and so
      at threads*n exactly when that fits. */
  lemma NoLostUpdate(threads: nat, n: nat, es: seq<Event>)
    requires CanRun(n, Start(threads), es) && Over(n, Run(n, Start(threads), es))
    ensures var s := Run(n, Start(threads), es);
            Failures(es) == 0 ==>
              && s.cnt == Wrap(threads * n)
              && (s.cnt == threads * n <==> threads * n <= INT_MAX)
  {
    EveryRun(threads, n, es);
    FailuresCounted(n, Start(threads), es);
    AllTurns(n, Run(n, Start(threads), es).threads);
    assert 0 <= threads * n;
  }

  // ------------------------------------------------------------------ when exactly an update is lost

  /** The position of the last load of thread `t`, or -1. */
  function LastLoad(es: seq<Event>, t: nat): (i: int)
    ensures -1 <= i < |es|
    ensures i >= 0 ==> es[i] == Load(t)
    ensures forall m :: i < m < |es| ==> es[m] != Load(t)
  {
    if es == [] then -1 else if es[|es| - 1] == Load(t) then |es| - 1 else LastLoad(es[..|es| - 1], t)
  }

  function Stores(es: seq<Event>): nat {
    if es == [] then 0 else Stores(es[..|es| - 1]) + if es[|es| - 1].Store? then 1 else 0
  }

  /** The counter as an unbounded number: each store adds one to what its thread loaded last. */
  function Value(es: seq<Event>): nat {
    if es == [] then 0
    else
      var before := es[..|es| - 1];
      var e := es[|es| - 1];
      if e.Store? then Value(before[..LoadBefore(before, e.t)]) + 1 else Value(before)
  }

  function LoadBefore(es: seq<Event>, t: nat): (i: nat)
    ensures i <= |es|
  {
    if LastLoad(es, t) < 0 then 0 else LastLoad(es, t)
  }

  /** The store at `k` is stale: another one, at `j`, came after the load it is based on. */
  ghost predicate Stale(es: seq<Event>, j: int, k: int) {
    0 <= j < k < |es| && es[j].Store? && es[k].Store? && LastLoad(es[..k], es[k].t) < j
  }

  /** No thread stores when there was a store since its own load. */
  ghost predicate NoStaleStore(es: seq<Event>) {
    forall j, k :: !Stale(es, j, k)
  }

  ghost predicate StoreFree(es: seq<Event>, i: nat) {
    forall j :: i <= j < |es| ==> !es[j].Store?
  }

  lemma {:induction false} StoresPrefix(es: seq<Event>, i: nat)
    requires i <= |es|
    ensures Stores(es[..i]) <= Stores(es)
    ensures Stores(es[..i]) == Stores(es) <==> StoreFree(es, i)
  {
    if i < |es| {
      StoresPrefix(es[..|es| - 1], i);
      assert es[..|es| - 1][..i] == es[..i];
    } else {
      assert es[..i] == es;
    }
  }

  lemma {:induction false} StaleInPrefix(es: seq<Event>, i: nat, j: int, k: int)
    requires i <= |es|
    ensures Stale(es[..i], j, k) <==> k < i && Stale(es, j, k)
  {
    if 0 <= k < i {
      assert es[..i][..k] == es[..k];
    }
  }

  lemma {:induction false} NoStalePrefix(es: seq<Event>, i: nat)
    requires i <= |es| && NoStaleStore(es)
    ensures NoStaleStore(es[..i])
  {
    forall j, k ensures !Stale(es[..i], j, k) {
      StaleInPrefix(es, i, j, k);
    }
  }

  /** From `i` on only the last event may be a store, and one that is based on what was there at `i`. */
  lemma {:induction false} NoStaleExtends(es: seq<Event>, i: nat)
    requires i < |es| && NoStaleStore(es[..i]) && StoreFree(es[..|es| - 1], i)
    requires es[|es| - 1].Store? ==> LastLoad(es[..|es| - 1], es[|es| - 1].t) >= i - 1
    ensures NoStaleStore(es)
  {
    forall j, k ensures !Stale(es, j, k) {
      StaleInPrefix(es, i, j, k);
      assert forall m :: i <= m < |es| - 1 ==> es[..|es| - 1][m] == es[m];
    }
  }

  /** Every store adds at most one, and the counter is the number of stores exactly when none is stale. */
  lemma {:induction false} ValueExactly(es: seq<Event>)
    ensures Value(es) <= Stores(es)
    ensures Value(es) == Stores(es) <==> NoStaleStore(es)
    decreases |es|
  {
    if es != [] {
      var n := |es| - 1;
      var before, e := es[..n], es[n];
      if e.Store? {
        var i := LoadBefore(before, e.t);
        ValueExactly(before[..i]);
        StoresPrefix(before, i);
        StoreExactly(es, i);
      } else {
        ValueExactly(before);
        if NoStaleStore(es) {
          NoStalePrefix(es, n);
        }
        if NoStaleStore(before) {
          NoStaleExtends(es, n);
        }
      }
    }
  }

  lemma {:induction false} StoreExactly(es: seq<Event>, i: nat)
    requires es != [] && es[|es| - 1].Store? && i == LoadBefore(es[..|es| - 1], es[|es| - 1].t)
    ensures NoStaleStore(es) <==> NoStaleStore(es[..|es| - 1][..i]) && StoreFree(es[..|es| - 1], i)
  {
    var n := |es| - 1;
    assert es[..n][..i] == es[..i];
    if NoStaleStore(es) {
      NoStalePrefix(es, i);
      forall j | i <= j < n ensures !es[..n][j].Store? {
        assert !Stale(es, j, n);
      }
    }
    if NoStaleStore(es[..i]) && StoreFree(es[..n], i) {
      NoStaleExtends(es, i);
    }
  }

  lemma {:induction false} RunLast(n: nat, s: State, es: seq<Event>)
    requires CanRun(n, s, es) && es != []
    ensures var k := |es| - 1;
            CanRun(n, s, es[..k]) && Enabled(n, Run(n, s, es[..k]), es[k]) &&
            Run(n, s, es) == Apply(n, Run(n, s, es[..k]), es[k])
    decreases |es|
  {
    var k := |es| - 1;
    if k > 0 {
      RunLast(n, Apply(n, s, es[0]), es[1..]);
      assert es[..k][1..] == es[1..][..k - 1];
    }
  }

  /** The counter follows the loads and stores of the schedule. */
  ghost predicate Follows(s: State, es: seq<Event>) {
    && s.cnt == Wrap(Value(es)) && Total(s.threads) == Stores(es)
    && (forall t :: 0 <= t < |s.threads| && s.threads[t].phase.Loaded? ==>
          s.threads[t].phase.value == Wrap(Value(es[..LoadBefore(es, t)])))
  }

  lemma FollowsStep(n: nat, s: State, es: seq<Event>, k: nat)
    requires es != [] && k == |es| - 1 && Follows(s, es[..k]) && Enabled(n, s, es[k])
    ensures Follows(Apply(n, s, es[k]), es)
  {
    var e, before := es[k], es[..k];
    var s' := Apply(n, s, e);
    Update(s.threads, e.t, s'.threads[e.t]);
    assert s'.threads == s.threads[e.t := s'.threads[e.t]];
    if e.Store? {
      WrapNext(Value(before[..LoadBefore(before, e.t)]));
    }
    forall t | 0 <= t < |s'.threads| && s'.threads[t].phase.Loaded?
      ensures s'.threads[t].phase.value == Wrap(Value(es[..LoadBefore(es, t)]))
    {
      if e != Load(t) {
        assert LoadBefore(es, t) == LoadBefore(before, t);
        assert es[..LoadBefore(es, t)] == before[..LoadBefore(before, t)];
      }
    }
  }

  lemma {:induction false} EveryRunFollows(threads: nat, n: nat, es: seq<Event>)
    requires CanRun(n, Start(threads), es)
    ensures Follows(Run(n, Start(threads), es), es)
    decreases |es|
  {
    if es == [] {
      Fresh(Start(threads).threads);
    } else {
      RunLast(n, Start(threads), es);
      EveryRunFollows(threads, n, es[..|es| - 1]);
      FollowsStep(n, Run(n, Start(threads), es[..|es| - 1]), es, |es| - 1);
    }
  }

  /** A complete run, with any failed s_lock calls, ends with the right counter exactly when the number fits
      into an int and no thread stored after somebody else had stored since its own load. */
  lemma UpdatesKeptExactly(threads: nat, n: nat, es: seq<Event>)
    requires CanRun(n, Start(threads), es) && Over(n, Run(n, Start(threads), es))
    ensures Run(n, Start(threads), es).cnt == threads * n <==> threads * n <= 0x7FFF_FFFF && NoStaleStore(es)
  {
    EveryRun(threads, n, es);
    EveryRunFollows(threads, n, es);
    AllTurns(n, Run(n, Start(threads), es).threads);
    ValueExactly(es);
    assert 0 <= threads * n;
  }

  // ------------------------------------------------------------------ a failed s_lock that costs an update

  lemma {:induction false} RunAppend(n: nat, s: State, a: seq<Event>, b: seq<Event>)
    requires CanRun(n, s, a) && CanRun(n, Run(n, s, a), b)
    ensures CanRun(n, s, a + b) && Run(n, s, a + b) == Run(n, Run(n, s, a), b)
    decreases |a|
  {
    if a == [] {
      assert a + b == b;
    } else {
      RunAppend(n, Apply(n, s, a[0]), a[1..], b);
      assert (a + b)[1..] == a[1..] + b;
    }
  }

  lemma RunOne(n: nat, s: State, e: Event)
    requires Enabled(n, s, e)
    ensures CanRun(n, s, [e]) && Run(n, s, [e]) == Apply(n, s, e)
  {
    assert [e][1..] == [];
  }

  lemma RunTwo(n: nat, s: State, e: Event, f: Event)
    requires Enabled(n, s, e) && Enabled(n, Apply(n, s, e), f)
    ensures CanRun(n, s, [e, f]) && Run(n, s, [e, f]) == Apply(n, Apply(n, s, e), f)
  {
    RunOne(n, s, e);
    RunOne(n, Apply(n, s, e), f);
    RunAppend(n, s, [e], [f]);
  }

  /** One undisturbed iteration of thread `t`. */
  lemma Turn(n: nat, s: State, t: nat) returns (es: seq<Event>)
    requires t < |s.threads| && s.threads[t].phase.Outside? && s.threads[t].turns < n && s.sem > 0
    ensures CanRun(n, s, es)
    ensures Run(n, s, es) == Set(s, t, Thread(s.threads[t].turns + 1, Outside)).(cnt := Wrap(s.cnt + 1))
  {
    var s2 := Set(s, t, Thread(s.threads[t].turns, Loaded(s.cnt))).(sem := s.sem - 1);
    RunTwo(n, s, Lock(t), Load(t));
    assert Run(n, s, [Lock(t), Load(t)]) == s2;
    RunTwo(n, s2, Store(t), Unlock(t));
    RunAppend(n, s, [Lock(t), Load(t)], [Store(t), Unlock(t)]);
    es := [Lock(t), Load(t)] + [Store(t), Unlock(t)];
  }

  /** Everybody is outside and has at most `n` turns behind. */
  ghost predicate Resting(n: nat, s: State) {
    forall i :: 0 <= i < |s.threads| ==> s.threads[i].phase.Outside? && s.threads[i].turns <= n
  }

  lemma {:induction false} TotalBound(n: nat, ts: seq<Thread>)
    requires forall i :: 0 <= i < |ts| ==> ts[i].phase.Outside? && ts[i].turns <= n
    ensures Total(ts) <= |ts| * n
  {
    if ts != [] {
      TotalBound(n, ts[1..]);
      assert |ts| * n == (|ts| - 1) * n + n;
    }
  }

  lemma AfterTurn(n: nat, s: State, t: nat, off: int)
    requires Resting(n, s) && t < |s.threads| && s.threads[t].turns < n && s.cnt == Wrap(Total(s.threads) + off)
    ensures var s' := Set(s, t, Thread(s.threads[t].turns + 1, Outside)).(cnt := Wrap(s.cnt + 1));
            && Resting(n, s') && Total(s'.threads) == Total(s.threads) + 1 <= |s.threads| * n
            && s'.cnt == Wrap(Total(s'.threads) + off)
  {
    var ts := s.threads[t := Thread(s.threads[t].turns + 1, Outside)];
    Update(s.threads, t, ts[t]);
    WrapNext(Total(s.threads) + off);
    TotalBound(n, ts);
  }

  /** From rest the threads can finish one turn at a time, keeping the counter's distance from the truth. */
  lemma {:induction false} Finish(n: nat, s: State, off: int) returns (es: seq<Event>)
    requires Resting(n, s) && s.sem > 0 && s.cnt == Wrap(Total(s.threads) + off)
    ensures CanRun(n, s, es)
    ensures var z := Run(n, s, es);
            Over(n, z) && |z.threads| == |s.threads| && z.failed == s.failed && z.cnt == Wrap(Total(z.threads) + off)
    decreases |s.threads| * n - Total(s.threads)
  {
    es := [];
    if t :| 0 <= t < |s.threads| && s.threads[t].turns < n {
      var turn := Turn(n, s, t);
      AfterTurn(n, s, t, off);
      var rest := Finish(n, Run(n, s, turn), off);
      RunAppend(n, s, turn, rest);
      es := turn + rest;
    }
  }

  /** Threads 0 and 1 load the same value because the s_lock of thread 1 fails. */
  lemma BadRound(threads: nat, n: nat) returns (es: seq<Event>)
    requires threads >= 2 && n >= 1
    ensures CanRun(n, Start(threads), es)
    ensures var done := Thread(1, Outside);
            Run(n, Start(threads), es) == State(2, 1, Start(threads).threads[0 := done][1 := done], 1)
  {
    var ts := Start(threads).threads;
    var loaded, stored, done := Thread(0, Loaded(0)), Thread(0, Stored), Thread(1, Outside);
    var s1 := State(0, 0, ts[0 := loaded], 0);
    var s2 := State(0, 0, ts[0 := loaded][1 := loaded], 1);
    var s3 := State(0, 1, ts[0 := stored][1 := stored], 1);
    RunTwo(n, Start(threads), Lock(0), Load(0));
    assert Run(n, Start(threads), [Lock(0), Load(0)]) == s1;
    RunTwo(n, s1, LockFails(1), Load(1));
    assert Run(n, s1, [LockFails(1), Load(1)]) == s2;
    RunTwo(n, s2, Store(0), Store(1));
    assert Run(n, s2, [Store(0), Store(1)]) == s3;
    RunTwo(n, s3, Unlock(0), Unlock(1));
    RunAppend(n, s2, [Store(0), Store(1)], [Unlock(0), Unlock(1)]);
    RunAppend(n, s1, [LockFails(1), Load(1)], [Store(0), Store(1)] + [Unlock(0), Unlock(1)]);
    RunAppend(n, Start(threads), [Lock(0), Load(0)],
              [LockFails(1), Load(1)] + ([Store(0), Store(1)] + [Unlock(0), Unlock(1)]));
    es := [Lock(0), Load(0)] + ([LockFails(1), Load(1)] + ([Store(0), Store(1)] + [Unlock(0), Unlock(1)]));
  }

  /** However many threads and iterations there are, one failed s_lock can cost an update. */
  lemma FailedLockLosesUpdate(threads: nat, n: nat) returns (es: seq<Event>)
    requires threads >= 2 && n >= 1
    ensures CanRun(n, Start(threads), es)
    ensures var s := Run(n, Start(threads), es);
            Failures(es) == 1 && Over(n, s) && s.cnt == Wrap(threads * n - 1)
  {
    var bad := BadRound(threads, n);
    var s := Run(n, Start(threads), bad);
    var ts := Start(threads).threads;
    Fresh(ts);
    Update(ts, 0, Thread(1, Outside));
    Update(ts[0 := Thread(1, Outside)], 1, Thread(1, Outside));
    var rest := Finish(n, s, -1);
    RunAppend(n, Start(threads), bad, rest);
    es := bad + rest;
    FailuresCounted(n, Start(threads), es);
    AllTurns(n, Run(n, s, rest).threads);
  }

  lemma {:induction false} SomebodyBusy(ts: seq<Thread>) returns (t: nat)
    requires Busy(ts) > 0
    ensures t < |ts| && !ts[t].phase.Outside?
  {
    if ts[0].phase.Outside? {
      var k := SomebodyBusy(ts[1..]);
      t := k + 1;
    } else {
      t := 0;
    }
  }

  /** The threads never wait for each other in vain: while one has turns left, a step other than a
      failing s_trylock is possible. */
  lemma NoDeadlock(threads: nat, n: nat, es: seq<Event>, i: nat) returns (e: Event)
    requires CanRun(n, Start(threads), es)
    requires i < threads && i < |Run(n, Start(threads), es).threads| && Run(n, Start(threads), es).threads[i].turns < n
    ensures Enabled(n, Run(n, Start(threads), es), e) && !e.Try? && !e.LockFails?
  {
    EveryRun(threads, n, es);
    var s := Run(n, Start(threads), es);
    if s.sem > 0 && s.threads[i].phase.Outside? {
      e := Lock(i);
    } else {
      if s.sem > 0 {
        BusyOne(s.threads, i);
      }
      var t := SomebodyBusy(s.threads);
      match s.threads[t].phase
      case Locked => e := Load(t);
      case Loaded(_) => e := Store(t);
      case Stored => e := Unlock(t);
    }
  }
}
