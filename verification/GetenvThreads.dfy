/** getenv_ of pthread/getenv_thr.c called by any number of threads at once. Each library call, each
    comparison of an entry and each byte strncpy writes is one step; a thread may exit between calls,
    when the key's destructor frees its buffer and malloc may hand the address out again. */
module GetenvThreads {
  import opened Options
  import opened CStrings
  import opened Getenv

  /** The control of pthread_once: others wait while one thread runs thread_init. */
  datatype Once = NotYet | Running(t: nat) | Over

  datatype Phase =
    | Idle                                // outside getenv_
    | AtOnce                              // line 25
    | Initialising                        // in thread_init
    | Initialised                         // thread_init returns to pthread_once
    | Locking                             // line 26
    | Looking                             // line 27
    | Allocating                          // line 29
    | Storing(b: nat)                     // line 35
    | Comparing(b: nat, i: nat)           // lines 38-39
    | Copying(b: nat, i: nat, k: nat)     // line 40, before byte k
    | Unlocking(r: Option<nat>)           // lines 32, 41 and 45, then return
    | Gone                                // the thread has exited

  /** `refused` when malloc failed in the current or last call; `answer` is what the last call returned. */
  datatype Thread = Thread(phase: Phase, name: string, refused: bool, answer: Option<Option<nat>>)

  /** `owner` is the thread that got the block from malloc. */
  datatype Block = Block(owner: nat, bytes: seq<char>)

  /** `keys` counts calls of pthread_key_create. `faulted`: the key was used before it was created, or
      memory was used or freed that is not there. */
  datatype State = State(once: Once, keys: nat, holder: Option<nat>, specific: map<nat, nat>, heap: map<nat, Block>,
                         threads: seq<Thread>, faulted: bool)

  /** `Step` is the next step of the code where it has only one; `Exit` ends a thread. */
  datatype Event =
    | Call(t: nat, name: string)
    | Step(t: nat)
    | GotMemory(t: nat, b: nat, junk: seq<char>)
    | NoMemory(t: nat)
    | StoreFails(t: nat)
    | Exit(t: nat)

  predicate CanStep(s: State, p: Phase) {
    match p
    case Idle => false
    case Gone => false
    case Allocating => false
    case AtOnce => !s.once.Running?
    case Locking => s.holder.None?
    case _ => true
  }

  predicate Enabled(s: State, e: Event) {
    && e.t < |s.threads| && !s.faulted
    && var p := s.threads[e.t].phase;
       match e
       case Call(_, name) => p.Idle? && NUL !in name
       case Step(_) => CanStep(s, p)
       case GotMemory(_, b, junk) => p.Allocating? && b !in s.heap && |junk| == MAXSTRINGSZ
       case NoMemory(_) => p.Allocating?
       case StoreFails(_) => p.Storing?
       case Exit(_) => p.Idle?
  }

  function Set(s: State, t: nat, p: Phase): State
    requires t < |s.threads|
  {
    s.(threads := s.threads[t := s.threads[t].(phase := p)])
  }

  /** The value part of an entry that matched. */
  function Value(env: seq<string>, name: string, i: nat): string {
    if i < |env| && |name| < |env[i]| then env[i][|name| + 1..] else []
  }

  function CompareEntry(env: seq<string>, name: string, b: nat, i: nat): Phase {
    if i >= |env| then Unlocking(None)
    else if Matches(name, env[i]) then Copying(b, i, 0)
    else Comparing(b, i + 1)
  }

  /** One byte of strncpy(envbuf, value, MAXSTRINGSZ - 1). */
  function CopyByte(env: seq<string>, s: State, t: nat, b: nat, i: nat, k: nat): State
    requires t < |s.threads|
  {
    if k >= MAXSTRINGSZ - 1 then Set(s, t, Unlocking(Some(b)))
    else if b !in s.heap || k >= |s.heap[b].bytes| then s.(faulted := true)
    else
      var c := CharAt(Value(env, s.threads[t].name, i), k);
      Set(s, t, Copying(b, i, k + 1)).(heap := s.heap[b := Block(s.heap[b].owner, s.heap[b].bytes[k := c])])
  }

  function ApplyStep(env: seq<string>, s: State, t: nat): State
    requires t < |s.threads| && CanStep(s, s.threads[t].phase)
  {
    var th := s.threads[t];
    match th.phase
    case AtOnce => if s.once.NotYet? then Set(s, t, Initialising).(once := Running(t)) else Set(s, t, Locking)
    case Initialising => Set(s, t, Initialised).(keys := s.keys + 1)
    case Initialised => Set(s, t, Locking).(once := Over)
    case Locking => Set(s, t, Looking).(holder := Some(t))
    case Looking =>
      if s.keys == 0 then s.(faulted := true)
      else Set(s, t, if t in s.specific then Comparing(s.specific[t], 0) else Allocating)
    case Storing(b) =>
      if s.keys == 0 then s.(faulted := true)
      else Set(s, t, Comparing(b, 0)).(specific := s.specific[t := b])
    case Comparing(b, i) => Set(s, t, CompareEntry(env, th.name, b, i))
    case Copying(b, i, k) => CopyByte(env, s, t, b, i, k)
    case Unlocking(r) => s.(holder := None, threads := s.threads[t := th.(phase := Idle, answer := Some(r))])
  }

  /** The destructor of the key frees the thread's buffer. */
  function ApplyExit(s: State, t: nat): State
    requires t < |s.threads|
  {
    if t !in s.specific then Set(s, t, Gone)
    else if s.specific[t] !in s.heap then s.(faulted := true)
    else Set(s, t, Gone).(specific := s.specific - {t}, heap := s.heap - {s.specific[t]})
  }

  function Apply(env: seq<string>, s: State, e: Event): State
    requires Enabled(s, e)
  {
    match e
    case Call(t, name) => s.(threads := s.threads[t := Thread(AtOnce, name, false, None)])
    case Step(t) => ApplyStep(env, s, t)
    case GotMemory(t, b, junk) => Set(s, t, Storing(b)).(heap := s.heap[b := Block(t, junk)])
    case NoMemory(t) => s.(threads := s.threads[t := s.threads[t].(phase := Unlocking(None), refused := true)])
    case StoreFails(t) => Set(s, t, Comparing(s.threads[t].phase.b, 0))
    case Exit(t) => ApplyExit(s, t)
  }

  predicate CanRun(env: seq<string>, s: State, es: seq<Event>)
    decreases |es|
  {
    es == [] || (Enabled(s, es[0]) && CanRun(env, Apply(env, s, es[0]), es[1..]))
  }

  function Run(env: seq<string>, s: State, es: seq<Event>): State
    requires CanRun(env, s, es)
    decreases |es|
  {
    if es == [] then s else Run(env, Apply(env, s, es[0]), es[1..])
  }

  function Start(n: nat): State {
    State(NotYet, 0, None, map[], map[], seq(n, _ => Thread(Idle, [], false, None)), false)
  }

  ghost predicate Strings(env: seq<string>) {
    forall i :: 0 <= i < |env| ==> NUL !in env[i]
  }

  // ------------------------------------------------------------------ invariant

  /** Between lock and unlock. */
  predicate Inside(p: Phase) {
    p.Looking? || p.Allocating? || p.Storing? || p.Comparing? || p.Copying? || p.Unlocking?
  }

  predicate InInit(p: Phase) {
    p.Initialising? || p.Initialised?
  }

  /** The thread owns a whole buffer at `b`. */
  predicate Mine(s: State, t: nat, b: nat) {
    b in s.heap && s.heap[b].owner == t && |s.heap[b].bytes| == MAXSTRINGSZ
  }

  /** What a call may return: null exactly on a miss or without memory, else the value in an own buffer. */
  ghost predicate Answers(env: seq<string>, s: State, t: nat, th: Thread, r: Option<nat>) {
    && (r.None? <==> Lookup(env, th.name).None? || th.refused)
    && (r.Some? ==> Mine(s, t, r.value) && Copied(s.heap[r.value].bytes, Lookup(env, th.name).value, MAXSTRINGSZ - 1))
  }

  ghost predicate AtWork(env: seq<string>, s: State, t: nat, th: Thread) {
    match th.phase
    case Allocating => !th.refused && t !in s.specific
    case Storing(b) => Mine(s, t, b) && !th.refused && t !in s.specific
    case Comparing(b, i) =>
      Mine(s, t, b) && !th.refused && i <= |env| && Lookup(env, th.name) == Lookup(env[i..], th.name)
    case Copying(b, i, k) =>
      && Mine(s, t, b) && !th.refused && k <= MAXSTRINGSZ - 1
      && Lookup(env, th.name) == Some(Value(env, th.name, i)) && Copied(s.heap[b].bytes, Value(env, th.name, i), k)
    case Unlocking(r) => Answers(env, s, t, th, r)
    case Idle => th.answer.Some? ==> Answers(env, s, t, th, th.answer.value)
    case Gone => t !in s.specific
    case _ => !th.refused
  }

  ghost predicate Good(env: seq<string>, s: State, t: nat)
    requires t < |s.threads|
  {
    var th := s.threads[t];
    && NUL !in th.name
    && (InInit(th.phase) <==> s.once == Running(t))
    && (th.phase.Locking? || Inside(th.phase) || t in s.specific ==> s.once.Over?)
    && (Inside(th.phase) <==> s.holder == Some(t))
    && (t in s.specific ==> Mine(s, t, s.specific[t]))
    && AtWork(env, s, t, th)
  }

  /** The key exists from the step of thread_init that creates it. */
  function KeysDue(s: State): nat {
    match s.once
    case NotYet => 0
    case Running(t) => if t < |s.threads| && s.threads[t].phase.Initialised? then 1 else 0
    case Over => 1
  }

  ghost predicate Inv(env: seq<string>, s: State) {
    && !s.faulted && s.keys == KeysDue(s)
    && (s.once.Running? ==> s.once.t < |s.threads|)
    && (s.holder.Some? ==> s.holder.value < |s.threads|)
    && (forall t :: 0 <= t < |s.threads| ==> Good(env, s, t))
  }

  // ------------------------------------------------------------------ the others

  /** Nothing of thread `u` differs. */
  ghost predicate Undisturbed(s: State, s': State, u: nat) {
    && |s'.threads| == |s.threads| && u < |s.threads| && s'.threads[u] == s.threads[u]
    && (u in s'.specific <==> u in s.specific) && (u in s.specific ==> s'.specific[u] == s.specific[u])
    && (forall b :: b in s.heap && s.heap[b].owner == u ==> b in s'.heap && s'.heap[b] == s.heap[b])
    && (s'.once == Running(u) <==> s.once == Running(u)) && (s.once.Over? ==> s'.once.Over?)
    && (s'.holder == Some(u) <==> s.holder == Some(u))
  }

  lemma UndisturbedGood(env: seq<string>, s: State, s': State, u: nat)
    requires Undisturbed(s, s', u) && Good(env, s, u)
    ensures Good(env, s', u)
  {
  }

  lemma StepElsewhere(env: seq<string>, s: State, t: nat, u: nat)
    requires Inv(env, s) && Enabled(s, Step(t)) && u < |s.threads| && u != t
    ensures Undisturbed(s, ApplyStep(env, s, t), u)
  {
    assert Good(env, s, t) && Good(env, s, u);
  }

  /** No step of one thread changes anything of another: its place, its buffers, its mutex. */
  lemma Elsewhere(env: seq<string>, s: State, e: Event, u: nat)
    requires Inv(env, s) && Enabled(s, e) && u < |s.threads| && u != e.t
    ensures Undisturbed(s, Apply(env, s, e), u)
  {
    assert Good(env, s, e.t) && Good(env, s, u);
    if e.Step? {
      StepElsewhere(env, s, e.t, u);
    }
  }

  // ------------------------------------------------------------------ the thread that moves

  /** The entry that matches first is the one the search reports. */
  lemma CompareKeeps(env: seq<string>, name: string, i: nat)
    requires Strings(env) && NUL !in name && i < |env|
    ensures Lookup(env[i..], name) ==
            if Matches(name, env[i]) then Some(Value(env, name, i)) else Lookup(env[i + 1..], name)
  {
    MatchesIsPrefix(name, env[i]);
    assert env[i..][1..] == env[i + 1..];
  }

  lemma CompareStep(env: seq<string>, s: State, t: nat)
    requires Strings(env) && Inv(env, s) && Enabled(s, Step(t)) && s.threads[t].phase.Comparing?
    ensures Good(env, ApplyStep(env, s, t), t)
  {
    assert Good(env, s, t);
    var th := s.threads[t];
    if th.phase.i < |env| {
      CompareKeeps(env, th.name, th.phase.i);
    } else {
      assert env[th.phase.i..] == [];
    }
  }

  lemma CopyStep(env: seq<string>, s: State, t: nat)
    requires Inv(env, s) && Enabled(s, Step(t)) && s.threads[t].phase.Copying?
    ensures Good(env, ApplyStep(env, s, t), t) && !ApplyStep(env, s, t).faulted
  {
    assert Good(env, s, t);
  }

  lemma OtherSteps(env: seq<string>, s: State, t: nat)
    requires Inv(env, s) && Enabled(s, Step(t)) && !s.threads[t].phase.Comparing? && !s.threads[t].phase.Copying?
    ensures Good(env, ApplyStep(env, s, t), t) && !ApplyStep(env, s, t).faulted
  {
    assert Good(env, s, t);
    assert env[0..] == env;
  }

  lemma MoverGood(env: seq<string>, s: State, e: Event)
    requires Strings(env) && Inv(env, s) && Enabled(s, e)
    ensures Good(env, Apply(env, s, e), e.t) && !Apply(env, s, e).faulted
  {
    assert Good(env, s, e.t);
    assert env[0..] == env;
    if e.Step? {
      match s.threads[e.t].phase {
        case Comparing(_, _) => CompareStep(env, s, e.t);
        case Copying(_, _, _) => CopyStep(env, s, e.t);
        case _ => OtherSteps(env, s, e.t);
      }
    }
  }

  lemma StepKeepsKeys(env: seq<string>, s: State, e: Event)
    requires Inv(env, s) && Enabled(s, e)
    ensures var s' := Apply(env, s, e);
            !s'.faulted ==>
              && s'.keys == KeysDue(s') && (s'.once.Running? ==> s'.once.t < |s'.threads|)
              && (s'.holder.Some? ==> s'.holder.value < |s'.threads|) && |s'.threads| == |s.threads|
  {
    assert Good(env, s, e.t);
  }

  lemma StepKeeps(env: seq<string>, s: State, e: Event)
    requires Strings(env) && Inv(env, s) && Enabled(s, e)
    ensures Inv(env, Apply(env, s, e)) && |Apply(env, s, e).threads| == |s.threads|
  {
    var s' := Apply(env, s, e);
    MoverGood(env, s, e);
    StepKeepsKeys(env, s, e);
    forall u | 0 <= u < |s'.threads| ensures Good(env, s', u) {
      if u != e.t {
        Elsewhere(env, s, e, u);
        UndisturbedGood(env, s, s', u);
      }
    }
  }

  lemma {:induction false} RunKeeps(env: seq<string>, s: State, es: seq<Event>)
    requires Strings(env) && Inv(env, s) && CanRun(env, s, es)
    ensures Inv(env, Run(env, s, es)) && |Run(env, s, es).threads| == |s.threads|
    decreases |es|
  {
    if es != [] {
      StepKeeps(env, s, es[0]);
      RunKeeps(env, Apply(env, s, es[0]), es[1..]);
    }
  }

  lemma EveryRun(env: seq<string>, n: nat, es: seq<Event>)
    requires Strings(env) && CanRun(env, Start(n), es)
    ensures Inv(env, Run(env, Start(n), es)) && |Run(env, Start(n), es).threads| == n
  {
    RunKeeps(env, Start(n), es);
  }

  // ------------------------------------------------------------------ results

  /** The key is created at most once, is there before anybody is past pthread_once, and nothing is ever
      used before it exists, outside a buffer or after its free. */
  lemma KeyOnce(env: seq<string>, n: nat, es: seq<Event>, t: nat)
    requires Strings(env) && CanRun(env, Start(n), es) && t < n
    ensures var s := Run(env, Start(n), es);
            && !s.faulted && s.keys <= 1 && |s.threads| == n
            && (s.threads[t].phase.Locking? || Inside(s.threads[t].phase) || t in s.specific ==> s.keys == 1)
            && (t in s.specific ==> s.specific[t] in s.heap)
            && var p := s.threads[t].phase;
               p.Copying? ==> p.b in s.heap && |s.heap[p.b].bytes| == 4096 && p.k <= 4095
  {
    EveryRun(env, n, es);
    assert Good(env, Run(env, Start(n), es), t);
  }

  /** At most one thread is between lock and unlock. */
  lemma MutualExclusion(env: seq<string>, n: nat, es: seq<Event>, t: nat, u: nat)
    requires Strings(env) && CanRun(env, Start(n), es) && t < n && u < n && t != u
    ensures var s := Run(env, Start(n), es);
            |s.threads| == n && !(Inside(s.threads[t].phase) && Inside(s.threads[u].phase))
  {
    EveryRun(env, n, es);
    var s := Run(env, Start(n), es);
    assert Good(env, s, t) && Good(env, s, u);
  }

  /** Different threads have different buffers, also when addresses of exited threads are used again. */
  lemma BuffersDistinct(env: seq<string>, n: nat, es: seq<Event>, t: nat, u: nat)
    requires Strings(env) && CanRun(env, Start(n), es) && t < n && u < n && t != u
    ensures var s := Run(env, Start(n), es);
            && (t in s.specific && u in s.specific ==> s.specific[t] != s.specific[u])
            && |s.threads| == n
            && (s.threads[t].phase.Idle? && s.threads[u].phase.Idle? &&
                s.threads[t].answer.Some? && s.threads[t].answer.value.Some? &&
                s.threads[u].answer.Some? && s.threads[u].answer.value.Some? ==>
                  s.threads[t].answer.value != s.threads[u].answer.value)
  {
    EveryRun(env, n, es);
    var s := Run(env, Start(n), es);
    assert Good(env, s, t) && Good(env, s, u);
  }

  // what the events say

  /** Where thread `t` made its last call, or -1. */
  function LastCall(es: seq<Event>, t: nat): (i: int)
    ensures -1 <= i < |es|
    ensures i >= 0 ==> es[i].Call? && es[i].t == t
    ensures forall m :: i < m < |es| ==> !(es[m].Call? && es[m].t == t)
  {
    if es == [] then -1
    else if es[|es| - 1].Call? && es[|es| - 1].t == t then |es| - 1
    else LastCall(es[..|es| - 1], t)
  }

  /** malloc failed in the last call of thread `t`. */
  ghost predicate MallocFailed(es: seq<Event>, t: nat) {
    exists k :: LastCall(es, t) < k < |es| && es[k] == NoMemory(t)
  }

  /** The thread works on its last call. */
  ghost predicate Follows(es: seq<Event>, t: nat, th: Thread) {
    var i := LastCall(es, t);
    if i < 0 then !th.phase.Idle? ==> th.phase.Gone?
    else
      && th.name == es[i].name && (th.refused <==> MallocFailed(es, t))
      && (th.phase.Idle? ==> th.answer.Some?)
  }

  lemma FailedStep(es: seq<Event>, k: nat, t: nat)
    requires es != [] && k == |es| - 1 && !(es[k].Call? && es[k].t == t)
    ensures LastCall(es, t) == LastCall(es[..k], t)
    ensures MallocFailed(es, t) <==> MallocFailed(es[..k], t) || es[k] == NoMemory(t)
  {
    if m :| LastCall(es[..k], t) < m < k && es[..k][m] == NoMemory(t) {
      assert es[m] == NoMemory(t);
    }
    if m :| LastCall(es, t) < m < |es| && es[m] == NoMemory(t) {
      assert m == k || es[..k][m] == NoMemory(t);
    }
  }

  /** A call keeps its name, notes a failing malloc, and leaves an answer when it returns. */
  lemma OwnRecords(env: seq<string>, s: State, e: Event)
    requires Inv(env, s) && Enabled(s, e) && !e.Call? && !Apply(env, s, e).faulted
    ensures var th, th' := s.threads[e.t], Apply(env, s, e).threads[e.t];
            && th'.name == th.name && (th'.refused <==> th.refused || e.NoMemory?)
            && (th'.phase.Idle? ==> th'.answer.Some?) && (th.phase.Idle? ==> th'.phase.Gone?)
  {
    assert Good(env, s, e.t);
  }

  lemma FollowsStep(env: seq<string>, s: State, es: seq<Event>, k: nat, t: nat)
    requires es != [] && k == |es| - 1 && t < |s.threads| && Inv(env, s) && Enabled(s, es[k])
    requires Follows(es[..k], t, s.threads[t]) && !Apply(env, s, es[k]).faulted
    requires |Apply(env, s, es[k]).threads| == |s.threads|
    ensures Follows(es, t, Apply(env, s, es[k]).threads[t])
  {
    if es[k].t != t {
      FailedStep(es, k, t);
      Elsewhere(env, s, es[k], t);
    } else if !es[k].Call? {
      FailedStep(es, k, t);
      OwnRecords(env, s, es[k]);
    }
  }

  lemma {:induction false} RunLast(env: seq<string>, s: State, es: seq<Event>)
    requires CanRun(env, s, es) && es != []
    ensures var k := |es| - 1;
            CanRun(env, s, es[..k]) && Enabled(Run(env, s, es[..k]), es[k]) &&
            Run(env, s, es) == Apply(env, Run(env, s, es[..k]), es[k])
    decreases |es|
  {
    var k := |es| - 1;
    if k > 0 {
      RunLast(env, Apply(env, s, es[0]), es[1..]);
      assert es[..k][1..] == es[1..][..k - 1];
    }
  }

  lemma {:induction false} RunFollows(env: seq<string>, n: nat, es: seq<Event>, t: nat)
    requires Strings(env) && CanRun(env, Start(n), es) && t < n
    ensures |Run(env, Start(n), es).threads| == n && Follows(es, t, Run(env, Start(n), es).threads[t])
    decreases |es|
  {
    if es != [] {
      var k := |es| - 1;
      RunLast(env, Start(n), es);
      RunFollows(env, n, es[..k], t);
      EveryRun(env, n, es[..k]);
      StepKeeps(env, Run(env, Start(n), es[..k]), es[k]);
      FollowsStep(env, Run(env, Start(n), es[..k]), es, k, t);
    }
  }

  /** From the return of thread `t`'s last call in the run to its next one: the answer is null exactly when
      the name it asked for is not there or malloc failed in that call, and otherwise a live buffer of the
      thread that holds the value. */
  lemma {:induction false} AnswersHold(env: seq<string>, n: nat, es: seq<Event>, t: nat)
    requires Strings(env) && CanRun(env, Start(n), es) && t < n && LastCall(es, t) >= 0
    ensures var s := Run(env, Start(n), es); var name := es[LastCall(es, t)].name;
            && |s.threads| == n
            && var th := s.threads[t];
               th.phase.Idle? ==>
                 && th.answer.Some?
                 && (th.answer.value.None? <==> Lookup(env, name).None? || MallocFailed(es, t))
                 && (th.answer.value.Some? ==>
                       var b := th.answer.value.value;
                       b in s.heap && s.heap[b].owner == t && |s.heap[b].bytes| == MAXSTRINGSZ &&
                       Copied(s.heap[b].bytes, Lookup(env, name).value, MAXSTRINGSZ - 1))
  {
    EveryRun(env, n, es);
    RunFollows(env, n, es, t);
    assert Good(env, Run(env, Start(n), es), t);
  }

  lemma {:induction false} RunElsewhere(env: seq<string>, s: State, es: seq<Event>, t: nat)
    requires Strings(env) && Inv(env, s) && CanRun(env, s, es) && t < |s.threads|
    requires forall i :: 0 <= i < |es| ==> es[i].t != t
    ensures Undisturbed(s, Run(env, s, es), t)
    decreases |es|
  {
    if es != [] {
      Elsewhere(env, s, es[0], t);
      StepKeeps(env, s, es[0]);
      RunElsewhere(env, Apply(env, s, es[0]), es[1..], t);
    }
  }

  /** Whatever the others do, halfway through a copy or not, every byte of a thread's buffers stays as
      it is until the thread itself moves again. */
  lemma {:induction false} OthersLeaveBuffers(env: seq<string>, n: nat, es: seq<Event>, more: seq<Event>,
                                              t: nat, b: nat)
    requires Strings(env) && CanRun(env, Start(n), es) && CanRun(env, Run(env, Start(n), es), more) && t < n
    requires forall i :: 0 <= i < |more| ==> more[i].t != t
    requires b in Run(env, Start(n), es).heap && Run(env, Start(n), es).heap[b].owner == t
    ensures var s, s' := Run(env, Start(n), es), Run(env, Run(env, Start(n), es), more);
            b in s'.heap && s'.heap[b] == s.heap[b]
  {
    EveryRun(env, n, es);
    RunElsewhere(env, Run(env, Start(n), es), more, t);
  }

  // ------------------------------------------------------------------ what is freed

  /** Block `b` is known to the key or to a call about to store it, or setspecific failed on its owner. */
  ghost predicate Accounted(s: State, es: seq<Event>, b: nat)
    requires b in s.heap
  {
    var o := s.heap[b].owner;
    && o < |s.threads|
    && (|| (o in s.specific && s.specific[o] == b)
        || s.threads[o].phase == Storing(b)
        || StoreFails(o) in es)
  }

  lemma OwnAccounted(env: seq<string>, s: State, e: Event, es: seq<Event>, b: nat)
    requires Inv(env, s) && Enabled(s, e) && b in s.heap && s.heap[b].owner == e.t && b in Apply(env, s, e).heap
    requires |Apply(env, s, e).threads| == |s.threads| && Accounted(s, es, b)
    ensures Accounted(Apply(env, s, e), es + [e], b)
  {
    assert Good(env, s, e.t);
  }

  lemma OthersAccounted(env: seq<string>, s: State, e: Event, es: seq<Event>, b: nat)
    requires Inv(env, s) && Enabled(s, e) && b in s.heap && s.heap[b].owner != e.t && Accounted(s, es, b)
    ensures b in Apply(env, s, e).heap && Accounted(Apply(env, s, e), es + [e], b)
  {
    Elsewhere(env, s, e, s.heap[b].owner);
  }

  lemma NewAccounted(env: seq<string>, s: State, e: Event, es: seq<Event>, b: nat)
    requires Inv(env, s) && Enabled(s, e) && b !in s.heap && b in Apply(env, s, e).heap
    ensures Accounted(Apply(env, s, e), es, b)
  {
    assert Good(env, s, e.t);
  }

  lemma AccountedStep(env: seq<string>, s: State, es: seq<Event>, k: nat, b: nat)
    requires es != [] && k == |es| - 1 && Strings(env) && Inv(env, s) && Enabled(s, es[k])
    requires b in s.heap ==> Accounted(s, es[..k], b)
    requires b in Apply(env, s, es[k]).heap
    ensures Accounted(Apply(env, s, es[k]), es, b)
  {
    assert es == es[..k] + [es[k]];
    StepKeeps(env, s, es[k]);
    if b !in s.heap {
      NewAccounted(env, s, es[k], es, b);
    } else if s.heap[b].owner == es[k].t {
      OwnAccounted(env, s, es[k], es[..k], b);
    } else {
      OthersAccounted(env, s, es[k], es[..k], b);
    }
  }

  lemma {:induction false} EveryBlockAccounted(env: seq<string>, n: nat, es: seq<Event>, b: nat)
    requires Strings(env) && CanRun(env, Start(n), es) && b in Run(env, Start(n), es).heap
    ensures Accounted(Run(env, Start(n), es), es, b)
    decreases |es|
  {
    if es != [] {
      var k := |es| - 1;
      RunLast(env, Start(n), es);
      EveryRun(env, n, es[..k]);
      if b in Run(env, Start(n), es[..k]).heap {
        EveryBlockAccounted(env, n, es[..k], b);
      }
      AccountedStep(env, Run(env, Start(n), es[..k]), es, k, b);
    }
  }

  /** A thread that has exited leaves no buffer behind, unless a pthread_setspecific of its failed. */
  lemma {:induction false} ExitFrees(env: seq<string>, n: nat, es: seq<Event>, t: nat, b: nat)
    requires Strings(env) && CanRun(env, Start(n), es) && t < n && Exit(t) in es
    requires b in Run(env, Start(n), es).heap && Run(env, Start(n), es).heap[b].owner == t
    ensures StoreFails(t) in es
  {
    EveryRun(env, n, es);
    EveryBlockAccounted(env, n, es, b);
    ExitedIsGone(env, n, es, t);
    assert Good(env, Run(env, Start(n), es), t);
  }

  lemma {:induction false} ExitedIsGone(env: seq<string>, n: nat, es: seq<Event>, t: nat)
    requires Strings(env) && CanRun(env, Start(n), es) && t < n && Exit(t) in es
    ensures |Run(env, Start(n), es).threads| == n && Run(env, Start(n), es).threads[t].phase.Gone?
    decreases |es|
  {
    var k := |es| - 1;
    RunLast(env, Start(n), es);
    EveryRun(env, n, es);
    EveryRun(env, n, es[..k]);
    assert es == es[..k] + [es[k]];
    var s := Run(env, Start(n), es[..k]);
    if es[k] != Exit(t) {
      ExitedIsGone(env, n, es[..k], t);
      if es[k].t != t {
        Elsewhere(env, s, es[k], t);
      }
    }
  }

  // ------------------------------------------------------------------ progress

  /** A call is under way. */
  predicate Calling(p: Phase) {
    !p.Idle? && !p.Gone?
  }

  /** While a call is unfinished some thread that is in a call can move. */
  lemma SomebodyMoves(env: seq<string>, n: nat, es: seq<Event>, t: nat) returns (e: Event)
    requires Strings(env) && CanRun(env, Start(n), es) && t < n && t < |Run(env, Start(n), es).threads|
    requires Calling(Run(env, Start(n), es).threads[t].phase)
    ensures Enabled(Run(env, Start(n), es), e) && !e.Call? && !e.Exit?
  {
    EveryRun(env, n, es);
    var s := Run(env, Start(n), es);
    var u := t;
    if s.threads[t].phase.AtOnce? && s.once.Running? {
      u := s.once.t;
    } else if s.threads[t].phase.Locking? && s.holder.Some? {
      u := s.holder.value;
    }
    assert Good(env, s, u);
    e := if s.threads[u].phase.Allocating? then NoMemory(u) else Step(u);
  }

  /** Steps a call may still take. */
  function Rank(env: seq<string>, p: Phase): nat {
    match p
    case Idle => 0
    case Gone => 0
    case Unlocking(_) => 1
    case Copying(_, _, k) => 2 + (if k <= MAXSTRINGSZ then MAXSTRINGSZ - k else 0)
    case Comparing(_, i) => 3 + MAXSTRINGSZ + (if i <= |env| then |env| - i else 0)
    case Storing(_) => 4 + MAXSTRINGSZ + |env|
    case Allocating => 5 + MAXSTRINGSZ + |env|
    case Looking => 6 + MAXSTRINGSZ + |env|
    case Locking => 7 + MAXSTRINGSZ + |env|
    case Initialised => 8 + MAXSTRINGSZ + |env|
    case Initialising => 9 + MAXSTRINGSZ + |env|
    case AtOnce => 10 + MAXSTRINGSZ + |env|
  }

  function Ranks(env: seq<string>, ts: seq<Thread>): nat {
    if ts == [] then 0 else Rank(env, ts[0].phase) + Ranks(env, ts[1..])
  }

  lemma {:induction false} RanksUpdate(env: seq<string>, ts: seq<Thread>, i: nat, th: Thread)
    requires i < |ts|
    ensures Ranks(env, ts[i := th]) + Rank(env, ts[i].phase) == Ranks(env, ts) + Rank(env, th.phase)
  {
    if i == 0 {
      assert ts[0 := th][1..] == ts[1..];
    } else {
      RanksUpdate(env, ts[1..], i - 1, th);
      assert ts[i := th][1..] == ts[1..][i - 1 := th];
    }
  }

  lemma StepDescends(env: seq<string>, s: State, e: Event)
    requires Strings(env) && Inv(env, s) && Enabled(s, e) && !e.Call? && !e.Exit?
    ensures Ranks(env, Apply(env, s, e).threads) < Ranks(env, s.threads)
  {
    var s' := Apply(env, s, e);
    assert Good(env, s, e.t);
    MoverGood(env, s, e);
    assert Rank(env, s'.threads[e.t].phase) < Rank(env, s.threads[e.t].phase);
    RanksUpdate(env, s.threads, e.t, s'.threads[e.t]);
    assert s'.threads == s.threads[e.t := s'.threads[e.t]];
  }

  /** Calls under way finish: without new calls only so many steps are possible. With SomebodyMoves, every
      schedule that goes on as long as it can brings every call to its return. */
  lemma {:induction false} CallsFinish(env: seq<string>, s: State, es: seq<Event>)
    requires Strings(env) && Inv(env, s) && CanRun(env, s, es)
    requires forall i :: 0 <= i < |es| ==> !es[i].Call? && !es[i].Exit?
    ensures |es| + Ranks(env, Run(env, s, es).threads) <= Ranks(env, s.threads)
    decreases |es|
  {
    if es != [] {
      StepDescends(env, s, es[0]);
      StepKeeps(env, s, es[0]);
      CallsFinish(env, Apply(env, s, es[0]), es[1..]);
    }
  }

  // ------------------------------------------------------------------ every call can be answered

  lemma {:induction false} FreeAddress(used: set<nat>) returns (b: nat)
    ensures forall x :: x in used ==> x < b
    decreases |used|
  {
    b := 0;
    if x :| x in used {
      var c := FreeAddress(used - {x});
      b := if c > x then c else x + 1;
      assert forall y :: y in used ==> y == x || y in used - {x};
    }
  }

  /** Thread `t` is in a call and no other thread is. */
  ghost predicate Alone(s: State, t: nat) {
    t < |s.threads| && forall u :: 0 <= u < |s.threads| && u != t ==> s.threads[u].phase.Idle?
  }

  lemma OwnMove(env: seq<string>, s: State, t: nat) returns (e: Event)
    requires Inv(env, s) && Alone(s, t) && Calling(s.threads[t].phase)
    ensures Enabled(s, e) && e.t == t && (e.Step? || e.GotMemory?)
  {
    assert Good(env, s, t);
    if s.once.Running? {
      assert Good(env, s, s.once.t);
    }
    if s.holder.Some? {
      assert Good(env, s, s.holder.value);
    }
    if s.threads[t].phase.Allocating? {
      var b := FreeAddress(s.heap.Keys);
      e := GotMemory(t, b, seq(MAXSTRINGSZ, _ => NUL));
    } else {
      e := Step(t);
    }
  }

  lemma {:induction false} FinishCall(env: seq<string>, s: State, t: nat) returns (es: seq<Event>)
    requires Strings(env) && Inv(env, s) && Alone(s, t) && !s.threads[t].phase.Gone?
    ensures CanRun(env, s, es) && forall i :: 0 <= i < |es| ==> es[i].Step? || es[i].GotMemory?
    ensures t < |Run(env, s, es).threads| && Run(env, s, es).threads[t].phase.Idle?
    decreases Ranks(env, s.threads)
  {
    es := [];
    if Calling(s.threads[t].phase) {
      var e := OwnMove(env, s, t);
      var s' := Apply(env, s, e);
      StepKeeps(env, s, e);
      StepDescends(env, s, e);
      StaysAlone(env, s, t, e);
      var rest := FinishCall(env, s', t);
      es := [e] + rest;
      assert es[1..] == rest;
    }
  }

  lemma StaysAlone(env: seq<string>, s: State, t: nat, e: Event)
    requires Strings(env) && Inv(env, s) && Alone(s, t) && Enabled(s, e) && e.t == t && (e.Step? || e.GotMemory?)
    ensures Alone(Apply(env, s, e), t) && !Apply(env, s, e).threads[t].phase.Gone?
  {
    assert Good(env, s, t);
    StepKeeps(env, s, e);
    forall u | 0 <= u < |s.threads| && u != t ensures Apply(env, s, e).threads[u].phase.Idle? {
      Elsewhere(env, s, e, u);
    }
  }

  /** Any thread can ask for any name and get its answer: null exactly when the name is not there. */
  lemma {:induction false} CanAnswer(env: seq<string>, n: nat, t: nat, name: string) returns (es: seq<Event>)
    requires Strings(env) && t < n && NUL !in name
    ensures CanRun(env, Start(n), [Call(t, name)] + es)
    ensures var s := Run(env, Start(n), [Call(t, name)] + es);
            && t < |s.threads| && s.threads[t].phase.Idle? && s.threads[t].answer.Some?
            && (s.threads[t].answer.value.None? <==> Lookup(env, name).None?)
            && Enabled(s, Exit(t))
  {
    var s := Apply(env, Start(n), Call(t, name));
    EveryRun(env, n, []);
    StepKeeps(env, Start(n), Call(t, name));
    es := FinishCall(env, s, t);
    var all := [Call(t, name)] + es;
    assert all[1..] == es;
    EveryRun(env, n, all);
    OnlyCall(all, t);
    AnswersHold(env, n, all, t);
  }

  lemma {:induction false} OnlyCall(es: seq<Event>, t: nat)
    requires es != [] && es[0].Call? && es[0].t == t
    requires forall i :: 0 < i < |es| ==> es[i].Step? || es[i].GotMemory?
    ensures LastCall(es, t) == 0 && !MallocFailed(es, t)
  {
  }
}
