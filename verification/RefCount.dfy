/** The reference-counted objects of pthread/pthread_mutex.c and its two thread programs. thr_fn1 holds
    and releases each object n times; thr_fn2 holds it n times and releases it n+1 times, the extra
    release giving up the reference of foo_alloc. Locking, the count update, unlocking, destroying
    the mutex and freeing are separate steps; touching a freed object is a fault and ends the run. */
module RefCount {
  import opened Options

  datatype Tid = First | Second

  datatype Obj = A | B

  /** How often the programs hold foo_val1 and foo_val2. */
  datatype Config = Config(a: nat, b: nat)

  function N(c: Config, x: Obj): nat {
    if x.A? then c.a else c.b
  }

  function Other(t: Tid): Tid {
    if t.First? then Second else First
  }

  function One(b: bool): nat {
    if b then 1 else 0
  }

  // ------------------------------------------------------------------ the thread programs

  function Extra(t: Tid): nat {
    if t.First? then 0 else 1
  }

  function Calls(c: Config, t: Tid): nat {
    2 * (c.a + c.b) + 2 * Extra(t)
  }

  predicate IsHold(c: Config, pc: nat) {
    pc < c.a + c.b
  }

  /** Which object call number `pc` is about. */
  function Target(c: Config, t: Tid, pc: nat): Obj {
    if pc < c.a then A
    else if pc < c.a + c.b then B
    else if pc < 2 * c.a + c.b + Extra(t) then A
    else B
  }

  /** Holds of `x` among the first `u` calls of a thread. */
  function Holds(c: Config, t: Tid, x: Obj, u: nat): nat {
    if u == 0 then 0 else Holds(c, t, x, u - 1) + One(IsHold(c, u - 1) && Target(c, t, u - 1) == x)
  }

  function Reles(c: Config, t: Tid, x: Obj, u: nat): nat {
    if u == 0 then 0 else Reles(c, t, x, u - 1) + One(!IsHold(c, u - 1) && Target(c, t, u - 1) == x)
  }

  // ------------------------------------------------------------------ states and steps

  /** Where a thread is inside foo_hold or foo_rele; `last` when its decrement reached zero. */
  datatype Phase = Ready | Inside | Updated(last: bool) | Destroying | Freeing

  datatype Thread = Thread(pc: nat, phase: Phase)

  /** `zeros` counts decrements to zero, `destroys` and `frees` the calls that end the object. */
  datatype Object = Object(count: int, holder: Option<Tid>, zeros: nat, destroys: nat, frees: nat)

  /** `seen` records, per object, how many holds thr_fn1 had done when thr_fn2 did its last release. */
  datatype State = State(a: Object, b: Object, first: Thread, second: Thread, seen: map<Obj, nat>, faulted: bool)

  function Ob(s: State, x: Obj): Object {
    if x.A? then s.a else s.b
  }

  function Th(s: State, t: Tid): Thread {
    if t.First? then s.first else s.second
  }

  function Set(s: State, t: Tid, th: Thread, x: Obj, o: Object): State {
    var s1 := if t.First? then s.(first := th) else s.(second := th);
    if x.A? then s1.(a := o) else s1.(b := o)
  }

  /** Both objects fresh from foo_alloc. */
  const Start := State(Object(1, None, 0, 0, 0), Object(1, None, 0, 0, 0),
                       Thread(0, Ready), Thread(0, Ready), map[], false)

  /** A thread can always go on, except that it waits for a mutex somebody else has. */
  predicate Enabled(c: Config, s: State, t: Tid) {
    var th := Th(s, t);
    && !s.faulted && th.pc < Calls(c, t)
    && (th.phase.Ready? ==> var o := Ob(s, Target(c, t, th.pc)); o.frees > 0 || o.holder.None?)
  }

  /** How many count updates a thread has made. */
  function Done(th: Thread): nat {
    th.pc + if th.phase.Ready? || th.phase.Inside? then 0 else 1
  }

  /** One step inside foo_hold or foo_rele on a live object; the call is over when Ready is reached. */
  function Micro(o: Object, p: Phase, t: Tid, hold: bool): (Object, Phase) {
    match p
    case Ready => (o.(holder := Some(t)), Inside)
    case Inside =>
      if hold then (o.(count := o.count + 1), Updated(false))
      else (o.(count := o.count - 1, zeros := o.zeros + One(o.count == 1)), Updated(o.count == 1))
    case Updated(last) => (o.(holder := None), if last then Destroying else Ready)
    case Destroying => (o.(destroys := o.destroys + 1), Freeing)
    case Freeing => (o.(frees := o.frees + 1), Ready)
  }

  function Apply(c: Config, s: State, t: Tid): State
    requires Enabled(c, s, t)
  {
    var th := Th(s, t);
    var x := Target(c, t, th.pc);
    if Ob(s, x).frees > 0 then s.(faulted := true)
    else
      var hold := IsHold(c, th.pc);
      var (o, p) := Micro(Ob(s, x), th.phase, t, hold);
      var lastRelease := t.Second? && th.phase.Inside? && !hold && Reles(c, t, x, th.pc) == N(c, x);
      Set(s, t, if p.Ready? then Thread(th.pc + 1, Ready) else th.(phase := p), x, o).(
        seen := if lastRelease then s.seen[x := Holds(c, First, x, Done(s.first))] else s.seen)
  }

  predicate CanRun(c: Config, s: State, ts: seq<Tid>)
    decreases |ts|
  {
    ts == [] || (Enabled(c, s, ts[0]) && CanRun(c, Apply(c, s, ts[0]), ts[1..]))
  }

  function Run(c: Config, s: State, ts: seq<Tid>): State
    requires CanRun(c, s, ts)
    decreases |ts|
  {
    if ts == [] then s else Run(c, Apply(c, s, ts[0]), ts[1..])
  }

  // ------------------------------------------------------------------ invariant

  /** One thread as one object sees it: its phase while in a call on the object, and its tallies. */
  datatype Side = Side(phase: Phase, holds: nat, reles: nat)

  /** Everything that concerns one object. */
  datatype View = View(n: nat, o: Object, first: Side, second: Side, seen: Option<nat>)

  predicate At(c: Config, s: State, t: Tid, x: Obj) {
    Th(s, t).pc < Calls(c, t) && Target(c, t, Th(s, t).pc) == x
  }

  function SideOf(c: Config, s: State, t: Tid, x: Obj): Side {
    var th := Th(s, t);
    Side(if At(c, s, t, x) then th.phase else Ready, Holds(c, t, x, Done(th)), Reles(c, t, x, Done(th)))
  }

  function ViewOf(c: Config, s: State, x: Obj): View {
    View(N(c, x), Ob(s, x), SideOf(c, s, First, x), SideOf(c, s, Second, x),
         if x in s.seen then Some(s.seen[x]) else None)
  }

  /** The tallies respect the order of the programs: no release before the last hold. */
  predicate Orderly(n: nat, t: Tid, d: Side) {
    d.holds <= n && d.reles <= n + Extra(t) && (d.reles > 0 ==> d.holds == n)
  }

  predicate Finishing(p: Phase) {
    p == Updated(true) || p.Destroying? || p.Freeing?
  }

  predicate Late(v: View) {
    v.seen == Some(0)
  }

  /** A mutex is held by the one thread inside a call on its object, which knows the count. */
  predicate LockInv(v: View, t: Tid, d: Side) {
    && (v.o.holder == Some(t) <==> d.phase.Inside? || d.phase.Updated?)
    && (d.phase.Updated? ==> (d.phase.last <==> v.o.count == 0))
  }

  predicate CountInv(v: View) {
    && v.o.count == 1 + v.first.holds + v.second.holds - v.first.reles - v.second.reles
    && v.o.zeros == v.o.frees + One(Finishing(v.first.phase)) + One(Finishing(v.second.phase))
    && v.o.destroys == v.o.frees + One(v.first.phase.Freeing?) + One(v.second.phase.Freeing?)
    && v.o.frees <= 1
    && (v.seen.Some? <==> v.second.reles == v.n + 1)
    && (v.seen.Some? ==> v.seen.value <= v.first.holds)
    && v.o.zeros == if Late(v) then 1 + One(v.first.reles == v.n) else One(v.o.count == 0)
  }

  predicate ViewInv(v: View) {
    && v.n >= 1 && Orderly(v.n, First, v.first) && Orderly(v.n, Second, v.second)
    && LockInv(v, First, v.first) && LockInv(v, Second, v.second) && CountInv(v)
  }

  predicate Inv(c: Config, s: State) {
    && (forall t :: Th(s, t).pc <= Calls(c, t) && (Th(s, t).pc == Calls(c, t) ==> Th(s, t).phase.Ready?))
    && (s.faulted ==> Late(ViewOf(c, s, A)) || Late(ViewOf(c, s, B)))
    && (!s.faulted ==> forall x :: ViewInv(ViewOf(c, s, x)))
  }

  // ------------------------------------------------------------------ a step as the object sees it

  function Get(v: View, t: Tid): Side {
    if t.First? then v.first else v.second
  }

  function Tallied(d: Side, hold: bool, p: Phase): Side {
    if !d.phase.Inside? then d.(phase := p)
    else if hold then Side(p, d.holds + 1, d.reles)
    else Side(p, d.holds, d.reles + 1)
  }

  function Next(v: View, t: Tid, hold: bool): View {
    var d := Get(v, t);
    var (o, p) := Micro(v.o, d.phase, t, hold);
    var d' := Tallied(d, hold, p);
    var seen := if t.Second? && d.phase.Inside? && !hold && d.reles == v.n then Some(v.first.holds) else v.seen;
    if t.First? then View(v.n, o, d', v.second, seen) else View(v.n, o, v.first, d', seen)
  }

  /** Unless thr_fn1 came late, the count is zero only when both programs are through with the object. */
  lemma ZeroMeansDone(v: View)
    requires ViewInv(v) && !Late(v) && v.o.count == 0
    ensures v.first.holds == v.first.reles == v.second.holds == v.n && v.second.reles == v.n + 1
  {
  }

  /** A count update that the program order allows keeps the invariant of a live object. */
  lemma UpdateKeeps(v: View, t: Tid, hold: bool)
    requires ViewInv(v) && v.o.frees == 0 && Get(v, t).phase.Inside?
    requires Orderly(v.n, t, Tallied(Get(v, t), hold, Inside))
    ensures ViewInv(Next(v, t, hold))
  {
    if !Late(v) && v.o.count == 0 {
      ZeroMeansDone(v);
    }
  }

  lemma LockKeeps(v: View, t: Tid, hold: bool)
    requires ViewInv(v) && v.o.frees == 0 && Get(v, t).phase.Ready? && v.o.holder.None?
    ensures ViewInv(Next(v, t, hold))
  {
  }

  lemma UnlockKeeps(v: View, t: Tid, hold: bool)
    requires ViewInv(v) && v.o.frees == 0 && Get(v, t).phase.Updated?
    ensures ViewInv(Next(v, t, hold))
  {
  }

  lemma DestroyKeeps(v: View, t: Tid, hold: bool)
    requires ViewInv(v) && v.o.frees == 0 && Get(v, t).phase.Destroying?
    ensures ViewInv(Next(v, t, hold))
  {
  }

  lemma FreeKeeps(v: View, t: Tid, hold: bool)
    requires ViewInv(v) && v.o.frees == 0 && Get(v, t).phase.Freeing?
    ensures ViewInv(Next(v, t, hold))
  {
  }

  /** Every step of a call on a live object keeps its invariant. */
  lemma PhaseKeeps(v: View, t: Tid, hold: bool)
    requires ViewInv(v) && v.o.frees == 0
    requires Get(v, t).phase.Ready? ==> v.o.holder.None?
    requires Get(v, t).phase.Inside? ==> Orderly(v.n, t, Tallied(Get(v, t), hold, Inside))
    ensures ViewInv(Next(v, t, hold))
  {
    match Get(v, t).phase
    case Ready => LockKeeps(v, t, hold);
    case Inside => UpdateKeeps(v, t, hold);
    case Updated(_) => UnlockKeeps(v, t, hold);
    case Destroying => DestroyKeeps(v, t, hold);
    case Freeing => FreeKeeps(v, t, hold);
  }

  // ------------------------------------------------------------------ programs and views

  function Clamp(v: int, hi: nat): nat {
    if v < 0 then 0 else if v > hi then hi else v
  }

  lemma {:induction false} TallyClosed(c: Config, t: Tid, x: Obj, u: nat)
    requires u <= Calls(c, t)
    ensures Holds(c, t, x, u) == Clamp(if x.A? then u else u - c.a, N(c, x))
    ensures Reles(c, t, x, u) == Clamp(if x.A? then u - c.a - c.b else u - 2 * c.a - c.b - Extra(t), N(c, x) + Extra(t))
  {
    if u > 0 {
      TallyClosed(c, t, x, u - 1);
    }
  }

  lemma ProgramOrder(c: Config, t: Tid, x: Obj, u: nat, p: Phase)
    requires u <= Calls(c, t)
    ensures Orderly(N(c, x), t, Side(p, Holds(c, t, x, u), Reles(c, t, x, u)))
    ensures u < Calls(c, t) && Target(c, t, u) == x ==>
              Holds(c, t, x, u) < N(c, x) || Reles(c, t, x, u) < N(c, x) + Extra(t)
    ensures u == Calls(c, t) ==> Holds(c, t, x, u) == N(c, x) && Reles(c, t, x, u) == N(c, x) + Extra(t)
  {
    TallyClosed(c, t, x, u);
  }

  /** thr_fn1 holds and releases each object n times, thr_fn2 releases it once more; holds come first. */
  lemma Programs(c: Config, x: Obj, u: nat)
    ensures Calls(c, First) == 2 * (c.a + c.b) && Calls(c, Second) == 2 * (c.a + c.b) + 2
    ensures Holds(c, First, x, Calls(c, First)) == Reles(c, First, x, Calls(c, First)) == N(c, x)
    ensures Holds(c, Second, x, Calls(c, Second)) == N(c, x) && Reles(c, Second, x, Calls(c, Second)) == N(c, x) + 1
    ensures u <= c.a + c.b ==> Reles(c, First, x, u) == Reles(c, Second, x, u) == 0
    ensures N(c, A) == c.a && N(c, B) == c.b
  {
    TallyClosed(c, First, x, Calls(c, First));
    TallyClosed(c, Second, x, Calls(c, Second));
    if u <= c.a + c.b {
      TallyClosed(c, First, x, u);
      TallyClosed(c, Second, x, u);
    }
  }

  lemma OwnSide(c: Config, s: State, t: Tid)
    requires Enabled(c, s, t) && Ob(s, Target(c, t, Th(s, t).pc)).frees == 0
    ensures var x, hold := Target(c, t, Th(s, t).pc), IsHold(c, Th(s, t).pc);
            SideOf(c, Apply(c, s, t), t, x) ==
            Tallied(SideOf(c, s, t, x), hold, Micro(Ob(s, x), Th(s, t).phase, t, hold).1)
  {
  }

  lemma OtherSide(c: Config, s: State, t: Tid, x: Obj)
    requires Enabled(c, s, t)
    ensures SideOf(c, Apply(c, s, t), Other(t), x) == SideOf(c, s, Other(t), x)
  {
  }

  lemma TargetView(c: Config, s: State, t: Tid)
    requires Enabled(c, s, t) && Ob(s, Target(c, t, Th(s, t).pc)).frees == 0
    ensures var x := Target(c, t, Th(s, t).pc);
            ViewOf(c, Apply(c, s, t), x) == Next(ViewOf(c, s, x), t, IsHold(c, Th(s, t).pc))
  {
    OwnSide(c, s, t);
    OtherSide(c, s, t, Target(c, t, Th(s, t).pc));
  }

  lemma OwnSideElsewhere(c: Config, s: State, t: Tid, y: Obj)
    requires Enabled(c, s, t) && Ob(s, Target(c, t, Th(s, t).pc)).frees == 0 && y != Target(c, t, Th(s, t).pc)
    ensures SideOf(c, Apply(c, s, t), t, y) == SideOf(c, s, t, y)
  {
  }

  /** The object a step is not about does not notice it. */
  lemma OtherView(c: Config, s: State, t: Tid, y: Obj)
    requires Enabled(c, s, t) && Ob(s, Target(c, t, Th(s, t).pc)).frees == 0 && y != Target(c, t, Th(s, t).pc)
    ensures ViewOf(c, Apply(c, s, t), y) == ViewOf(c, s, y)
  {
    OwnSideElsewhere(c, s, t, y);
    OtherSide(c, s, t, y);
  }

  /** A thread that touches a freed object has met a late hold. */
  lemma FaultIsLate(c: Config, s: State, t: Tid)
    requires Inv(c, s) && Enabled(c, s, t) && Ob(s, Target(c, t, Th(s, t).pc)).frees > 0
    ensures Late(ViewOf(c, s, Target(c, t, Th(s, t).pc)))
  {
    var x := Target(c, t, Th(s, t).pc);
    var v := ViewOf(c, s, x);
    assert ViewInv(v);
    if !Late(v) {
      ZeroMeansDone(v);
      ProgramOrder(c, t, x, Th(s, t).pc, Ready);
      assert false;
    }
  }

  lemma LiveStepKeeps(c: Config, s: State, t: Tid)
    requires Inv(c, s) && Enabled(c, s, t) && Ob(s, Target(c, t, Th(s, t).pc)).frees == 0
    ensures ViewInv(ViewOf(c, Apply(c, s, t), Target(c, t, Th(s, t).pc)))
  {
    var x := Target(c, t, Th(s, t).pc);
    assert ViewInv(ViewOf(c, s, x));
    InsideOrderly(c, s, t);
    PhaseKeeps(ViewOf(c, s, x), t, IsHold(c, Th(s, t).pc));
    TargetView(c, s, t);
  }

  lemma InsideOrderly(c: Config, s: State, t: Tid)
    requires Th(s, t).pc < Calls(c, t)
    ensures var x := Target(c, t, Th(s, t).pc); var v := ViewOf(c, s, x);
            && Get(v, t).phase == Th(s, t).phase
            && (Th(s, t).phase.Inside? ==> Orderly(v.n, t, Tallied(Get(v, t), IsHold(c, Th(s, t).pc), Inside)))
  {
    ProgramOrder(c, t, Target(c, t, Th(s, t).pc), Th(s, t).pc + 1, Inside);
  }

  lemma StepKeepsPcs(c: Config, s: State, t: Tid, r: Tid)
    requires Inv(c, s) && Enabled(c, s, t)
    ensures var th := Th(Apply(c, s, t), r); th.pc <= Calls(c, r) && (th.pc == Calls(c, r) ==> th.phase.Ready?)
  {
  }

  lemma ViewIgnoresFault(c: Config, s: State, x: Obj)
    ensures ViewOf(c, s.(faulted := true), x) == ViewOf(c, s, x)
  {
  }

  lemma StepKeeps(c: Config, s: State, t: Tid)
    requires Inv(c, s) && Enabled(c, s, t)
    ensures Inv(c, Apply(c, s, t))
  {
    var x := Target(c, t, Th(s, t).pc);
    StepKeepsPcs(c, s, t, First);
    StepKeepsPcs(c, s, t, Second);
    if Ob(s, x).frees > 0 {
      FaultIsLate(c, s, t);
      ViewIgnoresFault(c, s, x);
    } else {
      LiveStepKeeps(c, s, t);
      forall y ensures ViewInv(ViewOf(c, Apply(c, s, t), y)) {
        if y != x {
          OtherView(c, s, t, y);
        }
      }
    }
  }

  lemma {:induction false} RunKeeps(c: Config, s: State, ts: seq<Tid>)
    requires Inv(c, s) && CanRun(c, s, ts)
    ensures Inv(c, Run(c, s, ts))
    decreases |ts|
  {
    if ts != [] {
      StepKeeps(c, s, ts[0]);
      RunKeeps(c, Apply(c, s, ts[0]), ts[1..]);
    }
  }

  // ------------------------------------------------------------------ results

  lemma EveryRun(c: Config, ts: seq<Tid>)
    requires c.a >= 1 && c.b >= 1 && CanRun(c, Start, ts)
    ensures Inv(c, Run(c, Start, ts))
  {
    RunKeeps(c, Start, ts);
  }

  /** Until something is touched after its free, the count of each object is one plus holds minus releases. */
  lemma CountIsNet(c: Config, ts: seq<Tid>, x: Obj)
    requires c.a >= 1 && c.b >= 1 && CanRun(c, Start, ts)
    ensures var s := Run(c, Start, ts); var u1, u2 := Done(s.first), Done(s.second);
            !s.faulted ==>
              Ob(s, x).count == 1 + Holds(c, First, x, u1) + Holds(c, Second, x, u2)
                                - Reles(c, First, x, u1) - Reles(c, Second, x, u2)
  {
    EveryRun(c, ts);
    assert Run(c, Start, ts).faulted || ViewInv(ViewOf(c, Run(c, Start, ts), x));
  }

  /** No thread can move: the run faulted or both programs returned. */
  predicate Stuck(c: Config, s: State) {
    !Enabled(c, s, First) && !Enabled(c, s, Second)
  }

  lemma StuckMeansOver(c: Config, s: State)
    requires Inv(c, s) && Stuck(c, s) && !s.faulted
    ensures s.first == Thread(Calls(c, First), Ready) && s.second == Thread(Calls(c, Second), Ready)
  {
    if s.first.pc < Calls(c, First) {
      SomebodyMoves(c, s, First);
    }
    if s.second.pc < Calls(c, Second) {
      SomebodyMoves(c, s, Second);
    }
    assert Th(s, First) == s.first && Th(s, Second) == s.second;
  }

  /** The mutexes never leave everybody waiting. */
  lemma SomebodyMoves(c: Config, s: State, t: Tid)
    requires Inv(c, s) && !s.faulted && Th(s, t).pc < Calls(c, t)
    ensures Enabled(c, s, t) || Enabled(c, s, Other(t))
  {
    if !Enabled(c, s, t) {
      var v := ViewOf(c, s, Target(c, t, Th(s, t).pc));
      assert ViewInv(v);
      HolderCases(v.o.holder);
      assert Get(v, t).phase.Ready? && v.o.holder == Some(Other(t));
      assert !SideOf(c, s, Other(t), Target(c, t, Th(s, t).pc)).phase.Ready?;
    }
  }

  lemma OverView(c: Config, s: State, x: Obj)
    requires s.first == Thread(Calls(c, First), Ready) && s.second == Thread(Calls(c, Second), Ready)
    ensures var v := ViewOf(c, s, x);
            && v.first == Side(Ready, v.n, v.n)
            && v.second == Side(Ready, v.n, v.n + 1)
  {
    ProgramOrder(c, First, x, Calls(c, First), Ready);
    ProgramOrder(c, Second, x, Calls(c, Second), Ready);
  }

  /** In state `s` the next step of thr_fn2 is its last release of `x`, and thr_fn1 has not held `x` yet. */
  predicate LateNow(c: Config, s: State, x: Obj) {
    && LastReleaseNow(c, s, x) && Holds(c, First, x, Done(s.first)) == 0
  }

  predicate LastReleaseNow(c: Config, s: State, x: Obj) {
    && s.second.pc < Calls(c, Second) && s.second.phase.Inside? && Ob(s, x).frees == 0
    && Target(c, Second, s.second.pc) == x && !IsHold(c, s.second.pc) && Reles(c, Second, x, s.second.pc) == N(c, x)
  }

  /** At step `i` of the schedule thr_fn2 gives up `x` before thr_fn1 has held it. */
  predicate LateAt(c: Config, ts: seq<Tid>, x: Obj, i: int) {
    0 <= i < |ts| && ts[i].Second? && CanRun(c, Start, ts[..i]) && LateNow(c, Run(c, Start, ts[..i]), x)
  }

  lemma {:induction false} RunLast(c: Config, s: State, ts: seq<Tid>)
    requires CanRun(c, s, ts) && ts != []
    ensures var k := |ts| - 1;
            CanRun(c, s, ts[..k]) && Enabled(c, Run(c, s, ts[..k]), ts[k]) &&
            Run(c, s, ts) == Apply(c, Run(c, s, ts[..k]), ts[k])
    decreases |ts|
  {
    var k := |ts| - 1;
    if k > 0 {
      RunLast(c, Apply(c, s, ts[0]), ts[1..]);
      assert ts[..k][1..] == ts[1..][..k - 1];
    }
  }

  /** The record of a last release is made once. */
  lemma NextSeen(v: View, t: Tid, hold: bool)
    requires ViewInv(v)
    ensures Late(Next(v, t, hold)) <==>
              Late(v) || (t.Second? && v.second.phase.Inside? && !hold && v.second.reles == v.n && v.first.holds == 0)
  {
  }

  lemma SeenStep(c: Config, s: State, t: Tid, x: Obj)
    requires Inv(c, s) && Enabled(c, s, t)
    ensures Late(ViewOf(c, Apply(c, s, t), x)) <==> Late(ViewOf(c, s, x)) || (t.Second? && LateNow(c, s, x))
  {
    var y := Target(c, t, Th(s, t).pc);
    if Ob(s, y).frees > 0 {
      ViewIgnoresFault(c, s, x);
    } else if x != y {
      OtherView(c, s, t, x);
    } else {
      TargetView(c, s, t);
      NextSeen(ViewOf(c, s, x), t, IsHold(c, Th(s, t).pc));
    }
  }

  lemma {:induction false} LateAtLast(c: Config, ts: seq<Tid>, x: Obj, k: nat)
    requires CanRun(c, Start, ts) && ts != [] && k == |ts| - 1 && CanRun(c, Start, ts[..k])
    ensures (exists i :: LateAt(c, ts, x, i)) <==>
              (exists i :: LateAt(c, ts[..k], x, i)) || (ts[k].Second? && LateNow(c, Run(c, Start, ts[..k]), x))
  {
    if i :| LateAt(c, ts, x, i) {
      if i < k {
        assert ts[..k][..i] == ts[..i];
        assert LateAt(c, ts[..k], x, i);
      }
    }
    if i :| LateAt(c, ts[..k], x, i) {
      assert ts[..k][..i] == ts[..i];
      assert LateAt(c, ts, x, i);
    }
    if ts[k].Second? && LateNow(c, Run(c, Start, ts[..k]), x) {
      assert LateAt(c, ts, x, k);
    }
  }

  lemma {:induction false} LateIsEvent(c: Config, ts: seq<Tid>, x: Obj)
    requires c.a >= 1 && c.b >= 1 && CanRun(c, Start, ts)
    ensures Late(ViewOf(c, Run(c, Start, ts), x)) <==> exists i :: LateAt(c, ts, x, i)
    decreases |ts|
  {
    if ts != [] {
      var k := |ts| - 1;
      RunLast(c, Start, ts);
      EveryRun(c, ts[..k]);
      LateIsEvent(c, ts[..k], x);
      SeenStep(c, Run(c, Start, ts[..k]), ts[k], x);
      LateAtLast(c, ts, x, k);
    }
  }

  /** A complete run touches a freed object exactly when, for one of the objects, thr_fn2's last release
      came before thr_fn1's first hold; otherwise each object's mutex is destroyed
      and its memory freed exactly once, with count zero. */
  lemma {:induction false} SafeExactly(c: Config, ts: seq<Tid>)
    requires c.a >= 1 && c.b >= 1 && CanRun(c, Start, ts) && Stuck(c, Run(c, Start, ts))
    ensures var s := Run(c, Start, ts);
            && (s.faulted <==> exists x, i :: LateAt(c, ts, x, i))
            && (!s.faulted ==> forall x :: Ob(s, x).destroys == Ob(s, x).frees == 1 && Ob(s, x).count == 0)
  {
    EveryRun(c, ts);
    LateIsEvent(c, ts, A);
    LateIsEvent(c, ts, B);
    var s := Run(c, Start, ts);
    if !s.faulted {
      StuckMeansOver(c, s);
      forall x ensures !Late(ViewOf(c, s, x)) && Ob(s, x).destroys == Ob(s, x).frees == 1 && Ob(s, x).count == 0 {
        OverView(c, s, x);
        assert ViewInv(ViewOf(c, s, x));
      }
      forall x, i ensures !LateAt(c, ts, x, i) {
        LateIsEvent(c, ts, x);
      }
    }
  }

  /** The thread that frees is the one that made the overall last release. */
  lemma LastReleaseFrees(c: Config, ts: seq<Tid>, x: Obj)
    requires c.a >= 1 && c.b >= 1 && CanRun(c, Start, ts)
    ensures var s := Run(c, Start, ts); var v := ViewOf(c, s, x);
            !s.faulted && !Late(v) && (v.o.frees > 0 || Finishing(v.first.phase) || Finishing(v.second.phase)) ==>
              v.first.holds == v.first.reles == v.second.holds == v.n && v.second.reles == v.n + 1
  {
    EveryRun(c, ts);
    var s := Run(c, Start, ts);
    if !s.faulted {
      var v := ViewOf(c, s, x);
      assert ViewInv(v);
      if !Late(v) && v.o.zeros > 0 {
        ZeroMeansDone(v);
      }
    }
  }

  function Rank(p: Phase): nat {
    match p case Ready => 5 case Inside => 4 case Updated(_) => 3 case Destroying => 2 case Freeing => 1
  }

  /** Letting thr_fn2 run to its end first leaves thr_fn1 a freed object: such runs exist for all counts. */
  lemma {:induction false} LateRun(c: Config, s: State) returns (ts: seq<Tid>)
    requires Inv(c, s) && c.a >= 1 && c.b >= 1 && s.first == Thread(0, Ready)
    ensures CanRun(c, s, ts) && Run(c, s, ts).faulted
    decreases if s.faulted then 0 else 1, Calls(c, Second) - s.second.pc, Rank(s.second.phase)
  {
    if s.faulted {
      ts := [];
    } else if s.second.pc == Calls(c, Second) {
      ts := [First];
      SecondDone(c, s);
      assert [First][1..] == [];
    } else {
      SecondEnabled(c, s);
      StepKeeps(c, s, Second);
      var rest := LateRun(c, Apply(c, s, Second));
      ts := [Second] + rest;
      assert ts[1..] == rest;
    }
  }

  lemma LateRunFromStart(c: Config) returns (ts: seq<Tid>)
    requires c.a >= 1 && c.b >= 1
    ensures CanRun(c, Start, ts) && Run(c, Start, ts).faulted
  {
    ts := LateRun(c, Start);
  }

  lemma HolderCases(h: Option<Tid>)
    ensures h == None || h == Some(First) || h == Some(Second)
  {
    if h.Some? {
      match h.value case First => case Second =>
    }
  }

  lemma SecondEnabled(c: Config, s: State)
    requires Inv(c, s) && s.first == Thread(0, Ready) && !s.faulted && s.second.pc < Calls(c, Second)
    ensures Enabled(c, s, Second)
  {
    assert Th(s, Second) == s.second && Th(s, First) == s.first;
    if s.second.phase.Ready? {
      var v := ViewOf(c, s, Target(c, Second, s.second.pc));
      assert ViewInv(v) && v.first.phase.Ready? && v.second.phase.Ready?;
      HolderCases(v.o.holder);
    }
  }

  lemma SecondDone(c: Config, s: State)
    requires Inv(c, s) && c.a >= 1 && c.b >= 1 && !s.faulted
    requires s.first == Thread(0, Ready) && s.second.pc == Calls(c, Second)
    ensures Enabled(c, s, First) && Apply(c, s, First).faulted
  {
    ProgramOrder(c, Second, A, Calls(c, Second), Ready);
    assert Th(s, Second) == s.second && Th(s, First) == s.first;
    assert ViewInv(ViewOf(c, s, A));
  }
}
