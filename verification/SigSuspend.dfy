/** signal/sig_suspend.c: SIGINT and SIGQUIT are blocked around a critical section and let in only by
    sigsuspend, which swaps in the inherited mask until a handler has run. Signals are raised at any
    time; pending is a set, so repeated signals coalesce. */
module SigSuspend {

  datatype Signal = SIGINT | SIGQUIT

  const BLOCK := {SIGINT, SIGQUIT}

  /** Program points: before sigprocmask, before each sigaction, the loop test, the critical section,
      just before and inside sigsuspend, after the loop; Killed is the default action. */
  datatype Point = Begin | InstallInt | InstallQuit | LoopTest | Critical | Calling | Suspended | Exited | Killed

  /** `log` is what each completed sigsuspend delivered. */
  datatype State = State(at: Point, mask: set<Signal>, orig: set<Signal>, pending: set<Signal>,
                         handled: set<Signal>, gotSigquit: bool, log: seq<set<Signal>>)

  /** Deliver lets a nonempty set of pending, unblocked signals through. */
  datatype Event = Step | Raise(signal: Signal) | Deliver(signals: set<Signal>)

  function Start(inherited: set<Signal>): State {
    State(Begin, inherited, {}, {}, {}, false, [])
  }

  predicate Enabled(s: State, e: Event) {
    && !s.at.Exited? && !s.at.Killed?
    && match e
       case Step => !s.at.Suspended?
       case Raise(_) => true
       case Deliver(d) => d != {} && d <= s.pending - s.mask
  }

  function Apply(s: State, e: Event): State
    requires Enabled(s, e)
  {
    match e
    case Step =>
      (match s.at
       case Begin => s.(at := InstallInt, orig := s.mask, mask := BLOCK)
       case InstallInt => s.(at := InstallQuit, handled := s.handled + {SIGINT})
       case InstallQuit => s.(at := LoopTest, handled := s.handled + {SIGQUIT})
       case LoopTest => s.(at := if s.gotSigquit then Exited else Critical)
       case Critical => s.(at := Calling)
       case _ => s.(at := Suspended, mask := s.orig))
    case Raise(signal) => s.(pending := s.pending + {signal})
    case Deliver(d) =>
      if !(d <= s.handled) then s.(at := Killed)
      else
        var s1 := s.(pending := s.pending - d, gotSigquit := s.gotSigquit || SIGQUIT in d);
        if s.at.Suspended? then s1.(at := LoopTest, mask := BLOCK, log := s.log + [d])
        else s1
  }

  predicate CanRun(s: State, es: seq<Event>)
    decreases |es|
  {
    es == [] || (Enabled(s, es[0]) && CanRun(Apply(s, es[0]), es[1..]))
  }

  function Run(s: State, es: seq<Event>): State
    requires CanRun(s, es)
    decreases |es|
  {
    if es == [] then s else Run(Apply(s, es[0]), es[1..])
  }

  // ------------------------------------------------------------------ invariant

  ghost predicate NoQuit(log: seq<set<Signal>>) {
    forall i :: 0 <= i < |log| ==> SIGQUIT !in log[i]
  }

  /** The last completed sigsuspend, and no earlier one, delivered SIGQUIT. */
  ghost predicate QuitAtLast(log: seq<set<Signal>>) {
    log != [] && SIGQUIT in log[|log| - 1] && NoQuit(log[..|log| - 1])
  }

  predicate Looping(p: Point) {
    p.LoopTest? || p.Critical? || p.Calling? || p.Suspended?
  }

  ghost predicate Inv(inherited: set<Signal>, s: State) {
    && (s.at.Begin? ==> s.mask == inherited)
    && (s.at.Begin? || s.at.InstallInt? ==> s.handled == {})
    && (s.at.InstallQuit? ==> s.handled == {SIGINT})
    && (s.at.Suspended? ==> s.mask == inherited)
    && (s.at.InstallInt? || s.at.InstallQuit? || (Looping(s.at) && !s.at.Suspended?) ==> s.mask == BLOCK)
    && (!s.at.Begin? && !s.at.Killed? ==> s.orig == inherited)
    && (Looping(s.at) ==> s.handled == BLOCK)
    && (if s.gotSigquit then QuitAtLast(s.log) && (s.at.LoopTest? || s.at.Exited?) else NoQuit(s.log) && !s.at.Exited?)
    && (forall i :: 0 <= i < |s.log| ==> s.log[i] !! inherited)
  }

  lemma StepKeeps(inherited: set<Signal>, s: State, e: Event)
    requires Inv(inherited, s) && Enabled(s, e)
    ensures Inv(inherited, Apply(s, e))
  {
    if e.Deliver? {
      AllBlocked(s.pending);
      AllBlocked(e.signals);
      assert (s.log + [e.signals])[..|s.log|] == s.log;
    }
  }

  /** There are no other signals in this model. */
  lemma AllBlocked(d: set<Signal>)
    ensures d <= BLOCK && d - BLOCK == {}
  {
    forall x | x in d ensures x in BLOCK {
      match x case SIGINT => case SIGQUIT =>
    }
  }

  lemma {:induction false} EveryRun(inherited: set<Signal>, s: State, es: seq<Event>)
    requires Inv(inherited, s) && CanRun(s, es)
    ensures Inv(inherited, Run(s, es))
    decreases |es|
  {
    if es != [] {
      StepKeeps(inherited, s, es[0]);
      EveryRun(inherited, Apply(s, es[0]), es[1..]);
    }
  }

  // ------------------------------------------------------------------ results

  /** Handlers run only inside sigsuspend: every delivery of the run finds the process there, or kills it before
      it has its handlers. */
  lemma {:induction false} HandlersOnlyInside(inherited: set<Signal>, es: seq<Event>, i: nat)
    requires CanRun(Start(inherited), es) && i < |es| && es[i].Deliver?
    ensures CanRun(Start(inherited), es[..i]) && CanRun(Start(inherited), es[..i + 1])
    ensures var before, after := Run(Start(inherited), es[..i]), Run(Start(inherited), es[..i + 1]);
            || (before.at.Suspended? && before.mask == inherited && es[i].signals !! inherited)
            || (after.at.Killed? && before.at.Begin?)
  {
    PrefixRuns(Start(inherited), es, i + 1);
    PrefixRuns(Start(inherited), es, i);
    RunLast(Start(inherited), es[..i + 1]);
    assert es[..i + 1][..i] == es[..i];
    EveryRun(inherited, Start(inherited), es[..i]);
    AllBlocked(Run(Start(inherited), es[..i]).pending);
  }

  lemma {:induction false} PrefixRuns(s: State, es: seq<Event>, i: nat)
    requires CanRun(s, es) && i <= |es|
    ensures CanRun(s, es[..i])
    decreases |es| - i
  {
    if i < |es| {
      PrefixRuns(s, es, i + 1);
      RunLast(s, es[..i + 1]);
      assert es[..i + 1][..i] == es[..i];
    } else {
      assert es[..i] == es;
    }
  }

  /** A signal pending anywhere in the loop stays pending until a sigsuspend delivers it. */
  lemma StaysPending(inherited: set<Signal>, es: seq<Event>, e: Event, x: Signal)
    requires CanRun(Start(inherited), es) && Enabled(Run(Start(inherited), es), e)
    requires Looping(Run(Start(inherited), es).at) && x in Run(Start(inherited), es).pending
    ensures var s := Run(Start(inherited), es); var s' := Apply(s, e);
            x in s'.pending || (s.at.Suspended? && e.Deliver? && x in e.signals && s'.log == s.log + [e.signals])
  {
    EveryRun(inherited, Start(inherited), es);
    StepKeeps(inherited, Run(Start(inherited), es), e);
    match x case SIGINT => case SIGQUIT =>
  }

  /** `x` was raised and has not been delivered since. */
  ghost predicate Outstanding(es: seq<Event>, x: Signal) {
    exists i :: 0 <= i < |es| && es[i] == Raise(x) &&
                forall j :: i < j < |es| && es[j].Deliver? ==> x !in es[j].signals
  }

  /** What was delivered, in order. */
  function Delivered(es: seq<Event>): seq<set<Signal>> {
    if es == [] then []
    else if es[|es| - 1].Deliver? then Delivered(es[..|es| - 1]) + [es[|es| - 1].signals]
    else Delivered(es[..|es| - 1])
  }

  lemma {:induction false} RunLast(s: State, es: seq<Event>)
    requires CanRun(s, es) && es != []
    ensures var k := |es| - 1;
            CanRun(s, es[..k]) && Enabled(Run(s, es[..k]), es[k]) && Run(s, es) == Apply(Run(s, es[..k]), es[k])
    decreases |es|
  {
    var k := |es| - 1;
    if k > 0 {
      RunLast(Apply(s, es[0]), es[1..]);
      assert es[..k][1..] == es[1..][..k - 1];
    }
  }

  lemma OutstandingLast(es: seq<Event>, k: nat, x: Signal)
    requires es != [] && k == |es| - 1
    ensures Outstanding(es, x) <==>
              es[k] == Raise(x) || (Outstanding(es[..k], x) && (es[k].Deliver? ==> x !in es[k].signals))
  {
    if i :| 0 <= i < |es| && es[i] == Raise(x) && forall j :: i < j < |es| && es[j].Deliver? ==> x !in es[j].signals {
      if i < k {
        assert es[..k][i] == Raise(x);
        assert forall j :: i < j < k ==> es[..k][j] == es[j];
      }
    }
    if i :| 0 <= i < k && es[..k][i] == Raise(x) &&
            forall j :: i < j < k && es[..k][j].Deliver? ==> x !in es[..k][j].signals {
      assert es[i] == Raise(x);
      assert forall j :: i < j < k ==> es[..k][j] == es[j];
    }
  }

  /** Of every run that is not killed: pending is what was raised and not delivered since, and each completed
      sigsuspend delivered what the events say. */
  lemma {:induction false} PendingExactly(inherited: set<Signal>, es: seq<Event>)
    requires CanRun(Start(inherited), es) && !Run(Start(inherited), es).at.Killed?
    ensures var s := Run(Start(inherited), es);
            s.log == Delivered(es) && forall x :: x in s.pending <==> Outstanding(es, x)
    decreases |es|
  {
    if es != [] {
      var k := |es| - 1;
      RunLast(Start(inherited), es);
      var s := Run(Start(inherited), es[..k]);
      PendingExactly(inherited, es[..k]);
      EveryRun(inherited, Start(inherited), es);
      forall x ensures x in Apply(s, es[k]).pending <==> Outstanding(es, x) {
        OutstandingLast(es, k, x);
      }
    }
  }

  /** The loop is left exactly after the first sigsuspend that delivers SIGQUIT. */
  lemma ExitsAfterFirstQuit(inherited: set<Signal>, es: seq<Event>)
    requires CanRun(Start(inherited), es)
    ensures var s := Run(Start(inherited), es);
            && (s.at.Exited? ==> QuitAtLast(s.log))
            && (s.at.LoopTest? ==> (Apply(s, Step).at.Exited? <==> QuitAtLast(s.log)))
            && (s.at.Critical? || s.at.Calling? || s.at.Suspended? ==> NoQuit(s.log))
  {
    EveryRun(inherited, Start(inherited), es);
  }

  /** Runs that exit exist exactly when the inherited mask lets SIGQUIT through. */
  lemma ExitPossibleExactly(inherited: set<Signal>)
    ensures (exists es :: CanRun(Start(inherited), es) && Run(Start(inherited), es).at.Exited?)
            <==> SIGQUIT !in inherited
  {
    if SIGQUIT !in inherited {
      var es := QuitRun(inherited);
      assert CanRun(Start(inherited), es) && Run(Start(inherited), es).at.Exited?;
    }
    forall es | CanRun(Start(inherited), es) && Run(Start(inherited), es).at.Exited? ensures SIGQUIT !in inherited {
      EveryRun(inherited, Start(inherited), es);
      var log := Run(Start(inherited), es).log;
      assert log[|log| - 1] !! inherited;
    }
  }

  lemma Prefixed(s: State, e: Event, es: seq<Event>)
    requires Enabled(s, e) && CanRun(Apply(s, e), es)
    ensures CanRun(s, [e] + es) && Run(s, [e] + es) == Run(Apply(s, e), es)
  {
    assert ([e] + es)[1..] == es;
  }

  lemma QuitRun(inherited: set<Signal>) returns (es: seq<Event>)
    requires SIGQUIT !in inherited
    ensures CanRun(Start(inherited), es) && Run(Start(inherited), es).at.Exited?
  {
    var s0 := Start(inherited);
    var s1 := Apply(s0, Step);
    var s2 := Apply(s1, Step);
    var s3 := Apply(s2, Step);
    var s4 := Apply(s3, Step);
    var tail := QuitTail(s4);
    Prefixed(s3, Step, tail);
    Prefixed(s2, Step, [Step] + tail);
    Prefixed(s1, Step, [Step] + ([Step] + tail));
    Prefixed(s0, Step, [Step] + ([Step] + ([Step] + tail)));
    es := [Step] + ([Step] + ([Step] + ([Step] + tail)));
  }

  lemma QuitTail(s: State) returns (es: seq<Event>)
    requires s.at.Critical? && s.mask == BLOCK && s.pending == {} && s.handled == BLOCK && SIGQUIT !in s.orig
    ensures CanRun(s, es) && Run(s, es).at.Exited?
  {
    var raise, deliver := Raise(SIGQUIT), Deliver({SIGQUIT});
    var s1 := Apply(s, raise);
    var s2 := Apply(s1, Step);
    var s3 := Apply(s2, Step);
    var s4 := Apply(s3, deliver);
    Prefixed(s4, Step, []);
    Prefixed(s3, deliver, [Step] + []);
    Prefixed(s2, Step, [deliver] + ([Step] + []));
    Prefixed(s1, Step, [Step] + ([deliver] + ([Step] + [])));
    es := [raise] + ([Step] + ([Step] + ([deliver] + ([Step] + []))));
    Prefixed(s, raise, [Step] + ([Step] + ([deliver] + ([Step] + []))));
  }
}
