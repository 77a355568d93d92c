/** The condition-variable programs pthread/condition_signal.c (a task pointer set by one thread and
    awaited by another) and pthread/pthread_signal.c (a quit flag set by a signal thread and awaited by
    main). Waits may wake spuriously at any time; the signal is sent after the mutex is released. */
module CondVar {
  import opened Options

  datatype Demo = Task | Quit

  datatype Who = Waiter | Signaller

  datatype WaiterAt = Enter | Test | Asleep | Woken | Passed | Returned

  /** SigWait is only in the quit demo, Fill (memcpy after malloc) only in the task demo. */
  datatype SignallerAt = SigWait | Acquire | Assign | Fill | Release | Notify | Ended

  /** `shared` is tp or quitflag: None while NULL or 0. `read` is what the waiter saw after its loop. */
  datatype State = State(mutex: Option<Who>, shared: Option<string>, waiter: WaiterAt, signaller: SignallerAt,
                         read: Option<string>, exited: bool)

  /** What the signaller finally stores: the message, or the flag value 1. */
  function Final(d: Demo): string {
    if d.Task? then "Hello, there" else "1"
  }

  datatype Signal = SIGINT | SIGQUIT | OtherSignal

  datatype Event =
    | WaiterStep
    | SignallerStep
    | Malloc(junk: string)   // what the fresh memory happens to hold
    | Deliver(signal: Signal)
    | Spurious

  function Start(d: Demo): State {
    State(None, None, Enter, if d.Task? then Acquire else SigWait, None, false)
  }

  predicate Enabled(d: Demo, s: State, e: Event) {
    && !s.exited
    && match e
       case WaiterStep =>
         && !s.waiter.Asleep? && !s.waiter.Returned?
         && (s.waiter.Enter? || s.waiter.Woken? ==> s.mutex.None?)
       case SignallerStep =>
         && !s.signaller.SigWait? && !s.signaller.Ended?
         && (s.signaller.Acquire? ==> s.mutex.None?) && (s.signaller.Assign? ==> d.Quit?)
       case Malloc(_) => s.signaller.Assign? && d.Task?
       case Deliver(_) => s.signaller.SigWait?
       case Spurious => s.waiter.Asleep?
  }

  function Apply(d: Demo, s: State, e: Event): State
    requires Enabled(d, s, e)
  {
    match e
    case WaiterStep =>
      (match s.waiter
       case Test =>
         if s.shared.None? then s.(waiter := Asleep, mutex := None) else s.(waiter := Passed)
       case Passed =>
         s.(waiter := Returned, read := s.shared, mutex := if d.Task? then None else s.mutex)
       case _ => s.(waiter := Test, mutex := Some(Waiter)))
    case SignallerStep =>
      (match s.signaller
       case Acquire => s.(signaller := Assign, mutex := Some(Signaller))
       case Assign => s.(signaller := Release, shared := Some(Final(d)))
       case Fill => s.(signaller := Release, shared := Some(Final(d)))
       case Release => s.(signaller := Notify, mutex := None)
       case _ => s.(signaller := Ended, waiter := if s.waiter.Asleep? then Woken else s.waiter))
    case Malloc(junk) => s.(signaller := Fill, shared := Some(junk))
    case Deliver(signal) =>
      (match signal
       case SIGINT => s
       case SIGQUIT => s.(signaller := Acquire)
       case OtherSignal => s.(exited := true))
    case Spurious => s.(waiter := Woken)
  }

  predicate CanRun(d: Demo, s: State, es: seq<Event>)
    decreases |es|
  {
    es == [] || (Enabled(d, s, es[0]) && CanRun(d, Apply(d, s, es[0]), es[1..]))
  }

  function Run(d: Demo, s: State, es: seq<Event>): State
    requires CanRun(d, s, es)
    decreases |es|
  {
    if es == [] then s else Run(d, Apply(d, s, es[0]), es[1..])
  }

  predicate Inv(d: Demo, s: State) {
    && (s.mutex == Some(Waiter) <==> s.waiter.Test? || s.waiter.Passed? || (s.waiter.Returned? && d.Quit?))
    && (s.mutex == Some(Signaller) <==> s.signaller.Assign? || s.signaller.Fill? || s.signaller.Release?)
    && (s.signaller.Fill? ==> d.Task?) && (s.signaller.SigWait? ==> d.Quit?)
    && (s.shared.None? <==> s.signaller.SigWait? || s.signaller.Acquire? || s.signaller.Assign?)
    && (s.signaller.Release? || s.signaller.Notify? || s.signaller.Ended? ==> s.shared == Some(Final(d)))
    && (s.waiter.Passed? || s.waiter.Returned? ==> s.shared == Some(Final(d)))
    && (s.waiter.Returned? ==> s.read == Some(Final(d)))
    && (s.waiter.Asleep? ==> !s.signaller.Ended?)
  }

  lemma {:induction false} RunKeeps(d: Demo, s: State, es: seq<Event>)
    requires Inv(d, s) && CanRun(d, s, es)
    ensures Inv(d, Run(d, s, es))
    decreases |es|
  {
    if es != [] {
      RunKeeps(d, Apply(d, s, es[0]), es[1..]);
    }
  }

  /** However the threads and spurious wakeups interleave: a waiter asleep on a true condition still
      has its signal to come, and once past the loop it sees the finished value, never NULL. */
  lemma NoLostWakeup(d: Demo, es: seq<Event>)
    requires CanRun(d, Start(d), es)
    ensures var s := Run(d, Start(d), es);
            && (s.waiter.Asleep? && s.shared.Some? ==> s.signaller.Fill? || s.signaller.Release? || s.signaller.Notify?)
            && (s.waiter.Passed? ==> s.shared == Some(Final(d)) && s.mutex == Some(Waiter))
            && (s.waiter.Returned? ==> s.read == Some(if d.Task? then "Hello, there" else "1"))
  {
    RunKeeps(d, Start(d), es);
  }

  /** The pointer is set before the message is in place: whatever the fresh memory holds is there to be seen by
      anybody who does not take the mutex. */
  lemma JunkIsThere(junk: string)
    ensures CanRun(Task, Start(Task), [SignallerStep, Malloc(junk)])
    ensures Run(Task, Start(Task), [SignallerStep, Malloc(junk)]).shared == Some(junk)
  {
    assert [SignallerStep, Malloc(junk)][1..] == [Malloc(junk)] && [Malloc(junk)][1..] == [];
    var s := Apply(Task, Start(Task), SignallerStep);
    assert Run(Task, s, [Malloc(junk)]) == Run(Task, Apply(Task, s, Malloc(junk)), []);
  }

  /** Nothing but the environment (a signal to come, a spurious wakeup) can make a difference. */
  predicate Quiescent(d: Demo, s: State) {
    !Enabled(d, s, WaiterStep) && !Enabled(d, s, SignallerStep) && !Enabled(d, s, Malloc(""))
  }

  /** Which signals came is what the signal thread of the quit demo acts on. */
  lemma {:induction false} SignalsCount(d: Demo, s: State, es: seq<Event>)
    requires CanRun(d, s, es)
    ensures var z := Run(d, s, es);
            && (z.signaller.SigWait? <==> s.signaller.SigWait? && Deliver(SIGQUIT) !in es)
            && (z.exited <==> s.exited || Deliver(OtherSignal) in es)
    decreases |es|
  {
    if es != [] {
      SignalsCount(d, Apply(d, s, es[0]), es[1..]);
      assert es == [es[0]] + es[1..];
    }
  }

  /** A run that cannot go on by itself has served the waiter, or ended on an unexpected signal, or belongs to
      the quit demo and has had no SIGQUIT. */
  lemma {:induction false} QuiescentMeansServed(d: Demo, es: seq<Event>)
    requires CanRun(d, Start(d), es) && Quiescent(d, Run(d, Start(d), es))
    ensures var s := Run(d, Start(d), es);
            || Deliver(OtherSignal) in es
            || s.waiter.Returned?
            || (d.Quit? && Deliver(SIGQUIT) !in es && s.waiter.Asleep?)
  {
    RunKeeps(d, Start(d), es);
    SignalsCount(d, Start(d), es);
    MutexCases(Run(d, Start(d), es).mutex);
  }

  /** Without SIGQUIT, whatever interrupts come, the flag stays unset and main stays in its loop; signals that
      nobody expects, and only those, end the process. */
  lemma {:induction false} QuitNeedsSigquit(es: seq<Event>)
    requires CanRun(Quit, Start(Quit), es)
    ensures var s := Run(Quit, Start(Quit), es);
            && (Deliver(SIGQUIT) !in es ==> s.shared.None? && !s.waiter.Passed? && !s.waiter.Returned?)
            && (s.exited <==> Deliver(OtherSignal) in es)
  {
    RunKeeps(Quit, Start(Quit), es);
    SignalsCount(Quit, Start(Quit), es);
  }

  /** Whatever the waiter is woken by, it is in its loop again with the mutex only when nobody else has it, and
      back asleep, with the mutex free, as long as the condition is false. */
  lemma SpuriousIsHarmless(d: Demo, s: State)
    requires Inv(d, s) && Enabled(d, s, Spurious) && s.mutex.None? && s.shared.None?
    ensures Enabled(d, Apply(d, s, Spurious), WaiterStep)
    ensures var s1 := Apply(d, Apply(d, s, Spurious), WaiterStep);
            s1.mutex == Some(Waiter) && Enabled(d, s1, WaiterStep) && Apply(d, s1, WaiterStep) == s
  {
  }

  lemma MutexCases(m: Option<Who>)
    ensures m == None || m == Some(Waiter) || m == Some(Signaller)
  {
    if m.Some? {
      match m.value case Waiter => case Signaller =>
    }
  }
}
