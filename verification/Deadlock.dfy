/** flock/deadlock.c: parent and child each lock a byte, shake hands, and then each asks for the
    other's byte with F_SETLKW. With `detect` the kernel refuses a wait that would close a cycle
    (EDEADLK), the process exits with -1 and loses its locks; without it the wait just blocks. */
module Deadlock {
  import opened RecordLock
  import TellWait

  datatype Who = Parent | Child

  datatype Phase = LockFirst | Tell | Wait | LockSecond | Blocked | GotBoth | Done | Failed

  datatype State = State(recs: seq<Record>, pipes: TellWait.Pipes, phase: map<Who, Phase>)

  const PARENT_PID: nat := 1
  const CHILD_PID: nat := 2

  function Pid(w: Who): nat {
    if w.Parent? then PARENT_PID else CHILD_PID
  }

  function Other(w: Who): Who {
    if w.Parent? then Child else Parent
  }

  /** The parent starts with byte 1, the child with byte 0. */
  function First(w: Who): (b: nat)
    ensures b < 2
  {
    if w.Parent? then 1 else 0
  }

  function Second(w: Who): (b: nat)
    ensures b < 2
  {
    First(Other(w))
  }

  /** writew_lock(fd, b, SEEK_SET, 1) on the file into which two bytes were written. */
  function Ask(w: Who, b: nat): Record
    requires b < 2
  {
    Request(Pid(w), F_WRLCK, Range(File(2, 2), b, SEEK_SET, 1).value)
  }

  lemma AskIs(w: Who, b: nat)
    requires b < 2
    ensures Ask(w, b) == Record(Pid(w), F_WRLCK, b, b)
  {
    RangeFromStart(File(2, 2), b, 1);
  }

  function At(s: State, w: Who): Phase {
    if w in s.phase then s.phase[w] else Failed
  }

  function Move(s: State, w: Who, p: Phase): State {
    s.(phase := s.phase[w := p])
  }

  function TellEvent(w: Who): TellWait.Event {
    if w.Parent? then TellWait.TellChild else TellWait.TellParent
  }

  function WaitEvent(w: Who): TellWait.Event {
    if w.Parent? then TellWait.WaitChild else TellWait.WaitParent
  }

  /** Blocking on `b` would wait for a process that is itself waiting for one of our bytes. */
  predicate ClosesCycle(s: State, w: Who, b: nat)
    requires b < 2
  {
    At(s, Other(w)).Blocked? && FirstConflict(s.recs, Ask(w, b)).Some? &&
    FirstConflict(s.recs, Ask(Other(w), Second(Other(w)))).Some?
  }

  predicate Enabled(s: State, w: Who) {
    match At(s, w)
    case LockFirst => Grants(s.recs, Ask(w, First(w)))
    case Tell => true
    case Wait => TellWait.Enabled(s.pipes, WaitEvent(w))
    case LockSecond => true
    case Blocked => Grants(s.recs, Ask(w, Second(w)))
    case GotBoth => true
    case Done => false
    case Failed => false
  }

  function Apply(detect: bool, s: State, w: Who): State
    requires Enabled(s, w)
  {
    match At(s, w)
    case LockFirst => Move(s, w, Tell).(recs := Granted(s.recs, Ask(w, First(w))))
    case Tell => Move(s, w, Wait).(pipes := TellWait.Apply(s.pipes, TellEvent(w)))
    case Wait =>
      if TellWait.WaitSucceeds(s.pipes, WaitEvent(w)) then
        Move(s, w, LockSecond).(pipes := TellWait.Apply(s.pipes, WaitEvent(w)))
      else Move(s, w, Failed).(recs := Released(s.recs, Pid(w)))
    case LockSecond =>
      if Grants(s.recs, Ask(w, Second(w))) then Move(s, w, GotBoth).(recs := Granted(s.recs, Ask(w, Second(w))))
      else if detect && ClosesCycle(s, w, Second(w)) then Move(s, w, Failed).(recs := Released(s.recs, Pid(w)))
      else Move(s, w, Blocked)
    case Blocked => Move(s, w, GotBoth).(recs := Granted(s.recs, Ask(w, Second(w))))
    case GotBoth => Move(s, w, Done).(recs := Released(s.recs, Pid(w)))
  }

  const Start := State([], TellWait.Start, map[Parent := LockFirst, Child := LockFirst])

  predicate CanRun(detect: bool, s: State, ws: seq<Who>)
    decreases |ws|
  {
    ws == [] || (Enabled(s, ws[0]) && CanRun(detect, Apply(detect, s, ws[0]), ws[1..]))
  }

  function Run(detect: bool, s: State, ws: seq<Who>): State
    requires CanRun(detect, s, ws)
    decreases |ws|
  {
    if ws == [] then s else Run(detect, Apply(detect, s, ws[0]), ws[1..])
  }

  // ------------------------------------------------------------------ invariant

  predicate Told(p: Phase) {
    !p.LockFirst? && !p.Tell?
  }

  predicate Waited(p: Phase) {
    Told(p) && !p.Wait?
  }

  /** Which bytes a process has locked, by phase. */
  predicate Has(p: Phase, w: Who, b: int) {
    match p
    case LockFirst => false
    case GotBoth => b == First(w) || b == Second(w)
    case Done => false
    case Failed => false
    case _ => b == First(w)
  }

  function Holder(s: State, pid: nat, b: int): bool {
    (pid == PARENT_PID && Has(At(s, Parent), Parent, b)) || (pid == CHILD_PID && Has(At(s, Child), Child, b))
  }

  ghost predicate LocksMatch(s: State) {
    Owners(s.recs) &&
    forall pid: nat, k, b :: Locked(s.recs, pid, k, b) <==> k == F_WRLCK && Holder(s, pid, b)
  }

  ghost predicate PipesMatch(s: State) {
    && s.pipes.toParent == (if Told(At(s, Child)) && !Waited(At(s, Parent)) then ['p'] else [])
    && s.pipes.toChild == (if Told(At(s, Parent)) && !Waited(At(s, Child)) then ['c'] else [])
    && (Waited(At(s, Parent)) ==> Told(At(s, Child)))
    && (Waited(At(s, Child)) ==> Told(At(s, Parent)))
  }

  /** The pairs of phases behind the handshake; `Failed` needs detection and a blocked partner. */
  ghost predicate PhasesMatch(detect: bool, s: State, w: Who) {
    match At(s, w)
    case Blocked => !At(s, Other(w)).Blocked? || !detect
    case GotBoth => detect && At(s, Other(w)).Failed?
    case Done => detect && At(s, Other(w)).Failed?
    case Failed => detect && (At(s, Other(w)).Blocked? || At(s, Other(w)).GotBoth? || At(s, Other(w)).Done?)
    case _ => true
  }

  ghost predicate Inv(detect: bool, s: State) {
    && Parent in s.phase && Child in s.phase
    && LocksMatch(s) && PipesMatch(s)
    && PhasesMatch(detect, s, Parent) && PhasesMatch(detect, s, Child)
  }

  /** A byte is granted exactly when the other process does not have it. */
  lemma GrantsWhen(s: State, w: Who, b: nat)
    requires LocksMatch(s) && b < 2
    ensures Grants(s.recs, Ask(w, b)) <==> !Has(At(s, Other(w)), Other(w), b)
  {
    var q := Ask(w, b);
    AskIs(w, b);
    ConflictIsReal(s.recs, q);
    if Has(At(s, Other(w)), Other(w), b) {
      assert Covers(q, b) && Locked(s.recs, Pid(Other(w)), F_WRLCK, b);
      assert ConflictingHolder(s.recs, q, Pid(Other(w)));
    } else {
      forall pid: nat ensures !ConflictingHolder(s.recs, q, pid) {
        assert forall c :: Covers(q, c) ==> c == b;
      }
    }
  }

  lemma GrantKeepsLocks(s: State, w: Who, b: nat, p: Phase)
    requires LocksMatch(s) && b < 2
    requires forall c :: Has(p, w, c) <==> c == b || Has(At(s, w), w, c)
    ensures LocksMatch(Move(s, w, p).(recs := Granted(s.recs, Ask(w, b))))
  {
    var s' := Move(s, w, p).(recs := Granted(s.recs, Ask(w, b)));
    AskIs(w, b);
    CutKeepsOwners(s.recs, Ask(w, b));
    forall pid: nat, k, c ensures Locked(s'.recs, pid, k, c) <==> k == F_WRLCK && Holder(s', pid, c) {
      GrantedAt(s.recs, Ask(w, b), pid, k, c);
    }
  }

  lemma ReleaseKeepsLocks(s: State, w: Who, p: Phase)
    requires LocksMatch(s) && (p.Done? || p.Failed?)
    ensures LocksMatch(Move(s, w, p).(recs := Released(s.recs, Pid(w))))
  {
    var q := Record(Pid(w), F_UNLCK, 0, OFF_MAX);
    var s' := Move(s, w, p).(recs := Released(s.recs, Pid(w)));
    CutKeepsOwners(s.recs, q);
    forall pid: nat, k, c ensures Locked(s'.recs, pid, k, c) <==> k == F_WRLCK && Holder(s', pid, c) {
      GrantedAt(s.recs, q, pid, k, c);
    }
  }

  lemma StepKeepsLocks(detect: bool, s: State, w: Who)
    requires Inv(detect, s) && Enabled(s, w)
    ensures LocksMatch(Apply(detect, s, w))
  {
    match At(s, w)
    case LockFirst => GrantKeepsLocks(s, w, First(w), Tell);
    case LockSecond =>
      if Grants(s.recs, Ask(w, Second(w))) {
        GrantKeepsLocks(s, w, Second(w), GotBoth);
      } else if detect && ClosesCycle(s, w, Second(w)) {
        ReleaseKeepsLocks(s, w, Failed);
      }
    case Blocked => GrantKeepsLocks(s, w, Second(w), GotBoth);
    case GotBoth => ReleaseKeepsLocks(s, w, Done);
    case _ =>
  }

  lemma StepKeepsPipes(detect: bool, s: State, w: Who)
    requires Inv(detect, s) && Enabled(s, w)
    ensures PipesMatch(Apply(detect, s, w))
  {
  }

  lemma StepKeepsPhases(detect: bool, s: State, w: Who)
    requires Inv(detect, s) && Enabled(s, w)
    ensures var s' := Apply(detect, s, w); PhasesMatch(detect, s', w) && PhasesMatch(detect, s', Other(w))
  {
    GrantsWhen(s, w, Second(w));
    GrantsWhen(s, Other(w), Second(Other(w)));
  }

  lemma StepKeeps(detect: bool, s: State, w: Who)
    requires Inv(detect, s) && Enabled(s, w)
    ensures Inv(detect, Apply(detect, s, w))
  {
    StepKeepsLocks(detect, s, w);
    StepKeepsPipes(detect, s, w);
    StepKeepsPhases(detect, s, w);
  }

  lemma {:induction false} EveryRun(detect: bool, s: State, ws: seq<Who>)
    requires Inv(detect, s) && CanRun(detect, s, ws)
    ensures Inv(detect, Run(detect, s, ws))
    decreases |ws|
  {
    if ws != [] {
      StepKeeps(detect, s, ws[0]);
      EveryRun(detect, Apply(detect, s, ws[0]), ws[1..]);
    }
  }

  // ------------------------------------------------------------------ results

  /** Nobody can move any more. */
  predicate Stuck(s: State) {
    !Enabled(s, Parent) && !Enabled(s, Child)
  }

  lemma FromStart(detect: bool, ws: seq<Who>)
    requires CanRun(detect, Start, ws)
    ensures Inv(detect, Run(detect, Start, ws))
  {
    assert LocksMatch(Start);
    EveryRun(detect, Start, ws);
  }

  /** From its first lock to its end the parent has byte 1 and the child byte 0, and each has both at last. */
  lemma BytesHeld(detect: bool, ws: seq<Who>)
    requires CanRun(detect, Start, ws)
    ensures var s := Run(detect, Start, ws);
            && (At(s, Parent).Tell? || At(s, Parent).Wait? || At(s, Parent).LockSecond? || At(s, Parent).Blocked? ==>
                  forall b :: Locked(s.recs, PARENT_PID, F_WRLCK, b) <==> b == 1)
            && (At(s, Child).Tell? || At(s, Child).Wait? || At(s, Child).LockSecond? || At(s, Child).Blocked? ==>
                  forall b :: Locked(s.recs, CHILD_PID, F_WRLCK, b) <==> b == 0)
            && (At(s, Parent).GotBoth? ==> forall b :: Locked(s.recs, PARENT_PID, F_WRLCK, b) <==> b == 0 || b == 1)
            && (At(s, Child).GotBoth? ==> forall b :: Locked(s.recs, CHILD_PID, F_WRLCK, b) <==> b == 0 || b == 1)
  {
    FromStart(detect, ws);
  }

  /** A process asks for the second byte only while its partner holds it (or has died holding it). */
  lemma PartnerHoldsTheByte(detect: bool, ws: seq<Who>, w: Who)
    requires CanRun(detect, Start, ws)
    ensures var s := Run(detect, Start, ws);
            At(s, w).LockSecond? && !At(s, Other(w)).Failed? ==> Locked(s.recs, Pid(Other(w)), F_WRLCK, Second(w))
  {
    FromStart(detect, ws);
  }

  /** Without detection every run that cannot go on is the circular wait, each blocked on the other's byte. */
  lemma MaximalRunsDeadlock(ws: seq<Who>)
    requires CanRun(false, Start, ws)
    ensures var s := Run(false, Start, ws);
            Stuck(s) <==> At(s, Parent).Blocked? && At(s, Child).Blocked?
  {
    FromStart(false, ws);
    var s := Run(false, Start, ws);
    GrantsWhen(s, Parent, First(Parent));
    GrantsWhen(s, Child, First(Child));
    GrantsWhen(s, Parent, Second(Parent));
    GrantsWhen(s, Child, Second(Child));
  }

  /** With detection every run that cannot go on has completed exactly one process. */
  lemma MaximalRunsCompleteOne(ws: seq<Who>)
    requires CanRun(true, Start, ws)
    ensures var s := Run(true, Start, ws);
            Stuck(s) <==> (At(s, Parent).Done? && At(s, Child).Failed?) || (At(s, Parent).Failed? && At(s, Child).Done?)
  {
    FromStart(true, ws);
    var s := Run(true, Start, ws);
    GrantsWhen(s, Parent, First(Parent));
    GrantsWhen(s, Child, First(Child));
    GrantsWhen(s, Parent, Second(Parent));
    GrantsWhen(s, Child, Second(Child));
  }

  function Rank(p: Phase): nat {
    match p
    case LockFirst => 6 case Tell => 5 case Wait => 4 case LockSecond => 3
    case Blocked => 2 case GotBoth => 1 case Done => 0 case Failed => 0
  }

  /** Every run is finite, so every run can be extended to a maximal one. */
  lemma {:induction false} RunsAreFinite(detect: bool, s: State, ws: seq<Who>)
    requires CanRun(detect, s, ws) && Parent in s.phase && Child in s.phase
    ensures |ws| <= Rank(At(s, Parent)) + Rank(At(s, Child))
    decreases |ws|
  {
    if ws != [] {
      RunsAreFinite(detect, Apply(detect, s, ws[0]), ws[1..]);
    }
  }
}
