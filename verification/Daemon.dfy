/** daemon/daemonize.c: becoming a daemon, and the lock file that keeps a second one from running.
    Any number of instances start, race for the lock, run and exit in any order. */
module Daemon {
  import opened Options
  import opened RecordLock

  // ------------------------------------------------------------------ the text of the lock file

  function Digit(d: nat): char
    requires d < 10
  {
    "0123456789"[d]
  }

  /** sprintf("%ld") */
  function Decimal(n: nat): (s: string)
    ensures s != []
  {
    if n < 10 then [Digit(n)] else Decimal(n / 10) + [Digit(n % 10)]
  }

  function DigitValue(c: char): nat {
    if '0' <= c <= '9' then c as nat - '0' as nat else 0
  }

  function Parse(s: string): nat {
    if s == [] then 0 else 10 * Parse(s[..|s| - 1]) + DigitValue(s[|s| - 1])
  }

  lemma {:induction false} ParseDecimal(n: nat)
    ensures Parse(Decimal(n)) == n
  {
    if n >= 10 {
      ParseDecimal(n / 10);
      assert Decimal(n)[..|Decimal(n)| - 1] == Decimal(n / 10);
    }
  }

  /** Nothing but digits, and no leading zero. */
  lemma {:induction false} DecimalDigits(n: nat)
    ensures forall i :: 0 <= i < |Decimal(n)| ==> '0' <= Decimal(n)[i] <= '9'
    ensures |Decimal(n)| > 1 ==> Decimal(n)[0] != '0'
    ensures Decimal(n) == "0" <==> n == 0
  {
    if n >= 10 {
      DecimalDigits(n / 10);
    }
  }

  /** What already_running writes: the digits and the terminating NUL. */
  function PidText(pid: nat): string {
    Decimal(pid) + ['\0']
  }

  /** write() at offset 0 */
  function WriteAtStart(content: string, text: string): (r: string)
    ensures |r| == if |text| < |content| then |content| else |text|
    ensures forall i :: 0 <= i < |r| ==> r[i] == if i < |text| then text[i] else content[i]
  {
    text + if |text| < |content| then content[|text|..] else []
  }

  // ------------------------------------------------------------------ instances

  datatype Phase = Starting | Opened | Refused | Locking | Truncated | Running | Gone

  datatype State = State(recs: seq<Record>, content: string, phase: map<nat, Phase>)

  datatype Event =
    | Launch(pid: nat)
    | Open(pid: nat)
    | SetLock(pid: nat)
    | CloseRefused(pid: nat)
    | Truncate(pid: nat)
    | Write(pid: nat)
    | Exit(pid: nat)

  function Of(s: State, pid: nat): Phase {
    if pid in s.phase then s.phase[pid] else Gone
  }

  /** lockfile(): a write lock with l_start 0 and l_len 0. */
  function WholeFile(pid: nat): Record {
    Request(pid, F_WRLCK, Range(File(0, 0), 0, SEEK_SET, 0).value)
  }

  predicate Enabled(s: State, e: Event) {
    && e.pid > 0
    && match e
       case Launch(p) => Of(s, p).Gone?
       case Open(p) => Of(s, p).Starting?
       case SetLock(p) => Of(s, p).Opened?
       case CloseRefused(p) => Of(s, p).Refused?
       case Truncate(p) => Of(s, p).Locking?
       case Write(p) => Of(s, p).Truncated?
       case Exit(p) => !Of(s, p).Gone?
  }

  function Apply(s: State, e: Event): State
    requires Enabled(s, e)
  {
    match e
    case Launch(p) => s.(phase := s.phase[p := Starting])
    case Open(p) => s.(phase := s.phase[p := Opened])
    case SetLock(p) =>
      if Grants(s.recs, WholeFile(p)) then
        s.(phase := s.phase[p := Locking], recs := Granted(s.recs, WholeFile(p)))
      else s.(phase := s.phase[p := Refused])
    case CloseRefused(p) => s.(phase := s.phase[p := Gone], recs := Released(s.recs, p))
    case Truncate(p) => s.(phase := s.phase[p := Truncated], content := [])
    case Write(p) => s.(phase := s.phase[p := Running], content := WriteAtStart(s.content, PidText(p)))
    case Exit(p) => s.(phase := s.phase[p := Gone], recs := Released(s.recs, p))
  }

  predicate CanRun(s: State, es: seq<Event>)
    decreases |es|
  {
    es == [] || (Enabled(s, es[0]) && CanRun(Apply(s, es[0]), es[1..]))
  }

  function Run(s: State, es: seq<Event>): State
    requires CanRun(s, es)
    decreases |es|
  {
    if es == [] then s else Run(Apply(s, es[0]), es[1..])
  }

  /** The file may hold anything from earlier daemons. */
  function Start(content: string): State {
    State([], content, map[])
  }

  // ------------------------------------------------------------------ invariant

  predicate Holds(p: Phase) {
    p.Locking? || p.Truncated? || p.Running?
  }

  predicate Byte(b: int) {
    0 <= b <= OFF_MAX
  }

  ghost predicate LocksMatch(s: State) {
    Owners(s.recs) &&
    forall pid: nat, k, b :: Locked(s.recs, pid, k, b) <==> k == F_WRLCK && Byte(b) && Holds(Of(s, pid))
  }

  ghost predicate Single(s: State) {
    forall p: nat, q: nat :: Holds(Of(s, p)) && Holds(Of(s, q)) ==> p == q
  }

  ghost predicate ContentMatches(s: State) {
    forall p: nat :: && (Of(s, p).Truncated? ==> s.content == [])
                     && (Of(s, p).Running? ==> s.content == PidText(p))
  }

  ghost predicate Inv(s: State) {
    LocksMatch(s) && Single(s) && ContentMatches(s)
  }

  lemma GrantsWhen(s: State, pid: nat)
    requires LocksMatch(s)
    ensures Grants(s.recs, WholeFile(pid)) <==> forall q: nat :: Holds(Of(s, q)) ==> q == pid
  {
    var r := WholeFile(pid);
    ConflictIsReal(s.recs, r);
    forall q: nat ensures ConflictingHolder(s.recs, r, q) <==> q != pid && Holds(Of(s, q)) {
      if q != pid && Holds(Of(s, q)) {
        assert Covers(r, 0) && Byte(0) && Locked(s.recs, q, F_WRLCK, 0);
      }
    }
    if q: nat :| Holds(Of(s, q)) && q != pid {
      assert ConflictingHolder(s.recs, r, q);
    }
  }

  lemma RequestKeepsLocks(s: State, r: Record, p: Phase)
    requires LocksMatch(s) && r.pid > 0 && r.lo == 0 && r.hi == OFF_MAX
    requires r.kind == if Holds(p) then F_WRLCK else F_UNLCK
    ensures LocksMatch(s.(phase := s.phase[r.pid := p], recs := Granted(s.recs, r)))
  {
    var s' := s.(phase := s.phase[r.pid := p], recs := Granted(s.recs, r));
    CutKeepsOwners(s.recs, r);
    forall pid: nat, k, b ensures Locked(s'.recs, pid, k, b) <==> k == F_WRLCK && Byte(b) && Holds(Of(s', pid)) {
      GrantedAt(s.recs, r, pid, k, b);
    }
  }

  lemma StepKeepsLocks(s: State, e: Event)
    requires Inv(s) && Enabled(s, e)
    ensures LocksMatch(Apply(s, e))
  {
    match e
    case SetLock(p) =>
      if Grants(s.recs, WholeFile(p)) {
        RequestKeepsLocks(s, WholeFile(p), Locking);
      }
    case CloseRefused(p) => RequestKeepsLocks(s, Record(p, F_UNLCK, 0, OFF_MAX), Gone);
    case Exit(p) => RequestKeepsLocks(s, Record(p, F_UNLCK, 0, OFF_MAX), Gone);
    case _ =>
  }

  lemma StepKeepsSingle(s: State, e: Event)
    requires Inv(s) && Enabled(s, e)
    ensures Single(Apply(s, e))
  {
    var s' := Apply(s, e);
    GrantsWhen(s, e.pid);
    forall p: nat | Holds(Of(s', p)) && Holds(Of(s', e.pid)) ensures p == e.pid {
      assert p != e.pid ==> Holds(Of(s, p));
    }
    forall p: nat, q: nat | p != e.pid && q != e.pid && Holds(Of(s', p)) && Holds(Of(s', q)) ensures p == q {
      assert Holds(Of(s, p)) && Holds(Of(s, q));
    }
  }

  lemma StepKeepsContent(s: State, e: Event)
    requires Inv(s) && Enabled(s, e)
    ensures ContentMatches(Apply(s, e))
  {
    var s' := Apply(s, e);
    forall p: nat | Holds(Of(s', p))
      ensures (Of(s', p).Truncated? ==> s'.content == []) && (Of(s', p).Running? ==> s'.content == PidText(p))
    {
      if p != e.pid {
        assert Holds(Of(s, p)) && Of(s', p) == Of(s, p);
        assert !Holds(Of(s, e.pid));
      } else if e.Write? {
        assert Of(s, p).Truncated?;
        assert s.content == [] && PidText(p) + [] == PidText(p);
      }
    }
  }

  lemma StepKeeps(s: State, e: Event)
    requires Inv(s) && Enabled(s, e)
    ensures Inv(Apply(s, e))
  {
    StepKeepsLocks(s, e);
    StepKeepsSingle(s, e);
    StepKeepsContent(s, e);
  }

  lemma {:induction false} EveryRun(s: State, es: seq<Event>)
    requires Inv(s) && CanRun(s, es)
    ensures Inv(Run(s, es))
    decreases |es|
  {
    if es != [] {
      StepKeeps(s, es[0]);
      EveryRun(Apply(s, es[0]), es[1..]);
    }
  }

  // ------------------------------------------------------------------ results

  /** However many instances race, at most one is past the lock, and once it has written, the file
      reads back as its process id. */
  lemma OneDaemon(content: string, es: seq<Event>, p: nat, q: nat)
    requires CanRun(Start(content), es)
    ensures var s := Run(Start(content), es);
            && (Holds(Of(s, p)) && Holds(Of(s, q)) ==> p == q)
            && (Of(s, p).Running? ==> s.content == Decimal(p) + ['\0'] && Parse(s.content[..|s.content| - 1]) == p)
  {
    assert LocksMatch(Start(content));
    EveryRun(Start(content), es);
    ParseDecimal(p);
    assert PidText(p)[..|PidText(p)| - 1] == Decimal(p);
  }

  /** A step of an instance that does not hold the lock changes neither the holder's lock nor, even
      when its attempt fails and it closes the file, the holder's entry in the file. */
  lemma OthersUndisturbed(content: string, es: seq<Event>, e: Event, q: nat, b: int)
    requires CanRun(Start(content), es) && Enabled(Run(Start(content), es), e)
    requires Holds(Of(Run(Start(content), es), q)) && e.pid != q
    ensures var s := Run(Start(content), es); var s' := Apply(s, e);
            && Of(s', q) == Of(s, q)
            && (Locked(s'.recs, q, F_WRLCK, b) <==> Byte(b))
            && s'.content == s.content
  {
    assert LocksMatch(Start(content));
    EveryRun(Start(content), es);
    StepKeeps(Run(Start(content), es), e);
  }

  /** An attempt is refused exactly while somebody holds the lock. */
  lemma RefusedExactly(content: string, es: seq<Event>, p: nat)
    requires CanRun(Start(content), es) && Enabled(Run(Start(content), es), SetLock(p))
    ensures var s := Run(Start(content), es);
            Of(Apply(s, SetLock(p)), p).Refused? <==> exists q: nat :: Holds(Of(s, q))
  {
    assert LocksMatch(Start(content));
    EveryRun(Start(content), es);
    GrantsWhen(Run(Start(content), es), p);
  }

  lemma Prefixed(s: State, e: Event, es: seq<Event>)
    requires Enabled(s, e) && CanRun(Apply(s, e), es)
    ensures CanRun(s, [e] + es) && Run(s, [e] + es) == Run(Apply(s, e), es)
  {
    assert ([e] + es)[1..] == es;
  }

  /** Whatever happened before, an instance started while nobody holds the lock gets to run, with its pid in
      the file. */
  lemma FirstInstanceRuns(content: string, es: seq<Event>, p: nat) returns (more: seq<Event>)
    requires CanRun(Start(content), es) && p > 0 && Of(Run(Start(content), es), p).Gone?
    requires forall q: nat :: !Holds(Of(Run(Start(content), es), q))
    ensures more == [Launch(p)] + ([Open(p)] + ([SetLock(p)] + ([Truncate(p)] + ([Write(p)] + []))))
    ensures var s := Run(Start(content), es);
            && CanRun(s, more)
            && Of(Run(s, more), p).Running? && Run(s, more).content == Decimal(p) + ['\0']
  {
    assert LocksMatch(Start(content));
    EveryRun(Start(content), es);
    var s := Run(Start(content), es);
    var s2 := Apply(Apply(s, Launch(p)), Open(p));
    StepKeeps(s, Launch(p));
    StepKeeps(Apply(s, Launch(p)), Open(p));
    forall q: nat ensures !Holds(Of(s2, q)) {
      assert q == p || Of(s2, q) == Of(s, q);
    }
    GrantsWhen(s2, p);
    var s3 := Apply(s2, SetLock(p));
    var s4 := Apply(s3, Truncate(p));
    assert Of(s3, p).Locking? && s4.content == [];
    Prefixed(s4, Write(p), []);
    Prefixed(s3, Truncate(p), [Write(p)] + []);
    Prefixed(s2, SetLock(p), [Truncate(p)] + ([Write(p)] + []));
    Prefixed(Apply(s, Launch(p)), Open(p), [SetLock(p)] + ([Truncate(p)] + ([Write(p)] + [])));
    Prefixed(s, Launch(p), [Open(p)] + ([SetLock(p)] + ([Truncate(p)] + ([Write(p)] + []))));
    more := [Launch(p)] + ([Open(p)] + ([SetLock(p)] + ([Truncate(p)] + ([Write(p)] + []))));
    assert WriteAtStart([], PidText(p)) == PidText(p);
  }

  /** One started while another holds the lock is refused and goes, and the holder's entry stays. */
  lemma SecondInstanceGoes(content: string, es: seq<Event>, p: nat, q: nat) returns (more: seq<Event>)
    requires CanRun(Start(content), es) && p > 0 && Of(Run(Start(content), es), p).Gone?
    requires Holds(Of(Run(Start(content), es), q))
    ensures more == [Launch(p)] + ([Open(p)] + ([SetLock(p)] + ([CloseRefused(p)] + [])))
    ensures var s := Run(Start(content), es);
            && CanRun(s, more)
            && Of(Run(s, more), p).Gone? && Of(Run(s, more), q) == Of(s, q) && Run(s, more).content == s.content
  {
    assert LocksMatch(Start(content));
    EveryRun(Start(content), es);
    var s := Run(Start(content), es);
    var s2 := Apply(Apply(s, Launch(p)), Open(p));
    StepKeeps(s, Launch(p));
    StepKeeps(Apply(s, Launch(p)), Open(p));
    GrantsWhen(s2, p);
    assert Holds(Of(s2, q));
    var s3 := Apply(s2, SetLock(p));
    Prefixed(s3, CloseRefused(p), []);
    Prefixed(s2, SetLock(p), [CloseRefused(p)] + []);
    Prefixed(Apply(s, Launch(p)), Open(p), [SetLock(p)] + ([CloseRefused(p)] + []));
    Prefixed(s, Launch(p), [Open(p)] + ([SetLock(p)] + ([CloseRefused(p)] + [])));
    more := [Launch(p)] + ([Open(p)] + ([SetLock(p)] + ([CloseRefused(p)] + [])));
  }

  // ------------------------------------------------------------------ daemonize

  const DEV_NULL := "/dev/null"

  /** The lowest descriptor from `k` on that is free, or -1 when the process may not have more. */
  function Lowest(fds: map<int, string>, k: nat, limit: nat): int
    decreases limit - k
  {
    if k >= limit then -1 else if k in fds then Lowest(fds, k + 1, limit) else k
  }

  lemma {:induction false} LowestIs(fds: map<int, string>, k: nat, limit: nat, r: nat)
    ensures Lowest(fds, k, limit) == r <==> k <= r < limit && r !in fds && forall j :: k <= j < r ==> j in fds
    decreases limit - k
  {
    if k < limit {
      LowestIs(fds, k + 1, limit, r);
    }
  }

  datatype Status = Continues | ExitFailure | ExitUnexpectedFds

  /** RLIMIT_NOFILE; no hard limit is RLIM_INFINITY. */
  datatype Limits = Limits(hard: Option<nat>, soft: nat)

  /** Some pid is always free. */
  lemma {:induction false} FreePid(live: set<int>) returns (p: int)
    ensures p > 0 && forall x :: x in live ==> x < p
    decreases |live|
  {
    p := 1;
    if x :| x in live {
      var q := FreePid(live - {x});
      p := if q > x then q else x + 1;
      assert forall y :: y in live ==> y == x || y in live - {x};
    }
  }

  class Process {
    var pid: int
    var pgid: int
    var sid: int
    var live: set<int>       // ids of all processes, process groups and sessions
    var umask: nat
    var cwd: string
    var hupIgnored: bool
    var fds: map<int, string>

    ghost predicate Valid()
      reads this
    {
      pid in live && pgid in live && sid in live
    }

    constructor (pid: int, pgid: int, sid: int, live: set<int>, fds: map<int, string>)
      requires pid in live && pgid in live && sid in live
      ensures Valid()
      ensures this.pid == pid && this.pgid == pgid && this.sid == sid && this.live == live && this.fds == fds
    {
      this.pid, this.pgid, this.sid, this.live, this.fds := pid, pgid, sid, live, fds;
    }

    /** fork and exit of the parent: what goes on is a child with a new pid in the old group and session. */
    method Fork(works: bool) returns (ok: bool)
      requires Valid()
      modifies this`pid, this`live
      ensures Valid() && ok == works
      ensures if ok then pid !in old(live) && live == old(live) + {pid} else pid == old(pid) && live == old(live)
    {
      ok := works;
      if ok {
        ghost var free := FreePid(live);
        assert free !in live;
        var child :| child !in live;
        pid, live := child, live + {child};
      }
    }

    /** setsid fails for the leader of a process group. */
    method Setsid() returns (ok: bool)
      requires Valid()
      modifies this`pgid, this`sid
      ensures Valid() && ok == (pid != old(pgid))
      ensures if ok then pgid == sid == pid else pgid == old(pgid) && sid == old(sid)
    {
      ok := pid != pgid;
      if ok {
        pgid, sid := pid, pid;
      }
    }

    method CloseAll(limit: nat)
      modifies this`fds
      ensures fds == map f | f in old(fds) && !(0 <= f < limit) :: old(fds)[f]
    {
      for i := 0 to limit
        invariant fds == map f | f in old(fds) && !(0 <= f < i) :: old(fds)[f]
      {
        fds := fds - {i};
      }
    }

    method OpenNull(limit: nat) returns (fd: int)
      modifies this`fds
      ensures fd == Lowest(old(fds), 0, limit)
      ensures fds == if fd < 0 then old(fds) else old(fds)[fd := DEV_NULL]
    {
      fd := Lowest(fds, 0, limit);
      if fd >= 0 {
        fds := fds[fd := DEV_NULL];
      }
    }

    method Dup(from: int, limit: nat) returns (fd: int)
      modifies this`fds
      ensures fd == if from in old(fds) then Lowest(old(fds), 0, limit) else -1
      ensures fds == if fd < 0 then old(fds) else old(fds)[fd := old(fds)[from]]
    {
      fd := -1;
      if from in fds {
        fd := Lowest(fds, 0, limit);
        if fd >= 0 {
          fds := fds[fd := fds[from]];
        }
      }
    }

    /** The surviving process: it is in a new session that the process between the forks led (so that setsid,
        whose result nobody looks at, did not fail), and gets descriptors 0, 1 and 2, all on /dev/null,
        exactly when each of them is closed by the loop or was not open, and the soft limit admits three. */
    method Daemonize(limits: Option<Limits>, fork1: bool, fork2: bool, sigactionOk: bool, chdirOk: bool)
      returns (r: Status)
      requires Valid()
      modifies this
      ensures r.Continues? <==>
                limits.Some? && fork1 && fork2 && sigactionOk && chdirOk && limits.value.soft >= 3 &&
                forall f :: 0 <= f < 3 && f in old(fds) ==> f < CloseLimit(limits.value.hard)
      ensures r.Continues? ==>
                && pid !in old(live) && sid !in old(live) && pgid == sid && pid != sid && live == old(live) + {sid, pid}
                && hupIgnored && umask == 0 && cwd == "/"
                && (forall f :: f in fds <==>
                      0 <= f < 3 || (f in old(fds) && !(0 <= f < CloseLimit(limits.value.hard))))
                && fds[0] == fds[1] == fds[2] == "/dev/null"
      ensures r.ExitFailure? <==> limits.None? || !fork1 || !sigactionOk || !fork2 || !chdirOk
      ensures limits.Some? && limits.value.hard.None? ==>
                && (r.Continues? <==> fork1 && fork2 && sigactionOk && chdirOk && limits.value.soft >= 3)
                && (r.Continues? ==> forall f :: f > 2 ==> (f in fds <==> f in old(fds) && f >= 1024))
    {
      umask := 0;
      if limits.None? {
        return ExitFailure;
      }
      var born := Fork(fork1);
      if !born {
        return ExitFailure;
      }
      var leads := Setsid();
      if !sigactionOk {
        return ExitFailure;
      }
      hupIgnored := true;
      born := Fork(fork2);
      if !born {
        return ExitFailure;
      }
      if !chdirOk {
        return ExitFailure;
      }
      cwd := "/";
      assert fds == old(fds);
      r := Redirect(limits.value);
    }

    /** Lines 83-100. */
    method Redirect(l: Limits) returns (r: Status)
      modifies this`fds
      ensures !r.ExitFailure?
      ensures r.Continues? <==> l.soft >= 3 && forall f :: 0 <= f < 3 && f in old(fds) ==> f < CloseLimit(l.hard)
      ensures r.Continues? ==>
                && (forall f :: f in fds <==> 0 <= f < 3 || (f in old(fds) && !(0 <= f < CloseLimit(l.hard))))
                && fds[0] == fds[1] == fds[2] == DEV_NULL
    {
      CloseAll(CloseLimit(l.hard));
      LowestIs(fds, 0, l.soft, 0);
      var fd0 := OpenNull(l.soft);
      LowestIs(fds, 0, l.soft, 1);
      var fd1 := Dup(0, l.soft);
      LowestIs(fds, 0, l.soft, 2);
      var fd2 := Dup(0, l.soft);
      r := if fd0 != 0 || fd1 != 1 || fd2 != 2 then ExitUnexpectedFds else Continues;
    }
  }

  function CloseLimit(hard: Option<nat>): nat {
    if hard.None? then 1024 else hard.value
  }
}
