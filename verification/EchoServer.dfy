/** epoll_demo/epoll_server.c: one thread serves every connection from batches of ready events, with
    one buffer for all of them. The kernel's part (which descriptor accept returns, what read and
    write do) comes in as parameters of the step. */
module EchoServer {
  import opened Options
  import opened CStrings
  import opened CBuffer

  /** `conns` gives each open connection descriptor the number of the connection behind it, so that a
      descriptor that is closed and accepted again is told apart. `sent` lists what was written. */
  datatype Server = Server(listenfd: int, conns: map<int, nat>, interest: map<int, Interest>, buf: seq<char>,
                           accepted: nat, sent: seq<(nat, seq<char>)>, overrun: bool)

  /** One entry of the array epoll_wait fills. Both flags may be off (EPOLLERR, EPOLLHUP). */
  datatype Event = Event(fd: int, readable: bool, writable: bool)

  /** What the kernel would answer: a descriptor or an error, data or an error, a count or an error. */
  datatype Kernel = Kernel(accept: Option<int>, read: Option<seq<char>>, write: Option<nat>)

  // ------------------------------------------------------------------ epoll_ctl and close

  predicate IsOpen(s: Server, fd: int) {
    fd == s.listenfd || fd in s.conns
  }

  /** add_event: fails (EEXIST) for a registered descriptor. */
  function AddEvent(s: Server, fd: int, i: Interest): Server {
    if IsOpen(s, fd) && fd !in s.interest then s.(interest := s.interest[fd := i]) else s
  }

  /** modify_event: fails (ENOENT) for an unregistered one. */
  function ModifyEvent(s: Server, fd: int, i: Interest): Server {
    if IsOpen(s, fd) && fd in s.interest then s.(interest := s.interest[fd := i]) else s
  }

  /** delete_event: fails (EBADF) for a closed one, which is how the server calls it. */
  function DeleteEvent(s: Server, fd: int): Server {
    if IsOpen(s, fd) then s.(interest := s.interest - {fd}) else s
  }

  /** Closing a connection also takes it out of the interest set. */
  function Close(s: Server, fd: int): Server {
    s.(conns := s.conns - {fd}, interest := s.interest - {fd})
  }

  // ------------------------------------------------------------------ the handlers

  function HandleAccept(s: Server, k: Kernel): Server {
    if k.accept.None? then s
    else
      var fd := k.accept.value;
      AddEvent(s.(conns := s.conns[fd := s.accepted], accepted := s.accepted + 1), fd, EPOLLIN)
  }

  /** printf prints the buffer with %s, which runs past one without NUL. */
  function DoRead(s: Server, fd: int, k: Kernel): Server
    requires k.read.Some? ==> |k.read.value| <= |s.buf|
  {
    if k.read.None? || k.read.value == [] then DeleteEvent(Close(s, fd), fd)
    else
      var b := Overlay(s.buf, k.read.value);
      ModifyEvent(s.(buf := b, overrun := s.overrun || CStr(b).None?), fd, EPOLLOUT)
  }

  /** The bytes a write puts on the wire. */
  function Written(s: Server, k: Kernel): seq<char>
    requires CStr(s.buf).Some? && (k.write.Some? ==> k.write.value <= |CStr(s.buf).value|)
  {
    if k.write.None? then [] else CStr(s.buf).value[..k.write.value]
  }

  /** strlen of a buffer without NUL is an overrun; otherwise the buffer ends cleared, whatever write did. */
  function DoWrite(s: Server, fd: int, k: Kernel): Server
    requires CStr(s.buf).Some? && k.write.Some? ==> k.write.value <= |CStr(s.buf).value|
  {
    if CStr(s.buf).None? then s.(overrun := true)
    else
      var to := if fd in s.conns then s.conns[fd] else 0;
      var s1 := if k.write.None? then DeleteEvent(Close(s, fd), fd)
                else ModifyEvent(s.(sent := s.sent + [(to, Written(s, k))]), fd, EPOLLIN);
      s1.(buf := Zeroed())
  }

  /** The handler handle_events picks. */
  datatype Action = Accept | Read | Write | Nothing

  function Pick(s: Server, e: Event): Action {
    if e.fd == s.listenfd && e.readable then Accept
    else if e.readable then Read
    else if e.writable then Write
    else Nothing
  }

  /** What the kernel may answer: a new connection gets an unused descriptor, a read at most MAXSIZE bytes. */
  predicate Possible(s: Server, k: Kernel) {
    && (k.accept.Some? ==> !IsOpen(s, k.accept.value))
    && (k.read.Some? ==> |k.read.value| <= |s.buf|)
    && (CStr(s.buf).Some? && k.write.Some? ==> k.write.value <= |CStr(s.buf).value|)
  }

  function Handle(s: Server, e: Event, k: Kernel): Server
    requires Possible(s, k)
  {
    match Pick(s, e)
    case Accept => HandleAccept(s, k)
    case Read => DoRead(s, e.fd, k)
    case Write => DoWrite(s, e.fd, k)
    case Nothing => s
  }

  datatype Step = Step(event: Event, kernel: Kernel)

  predicate CanRun(s: Server, steps: seq<Step>)
    decreases |steps|
  {
    steps == [] || (Possible(s, steps[0].kernel) && CanRun(Handle(s, steps[0].event, steps[0].kernel), steps[1..]))
  }

  function Run(s: Server, steps: seq<Step>): Server
    requires CanRun(s, steps)
    decreases |steps|
  {
    if steps == [] then s else Run(Handle(s, steps[0].event, steps[0].kernel), steps[1..])
  }

  // ------------------------------------------------------------------ the interest set

  function Start(listenfd: int): Server {
    Server(listenfd, map[], map[listenfd := EPOLLIN], Zeroed(), 0, [], false)
  }

  /** The listening descriptor waits for input, and every open connection for exactly one of the two. */
  ghost predicate Inv(s: Server) {
    && s.listenfd !in s.conns
    && s.interest.Keys == s.conns.Keys + {s.listenfd}
    && s.interest[s.listenfd] == EPOLLIN
    && |s.buf| == MAXSIZE
    && (forall fd :: fd in s.conns ==> s.conns[fd] < s.accepted)
    && (forall fd, gd :: fd in s.conns && gd in s.conns && fd != gd ==> s.conns[fd] != s.conns[gd])
  }

  /** epoll_wait reports each descriptor at most once, and only readiness that was asked for. */
  ghost predicate Reported(s: Server, steps: seq<Step>) {
    && (forall i, j :: 0 <= i < j < |steps| ==> steps[i].event.fd != steps[j].event.fd)
    && (forall i :: 0 <= i < |steps| ==> Asked(s, steps[i].event))
  }

  predicate Asked(s: Server, e: Event) {
    && e.fd in s.interest
    && (e.readable ==> s.interest[e.fd] == EPOLLIN)
    && (e.writable ==> s.interest[e.fd] == EPOLLOUT)
  }

  /** Apart from `fd`, every descriptor keeps its connection and its interest. */
  ghost predicate SameElsewhere(s: Server, s': Server, fd: int) {
    && s'.listenfd == s.listenfd
    && (forall g :: g != fd ==> (g in s'.conns <==> g in s.conns) && (g in s'.interest <==> g in s.interest))
    && (forall g :: g != fd && g in s.conns ==> s'.conns[g] == s.conns[g])
    && (forall g :: g != fd && g in s.interest ==> s'.interest[g] == s.interest[g])
  }

  lemma AcceptKeeps(s: Server, k: Kernel)
    requires Inv(s) && Possible(s, k)
    ensures Inv(HandleAccept(s, k))
  {
    var s' := HandleAccept(s, k);
    assert s'.interest.Keys == s'.conns.Keys + {s'.listenfd};
  }

  lemma ReadKeeps(s: Server, fd: int, k: Kernel)
    requires Inv(s) && Possible(s, k) && fd in s.conns
    ensures Inv(DoRead(s, fd, k))
  {
    var s' := DoRead(s, fd, k);
    assert s'.interest.Keys == s'.conns.Keys + {s'.listenfd};
  }

  lemma WriteKeeps(s: Server, fd: int, k: Kernel)
    requires Inv(s) && Possible(s, k) && fd in s.conns
    ensures Inv(DoWrite(s, fd, k))
  {
    var s' := DoWrite(s, fd, k);
    assert s'.interest.Keys == s'.conns.Keys + {s'.listenfd};
  }

  lemma HandleKeeps(s: Server, e: Event, k: Kernel)
    requires Inv(s) && Asked(s, e) && Possible(s, k)
    ensures Inv(Handle(s, e, k))
  {
    match Pick(s, e)
    case Accept => AcceptKeeps(s, k);
    case Read => ReadKeeps(s, e.fd, k);
    case Write => WriteKeeps(s, e.fd, k);
    case Nothing =>
  }

  /** A handled event touches no other registered descriptor. */
  lemma HandleFrame(s: Server, e: Event, k: Kernel, fd: int)
    requires Inv(s) && Asked(s, e) && Possible(s, k) && fd in s.interest && fd != e.fd
    ensures var s' := Handle(s, e, k);
            && s'.listenfd == s.listenfd
            && fd in s'.interest && s'.interest[fd] == s.interest[fd]
            && (fd in s.conns ==> fd in s'.conns && s'.conns[fd] == s.conns[fd])
  {
  }

  /** While a batch is worked off, connections close and descriptors are accepted again; still every
      event finds its descriptor open, registered as reported, and belonging to the same connection. */
  lemma {:induction false} BatchActsOnReported(s: Server, steps: seq<Step>, i: nat)
    requires Inv(s) && Reported(s, steps) && CanRun(s, steps) && i < |steps|
    ensures CanRun(s, steps[..i])
    ensures var t := Run(s, steps[..i]); var fd := steps[i].event.fd;
            && Inv(t) && Asked(t, steps[i].event) && t.interest[fd] == s.interest[fd]
            && (fd == t.listenfd || (fd in s.conns && fd in t.conns && t.conns[fd] == s.conns[fd]))
    decreases |steps|
  {
    if i > 0 {
      BatchStep(s, steps);
      var s' := Handle(s, steps[0].event, steps[0].kernel);
      BatchActsOnReported(s', steps[1..], i - 1);
      assert steps[1..][..i - 1] == steps[..i][1..];
      HandleFrame(s, steps[0].event, steps[0].kernel, steps[i].event.fd);
    }
  }

  lemma BatchStep(s: Server, steps: seq<Step>)
    requires Inv(s) && Reported(s, steps) && CanRun(s, steps) && steps != []
    ensures var s' := Handle(s, steps[0].event, steps[0].kernel); Inv(s') && Reported(s', steps[1..])
  {
    var e, k := steps[0].event, steps[0].kernel;
    HandleKeeps(s, e, k);
    forall j | 0 <= j < |steps[1..]| ensures Asked(Handle(s, e, k), steps[1..][j].event) {
      assert Asked(s, steps[j + 1].event) && steps[0].event.fd != steps[j + 1].event.fd;
      HandleFrame(s, e, k, steps[j + 1].event.fd);
    }
  }

  /** A whole run: each batch is what epoll_wait reported in the state it was called in. */
  ghost predicate Batches(s: Server, bs: seq<seq<Step>>)
    decreases |bs|
  {
    bs == [] || (Reported(s, bs[0]) && CanRun(s, bs[0]) && Batches(Run(s, bs[0]), bs[1..]))
  }

  ghost function RunBatches(s: Server, bs: seq<seq<Step>>): Server
    requires Batches(s, bs)
    decreases |bs|
  {
    if bs == [] then s else RunBatches(Run(s, bs[0]), bs[1..])
  }

  lemma {:induction false} RunAppend(s: Server, a: seq<Step>, b: seq<Step>)
    requires CanRun(s, a) && CanRun(Run(s, a), b)
    ensures CanRun(s, a + b) && Run(s, a + b) == Run(Run(s, a), b)
    decreases |a|
  {
    if a == [] {
      assert a + b == b;
    } else {
      RunAppend(Handle(s, a[0].event, a[0].kernel), a[1..], b);
      assert (a + b)[1..] == a[1..] + b;
    }
  }

  function Flat(bs: seq<seq<Step>>): seq<Step> {
    if bs == [] then [] else bs[0] + Flat(bs[1..])
  }

  /** What holds of every run of steps holds of every run of batches. */
  lemma {:induction false} BatchesAreRuns(s: Server, bs: seq<seq<Step>>)
    requires Batches(s, bs)
    ensures CanRun(s, Flat(bs)) && Run(s, Flat(bs)) == RunBatches(s, bs)
    decreases |bs|
  {
    if bs != [] {
      BatchesAreRuns(Run(s, bs[0]), bs[1..]);
      RunAppend(s, bs[0], Flat(bs[1..]));
    }
  }

  lemma {:induction false} BatchKeeps(s: Server, steps: seq<Step>)
    requires Inv(s) && Reported(s, steps) && CanRun(s, steps)
    ensures Inv(Run(s, steps))
    decreases |steps|
  {
    if steps != [] {
      BatchStep(s, steps);
      BatchKeeps(Handle(s, steps[0].event, steps[0].kernel), steps[1..]);
    }
  }

  lemma {:induction false} EveryRun(s: Server, bs: seq<seq<Step>>)
    requires Inv(s) && Batches(s, bs)
    ensures Inv(RunBatches(s, bs))
    decreases |bs|
  {
    if bs != [] {
      BatchKeeps(s, bs[0]);
      EveryRun(Run(s, bs[0]), bs[1..]);
    }
  }

  /** After any number of batches the interest set is the listening descriptor on EPOLLIN and each open
      connection on one of EPOLLIN and EPOLLOUT, and connection numbers are never shared. */
  lemma InterestSet(listenfd: int, bs: seq<seq<Step>>)
    requires Batches(Start(listenfd), bs)
    ensures Inv(RunBatches(Start(listenfd), bs))
  {
    EveryRun(Start(listenfd), bs);
  }
}
