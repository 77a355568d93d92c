/** What a connection of epoll_demo/epoll_server.c gets back. All connections share one buffer, so the
    reply depends on what other connections do between a connection's read and its next write. */
module EchoReplies {
  import opened Options
  import opened CStrings
  import opened CBuffer
  import opened EchoServer

  predicate SuccessfulRead(s: Server, x: Step) {
    Pick(s, x.event).Read? && x.kernel.read.Some? && x.kernel.read.value != []
  }

  predicate IsWrite(s: Server, x: Step) {
    Pick(s, x.event).Write?
  }

  ghost predicate NoReads(s: Server, steps: seq<Step>) {
    forall i :: 0 <= i < |steps| ==> !SuccessfulRead(s, steps[i])
  }

  ghost predicate SomeWrite(s: Server, steps: seq<Step>) {
    exists i :: 0 <= i < |steps| && IsWrite(s, steps[i])
  }

  /** Every write handler, also one whose write fails, leaves the buffer all zero. */
  lemma WriteClears(s: Server, x: Step)
    requires Possible(s, x.kernel) && IsWrite(s, x) && CStr(s.buf).Some?
    ensures Handle(s, x.event, x.kernel).buf == Zeroed()
  {
  }

  lemma StepBuffer(s: Server, x: Step)
    requires Possible(s, x.kernel) && !SuccessfulRead(s, x) && CStr(s.buf).Some?
    ensures var t := Handle(s, x.event, x.kernel);
            && t.buf == (if IsWrite(s, x) then Zeroed() else s.buf)
            && t.overrun == s.overrun && t.listenfd == s.listenfd
  {
  }

  lemma SomeWriteSplit(s: Server, s': Server, mid: seq<Step>)
    requires mid != [] && s'.listenfd == s.listenfd
    ensures SomeWrite(s, mid) <==> IsWrite(s, mid[0]) || SomeWrite(s', mid[1..])
    ensures NoReads(s, mid) ==> NoReads(s', mid[1..])
  {
    if SomeWrite(s', mid[1..]) {
      var i :| 0 <= i < |mid[1..]| && IsWrite(s', mid[1..][i]);
      assert IsWrite(s, mid[i + 1]);
    }
    if SomeWrite(s, mid) && !IsWrite(s, mid[0]) {
      var i :| 0 <= i < |mid| && IsWrite(s, mid[i]);
      assert IsWrite(s', mid[1..][i - 1]);
    }
    forall i | NoReads(s, mid) && 0 <= i < |mid[1..]| ensures !SuccessfulRead(s', mid[1..][i]) {
      assert !SuccessfulRead(s, mid[i + 1]);
    }
  }

  /** Accepts, failed reads and hang-ups leave the buffer alone; any write clears it. */
  lemma {:induction false} BufferBetween(s: Server, mid: seq<Step>)
    requires CanRun(s, mid) && NoReads(s, mid) && CStr(s.buf).Some?
    ensures var t := Run(s, mid);
            && t.buf == (if SomeWrite(s, mid) then Zeroed() else s.buf)
            && t.overrun == s.overrun && t.listenfd == s.listenfd
    decreases |mid|
  {
    if mid != [] {
      var s' := Handle(s, mid[0].event, mid[0].kernel);
      assert !SuccessfulRead(s, mid[0]);
      StepBuffer(s, mid[0]);
      SomeWriteSplit(s, s', mid);
      EmptyZeroed();
      BufferBetween(s', mid[1..]);
    }
  }

  /** Events on other descriptors leave a connection its descriptor. */
  lemma {:induction false} ConnectionKept(s: Server, mid: seq<Step>, fd: int)
    requires CanRun(s, mid) && fd in s.conns && forall i :: 0 <= i < |mid| ==> mid[i].event.fd != fd
    ensures fd in Run(s, mid).conns && Run(s, mid).conns[fd] == s.conns[fd]
    decreases |mid|
  {
    if mid != [] {
      ConnectionKept(Handle(s, mid[0].event, mid[0].kernel), mid[1..], fd);
    }
  }

  /** The write on this connection succeeds in full. */
  predicate WholeWrite(s: Server, fd: int, x: Step) {
    x.event.fd == fd && IsWrite(s, x) && CStr(s.buf).Some? && x.kernel.write == Some(|CStr(s.buf).value|)
  }

  lemma WriteSends(t: Server, fd: int, w: Step)
    requires Possible(t, w.kernel) && WholeWrite(t, fd, w)
    ensures var u := Handle(t, w.event, w.kernel);
            && |u.sent| == |t.sent| + 1 && u.sent[..|t.sent|] == t.sent
            && u.sent[|t.sent|].1 == CStr(t.buf).value
            && (fd in t.conns ==> u.sent[|t.sent|].0 == t.conns[fd])
            && u.buf == Zeroed() && u.overrun == t.overrun
  {
    var c := CStr(t.buf).value;
    assert c[..|c|] == c;
  }

  lemma ReadFills(s: Server, r: Step)
    requires s.buf == Zeroed() && Possible(s, r.kernel) && SuccessfulRead(s, r) && r.event.fd in s.conns
    requires NUL !in r.kernel.read.value && |r.kernel.read.value| < MAXSIZE
    ensures var a := Handle(s, r.event, r.kernel);
            && CStr(a.buf) == Some(r.kernel.read.value)
            && a.overrun == s.overrun && r.event.fd in a.conns && a.conns[r.event.fd] == s.conns[r.event.fd]
  {
    CStrZeroed(r.kernel.read.value);
  }

  /** A read into a cleared buffer (s to a), other connections' accepts, hang-ups, failed reads and writes
      of any outcome (a to t), then the write: the connection gets its own bytes back exactly when no
      write handler ran in between; otherwise it gets nothing. */
  lemma EchoesUnlessCleared(s: Server, r: Step, a: Server, mid: seq<Step>, t: Server, w: Step)
    requires s.buf == Zeroed() && Possible(s, r.kernel) && SuccessfulRead(s, r) && r.event.fd in s.conns
    requires NUL !in r.kernel.read.value && |r.kernel.read.value| < MAXSIZE
    requires a == Handle(s, r.event, r.kernel) && CanRun(a, mid) && NoReads(a, mid)
    requires forall i :: 0 <= i < |mid| ==> mid[i].event.fd != r.event.fd
    requires t == Run(a, mid) && Possible(t, w.kernel) && WholeWrite(t, r.event.fd, w)
    ensures var u := Handle(t, w.event, w.kernel);
            && |u.sent| == |t.sent| + 1
            && u.sent[|t.sent|] == (s.conns[r.event.fd], if SomeWrite(a, mid) then [] else r.kernel.read.value)
            && u.buf == Zeroed() && u.overrun == s.overrun
  {
    ReadFills(s, r);
    BufferBetween(a, mid);
    ConnectionKept(a, mid, r.event.fd);
    WriteSends(t, r.event.fd, w);
    EmptyZeroed();
  }

  lemma EmptyZeroed()
    ensures CStr(Zeroed()) == Some([])
  {
    CStrZeroed([]);
    assert Overlay(Zeroed(), []) == Zeroed();
  }

  // ------------------------------------------------------------------ the buffer as layers of messages

  /** The messages in the buffer after a step: a read adds one, a write handler drops them all. */
  function Noted(s: Server, x: Step, ms: seq<seq<char>>): seq<seq<char>> {
    if IsWrite(s, x) then [] else if SuccessfulRead(s, x) then ms + [x.kernel.read.value] else ms
  }

  /** The messages read since the last write handler, after `ms`. */
  function Since(s: Server, steps: seq<Step>, ms: seq<seq<char>>): seq<seq<char>>
    decreases |steps|
  {
    if steps == [] then ms else Since(s, steps[1..], Noted(s, steps[0], ms))
  }

  /** A cleared buffer into which messages were read one after the other. */
  function Layered(ms: seq<seq<char>>): (b: seq<char>)
    ensures |b| == MAXSIZE
  {
    if ms == [] then Zeroed()
    else
      var b, m := Layered(ms[..|ms| - 1]), ms[|ms| - 1];
      if |m| <= MAXSIZE then Overlay(b, m) else b
  }

  ghost predicate Fit(ms: seq<seq<char>>) {
    forall j :: 0 <= j < |ms| ==> |ms[j]| <= MAXSIZE
  }

  /** Message `j` is the last one that reaches position `i`. */
  ghost predicate LastAt(ms: seq<seq<char>>, i: nat, j: nat) {
    j < |ms| && i < |ms[j]| && forall k :: j < k < |ms| ==> |ms[k]| <= i
  }

  /** No message puts a character other than NUL at position `i` for good. */
  ghost predicate Open(ms: seq<seq<char>>, i: nat) {
    forall j: nat :: LastAt(ms, i, j) ==> ms[j][i] == NUL
  }

  ghost predicate Covered(ms: seq<seq<char>>) {
    forall i: nat :: i < MAXSIZE ==> !Open(ms, i)
  }

  ghost predicate Agrees(ms: seq<seq<char>>, d: seq<char>, i: nat)
    requires i < |d|
  {
    exists j: nat :: LastAt(ms, i, j) && ms[j][i] == d[i]
  }

  /** At each position of `d` the last message to reach it agrees with `d`, and none follows. */
  ghost predicate Intact(ms: seq<seq<char>>, d: seq<char>) {
    && NUL !in d && |d| < MAXSIZE
    && (forall i :: 0 <= i < |d| ==> Agrees(ms, d, i))
    && Open(ms, |d|)
  }

  /** Each byte of the buffer belongs to the last message that reached it. */
  lemma {:induction false} LayeredAt(ms: seq<seq<char>>, i: nat, j: nat)
    requires Fit(ms) && LastAt(ms, i, j)
    ensures i < MAXSIZE && Layered(ms)[i] == ms[j][i]
  {
    var n := |ms| - 1;
    if j < n {
      assert ms[..n][j] == ms[j];
      LayeredAt(ms[..n], i, j);
    }
  }

  lemma {:induction false} LayeredBeyond(ms: seq<seq<char>>, i: nat)
    requires Fit(ms) && i < MAXSIZE && forall j :: 0 <= j < |ms| ==> |ms[j]| <= i
    ensures Layered(ms)[i] == NUL
  {
    if ms != [] {
      LayeredBeyond(ms[..|ms| - 1], i);
    }
  }

  lemma {:induction false} LastExists(ms: seq<seq<char>>, i: nat, j: nat) returns (k: nat)
    requires j < |ms| && i < |ms[j]|
    ensures LastAt(ms, i, k) && k >= j
    decreases |ms|
  {
    var n := |ms| - 1;
    if |ms[n]| > i {
      k := n;
    } else {
      k := LastExists(ms[..n], i, j);
    }
  }

  lemma {:induction false} OpenExactly(ms: seq<seq<char>>, i: nat)
    requires Fit(ms) && i < MAXSIZE
    ensures Layered(ms)[i] == NUL <==> Open(ms, i)
  {
    if j :| 0 <= j < |ms| && |ms[j]| > i {
      var k := LastExists(ms, i, j);
      LayeredAt(ms, i, k);
      forall j: nat | LastAt(ms, i, j) ensures Layered(ms)[i] == ms[j][i] {
        LayeredAt(ms, i, j);
      }
    } else {
      LayeredBeyond(ms, i);
    }
  }

  /** strlen and %s run past the buffer exactly when the messages leave no position open. */
  lemma {:induction false} CoveredExactly(ms: seq<seq<char>>)
    requires Fit(ms)
    ensures CStr(Layered(ms)).None? <==> Covered(ms)
  {
    forall i: nat | i < MAXSIZE ensures Layered(ms)[i] == NUL <==> Open(ms, i) {
      OpenExactly(ms, i);
    }
    assert forall i: nat :: i < MAXSIZE && Layered(ms)[i] == NUL ==> NUL in Layered(ms);
  }

  lemma {:induction false} AgreesExactly(ms: seq<seq<char>>, d: seq<char>, i: nat)
    requires Fit(ms) && i < |d| && i < MAXSIZE && d[i] != NUL
    ensures Layered(ms)[i] == d[i] <==> Agrees(ms, d, i)
  {
    if Agrees(ms, d, i) {
      var j: nat :| LastAt(ms, i, j) && ms[j][i] == d[i];
      LayeredAt(ms, i, j);
    }
    if Layered(ms)[i] == d[i] {
      OpenExactly(ms, i);
      var j: nat :| LastAt(ms, i, j) && ms[j][i] != NUL;
      LayeredAt(ms, i, j);
    }
  }

  /** The buffer holds `d` as a C string exactly when the messages read into it leave `d` intact. */
  lemma {:induction false} IntactExactly(ms: seq<seq<char>>, d: seq<char>)
    requires Fit(ms)
    ensures CStr(Layered(ms)) == Some(d) <==> Intact(ms, d)
  {
    var b := Layered(ms);
    CStrIs(b, d);
    if NUL !in d && |d| < MAXSIZE {
      OpenExactly(ms, |d|);
      forall i | 0 <= i < |d| ensures b[..|d|][i] == d[i] <==> Agrees(ms, d, i) {
        assert d[i] in d;
        AgreesExactly(ms, d, i);
      }
      assert (forall i :: 0 <= i < |d| ==> b[..|d|][i] == d[i]) <==> b[..|d|] == d;
    }
  }

  // ------------------------------------------------------------------ over whole runs

  /** The read at `k` leaves a buffer without NUL. */
  ghost predicate Fills(s: Server, steps: seq<Step>, ms: seq<seq<char>>, k: int) {
    0 <= k < |steps| && SuccessfulRead(s, steps[k]) && Covered(Since(s, steps[..k + 1], ms))
  }

  /** The buffer holds `ms`, and nothing has run past it. */
  ghost predicate Holds(s: Server, ms: seq<seq<char>>) {
    s.buf == Layered(ms) && Fit(ms) && !Covered(ms) && !s.overrun
  }

  lemma {:induction false} NotedBuffer(s: Server, x: Step, ms: seq<seq<char>>)
    requires Possible(s, x.kernel) && Holds(s, ms)
    ensures var t := Handle(s, x.event, x.kernel);
            && t.listenfd == s.listenfd
            && (t.overrun <==> SuccessfulRead(s, x) && Covered(Noted(s, x, ms)))
            && (!t.overrun ==> Holds(t, Noted(s, x, ms)))
  {
    CoveredExactly(ms);
    if SuccessfulRead(s, x) {
      var m := x.kernel.read.value;
      assert (ms + [m])[..|ms|] == ms;
      CoveredExactly(ms + [m]);
    } else {
      StepBuffer(s, x);
      EmptyZeroed();
      CoveredExactly([]);
    }
  }

  lemma {:induction false} SameSince(s: Server, s': Server, steps: seq<Step>, ms: seq<seq<char>>)
    requires s.listenfd == s'.listenfd
    ensures Since(s, steps, ms) == Since(s', steps, ms)
    decreases |steps|
  {
    if steps != [] {
      SameSince(s, s', steps[1..], Noted(s, steps[0], ms));
    }
  }

  lemma {:induction false} OverrunStays(s: Server, steps: seq<Step>)
    requires CanRun(s, steps) && s.overrun
    ensures Run(s, steps).overrun
    decreases |steps|
  {
    if steps != [] {
      OverrunStays(Handle(s, steps[0].event, steps[0].kernel), steps[1..]);
    }
  }

  lemma {:induction false} FillsFirst(s: Server, steps: seq<Step>, ms: seq<seq<char>>)
    requires steps != []
    ensures Fills(s, steps, ms, 0) <==> SuccessfulRead(s, steps[0]) && Covered(Noted(s, steps[0], ms))
  {
    var one := [steps[0]];
    assert steps[..0 + 1] == one && one[1..] == [];
    assert Since(s, one, ms) == Since(s, one[1..], Noted(s, one[0], ms));
  }

  lemma {:induction false} FillsLater(s: Server, s': Server, steps: seq<Step>, ms: seq<seq<char>>, k: int)
    requires steps != [] && k > 0 && s.listenfd == s'.listenfd
    ensures Fills(s, steps, ms, k) <==> Fills(s', steps[1..], Noted(s, steps[0], ms), k - 1)
  {
    if k < |steps| {
      assert steps[..k + 1][1..] == steps[1..][..k];
      SameSince(s, s', steps[1..][..k], Noted(s, steps[0], ms));
    }
  }

  /** Until something runs past it the buffer is the messages since the last write handler, read one over
      the other; and something runs past it exactly when a read leaves it without NUL. */
  lemma {:induction false} BufferIsLayered(s: Server, steps: seq<Step>, ms: seq<seq<char>>)
    requires CanRun(s, steps) && Holds(s, ms)
    ensures var t := Run(s, steps);
            && (t.overrun <==> exists k :: Fills(s, steps, ms, k))
            && (!t.overrun ==> Holds(t, Since(s, steps, ms)) && t.listenfd == s.listenfd)
    decreases |steps|
  {
    if steps != [] {
      var s' := Handle(s, steps[0].event, steps[0].kernel);
      var ms' := Noted(s, steps[0], ms);
      NotedBuffer(s, steps[0], ms);
      FillsFirst(s, steps, ms);
      if s'.overrun {
        OverrunStays(s', steps[1..]);
      } else {
        BufferIsLayered(s', steps[1..], ms');
        SameSince(s, s', steps[1..], ms');
        FillsShift(s, s', steps, ms);
      }
    }
  }

  lemma {:induction false} FillsShift(s: Server, s': Server, steps: seq<Step>, ms: seq<seq<char>>)
    requires steps != [] && s.listenfd == s'.listenfd && !Fills(s, steps, ms, 0)
    ensures (exists k :: Fills(s, steps, ms, k)) <==> exists k :: Fills(s', steps[1..], Noted(s, steps[0], ms), k)
  {
    if k :| Fills(s, steps, ms, k) {
      FillsLater(s, s', steps, ms, k);
    }
    if k :| Fills(s', steps[1..], Noted(s, steps[0], ms), k) {
      FillsLater(s, s', steps, ms, k + 1);
    }
  }

  lemma StartHolds(l: int)
    ensures Holds(Start(l), [])
  {
    EmptyZeroed();
    CoveredExactly([]);
  }

  /** On every run, whatever the messages: the server runs past its buffer exactly when the messages since
      the last write handler leave no position of it open after some read. */
  lemma {:induction false} OverrunsExactly(l: int, steps: seq<Step>)
    requires CanRun(Start(l), steps)
    ensures Run(Start(l), steps).overrun <==> exists k :: Fills(Start(l), steps, [], k)
  {
    StartHolds(l);
    BufferIsLayered(Start(l), steps, []);
  }

  /** Any run from the start (to s), a read of `d` on a connection (to a), anything on the other connections
      (to t), then the connection's write, with nothing having run past the buffer: the write goes to that
      connection, and is `d` exactly when the messages read since the last write handler leave `d` intact. */
  lemma {:induction false} EchoesExactly(l: int, pre: seq<Step>, s: Server, r: Step, a: Server,
                                         mid: seq<Step>, t: Server, w: Step)
    requires CanRun(Start(l), pre) && s == Run(Start(l), pre)
    requires Possible(s, r.kernel) && SuccessfulRead(s, r) && r.event.fd in s.conns
    requires a == Handle(s, r.event, r.kernel) && CanRun(a, mid) && t == Run(a, mid) && !t.overrun
    requires forall i :: 0 <= i < |mid| ==> mid[i].event.fd != r.event.fd
    requires Possible(t, w.kernel) && WholeWrite(t, r.event.fd, w)
    ensures var u := Handle(t, w.event, w.kernel); var d := r.kernel.read.value;
            var ms := Since(s, mid, Since(s, pre, []) + [d]);
            && |u.sent| == |t.sent| + 1 && u.sent[..|t.sent|] == t.sent
            && u.sent[|t.sent|].0 == s.conns[r.event.fd]
            && (u.sent[|t.sent|].1 == d <==> Intact(ms, d))
            && u.buf == Zeroed() && !u.overrun
  {
    var d := r.kernel.read.value;
    HeldAtWrite(l, pre, s, r, a, mid, t);
    ConnectionKept(a, mid, r.event.fd);
    WriteSends(t, r.event.fd, w);
    IntactExactly(Since(s, mid, Since(s, pre, []) + [d]), d);
  }

  lemma {:induction false} HeldAtWrite(l: int, pre: seq<Step>, s: Server, r: Step, a: Server, mid: seq<Step>, t: Server)
    requires CanRun(Start(l), pre) && s == Run(Start(l), pre)
    requires Possible(s, r.kernel) && SuccessfulRead(s, r) && a == Handle(s, r.event, r.kernel)
    requires CanRun(a, mid) && t == Run(a, mid) && !t.overrun
    ensures Holds(t, Since(s, mid, Since(s, pre, []) + [r.kernel.read.value]))
  {
    StartHolds(l);
    BufferIsLayered(Start(l), pre, []);
    if a.overrun {
      OverrunStays(a, mid);
    }
    SameSince(Start(l), s, pre, []);
    NotedBuffer(s, r, Since(s, pre, []));
    BufferIsLayered(a, mid, Since(s, pre, []) + [r.kernel.read.value]);
    SameSince(a, s, mid, Since(s, pre, []) + [r.kernel.read.value]);
  }

  // ------------------------------------------------------------------ messages without NUL

  ghost predicate NulFree(ms: seq<seq<char>>) {
    forall j :: 0 <= j < |ms| ==> NUL !in ms[j]
  }

  ghost predicate NulFreeReads(s: Server, steps: seq<Step>) {
    forall k :: 0 <= k < |steps| && SuccessfulRead(s, steps[k]) ==> NUL !in steps[k].kernel.read.value
  }

  ghost predicate ReadsFit(s: Server, steps: seq<Step>) {
    forall k :: 0 <= k < |steps| && SuccessfulRead(s, steps[k]) ==> |steps[k].kernel.read.value| <= MAXSIZE
  }

  predicate Plain(m: seq<char>) {
    NUL !in m && |m| < MAXSIZE
  }

  lemma {:induction false} OpenNulFree(ms: seq<seq<char>>, i: nat)
    requires NulFree(ms)
    ensures Open(ms, i) <==> forall j :: 0 <= j < |ms| ==> |ms[j]| <= i
  {
    if j :| 0 <= j < |ms| && |ms[j]| > i {
      var k := LastExists(ms, i, j);
      assert ms[k][i] in ms[k];
    }
  }

  /** Without NULs: no message is longer than `d`, and the last one to reach each position agrees with it. */
  lemma {:induction false} IntactNulFree(ms: seq<seq<char>>, d: seq<char>)
    requires NulFree(ms) && Plain(d)
    ensures Intact(ms, d) <==>
              (forall j :: 0 <= j < |ms| ==> |ms[j]| <= |d|) && forall i :: 0 <= i < |d| ==> Agrees(ms, d, i)
  {
    OpenNulFree(ms, |d|);
  }

  /** Without NULs the buffer fills up exactly when a message is as long as it. */
  lemma {:induction false} CoveredNulFree(ms: seq<seq<char>>)
    requires NulFree(ms) && Fit(ms)
    ensures Covered(ms) <==> exists j :: 0 <= j < |ms| && |ms[j]| == MAXSIZE
  {
    forall i: nat | i < MAXSIZE ensures Open(ms, i) <==> forall j :: 0 <= j < |ms| ==> |ms[j]| <= i {
      OpenNulFree(ms, i);
    }
    if Covered(ms) {
      assert !Open(ms, MAXSIZE - 1);
    }
  }

  lemma {:induction false} SinceLast(s: Server, steps: seq<Step>, ms: seq<seq<char>>, k: nat)
    requires k < |steps|
    ensures Since(s, steps[..k + 1], ms) == Noted(s, steps[k], Since(s, steps[..k], ms))
    decreases |steps|
  {
    assert steps[..k + 1][1..] == steps[1..][..k];
    if k == 0 {
      assert steps[..1][1..] == [] && steps[..0] == [];
    } else {
      SinceLast(s, steps[1..], Noted(s, steps[0], ms), k - 1);
      assert steps[..k][1..] == steps[1..][..k - 1];
    }
  }

  ghost predicate FullRead(s: Server, steps: seq<Step>, k: int) {
    0 <= k < |steps| && SuccessfulRead(s, steps[k]) && |steps[k].kernel.read.value| >= 1024
  }

  /** Every message in the buffer was read at some step. */
  lemma {:induction false} SinceWasRead(s: Server, steps: seq<Step>)
    requires NulFreeReads(s, steps) && ReadsFit(s, steps)
    ensures NulFree(Since(s, steps, [])) && Fit(Since(s, steps, []))
    ensures (exists j :: 0 <= j < |Since(s, steps, [])| && |Since(s, steps, [])[j]| >= MAXSIZE) ==>
              exists k :: FullRead(s, steps, k)
    decreases |steps|
  {
    if steps != [] {
      var n := |steps| - 1;
      var before := steps[..n];
      assert forall k :: 0 <= k < n ==> before[k] == steps[k];
      SinceWasRead(s, before);
      SinceLast(s, steps, [], n);
      assert steps[..n + 1] == steps;
      if k :| FullRead(s, before, k) {
        assert FullRead(s, steps, k);
      }
      if j :| 0 <= j < |Since(s, steps, [])| && |Since(s, steps, [])[j]| >= MAXSIZE {
        assert FullRead(s, steps, n) || Since(s, steps, [])[j] == Since(s, before, [])[j];
      }
    }
  }

  lemma {:induction false} FillsNulFree(s: Server, steps: seq<Step>, k: nat)
    requires NulFreeReads(s, steps) && ReadsFit(s, steps) && k < |steps|
    ensures FullRead(s, steps, k) ==> Fills(s, steps, [], k)
    ensures Fills(s, steps, [], k) ==> exists i :: FullRead(s, steps, i)
  {
    var pre := steps[..k + 1];
    assert forall i :: 0 <= i <= k ==> pre[i] == steps[i];
    SinceWasRead(s, pre);
    CoveredNulFree(Since(s, pre, []));
    SinceLast(s, steps, [], k);
    if Fills(s, steps, [], k) {
      var i :| FullRead(s, pre, i);
      assert FullRead(s, steps, i);
    }
    if FullRead(s, steps, k) {
      var ms := Since(s, pre, []);
      assert |ms[|ms| - 1]| == MAXSIZE;
    }
  }

  lemma {:induction false} EveryReadFits(s: Server, s0: Server, steps: seq<Step>)
    requires CanRun(s, steps) && |s.buf| == MAXSIZE && s.listenfd == s0.listenfd
    ensures ReadsFit(s0, steps)
    decreases |steps|
  {
    if steps != [] {
      EveryReadFits(Handle(s, steps[0].event, steps[0].kernel), s0, steps[1..]);
      assert forall k :: 0 < k < |steps| ==> steps[k] == steps[1..][k - 1];
    }
  }

  /** On every run whose messages have no NUL, the server runs past its buffer exactly when one of them is as
      long as the buffer, whatever was read or written before and after. */
  lemma {:induction false} FullBufferOverruns(l: int, steps: seq<Step>)
    requires CanRun(Start(l), steps) && NulFreeReads(Start(l), steps)
    ensures Run(Start(l), steps).overrun <==> exists k :: FullRead(Start(l), steps, k)
  {
    var s := Start(l);
    OverrunsExactly(l, steps);
    EveryReadFits(s, s, steps);
    if k :| FullRead(s, steps, k) {
      FillsNulFree(s, steps, k);
    }
    if k :| Fills(s, steps, [], k) {
      FillsNulFree(s, steps, k);
    }
  }

  /** One other message on top of a connection's own is harmless exactly when it is a prefix. */
  lemma {:induction false} OverwrittenExactly(d: seq<char>, other: seq<char>)
    requires Plain(d) && NUL !in other
    ensures Intact([d, other], d) <==> other <= d
  {
    var ms := [d, other];
    IntactNulFree(ms, d);
    if Intact(ms, d) {
      assert |ms[1]| <= |d|;
      forall i | 0 <= i < |other| ensures other[i] == d[i] {
        assert Agrees(ms, d, i);
        var j: nat :| LastAt(ms, i, j) && ms[j][i] == d[i];
        assert |ms[1]| > i;
      }
    }
    if other <= d {
      forall i | 0 <= i < |d| ensures Agrees(ms, d, i) {
        assert LastAt(ms, i, if i < |other| then 1 else 0);
      }
    }
  }

  /** With more messages none of them needs to be a prefix: a later one may repair what an earlier one spoilt. */
  lemma LaterMessageRepairs()
    ensures Intact(["ab", "x", "a"], "ab")
  {
    var ms := ["ab", "x", "a"];
    IntactNulFree(ms, "ab");
    forall i | 0 <= i < 2 ensures Agrees(ms, "ab", i) {
      assert LastAt(ms, i, if i == 0 then 2 else 0);
    }
  }

  // ------------------------------------------------------------------ a failed write in between

  function AcceptStep(l: int, fd: int): Step {
    Step(Event(l, true, false), Kernel(Some(fd), None, None))
  }

  function ReadStep(fd: int, m: seq<char>): Step {
    Step(Event(fd, true, false), Kernel(None, Some(m), None))
  }

  function WriteStep(fd: int, n: Option<nat>): Step {
    Step(Event(fd, false, true), Kernel(None, None, n))
  }

  /** epoll_wait reports the steps one by one. */
  function Singly(xs: seq<Step>): seq<seq<Step>> {
    if xs == [] then [] else [[xs[0]]] + Singly(xs[1..])
  }

  ghost predicate CanServe(s: Server, xs: seq<Step>)
    decreases |xs|
  {
    xs == [] || (Asked(s, xs[0].event) && Possible(s, xs[0].kernel) &&
                 CanServe(Handle(s, xs[0].event, xs[0].kernel), xs[1..]))
  }

  lemma {:induction false} SinglyRuns(s: Server, xs: seq<Step>)
    requires CanServe(s, xs)
    ensures Batches(s, Singly(xs)) && CanRun(s, xs) && RunBatches(s, Singly(xs)) == Run(s, xs)
    decreases |xs|
  {
    if xs != [] {
      var s' := Handle(s, xs[0].event, xs[0].kernel);
      assert [xs[0]][1..] == [] && Run(s, [xs[0]]) == s';
      SinglyRuns(s', xs[1..]);
      assert Singly(xs)[1..] == Singly(xs[1..]);
    }
  }

  ghost predicate Goes(s: Server, x: Step, s': Server) {
    Asked(s, x.event) && Possible(s, x.kernel) && Handle(s, x.event, x.kernel) == s'
  }

  lemma GoesOn(s: Server, x: Step, s': Server, xs: seq<Step>)
    requires Goes(s, x, s') && CanServe(s', xs) && CanRun(s', xs)
    ensures CanServe(s, [x] + xs) && CanRun(s, [x] + xs) && Run(s, [x] + xs) == Run(s', xs)
  {
    assert ([x] + xs)[1..] == xs;
  }

  /** The server on descriptor 3 with connections 0 and 1 on descriptors 5 and 6. */
  function Both(five: Interest, six: Interest, buf: seq<char>, sent: seq<(nat, seq<char>)>): Server {
    Server(3, map[5 := 0, 6 := 1], map[3 := EPOLLIN, 5 := five, 6 := six], buf, 2, sent, false)
  }

  function Holding(m: seq<char>): seq<char>
    requires |m| <= MAXSIZE
  {
    Overlay(Zeroed(), m)
  }

  lemma AcceptBoth(xs: seq<Step>)
    requires var s := Both(EPOLLIN, EPOLLIN, Zeroed(), []); CanServe(s, xs) && CanRun(s, xs)
    ensures var ys := [AcceptStep(3, 5)] + ([AcceptStep(3, 6)] + xs);
            CanServe(Start(3), ys) && CanRun(Start(3), ys) &&
            Run(Start(3), ys) == Run(Both(EPOLLIN, EPOLLIN, Zeroed(), []), xs)
  {
    var one := Server(3, map[5 := 0], map[3 := EPOLLIN, 5 := EPOLLIN], Zeroed(), 1, [], false);
    assert Goes(one, AcceptStep(3, 6), Both(EPOLLIN, EPOLLIN, Zeroed(), []));
    assert Goes(Start(3), AcceptStep(3, 5), one);
    GoesOn(one, AcceptStep(3, 6), Both(EPOLLIN, EPOLLIN, Zeroed(), []), xs);
    GoesOn(Start(3), AcceptStep(3, 5), one, [AcceptStep(3, 6)] + xs);
  }

  lemma FirstReads(six: Interest, sent: seq<(nat, seq<char>)>)
    ensures Goes(Both(EPOLLIN, six, Zeroed(), sent), ReadStep(5, "a"), Both(EPOLLOUT, six, Holding("a"), sent))
  {
  }

  lemma SecondReads()
    ensures Goes(Both(EPOLLOUT, EPOLLIN, Holding("a"), []), ReadStep(6, "b"),
                 Both(EPOLLOUT, EPOLLOUT, Holding("b"), []))
  {
    assert Overlay(Holding("a"), "b") == Holding("b");
  }

  lemma FirstWrites()
    ensures Goes(Both(EPOLLOUT, EPOLLOUT, Holding("b"), []), WriteStep(5, Some(1)),
                 Both(EPOLLIN, EPOLLOUT, Zeroed(), [(0, "b")]))
  {
    CStrZeroed("b");
    assert "b"[..1] == "b";
  }

  /** Both are read, the first is answered with the second's bytes, and the second still waits to write. */
  lemma FirstRound(xs: seq<Step>)
    requires var s := Both(EPOLLIN, EPOLLOUT, Zeroed(), [(0, "b")]); CanServe(s, xs) && CanRun(s, xs)
    ensures var s := Both(EPOLLIN, EPOLLIN, Zeroed(), []);
            var ys := [ReadStep(5, "a")] + ([ReadStep(6, "b")] + ([WriteStep(5, Some(1))] + xs));
            CanServe(s, ys) && CanRun(s, ys) && Run(s, ys) == Run(Both(EPOLLIN, EPOLLOUT, Zeroed(), [(0, "b")]), xs)
  {
    var s0, s1 := Both(EPOLLIN, EPOLLIN, Zeroed(), []), Both(EPOLLOUT, EPOLLIN, Holding("a"), []);
    var s2, s3 := Both(EPOLLOUT, EPOLLOUT, Holding("b"), []), Both(EPOLLIN, EPOLLOUT, Zeroed(), [(0, "b")]);
    FirstWrites();
    SecondReads();
    FirstReads(EPOLLIN, []);
    GoesOn(s2, WriteStep(5, Some(1)), s3, xs);
    GoesOn(s1, ReadStep(6, "b"), s2, [WriteStep(5, Some(1))] + xs);
    GoesOn(s0, ReadStep(5, "a"), s1, [ReadStep(6, "b")] + ([WriteStep(5, Some(1))] + xs));
  }

  lemma SecondRound()
    ensures var s := Both(EPOLLIN, EPOLLOUT, Zeroed(), [(0, "b")]);
            var ys := [ReadStep(5, "a")] + ([WriteStep(6, None)] + ([WriteStep(5, Some(0))] + []));
            CanServe(s, ys) && CanRun(s, ys) && Run(s, ys).sent == [(0, "b"), (0, "")]
  {
    var s0, s1 := Both(EPOLLIN, EPOLLOUT, Zeroed(), [(0, "b")]), Both(EPOLLOUT, EPOLLOUT, Holding("a"), [(0, "b")]);
    var s2 := Server(3, map[5 := 0], map[3 := EPOLLIN, 5 := EPOLLOUT], Zeroed(), 2, [(0, "b")], false);
    var s3 := Server(3, map[5 := 0], map[3 := EPOLLIN, 5 := EPOLLIN], Zeroed(), 2, [(0, "b"), (0, "")], false);
    EmptyZeroed();
    CStrZeroed("a");
    assert Goes(s2, WriteStep(5, Some(0)), s3);
    assert Goes(s1, WriteStep(6, None), s2);
    FirstReads(EPOLLOUT, [(0, "b")]);
    GoesOn(s2, WriteStep(5, Some(0)), s3, []);
    GoesOn(s1, WriteStep(6, None), s2, [WriteStep(5, Some(0))] + []);
    GoesOn(s0, ReadStep(5, "a"), s1, [WriteStep(6, None)] + ([WriteStep(5, Some(0))] + []));
  }

  /** A connection can get an empty reply although nothing but another connection's failed write lies
      between its read, into a cleared buffer, and its write. */
  lemma FailedWriteSpoils(bs: seq<seq<Step>>)
    requires bs == Singly([AcceptStep(3, 5), AcceptStep(3, 6),
                           ReadStep(5, "a"), ReadStep(6, "b"), WriteStep(5, Some(1)),
                           ReadStep(5, "a"), WriteStep(6, None), WriteStep(5, Some(0))])
    ensures Batches(Start(3), bs) && RunBatches(Start(3), bs).sent == [(0, "b"), (0, "")]
  {
    var last := [ReadStep(5, "a")] + ([WriteStep(6, None)] + ([WriteStep(5, Some(0))] + []));
    var first := [ReadStep(5, "a")] + ([ReadStep(6, "b")] + ([WriteStep(5, Some(1))] + last));
    var all := [AcceptStep(3, 5)] + ([AcceptStep(3, 6)] + first);
    SecondRound();
    FirstRound(last);
    AcceptBoth(first);
    SinglyRuns(Start(3), all);
    assert all == [AcceptStep(3, 5), AcceptStep(3, 6), ReadStep(5, "a"), ReadStep(6, "b"), WriteStep(5, Some(1)),
                   ReadStep(5, "a"), WriteStep(6, None), WriteStep(5, Some(0))];
  }
}
