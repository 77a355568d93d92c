/** The client of epoll_demo/epoll_cli.c and the server of epoll_demo/epoll_server.c joined by a stream
    socket. The user types a line only when the client is idle; lines are not empty, have no NUL and
    are shorter than the buffers; writes are taken whole. Reads take what has arrived, up to the size
    of the buffer, and the server reads the client's line into a clear buffer. Other connections come, go
    and fail at any time, and are served whenever the client's line is not in the server's buffer. */
module EchoSystem {
  import opened Options
  import opened CStrings
  import opened CBuffer
  import S = EchoServer
  import C = EchoClient
  import R = EchoReplies

  datatype System = System(client: C.Client, server: S.Server, fd: int, toServer: seq<char>, toClient: seq<char>,
                           typed: seq<seq<char>>, shown: seq<char>)

  datatype Event =
    | Type(line: seq<char>)
    | ClientSend
    | ServerReceive
    | ServerSend
    | ClientReceive
    | ClientShow
    | Elsewhere(step: S.Step)

  predicate Idle(c: C.Client) {
    c.interest == map[C.STDIN := EPOLLIN]
  }

  predicate GoodLine(line: seq<char>) {
    line != [] && NUL !in line && |line| < MAXSIZE
  }

  predicate Registered(c: C.Client, fd: int, i: Interest) {
    fd in c.interest && c.interest[fd] == i
  }

  /** What one read takes off a channel. */
  function Taken(channel: seq<char>): seq<char> {
    if |channel| <= MAXSIZE then channel else channel[..MAXSIZE]
  }

  function Text(buf: seq<char>): seq<char> {
    if CStr(buf).Some? then CStr(buf).value else []
  }

  function ReceiveStep(y: System): S.Step {
    S.Step(S.Event(y.fd, true, false), S.Kernel(None, Some(Taken(y.toServer)), None))
  }

  function SendStep(y: System): S.Step {
    S.Step(S.Event(y.fd, false, true), S.Kernel(None, None, Some(|Text(y.server.buf)|)))
  }

  /** The client's line has been read and not been written back. */
  predicate LineInBuffer(y: System) {
    y.fd in y.server.interest && y.server.interest[y.fd] == EPOLLOUT
  }

  /** What the registrations and the channels allow. */
  ghost predicate CanHappen(y: System, e: Event) {
    && !y.client.exited && !y.client.overrun && |y.client.buf| == MAXSIZE && |y.server.buf| == MAXSIZE
    && match e
       case Type(line) => Registered(y.client, C.STDIN, EPOLLIN) && GoodLine(line)
       case ClientSend => Registered(y.client, y.client.sockfd, EPOLLOUT)
       case ServerReceive => S.Asked(y.server, ReceiveStep(y).event) && y.toServer != [] && y.server.buf == Zeroed()
       case ServerSend => S.Asked(y.server, SendStep(y).event)
       case ClientReceive => Registered(y.client, y.client.sockfd, EPOLLIN) && y.toClient != []
       case ClientShow => Registered(y.client, C.STDOUT, EPOLLOUT)
       case Elsewhere(x) =>
         && x.event.fd != y.fd && S.Possible(y.server, x.kernel) && S.Asked(y.server, x.event)
         && (R.SuccessfulRead(y.server, x) ==> R.Plain(x.kernel.read.value))
         && (LineInBuffer(y) ==> !R.SuccessfulRead(y.server, x) && !R.IsWrite(y.server, x))
  }

  /** Besides, the user waits until the client is idle. */
  ghost predicate Enabled(y: System, e: Event) {
    CanHappen(y, e) && (e.Type? ==> Idle(y.client))
  }

  ghost function Apply(y: System, e: Event): System
    requires CanHappen(y, e)
  {
    match e
    case Type(line) => y.(client := C.DoRead(y.client, C.STDIN, Some(line)), typed := y.typed + [line])
    case ClientSend =>
      y.(client := C.DoWrite(y.client, y.client.sockfd, Some(|Text(y.client.buf)|)),
         toServer := y.toServer + Text(y.client.buf))
    case ServerReceive =>
      y.(server := S.Handle(y.server, ReceiveStep(y).event, ReceiveStep(y).kernel),
         toServer := y.toServer[|Taken(y.toServer)|..])
    case ServerSend =>
      y.(server := S.Handle(y.server, SendStep(y).event, SendStep(y).kernel),
         toClient := y.toClient + Text(y.server.buf))
    case ClientReceive =>
      y.(client := C.DoRead(y.client, y.client.sockfd, Some(Taken(y.toClient))),
         toClient := y.toClient[|Taken(y.toClient)|..])
    case ClientShow =>
      y.(client := C.DoWrite(y.client, C.STDOUT, Some(|Text(y.client.buf)|)), shown := y.shown + Text(y.client.buf))
    case Elsewhere(x) => y.(server := S.Handle(y.server, x.event, x.kernel))
  }

  ghost predicate CanRun(y: System, es: seq<Event>)
    decreases |es|
  {
    es == [] || (Enabled(y, es[0]) && CanRun(Apply(y, es[0]), es[1..]))
  }

  ghost function Run(y: System, es: seq<Event>): System
    requires CanRun(y, es)
    decreases |es|
  {
    if es == [] then y else Run(Apply(y, es[0]), es[1..])
  }

  /** Connected, nothing typed, both buffers clear. */
  ghost predicate Init(y: System) {
    && y.client == C.Start(y.client.sockfd, Zeroed()) && y.client.sockfd > 2
    && S.Inv(y.server) && y.fd in y.server.conns && y.server.interest[y.fd] == EPOLLIN
    && y.server.buf == Zeroed() && !y.server.overrun
    && y.toServer == [] && y.toClient == [] && y.typed == [] && y.shown == []
  }

  function Flatten(lines: seq<seq<char>>): seq<char> {
    if lines == [] then [] else Flatten(lines[..|lines| - 1]) + lines[|lines| - 1]
  }

  // ------------------------------------------------------------------ invariant

  /** Where the line typed last is. */
  datatype Stage = Nowhere | WithClient | OnTheWay | WithServer | OnTheWayBack | BackWithClient

  function ClientInterest(c: C.Client, g: Stage): map<int, Interest> {
    match g
    case Nowhere => map[C.STDIN := EPOLLIN]
    case WithClient => map[C.STDIN := EPOLLIN, c.sockfd := EPOLLOUT]
    case BackWithClient => map[C.STDIN := EPOLLIN, C.STDOUT := EPOLLOUT]
    case _ => map[C.STDIN := EPOLLIN, c.sockfd := EPOLLIN]
  }

  /** A cleared buffer into which a line was read. */
  function Filled(line: seq<char>): (b: seq<char>)
    ensures |b| == MAXSIZE
  {
    if |line| <= MAXSIZE then Overlay(Zeroed(), line) else Zeroed()
  }

  lemma FilledText(line: seq<char>)
    requires GoodLine(line)
    ensures CStr(Filled(line)) == Some(line) && Text(Filled(line)) == line
  {
    CStrZeroed(line);
  }

  ghost predicate ClientAt(c: C.Client, g: Stage, line: seq<char>) {
    && !c.exited && !c.overrun && c.sockfd > 2 && c.interest == ClientInterest(c, g)
    && c.buf == if g.WithClient? || g.BackWithClient? then Filled(line) else Zeroed()
  }

  /** A message of another connection in the buffer has not been written back. */
  ghost predicate WaitsToWrite(s: S.Server, h: int) {
    h in s.conns && h in s.interest && s.interest[h] == EPOLLOUT
  }

  /** The buffer always has room for a NUL, and what is in it waits to be written. */
  ghost predicate BufferAt(s: S.Server) {
    && |s.buf| == MAXSIZE && s.buf[MAXSIZE - 1] == NUL
    && (s.buf == Zeroed() || exists h :: WaitsToWrite(s, h))
  }

  ghost predicate ServerAt(s: S.Server, fd: int, g: Stage, line: seq<char>) {
    && S.Inv(s) && !s.overrun && fd in s.conns
    && s.interest[fd] == (if g.WithServer? then EPOLLOUT else EPOLLIN)
    && if g.WithServer? then s.buf == Filled(line) else BufferAt(s)
  }

  ghost predicate WireAt(toServer: seq<char>, toClient: seq<char>, g: Stage, line: seq<char>) {
    && toServer == (if g.OnTheWay? then line else [])
    && toClient == (if g.OnTheWayBack? then line else [])
  }

  ghost predicate RecordAt(typed: seq<seq<char>>, shown: seq<char>, g: Stage, line: seq<char>) {
    if g.Nowhere? then shown == Flatten(typed)
    else GoodLine(line) && typed != [] && typed[|typed| - 1] == line && shown == Flatten(typed[..|typed| - 1])
  }

  ghost predicate At(y: System, g: Stage, line: seq<char>) {
    && ClientAt(y.client, g, line) && ServerAt(y.server, y.fd, g, line)
    && WireAt(y.toServer, y.toClient, g, line) && RecordAt(y.typed, y.shown, g, line)
  }

  ghost predicate Inv(y: System) {
    exists g, line :: At(y, g, line)
  }

  function Next(g: Stage): Stage {
    match g
    case Nowhere => WithClient
    case WithClient => OnTheWay
    case OnTheWay => WithServer
    case WithServer => OnTheWayBack
    case OnTheWayBack => BackWithClient
    case BackWithClient => Nowhere
  }

  /** The one event, besides what other connections do, that can happen at a stage. */
  predicate Due(g: Stage, e: Event) {
    match g
    case Nowhere => e.Type?
    case WithClient => e.ClientSend?
    case OnTheWay => e.ServerReceive?
    case WithServer => e.ServerSend?
    case OnTheWayBack => e.ClientReceive?
    case BackWithClient => e.ClientShow?
  }

  lemma OnlyTheDueEvent(y: System, g: Stage, line: seq<char>, e: Event)
    requires At(y, g, line) && Enabled(y, e) && !e.Elsewhere?
    ensures Due(g, e)
  {
    IdleStage(y.client, g, line);
  }

  lemma IdleStage(c: C.Client, g: Stage, line: seq<char>)
    requires ClientAt(c, g, line)
    ensures Idle(c) <==> g.Nowhere?
  {
    assert !g.Nowhere? ==> C.STDOUT in c.interest || c.sockfd in c.interest;
  }

  // the client's side

  lemma ClientTypes(c: C.Client, before: seq<char>, line: seq<char>)
    requires ClientAt(c, Nowhere, before) && GoodLine(line)
    ensures ClientAt(C.DoRead(c, C.STDIN, Some(line)), WithClient, line)
  {
  }

  lemma ClientWrites(c: C.Client, line: seq<char>, n: nat)
    requires ClientAt(c, WithClient, line) && CStr(c.buf).Some?
    ensures ClientAt(C.DoWrite(c, c.sockfd, Some(n)), OnTheWay, line)
  {
  }

  lemma ClientReads(c: C.Client, line: seq<char>)
    requires ClientAt(c, OnTheWayBack, line) && GoodLine(line)
    ensures ClientAt(C.DoRead(c, c.sockfd, Some(line)), BackWithClient, line)
  {
  }

  lemma ClientPrints(c: C.Client, line: seq<char>, n: nat)
    requires ClientAt(c, BackWithClient, line) && CStr(c.buf).Some?
    ensures ClientAt(C.DoWrite(c, C.STDOUT, Some(n)), Nowhere, line)
  {
  }

  // the server's side

  lemma ServerReads(s: S.Server, fd: int, line: seq<char>, x: S.Step)
    requires ServerAt(s, fd, OnTheWay, line) && GoodLine(line) && s.buf == Zeroed()
    requires x == S.Step(S.Event(fd, true, false), S.Kernel(None, Some(line), None))
    ensures S.Possible(s, x.kernel) && ServerAt(S.Handle(s, x.event, x.kernel), fd, WithServer, line)
  {
    S.HandleKeeps(s, x.event, x.kernel);
  }

  lemma ServerWrites(s: S.Server, fd: int, line: seq<char>, x: S.Step)
    requires ServerAt(s, fd, WithServer, line) && GoodLine(line)
    requires x == S.Step(S.Event(fd, false, true), S.Kernel(None, None, Some(|line|)))
    ensures S.Possible(s, x.kernel) && ServerAt(S.Handle(s, x.event, x.kernel), fd, OnTheWayBack, line)
  {
    FilledText(line);
    S.HandleKeeps(s, x.event, x.kernel);
  }

  lemma Terminated(b: seq<char>)
    requires |b| == MAXSIZE && b[MAXSIZE - 1] == NUL
    ensures CStr(b).Some?
  {
    assert b[MAXSIZE - 1] in b;
  }

  /** Another connection's read leaves its message waiting; its write clears the buffer. */
  lemma BufferKept(s: S.Server, x: S.Step)
    requires S.Inv(s) && BufferAt(s) && S.Possible(s, x.kernel) && S.Asked(s, x.event)
    requires R.SuccessfulRead(s, x) ==> R.Plain(x.kernel.read.value)
    ensures var s' := S.Handle(s, x.event, x.kernel); BufferAt(s') && s'.overrun == s.overrun
  {
    var s' := S.Handle(s, x.event, x.kernel);
    Terminated(s.buf);
    if R.SuccessfulRead(s, x) {
      assert WaitsToWrite(s', x.event.fd);
    } else {
      R.StepBuffer(s, x);
      if !R.IsWrite(s, x) && s.buf != Zeroed() {
        var h :| WaitsToWrite(s, h);
        StillWaits(s, x, h);
      }
    }
  }

  lemma StillWaits(s: S.Server, x: S.Step, h: int)
    requires S.Inv(s) && S.Possible(s, x.kernel) && S.Asked(s, x.event) && !R.IsWrite(s, x) && WaitsToWrite(s, h)
    ensures WaitsToWrite(S.Handle(s, x.event, x.kernel), h)
  {
    if h != x.event.fd {
      S.HandleFrame(s, x.event, x.kernel, h);
    }
  }

  lemma ServerElsewhere(s: S.Server, fd: int, g: Stage, line: seq<char>, x: S.Step)
    requires ServerAt(s, fd, g, line) && (g.WithServer? ==> GoodLine(line))
    requires x.event.fd != fd && S.Possible(s, x.kernel) && S.Asked(s, x.event)
    requires R.SuccessfulRead(s, x) ==> R.Plain(x.kernel.read.value)
    requires g.WithServer? ==> !R.SuccessfulRead(s, x) && !R.IsWrite(s, x)
    ensures ServerAt(S.Handle(s, x.event, x.kernel), fd, g, line)
  {
    S.HandleKeeps(s, x.event, x.kernel);
    S.HandleFrame(s, x.event, x.kernel, fd);
    if g.WithServer? {
      FilledText(line);
      R.StepBuffer(s, x);
    } else {
      BufferKept(s, x);
    }
  }

  lemma ServerSame(s: S.Server, fd: int, g: Stage, g': Stage, line: seq<char>)
    requires ServerAt(s, fd, g, line) && !g.WithServer? && !g'.WithServer?
    ensures ServerAt(s, fd, g', line)
  {
  }

  lemma ClientSame(c: C.Client, g: Stage, g': Stage, line: seq<char>)
    requires ClientAt(c, g, line) && ClientInterest(c, g) == ClientInterest(c, g')
    requires !g.WithClient? && !g.BackWithClient? && !g'.WithClient? && !g'.BackWithClient?
    ensures ClientAt(c, g', line)
  {
  }

  // the two together

  lemma TypeAdvances(y: System, line: seq<char>, e: Event)
    requires At(y, Nowhere, line) && Enabled(y, e) && e.Type?
    ensures At(Apply(y, e), WithClient, e.line)
  {
    ClientTypes(y.client, line, e.line);
    assert (y.typed + [e.line])[..|y.typed|] == y.typed;
  }

  lemma ClientSends(y: System, line: seq<char>)
    requires At(y, WithClient, line) && Enabled(y, ClientSend)
    ensures At(Apply(y, ClientSend), OnTheWay, line)
  {
    FilledText(line);
    ClientWrites(y.client, line, |Text(y.client.buf)|);
    ServerSame(y.server, y.fd, WithClient, OnTheWay, line);
    assert [] + line == line;
  }

  lemma ServerReceives(y: System, line: seq<char>)
    requires At(y, OnTheWay, line) && Enabled(y, ServerReceive)
    ensures At(Apply(y, ServerReceive), WithServer, line)
  {
    ServerReads(y.server, y.fd, line, ReceiveStep(y));
  }

  lemma ServerSends(y: System, line: seq<char>)
    requires At(y, WithServer, line) && Enabled(y, ServerSend)
    ensures At(Apply(y, ServerSend), OnTheWayBack, line)
  {
    FilledText(line);
    ServerWrites(y.server, y.fd, line, SendStep(y));
    ClientSame(y.client, WithServer, OnTheWayBack, line);
    assert [] + line == line;
  }

  lemma ClientReceives(y: System, line: seq<char>)
    requires At(y, OnTheWayBack, line) && Enabled(y, ClientReceive)
    ensures At(Apply(y, ClientReceive), BackWithClient, line)
  {
    ClientReads(y.client, line);
  }

  lemma ClientShows(y: System, line: seq<char>)
    requires At(y, BackWithClient, line) && Enabled(y, ClientShow)
    ensures At(Apply(y, ClientShow), Nowhere, line)
  {
    FilledText(line);
    ClientPrints(y.client, line, |Text(y.client.buf)|);
  }

  lemma ElsewhereKeeps(y: System, g: Stage, line: seq<char>, x: S.Step)
    requires At(y, g, line) && Enabled(y, Elsewhere(x))
    ensures At(Apply(y, Elsewhere(x)), g, line)
  {
    ServerElsewhere(y.server, y.fd, g, line, x);
  }

  lemma StepAdvances(y: System, g: Stage, line: seq<char>, e: Event) returns (line': seq<char>)
    requires At(y, g, line) && Enabled(y, e)
    ensures At(Apply(y, e), if e.Elsewhere? then g else Next(g), line')
  {
    line' := line;
    if e.Elsewhere? {
      ElsewhereKeeps(y, g, line, e.step);
    } else {
      OnlyTheDueEvent(y, g, line, e);
      match g {
        case Nowhere => TypeAdvances(y, line, e); line' := e.line;
        case WithClient => ClientSends(y, line);
        case OnTheWay => ServerReceives(y, line);
        case WithServer => ServerSends(y, line);
        case OnTheWayBack => ClientReceives(y, line);
        case BackWithClient => ClientShows(y, line);
      }
    }
  }

  lemma {:induction false} EveryRun(y: System, es: seq<Event>)
    requires Inv(y) && CanRun(y, es)
    ensures Inv(Run(y, es))
    decreases |es|
  {
    if es != [] {
      var g, line :| At(y, g, line);
      var line' := StepAdvances(y, g, line, es[0]);
      EveryRun(Apply(y, es[0]), es[1..]);
    }
  }
}
