/** The client and server of EchoSystem with a user who types whenever standard input is registered, which is
    always. Lines and replies then share the client's buffer, and a line that does not wait costs bytes. */
module EchoTyping {
  import opened Options
  import opened CStrings
  import opened CBuffer
  import opened EchoSystem
  import EchoRounds
  import C = EchoClient
  import S = EchoServer
  import R = EchoReplies

  ghost predicate CanGo(y: System, es: seq<Event>)
    decreases |es|
  {
    es == [] || (CanHappen(y, es[0]) && CanGo(Apply(y, es[0]), es[1..]))
  }

  ghost function Go(y: System, es: seq<Event>): System
    requires CanGo(y, es)
    decreases |es|
  {
    if es == [] then y else Go(Apply(y, es[0]), es[1..])
  }

  /** Every line is typed while the client is idle. */
  ghost predicate Patient(y: System, es: seq<Event>)
    requires CanGo(y, es)
    decreases |es|
  {
    es == [] || ((es[0].Type? ==> Idle(y.client)) && Patient(Apply(y, es[0]), es[1..]))
  }

  lemma {:induction false} PatientRuns(y: System, es: seq<Event>)
    requires CanGo(y, es) && Patient(y, es)
    ensures CanRun(y, es) && Run(y, es) == Go(y, es)
    decreases |es|
  {
    if es != [] {
      PatientRuns(Apply(y, es[0]), es[1..]);
    }
  }

  /** The lines of the Type events. */
  function Lines(es: seq<Event>): seq<seq<char>> {
    if es == [] then [] else (if es[0].Type? then [es[0].line] else []) + Lines(es[1..])
  }

  lemma {:induction false} TypedLines(y: System, es: seq<Event>)
    requires CanGo(y, es)
    ensures Go(y, es).typed == y.typed + Lines(es)
    decreases |es|
  {
    if es != [] {
      TypedLines(Apply(y, es[0]), es[1..]);
    }
  }

  // ------------------------------------------------------------------ texts in the client's buffer

  /** What is left of a text when another is read over it. */
  function Overtyped(over: seq<char>, under: seq<char>): seq<char> {
    if |under| <= |over| then over else over + under[|over|..]
  }

  lemma OverlayFilled(over: seq<char>, under: seq<char>)
    requires R.Plain(over) && R.Plain(under)
    ensures Overlay(Filled(under), over) == Filled(Overtyped(over, under)) && R.Plain(Overtyped(over, under))
  {
    var m := Overtyped(over, under);
    assert forall i :: 0 <= i < |m| ==> m[i] == if i < |over| then over[i] else under[i];
    assert forall i :: 0 <= i < MAXSIZE ==> Overlay(Filled(under), over)[i] == Filled(m)[i];
    assert forall i :: 0 <= i < |m| ==> m[i] in over || m[i] in under;
  }

  lemma PlainText(m: seq<char>)
    requires R.Plain(m)
    ensures CStr(Filled(m)) == Some(m) && Text(Filled(m)) == m
  {
    CStrZeroed(m);
  }

  lemma NothingFilled()
    ensures Filled([]) == Zeroed()
  {
  }

  // ------------------------------------------------------------------ the shape of every state

  /** The registrations: of the socket, if any, and of standard output. */
  function Registrations(sockfd: int, sock: Option<Interest>, out: bool): map<int, Interest> {
    var a := map[C.STDIN := EPOLLIN];
    var b := if sock.Some? then a[sockfd := sock.value] else a;
    if out then b[C.STDOUT := EPOLLOUT] else b
  }

  /** The client's registrations, and the text `m` in its buffer. */
  ghost predicate ClientHas(c: C.Client, m: seq<char>, sock: Option<Interest>, out: bool) {
    && !c.exited && !c.overrun && c.sockfd > 2 && R.Plain(m) && c.buf == Filled(m)
    && c.interest == Registrations(c.sockfd, sock, out)
  }

  /** A message `w` is on its way, at stage `g`, only while the socket waits for input. */
  ghost predicate UnderWay(w: seq<char>, g: Stage, sock: Option<Interest>) {
    if w == [] then g.Nowhere?
    else GoodLine(w) && sock == Some(EPOLLIN) && (g.OnTheWay? || g.WithServer? || g.OnTheWayBack?)
  }

  ghost predicate ElsewhereHas(y: System, w: seq<char>, g: Stage) {
    ServerAt(y.server, y.fd, g, w) && WireAt(y.toServer, y.toClient, g, w)
  }

  ghost predicate Shape(y: System, m: seq<char>, w: seq<char>, g: Stage, sock: Option<Interest>, out: bool) {
    ClientHas(y.client, m, sock, out) && UnderWay(w, g, sock) && ElsewhereHas(y, w, g)
  }

  /** Bytes are missing for good, or will be as soon as the reply is read over a line in the buffer. */
  predicate Missing(shown: nat, typed: nat, m: seq<char>, w: seq<char>, sock: Option<Interest>, out: bool) {
    || shown + |m| + |w| < typed
    || (shown + |m| + |w| <= typed && m != [] && w != [] && sock == Some(EPOLLIN) && !out)
  }

  ghost predicate Has(y: System, m: seq<char>, w: seq<char>, g: Stage, sock: Option<Interest>, out: bool) {
    Shape(y, m, w, g, sock, out) && Missing(|y.shown|, |Flatten(y.typed)|, m, w, sock, out)
  }

  ghost predicate Spoilt(y: System) {
    exists m, w, g, sock, out :: Has(y, m, w, g, sock, out)
  }

  lemma FlattenMore(lines: seq<seq<char>>, line: seq<char>)
    ensures Flatten(lines + [line]) == Flatten(lines) + line
  {
    assert (lines + [line])[..|lines|] == lines;
  }

  // ------------------------------------------------------------------ the client's events

  /** A line registers the socket for output unless it is registered already. */
  function Typed(sock: Option<Interest>): Option<Interest> {
    if sock.None? then Some(EPOLLOUT) else sock
  }

  lemma TypeClient(c: C.Client, m: seq<char>, sock: Option<Interest>, out: bool, line: seq<char>)
    requires ClientHas(c, m, sock, out) && GoodLine(line)
    ensures ClientHas(C.DoRead(c, C.STDIN, Some(line)), Overtyped(line, m), Typed(sock), out)
  {
    OverlayFilled(line, m);
  }

  lemma SendRegistrations(sockfd: int, sock: Option<Interest>, out: bool)
    requires sockfd > 2 && sock.Some?
    ensures sockfd in Registrations(sockfd, sock, out)
    ensures Registrations(sockfd, sock, out)[sockfd := EPOLLIN] == Registrations(sockfd, Some(EPOLLIN), out)
  {
  }

  lemma ShowRegistrations(sockfd: int, sock: Option<Interest>)
    requires sockfd > 2
    ensures Registrations(sockfd, sock, true) - {C.STDOUT} == Registrations(sockfd, sock, false)
  {
  }

  lemma SendClient(c: C.Client, m: seq<char>, sock: Option<Interest>, out: bool, n: nat)
    requires ClientHas(c, m, sock, out) && sock.Some? && CStr(c.buf).Some?
    ensures ClientHas(C.DoWrite(c, c.sockfd, Some(n)), [], Some(EPOLLIN), out)
  {
    NothingFilled();
    SendRegistrations(c.sockfd, sock, out);
    assert C.DoWrite(c, c.sockfd, Some(n)) == c.(interest := c.interest[c.sockfd := EPOLLIN], buf := Zeroed());
  }

  lemma ReceiveClient(c: C.Client, m: seq<char>, sock: Option<Interest>, out: bool, w: seq<char>)
    requires ClientHas(c, m, sock, out) && GoodLine(w)
    ensures ClientHas(C.DoRead(c, c.sockfd, Some(w)), Overtyped(w, m), None, true)
  {
    OverlayFilled(w, m);
  }

  lemma ShowClient(c: C.Client, m: seq<char>, sock: Option<Interest>, n: nat)
    requires ClientHas(c, m, sock, true) && CStr(c.buf).Some?
    ensures ClientHas(C.DoWrite(c, C.STDOUT, Some(n)), [], sock, false)
  {
    NothingFilled();
    ShowRegistrations(c.sockfd, sock);
    assert C.DoWrite(c, C.STDOUT, Some(n)) == c.(interest := c.interest - {C.STDOUT}, buf := Zeroed());
  }

  lemma SocketIs(c: C.Client, m: seq<char>, sock: Option<Interest>, out: bool, i: Interest)
    requires ClientHas(c, m, sock, out) && Registered(c, c.sockfd, i)
    ensures sock == Some(i)
  {
  }

  /** While nothing is in the server's buffer the server does not know what is under way. */
  lemma ServerIgnores(s: S.Server, fd: int, g: Stage, w: seq<char>, g': Stage, w': seq<char>)
    requires ServerAt(s, fd, g, w) && !g.WithServer? && !g'.WithServer?
    ensures ServerAt(s, fd, g', w')
  {
  }

  lemma TypeHas(y: System, m: seq<char>, w: seq<char>, g: Stage, sock: Option<Interest>, out: bool, line: seq<char>)
    requires Shape(y, m, w, g, sock, out) && CanHappen(y, Type(line))
    ensures Shape(Apply(y, Type(line)), Overtyped(line, m), w, g, Typed(sock), out)
    ensures |Flatten(Apply(y, Type(line)).typed)| == |Flatten(y.typed)| + |line|
  {
    TypeClient(y.client, m, sock, out, line);
    FlattenMore(y.typed, line);
  }

  function Sent(m: seq<char>): Stage {
    if m == [] then Nowhere else OnTheWay
  }

  lemma SendWire(y: System, m: seq<char>, c: C.Client)
    requires ElsewhereHas(y, [], Nowhere)
    ensures ElsewhereHas(y.(client := c, toServer := y.toServer + m), m, Sent(m))
  {
    ServerIgnores(y.server, y.fd, Nowhere, [], Sent(m), m);
    assert [] + m == m;
  }

  lemma SendHas(y: System, m: seq<char>, w: seq<char>, g: Stage, sock: Option<Interest>, out: bool)
    requires Has(y, m, w, g, sock, out) && CanHappen(y, ClientSend)
    ensures Spoilt(Apply(y, ClientSend))
  {
    PlainText(m);
    SocketIs(y.client, m, sock, out, EPOLLOUT);
    SendClient(y.client, m, sock, out, |Text(y.client.buf)|);
    var z := Apply(y, ClientSend);
    SendWire(y, m, z.client);
    assert z == y.(client := z.client, toServer := y.toServer + m);
    assert Has(z, [], m, Sent(m), Some(EPOLLIN), out);
  }

  lemma ReceiveHas(y: System, m: seq<char>, w: seq<char>, g: Stage, sock: Option<Interest>, out: bool)
    requires Has(y, m, w, g, sock, out) && CanHappen(y, ClientReceive)
    ensures Spoilt(Apply(y, ClientReceive))
  {
    assert g.OnTheWayBack? && Taken(y.toClient) == w;
    ReceiveClient(y.client, m, sock, out, w);
    ServerIgnores(y.server, y.fd, g, w, Nowhere, []);
    assert w[|w|..] == [];
    assert Has(Apply(y, ClientReceive), Overtyped(w, m), [], Nowhere, None, true);
  }

  lemma ShowHas(y: System, m: seq<char>, w: seq<char>, g: Stage, sock: Option<Interest>, out: bool)
    requires Has(y, m, w, g, sock, out) && CanHappen(y, ClientShow)
    ensures Spoilt(Apply(y, ClientShow))
  {
    PlainText(m);
    assert out;
    ShowClient(y.client, m, sock, |Text(y.client.buf)|);
    assert Has(Apply(y, ClientShow), [], w, g, sock, false);
  }

  // ------------------------------------------------------------------ the server's events

  lemma ServerReceiveHas(y: System, m: seq<char>, w: seq<char>, g: Stage, sock: Option<Interest>, out: bool)
    requires Has(y, m, w, g, sock, out) && CanHappen(y, ServerReceive)
    ensures Spoilt(Apply(y, ServerReceive))
  {
    assert g.OnTheWay? && Taken(y.toServer) == w;
    ServerReads(y.server, y.fd, w, ReceiveStep(y));
    assert w[|w|..] == [];
    assert Has(Apply(y, ServerReceive), m, w, WithServer, sock, out);
  }

  lemma ServerSendHas(y: System, m: seq<char>, w: seq<char>, g: Stage, sock: Option<Interest>, out: bool)
    requires Has(y, m, w, g, sock, out) && CanHappen(y, ServerSend)
    ensures Spoilt(Apply(y, ServerSend))
  {
    assert g.WithServer?;
    PlainText(w);
    ServerWrites(y.server, y.fd, w, SendStep(y));
    assert [] + w == w;
    assert Has(Apply(y, ServerSend), m, w, OnTheWayBack, sock, out);
  }

  lemma ElsewhereHasStill(y: System, m: seq<char>, w: seq<char>, g: Stage, sock: Option<Interest>, out: bool, x: S.Step)
    requires Has(y, m, w, g, sock, out) && CanHappen(y, Elsewhere(x))
    ensures Spoilt(Apply(y, Elsewhere(x)))
  {
    ServerElsewhere(y.server, y.fd, g, w, x);
    assert Has(Apply(y, Elsewhere(x)), m, w, g, sock, out);
  }

  // ------------------------------------------------------------------ once bytes are missing they stay missing

  lemma SpoiltStep(y: System, e: Event)
    requires Spoilt(y) && CanHappen(y, e)
    ensures Spoilt(Apply(y, e))
  {
    var m, w, g, sock, out :| Has(y, m, w, g, sock, out);
    match e {
      case Type(line) =>
        TypeHas(y, m, w, g, sock, out, line);
        assert Has(Apply(y, e), Overtyped(line, m), w, g, Typed(sock), out);
      case ClientSend => SendHas(y, m, w, g, sock, out);
      case ServerReceive => ServerReceiveHas(y, m, w, g, sock, out);
      case ServerSend => ServerSendHas(y, m, w, g, sock, out);
      case ClientReceive => ReceiveHas(y, m, w, g, sock, out);
      case ClientShow => ShowHas(y, m, w, g, sock, out);
      case Elsewhere(x) => ElsewhereHasStill(y, m, w, g, sock, out, x);
    }
  }

  lemma {:induction false} SpoiltStays(y: System, es: seq<Event>)
    requires Spoilt(y) && CanGo(y, es)
    ensures Spoilt(Go(y, es))
    decreases |es|
  {
    if es != [] {
      SpoiltStep(y, es[0]);
      SpoiltStays(Apply(y, es[0]), es[1..]);
    }
  }

  /** The stages of a round that waits, as shapes. */
  lemma StageShape(y: System, g: Stage, line: seq<char>)
    requires At(y, g, line) && !g.Nowhere?
    ensures g.WithClient? ==> Shape(y, line, [], Nowhere, Some(EPOLLOUT), false)
    ensures g.BackWithClient? ==> Shape(y, line, [], Nowhere, None, true)
    ensures !g.WithClient? && !g.BackWithClient? ==> Shape(y, [], line, g, Some(EPOLLIN), false)
    ensures |y.shown| + |line| == |Flatten(y.typed)| && line != []
  {
    NothingFilled();
    if g.WithClient? || g.BackWithClient? {
      ServerIgnores(y.server, y.fd, g, line, Nowhere, []);
    }
  }

  lemma EarlySpoils(y: System, g: Stage, line: seq<char>, early: seq<char>)
    requires At(y, g, line) && !g.Nowhere? && CanHappen(y, Type(early))
    ensures Spoilt(Apply(y, Type(early)))
  {
    StageShape(y, g, line);
    var z := Apply(y, Type(early));
    if g.WithClient? {
      TypeHas(y, line, [], Nowhere, Some(EPOLLOUT), false, early);
      assert Has(z, Overtyped(early, line), [], Nowhere, Some(EPOLLOUT), false);
    } else if g.BackWithClient? {
      TypeHas(y, line, [], Nowhere, None, true, early);
      assert Has(z, Overtyped(early, line), [], Nowhere, Some(EPOLLOUT), true);
    } else {
      TypeHas(y, [], line, g, Some(EPOLLIN), false, early);
      assert Has(z, Overtyped(early, []), line, g, Some(EPOLLIN), false);
    }
  }

  lemma {:induction false} ImpatienceSpoils(y: System, es: seq<Event>)
    requires Inv(y) && CanGo(y, es) && !Patient(y, es)
    ensures Spoilt(Go(y, es))
    decreases |es|
  {
    var g, line :| At(y, g, line);
    if es[0].Type? && !Idle(y.client) {
      IdleStage(y.client, g, line);
      EarlySpoils(y, g, line, es[0].line);
      SpoiltStays(Apply(y, es[0]), es[1..]);
    } else {
      var line' := StepAdvances(y, g, line, es[0]);
      ImpatienceSpoils(Apply(y, es[0]), es[1..]);
    }
  }

  lemma SpoiltIdle(y: System)
    requires Spoilt(y) && Idle(y.client)
    ensures |y.shown| < |Flatten(y.typed)|
  {
    var m, w, g, sock, out :| Has(y, m, w, g, sock, out);
    if sock.Some? {
      assert y.client.sockfd in y.client.interest;
    }
  }

  // ------------------------------------------------------------------ result

  /** Every run that ends with the client idle, whenever lines were typed: the client has shown what was typed
      exactly when every line was typed while the client was idle, and otherwise fewer bytes. */
  lemma {:induction false} ShownExactly(y: System, es: seq<Event>)
    requires Init(y) && CanGo(y, es) && Idle(Go(y, es).client)
    ensures var shown, typed := Go(y, es).shown, Flatten(Lines(es));
            (shown == typed <==> Patient(y, es)) && (!Patient(y, es) ==> |shown| < |typed|)
  {
    TypedLines(y, es);
    assert [] + Lines(es) == Lines(es);
    if Patient(y, es) {
      PatientRuns(y, es);
      EchoRounds.ShowsWhatWasTyped(y, es);
    } else {
      EchoRounds.InitAt(y);
      ImpatienceSpoils(y, es);
      SpoiltIdle(Go(y, es));
    }
  }
}
