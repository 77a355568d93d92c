/** A line that does not wait, in one schedule of EchoTyping: it is read while the line before is on its way. */
module EchoEarlyLine {
  import opened Options
  import opened CBuffer
  import opened EchoSystem
  import opened EchoRounds
  import opened EchoTyping
  import C = EchoClient

  /** The server's part of a round does not depend on what the client reads meanwhile. */
  lemma ServerPart(y: System, line: seq<char>, c: C.Client, typed: seq<seq<char>>)
    requires At(y, OnTheWay, line) && y.server.buf == Zeroed()
    requires !c.exited && !c.overrun && |c.buf| == MAXSIZE
    ensures var y' := y.(client := c, typed := typed);
            && Enabled(y', ServerReceive) && Enabled(Apply(y', ServerReceive), ServerSend)
            && var z := Apply(Apply(y', ServerReceive), ServerSend);
               z.client == c && z.toClient == line && z.shown == y.shown && z.typed == typed &&
               |z.server.buf| == MAXSIZE
  {
    var y' := y.(client := c, typed := typed);
    assert Enabled(y, ServerReceive);
    ServerReceives(y, line);
    var y1 := Apply(y, ServerReceive);
    assert Apply(y', ServerReceive) == y1.(client := c, typed := typed);
    assert Enabled(y1, ServerSend);
    ServerSends(y1, line);
    assert Apply(Apply(y', ServerReceive), ServerSend) == Apply(y1, ServerSend).(client := c, typed := typed);
  }

  /** The reply is read over the early line, and both leave the buffer as one. */
  lemma ClientPart(z: System, line: seq<char>, early: seq<char>)
    requires GoodLine(line) && GoodLine(early) && z.toClient == line && |z.server.buf| == MAXSIZE
    requires ClientAt(z.client.(buf := Zeroed()), OnTheWayBack, line) && z.client.buf == Filled(early)
    ensures Enabled(z, ClientReceive) && Enabled(Apply(z, ClientReceive), ClientShow)
    ensures var z' := Apply(Apply(z, ClientReceive), ClientShow);
            Idle(z'.client) && z'.shown == z.shown + Overtyped(line, early) && z'.typed == z.typed
  {
    var m := Overtyped(line, early);
    OverlayFilled(line, early);
    ClientReads(z.client.(buf := Zeroed()), line);
    var c := C.DoRead(z.client, z.client.sockfd, Some(line));
    assert ClientAt(c, BackWithClient, m);
    FilledText(m);
    ClientPrints(c, m, |Text(c.buf)|);
  }

  lemma EarlyClient(c: C.Client, line: seq<char>, early: seq<char>)
    requires ClientAt(c, OnTheWay, line) && GoodLine(early)
    ensures C.DoRead(c, C.STDIN, Some(early)) == c.(buf := Filled(early))
  {
    assert c.sockfd in c.interest;
  }

  lemma EarlyRound(y: System, line: seq<char>, early: seq<char>)
    requires At(y, OnTheWay, line) && y.server.buf == Zeroed() && GoodLine(early)
    ensures CanHappen(y, Type(early))
    ensures var e := Apply(y, Type(early));
            && CanRun(e, [ServerReceive, ServerSend, ClientReceive, ClientShow])
            && var z := Run(e, [ServerReceive, ServerSend, ClientReceive, ClientShow]);
               Idle(z.client) && z.typed == y.typed + [early] && z.shown == y.shown + Overtyped(line, early)
  {
    EarlyClient(y.client, line, early);
    var e := Apply(y, Type(early));
    ServerPart(y, line, e.client, e.typed);
    var z := Apply(Apply(e, ServerReceive), ServerSend);
    ClientSame(y.client, OnTheWay, OnTheWayBack, line);
    assert z.client.(buf := Zeroed()) == y.client;
    ClientPart(z, line, early);
    RunFour(e, ServerReceive, ServerSend, ClientReceive, ClientShow);
  }

  lemma LineOnTheWay(y: System, line: seq<char>)
    requires Init(y) && GoodLine(line)
    ensures CanRun(y, [Type(line), ClientSend])
    ensures var z := Run(y, [Type(line), ClientSend]);
            At(z, OnTheWay, line) && z.server.buf == Zeroed() && z.typed == [line] && z.shown == []
  {
    InitAt(y);
    TypeAdvances(y, [], Type(line));
    ClientSends(Apply(y, Type(line)), line);
    RunTwo(y, Type(line), ClientSend);
  }

  /** Two lines, the second typed between the client's send and the server's read of the first: the round ends
      with the client idle, but instead of both lines only the first is shown, with the end of the second if
      that is longer. */
  lemma EarlyLineIsLost(y: System, line: seq<char>, early: seq<char>)
    requires Init(y) && GoodLine(line) && GoodLine(early)
    ensures CanRun(y, [Type(line), ClientSend])
    ensures var y' := Run(y, [Type(line), ClientSend]);
            && CanHappen(y', Type(early))
            && CanRun(Apply(y', Type(early)), [ServerReceive, ServerSend, ClientReceive, ClientShow])
            && var z := Run(Apply(y', Type(early)), [ServerReceive, ServerSend, ClientReceive, ClientShow]);
               && Idle(z.client) && z.typed == [line, early] && z.shown == Overtyped(line, early)
               && |z.shown| < |Flatten(z.typed)|
  {
    LineOnTheWay(y, line);
    EarlyRound(Run(y, [Type(line), ClientSend]), line, early);
    FlattenTwo(line, early);
  }

  lemma FlattenTwo(a: seq<char>, b: seq<char>)
    ensures Flatten([a, b]) == a + b
  {
    assert [a, b][..1] == [a] && [a][..0] == [];
    assert Flatten([a]) == Flatten([]) + a == a;
  }

  lemma RunOne(y: System, e: Event)
    requires Enabled(y, e)
    ensures CanRun(y, [e]) && Run(y, [e]) == Apply(y, e)
  {
    assert [e][1..] == [];
    assert CanRun(Apply(y, e), []) && Run(Apply(y, e), []) == Apply(y, e);
  }

  lemma RunTwo(y: System, a: Event, b: Event)
    requires Enabled(y, a) && Enabled(Apply(y, a), b)
    ensures CanRun(y, [a, b]) && Run(y, [a, b]) == Apply(Apply(y, a), b)
  {
    RunOne(Apply(y, a), b);
    assert [a, b][1..] == [b];
  }

  lemma RunFour(y: System, a: Event, b: Event, c: Event, d: Event)
    requires Enabled(y, a) && Enabled(Apply(y, a), b)
    requires Enabled(Apply(Apply(y, a), b), c) && Enabled(Apply(Apply(Apply(y, a), b), c), d)
    ensures CanRun(y, [a, b, c, d]) && Run(y, [a, b, c, d]) == Apply(Apply(Apply(Apply(y, a), b), c), d)
  {
    RunTwo(Apply(Apply(y, a), b), c, d);
    assert [a, b, c, d][1..] == [b, c, d] && [b, c, d][1..] == [c, d];
    assert CanRun(Apply(y, a), [b, c, d]) && Run(Apply(y, a), [b, c, d]) == Run(Apply(Apply(y, a), b), [c, d]);
  }
}
