/** What the user of the client in EchoSystem sees over any number of rounds. */
module EchoRounds {
  import opened Options
  import opened CBuffer
  import opened EchoSystem
  import S = EchoServer
  import R = EchoReplies

  lemma InitAt(y: System)
    requires Init(y)
    ensures At(y, Nowhere, [])
  {
  }

  /** Over any number of rounds, what the client has shown is a prefix of what was typed, in order, and
      all of it whenever the client is idle. */
  lemma ShowsWhatWasTyped(y: System, es: seq<Event>)
    requires Init(y) && CanRun(y, es)
    ensures var z := Run(y, es);
            && z.shown <= Flatten(z.typed)
            && (Idle(z.client) ==> z.shown == Flatten(z.typed))
            && !z.client.exited && !z.client.overrun && !z.server.overrun
  {
    InitAt(y);
    EveryRun(y, es);
    var z := Run(y, es);
    var g, line :| At(z, g, line);
    IdleStage(z.client, g, line);
  }

  /** A message of another connection in the buffer does not stay there: its write is possible and clears it. */
  lemma BufferClears(y: System, g: Stage, line: seq<char>) returns (e: Event)
    requires At(y, g, line) && g.OnTheWay? && y.server.buf != Zeroed()
    ensures Enabled(y, e) && e.Elsewhere? && R.IsWrite(y.server, e.step) && Enabled(Apply(y, e), ServerReceive)
  {
    Terminated(y.server.buf);
    var h :| WaitsToWrite(y.server, h);
    var x := S.Step(S.Event(h, false, true), S.Kernel(None, None, Some(|Text(y.server.buf)|)));
    e := Elsewhere(x);
    R.StepBuffer(y.server, x);
    S.HandleFrame(y.server, x.event, x.kernel, y.fd);
  }

  /** A line that has been typed is never stuck: until it is shown, the next event of the round is enabled,
      or it is as soon as another connection's pending write, which is enabled, has cleared the buffer. */
  lemma RoundGoesOn(y: System, es: seq<Event>) returns (e: Event)
    requires Init(y) && CanRun(y, es) && !Idle(Run(y, es).client)
    ensures Enabled(Run(y, es), e) && !e.Type?
    ensures e.Elsewhere? ==> R.IsWrite(Run(y, es).server, e.step) && Enabled(Apply(Run(y, es), e), ServerReceive)
  {
    InitAt(y);
    EveryRun(y, es);
    var z := Run(y, es);
    var g, line :| At(z, g, line);
    IdleStage(z.client, g, line);
    FilledText(line);
    match g
    case WithClient => e := ClientSend;
    case OnTheWay =>
      if z.server.buf == Zeroed() {
        e := ServerReceive;
      } else {
        e := BufferClears(z, g, line);
      }
    case WithServer => e := ServerSend;
    case OnTheWayBack => e := ClientReceive;
    case BackWithClient => e := ClientShow;
  }
}
