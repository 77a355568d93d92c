/** epoll_demo/epoll_server.c as written: the handlers update the interest set and the one shared buffer
    in place. Every method is the transition of the same name in EchoServer, and keeps the interest set exact. */
module EpollServer {
  import opened CStrings
  import opened CBuffer
  import M = EchoServer

  class Server {
    const listenfd: int
    var buf: array<char>
    var interest: map<int, Interest>
    // what the kernel and the wire know
    var conns: map<int, nat>
    var accepted: nat
    var sent: seq<(nat, seq<char>)>
    var overrun: bool

    ghost function Model(): M.Server
      reads this, buf
    {
      M.Server(listenfd, conns, interest, buf[..], accepted, sent, overrun)
    }

    constructor (listenfd: int)
      ensures Valid() && Model() == M.Start(listenfd) && fresh(buf)
    {
      this.listenfd := listenfd;
      buf := new char[MAXSIZE](_ => NUL);
      interest := map[listenfd := EPOLLIN];
      conns, accepted, sent, overrun := map[], 0, [], false;
      new;
      assert buf[..] == Zeroed();
    }

    ghost predicate Valid()
      reads this, buf
    {
      buf.Length == MAXSIZE && M.Inv(Model())
    }

    method AddEvent(fd: int, i: Interest)
      modifies this`interest
      ensures Model() == M.AddEvent(old(Model()), fd, i) && M.SameElsewhere(old(Model()), Model(), fd)
      ensures M.IsOpen(Model(), fd) ==> fd in interest && (fd !in old(interest) ==> interest[fd] == i)
    {
      if (fd == listenfd || fd in conns) && fd !in interest {
        interest := interest[fd := i];
      }
    }

    method ModifyEvent(fd: int, i: Interest)
      modifies this`interest
      ensures Model() == M.ModifyEvent(old(Model()), fd, i) && M.SameElsewhere(old(Model()), Model(), fd)
      ensures M.IsOpen(Model(), fd) && fd in old(interest) ==> fd in interest && interest[fd] == i
    {
      if (fd == listenfd || fd in conns) && fd in interest {
        interest := interest[fd := i];
      }
    }

    method DeleteEvent(fd: int)
      modifies this`interest
      ensures Model() == M.DeleteEvent(old(Model()), fd) && M.SameElsewhere(old(Model()), Model(), fd)
      ensures M.IsOpen(Model(), fd) ==> fd !in interest
    {
      if fd == listenfd || fd in conns {
        interest := interest - {fd};
      }
    }

    /** close and delete_event: the second finds the descriptor closed and changes nothing. */
    method Drop(fd: int)
      requires Valid() && fd in conns
      modifies this`interest, this`conns
      ensures Valid() && Model() == M.DeleteEvent(M.Close(old(Model()), fd), fd)
      ensures fd !in conns && fd !in interest && M.SameElsewhere(old(Model()), Model(), fd)
    {
      conns := conns - {fd};
      interest := interest - {fd};
      DeleteEvent(fd);
      assert interest.Keys == conns.Keys + {listenfd};
    }

    /** The new connection is registered for input under a number no other connection has. */
    method HandleAccept(k: M.Kernel)
      requires Valid() && M.Possible(Model(), k)
      modifies this`interest, this`conns, this`accepted
      ensures Valid() && Model() == M.HandleAccept(old(Model()), k)
      ensures k.accept.None? ==> Model() == old(Model())
      ensures k.accept.Some? ==>
                var fd := k.accept.value;
                && fd in conns && fd in interest && interest[fd] == EPOLLIN
                && (forall g :: g in conns && g != fd ==> conns[g] != conns[fd])
                && M.SameElsewhere(old(Model()), Model(), fd)
    {
      M.AcceptKeeps(Model(), k);
      if k.accept.Some? {
        conns := conns[k.accept.value := accepted];
        accepted := accepted + 1;
        AddEvent(k.accept.value, EPOLLIN);
      }
    }

    /** Data goes to the front of the buffer and the connection waits to write; otherwise it is closed.
        Printing the buffer runs past it exactly when no NUL is left in it. */
    method DoRead(fd: int, k: M.Kernel)
      requires Valid() && M.Possible(Model(), k) && fd in conns
      modifies this, buf
      ensures Valid() && buf == old(buf) && Model() == M.DoRead(old(Model()), fd, k)
      ensures sent == old(sent) && M.SameElsewhere(old(Model()), Model(), fd)
      ensures if k.read.None? || k.read.value == [] then
                fd !in conns && fd !in interest && buf[..] == old(buf[..]) && overrun == old(overrun)
              else
                && fd in conns && conns[fd] == old(conns[fd]) && interest[fd] == EPOLLOUT
                && buf[..|k.read.value|] == k.read.value && buf[|k.read.value|..] == old(buf[|k.read.value|..])
                && (overrun <==> old(overrun) || NUL !in buf[..])
    {
      M.ReadKeeps(Model(), fd, k);
      if k.read.None? || k.read.value == [] {
        Drop(fd);
      } else {
        Receive(buf, k.read.value);
        assert buf[..][..|k.read.value|] == buf[..|k.read.value|] && buf[..][|k.read.value|..] == buf[|k.read.value|..];
        var len := StrLength(buf);
        overrun := overrun || len < 0;
        ModifyEvent(fd, EPOLLOUT);
      }
    }

    /** Bytes from the front of the C string go to the connection behind `fd`, which then waits to read, or
        the connection is closed; either way the buffer ends zero. Without a NUL nothing is certain. */
    method DoWrite(fd: int, k: M.Kernel)
      requires Valid() && M.Possible(Model(), k) && fd in conns
      modifies this, buf
      ensures Valid() && buf == old(buf) && Model() == M.DoWrite(old(Model()), fd, k)
      ensures M.SameElsewhere(old(Model()), Model(), fd)
      ensures old(CStr(buf[..])).None? ==> Model() == old(Model()).(overrun := true)
      ensures old(CStr(buf[..])).Some? ==>
                && overrun == old(overrun) && buf[..] == Zeroed()
                && if k.write.None? then fd !in conns && fd !in interest && sent == old(sent)
                   else
                     && fd in conns && conns[fd] == old(conns[fd]) && interest[fd] == EPOLLIN
                     && |sent| == |old(sent)| + 1 && sent[..|old(sent)|] == old(sent)
                     && var (to, text) := sent[|old(sent)|];
                        to == conns[fd] && |text| == k.write.value && text <= old(CStr(buf[..])).value
    {
      M.WriteKeeps(Model(), fd, k);
      var len := StrLength(buf);
      if len < 0 {
        overrun := true;
        return;
      }
      if k.write.None? {
        Drop(fd);
      } else {
        assert buf[..][..len][..k.write.value] == buf[..k.write.value];
        sent := sent + [(if fd in conns then conns[fd] else 0, buf[..k.write.value])];
        ModifyEvent(fd, EPOLLIN);
      }
      Memset(buf);
    }

    /** One event: every other registered descriptor keeps its connection and its interest. */
    method Handle(e: M.Event, k: M.Kernel)
      requires Valid() && M.Asked(Model(), e) && M.Possible(Model(), k)
      modifies this, buf
      ensures Valid() && buf == old(buf) && Model() == M.Handle(old(Model()), e, k)
      ensures forall g :: g in old(interest) && g != e.fd ==>
                && g in interest && interest[g] == old(interest)[g]
                && (g in old(conns) ==> g in conns && conns[g] == old(conns)[g])
    {
      if e.fd == listenfd && e.readable {
        HandleAccept(k);
      } else if e.readable {
        DoRead(e.fd, k);
      } else if e.writable {
        DoWrite(e.fd, k);
      }
    }

    /** handle_events: one pass over what epoll_wait reported keeps the interest set exact. */
    method HandleEvents(steps: seq<M.Step>)
      requires Valid() && M.Reported(Model(), steps) && M.CanRun(Model(), steps)
      modifies this, buf
      ensures Valid() && buf == old(buf) && Model() == M.Run(old(Model()), steps)
    {
      for i := 0 to |steps|
        invariant Valid() && buf == old(buf)
        invariant M.Reported(Model(), steps[i..])
        invariant M.CanRun(Model(), steps[i..]) && M.Run(Model(), steps[i..]) == M.Run(old(Model()), steps)
      {
        assert steps[i..][0] == steps[i] && steps[i..][1..] == steps[i + 1..];
        M.BatchStep(Model(), steps[i..]);
        Handle(steps[i].event, steps[i].kernel);
      }
    }
  }
}
