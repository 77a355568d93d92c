/** epoll_demo/epoll_cli.c as written: the handlers update the registrations and the buffer in place.
    Every method is the transition of the same name in EchoClient. */
module EpollClient {
  import opened Options
  import opened CStrings
  import opened CBuffer
  import M = EchoClient

  class Client {
    const sockfd: int
    var interest: map<int, Interest>
    var buf: array<char>
    var exited: bool
    var overrun: bool

    ghost function Model(): M.Client
      reads this, buf
    {
      M.Client(sockfd, interest, buf[..], exited, overrun)
    }

    constructor (sockfd: int, buf: array<char>)
      ensures this.buf == buf && Model() == M.Start(sockfd, buf[..])
    {
      this.sockfd, this.interest, this.buf := sockfd, map[M.STDIN := EPOLLIN], buf;
      this.exited, this.overrun := false, false;
    }

    /** Input is kept at the front of the buffer and the socket waits to send; a reply is kept there, the
        socket is dropped and standard output waits. An error or end of file ends the client. */
    method DoRead(fd: int, data: Option<seq<char>>)
      requires data.Some? ==> |data.value| <= buf.Length
      modifies this, buf
      ensures buf == old(buf) && Model() == M.DoRead(old(Model()), fd, data)
      ensures data.None? || data.value == [] ==> Model() == old(Model()).(exited := true)
      ensures data.Some? && data.value != [] ==>
                && buf[..|data.value|] == data.value && buf[|data.value|..] == old(buf[|data.value|..])
                && (if fd == M.STDIN then sockfd in interest else sockfd !in interest || sockfd == M.STDOUT)
                && (fd != M.STDIN ==> M.STDOUT in interest)
                && forall g :: g != sockfd && g != M.STDOUT ==>
                     (g in interest <==> g in old(interest)) && (g in interest ==> interest[g] == old(interest)[g])
    {
      if data.None? || data.value == [] {
        exited := true;
        return;
      }
      Receive(buf, data.value);
      assert buf[..][..|data.value|] == buf[..|data.value|] && buf[..][|data.value|..] == buf[|data.value|..];
      if fd == M.STDIN {
        if sockfd !in interest {
          interest := interest[sockfd := EPOLLOUT];
        }
      } else {
        interest := interest - {sockfd};
        if M.STDOUT !in interest {
          interest := interest[M.STDOUT := EPOLLOUT];
        }
      }
    }

    /** Bytes from the front of the C string go out; then standard output is dropped or the socket waits
        for the reply, and the buffer ends zero. An error ends the client with nothing written. */
    method DoWrite(fd: int, wrote: Option<nat>) returns (out: seq<char>)
      requires buf.Length == MAXSIZE
      requires CStr(buf[..]).Some? && wrote.Some? ==> wrote.value <= |CStr(buf[..]).value|
      modifies this, buf
      ensures buf == old(buf) && Model() == M.DoWrite(old(Model()), fd, wrote)
      ensures old(CStr(buf[..])).None? ==> out == [] && Model() == old(Model()).(overrun := true)
      ensures old(CStr(buf[..])).Some? && wrote.None? ==> out == [] && Model() == old(Model()).(exited := true)
      ensures old(CStr(buf[..])).Some? && wrote.Some? ==>
                && |out| == wrote.value && out <= old(CStr(buf[..])).value && buf[..] == Zeroed()
                && (if fd == M.STDOUT then fd !in interest
                    else fd in old(interest) ==> fd in interest && interest[fd] == EPOLLIN)
                && forall g :: g != fd ==>
                     (g in interest <==> g in old(interest)) && (g in interest ==> interest[g] == old(interest)[g])
    {
      var len := StrLength(buf);
      if len < 0 {
        overrun := true;
        return [];
      }
      if wrote.None? {
        exited := true;
        return [];
      }
      out := buf[..wrote.value];
      assert buf[..][..len][..wrote.value] == out;
      if fd == M.STDOUT {
        interest := interest - {fd};
      } else if fd in interest {
        interest := interest[fd := EPOLLIN];
      }
      Memset(buf);
    }
  }
}
