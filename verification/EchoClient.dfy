/** epoll_demo/epoll_cli.c: a client that sends what it reads from standard input and shows what comes
    back, driven by three registrations and one buffer, which the program does not clear at the start. */
module EchoClient {
  import opened Options
  import opened CStrings
  import opened CBuffer

  const STDIN: int := 0
  const STDOUT: int := 1

  datatype Client = Client(sockfd: int, interest: map<int, Interest>, buf: seq<char>, exited: bool, overrun: bool)

  /** add_event (EEXIST leaves the registration as it is) */
  function AddEvent(c: Client, fd: int, i: Interest): Client {
    if fd in c.interest then c else c.(interest := c.interest[fd := i])
  }

  function ModifyEvent(c: Client, fd: int, i: Interest): Client {
    if fd in c.interest then c.(interest := c.interest[fd := i]) else c
  }

  function DeleteEvent(c: Client, fd: int): Client {
    c.(interest := c.interest - {fd})
  }

  /** An error or end of file ends the client. */
  function DoRead(c: Client, fd: int, data: Option<seq<char>>): Client
    requires data.Some? ==> |data.value| <= |c.buf|
  {
    if data.None? || data.value == [] then c.(exited := true)
    else
      var c1 := c.(buf := Overlay(c.buf, data.value));
      if fd == STDIN then AddEvent(c1, c1.sockfd, EPOLLOUT)
      else AddEvent(DeleteEvent(c1, c1.sockfd), STDOUT, EPOLLOUT)
  }

  /** `wrote` is what write answers, possibly fewer bytes than asked for; an error ends the client, and
      strlen of a buffer without NUL is an overrun. */
  function DoWrite(c: Client, fd: int, wrote: Option<nat>): Client {
    if CStr(c.buf).None? then c.(overrun := true)
    else if wrote.None? then c.(exited := true)
    else
      var c1 := if fd == STDOUT then DeleteEvent(c, fd) else ModifyEvent(c, fd, EPOLLIN);
      c1.(buf := Zeroed())
  }

  function Start(sockfd: int, buf: seq<char>): Client {
    Client(sockfd, map[STDIN := EPOLLIN], buf, false, false)
  }

  /** The first line typed into an uncleared buffer is what gets sent exactly when the byte behind it
      happens to be NUL (for lines without NUL that are shorter than the buffer). */
  lemma FirstLineSentExactly(sockfd: int, junk: seq<char>, line: seq<char>)
    requires |junk| == MAXSIZE && line != [] && NUL !in line && |line| < MAXSIZE
    ensures CStr(DoRead(Start(sockfd, junk), STDIN, Some(line)).buf) == Some(line) <==> junk[|line|] == NUL
  {
    CStrOverlay(junk, line);
  }
}
