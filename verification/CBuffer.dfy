/** What the programs of epoll_demo share: the events descriptors are registered for, and fixed-size message
    buffers, of which read() writes the front and memset() clears all. */
module CBuffer {
  import opened Options
  import opened CStrings

  datatype Interest = EPOLLIN | EPOLLOUT

  const MAXSIZE: nat := 1024

  function Zeroed(): (b: seq<char>)
    ensures |b| == MAXSIZE
  {
    seq(MAXSIZE, _ => NUL)
  }

  /** The buffer after read() stored `data` at its front. */
  function Overlay(b: seq<char>, data: seq<char>): (r: seq<char>)
    requires |data| <= |b|
    ensures |r| == |b|
  {
    data + b[|data|..]
  }

  /** A message comes back out of a buffer exactly when it has no NUL and the byte behind it is NUL. */
  lemma CStrOverlay(b: seq<char>, d: seq<char>)
    requires |d| <= |b|
    ensures CStr(Overlay(b, d)) == Some(d) <==> NUL !in d && |d| < |b| && b[|d|] == NUL
  {
    assert Overlay(b, d)[..|d|] == d;
    CStrIs(Overlay(b, d), d);
  }

  /** Out of a cleared buffer: exactly the messages without NUL that leave room for one. */
  lemma CStrZeroed(d: seq<char>)
    requires |d| <= MAXSIZE
    ensures CStr(Overlay(Zeroed(), d)) == Some(d) <==> NUL !in d && |d| < MAXSIZE
  {
    CStrOverlay(Zeroed(), d);
  }

  /** read() into the front of the buffer */
  method Receive(buf: array<char>, data: seq<char>)
    requires |data| <= buf.Length
    modifies buf
    ensures buf[..] == Overlay(old(buf[..]), data)
  {
    for i := 0 to |data|
      invariant buf[..i] == data[..i] && buf[i..] == old(buf[..])[i..]
    {
      buf[i] := data[i];
    }
    assert data[..|data|] == data && buf[..] == buf[..|data|] + buf[|data|..];
  }

  method Memset(buf: array<char>)
    requires buf.Length == MAXSIZE
    modifies buf
    ensures buf[..] == Zeroed()
  {
    for i := 0 to buf.Length
      invariant forall j :: 0 <= j < i ==> buf[j] == NUL
    {
      buf[i] := NUL;
    }
  }
}
