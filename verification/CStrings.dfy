/** C strings in byte buffers: strlen finds the first NUL, and runs past a buffer that has none. */
module CStrings {
  import opened Options

  const NUL: char := '\0'

  /** strlen(b); None when no byte is NUL. */
  function StrLen(b: seq<char>): (n: Option<nat>)
    ensures n.Some? ==> n.value < |b| && b[n.value] == NUL && NUL !in b[..n.value]
    ensures n.None? <==> NUL !in b
  {
    if b == [] then None
    else if b[0] == NUL then Some(0)
    else
      var n := StrLen(b[1..]);
      assert b == [b[0]] + b[1..];
      if n.None? then None
      else
        assert b[..n.value + 1] == [b[0]] + b[1..][..n.value];
        Some(n.value + 1)
  }

  lemma NoNulBefore(b: seq<char>, m: nat, n: nat)
    requires m < |b| && NUL !in b[..m]
    ensures n < m ==> b[n] != NUL
  {
    if n < m {
      assert b[..m][n] == b[n];
    }
  }

  lemma StrLenIs(b: seq<char>, n: nat)
    requires n < |b| && b[n] == NUL && NUL !in b[..n]
    ensures StrLen(b) == Some(n)
  {
    var m := StrLen(b).value;
    NoNulBefore(b, n, m);
    NoNulBefore(b, m, n);
  }

  /** The C string in a buffer. */
  function CStr(b: seq<char>): Option<seq<char>> {
    var n := StrLen(b);
    if n.None? then None else Some(b[..n.value])
  }

  /** A buffer holds the string `s` exactly when it starts with `s` and a NUL. */
  lemma CStrIs(b: seq<char>, s: seq<char>)
    ensures CStr(b) == Some(s) <==> NUL !in s && |s| < |b| && b[..|s|] == s && b[|s|] == NUL
  {
    if NUL !in s && |s| < |b| && b[..|s|] == s && b[|s|] == NUL {
      StrLenIs(b, |s|);
    }
    if CStr(b) == Some(s) {
      assert StrLen(b) == Some(|s|);
    }
  }

  /** strlen over an array; -1 when it runs past the end */
  method StrLength(buf: array<char>) returns (n: int)
    ensures n == if StrLen(buf[..]).None? then -1 else StrLen(buf[..]).value
  {
    n := 0;
    while n < buf.Length
      invariant 0 <= n <= buf.Length
      invariant forall j :: 0 <= j < n ==> buf[j] != NUL
    {
      if buf[n] == NUL {
        StrLenIs(buf[..], n);
        return;
      }
      n := n + 1;
    }
    n := -1;
  }
}
