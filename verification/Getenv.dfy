/** The thread-safe getenv_ of pthread/getenv_thr.c: a linear search of the environment under a mutex,
    copying the value with strncpy into a buffer that each thread owns through thread-specific data. */
module Getenv {
  import opened Options
  import opened CStrings

  const MAXSTRINGSZ := 4096

  /** Byte `i` of a C string, its terminator included. */
  function CharAt(s: string, i: nat): char {
    if i < |s| then s[i] else NUL
  }

  // ------------------------------------------------------------------ the search

  /** strncmp(a, b, n) == 0 */
  predicate StrncmpZero(a: string, b: string, n: nat) {
    if n == 0 then true
    else if CharAt(a, 0) != CharAt(b, 0) then false
    else if CharAt(a, 0) == NUL then true
    else StrncmpZero(if a == [] then [] else a[1..], if b == [] then [] else b[1..], n - 1)
  }

  /** The test of the loop: the first strlen(name) bytes agree and an '=' follows. */
  predicate Matches(name: string, entry: string) {
    StrncmpZero(name, entry, |name|) && CharAt(entry, |name|) == '='
  }

  /** First-match lookup among entries of the form name=value. */
  function Lookup(env: seq<string>, name: string): Option<string> {
    if env == [] then None
    else if name + "=" <= env[0] then Some(env[0][|name| + 1..])
    else Lookup(env[1..], name)
  }

  lemma {:induction false} StrncmpIsPrefix(a: string, b: string)
    requires NUL !in a && NUL !in b
    ensures StrncmpZero(a, b, |a|) <==> a <= b
  {
    if a != [] {
      assert a[0] in a;
      if b != [] {
        StrncmpIsPrefix(a[1..], b[1..]);
        assert a == [a[0]] + a[1..] && b == [b[0]] + b[1..];
      }
    }
  }

  lemma MatchesIsPrefix(name: string, entry: string)
    requires NUL !in name && NUL !in entry
    ensures Matches(name, entry) <==> name + "=" <= entry
  {
    StrncmpIsPrefix(name, entry);
    if name <= entry && |name| < |entry| {
      assert entry == name + [entry[|name|]] + entry[|name| + 1..];
    }
  }

  // ------------------------------------------------------------------ key=value semantics

  /** The text before the first '='. */
  function Key(entry: string): (k: string)
    ensures k <= entry && ('=' in entry ==> |k| < |entry|)
  {
    if entry == [] || entry[0] == '=' then [] else [entry[0]] + Key(entry[1..])
  }

  function KeyedLookup(env: seq<string>, name: string): Option<string> {
    if env == [] then None
    else if '=' in env[0] && Key(env[0]) == name then Some(env[0][|name| + 1..])
    else KeyedLookup(env[1..], name)
  }

  lemma {:induction false} KeyIsPrefix(entry: string, name: string)
    requires '=' !in name
    ensures name + "=" <= entry <==> '=' in entry && Key(entry) == name
  {
    if name == [] {
      assert [] + "=" == "=";
    } else if entry != [] {
      assert name[0] in name;
      KeyIsPrefix(entry[1..], name[1..]);
      assert entry == [entry[0]] + entry[1..] && name == [name[0]] + name[1..];
      assert name + "=" == [name[0]] + (name[1..] + "=");
    }
  }

  lemma {:induction false} LookupIsKeyed(env: seq<string>, name: string)
    requires '=' !in name
    ensures Lookup(env, name) == KeyedLookup(env, name)
  {
    if env != [] {
      KeyIsPrefix(env[0], name);
      LookupIsKeyed(env[1..], name);
    }
  }

  lemma {:induction false} KeyHasNoEquals(entry: string)
    ensures '=' !in Key(entry)
  {
    if entry != [] && entry[0] != '=' {
      KeyHasNoEquals(entry[1..]);
    }
  }

  /** The search treats the environment as key=value pairs exactly for names without '='. */
  lemma KeyedExactly(name: string)
    ensures (forall env :: Lookup(env, name) == KeyedLookup(env, name)) <==> '=' !in name
  {
    if '=' in name {
      var env := [name + "="];
      KeyHasNoEquals(env[0]);
      assert env[1..] == [];
      assert name + "=" <= env[0];
      assert Lookup(env, name) != KeyedLookup(env, name);
    } else {
      forall env ensures Lookup(env, name) == KeyedLookup(env, name) {
        LookupIsKeyed(env, name);
      }
    }
  }

  // ------------------------------------------------------------------ buffers

  /** What strncpy leaves in the first `n` bytes. */
  ghost predicate Copied(b: seq<char>, s: string, n: nat)
    requires n <= |b|
  {
    forall k :: 0 <= k < n ==> b[k] == CharAt(s, k)
  }

  /** strncpy: at most `n` bytes, padded with NULs. */
  method Strncpy(buf: array<char>, src: string, n: nat)
    requires n <= buf.Length
    modifies buf
    ensures Copied(buf[..], src, n)
    ensures forall k :: n <= k < buf.Length ==> buf[k] == old(buf[k])
  {
    var i := 0;
    while i < n
      invariant 0 <= i <= n
      invariant forall k :: 0 <= k < i ==> buf[k] == CharAt(src, k)
      invariant forall k :: n <= k < buf.Length ==> buf[k] == old(buf[k])
    {
      buf[i] := CharAt(src, i);
      i := i + 1;
    }
  }

  /** The value arrives intact exactly when it leaves room for a NUL that strncpy writes, or fills all
      the bytes strncpy writes and the untouched last byte happens to be NUL. */
  lemma CopyIntactExactly(b: seq<char>, value: string)
    requires |b| == MAXSTRINGSZ && NUL !in value && Copied(b, value, MAXSTRINGSZ - 1)
    ensures CStr(b) == Some(value) <==>
            |value| <= 4094 || (|value| == 4095 && b[4095] == NUL)
  {
    CStrIs(b, value);
    if |value| <= MAXSTRINGSZ - 1 {
      assert b[..|value|] == value;
    }
  }

  // ------------------------------------------------------------------ getenv_

  class Program {
    var initDone: bool
    var keys: nat                            // calls of pthread_key_create
    var specific: map<int, array<char>>      // pthread_getspecific, by thread

    constructor ()
      ensures Valid() && keys == 0 && specific == map[]
    {
      initDone, keys, specific := false, 0, map[];
    }

    ghost predicate Valid()
      reads this
    {
      && keys == (if initDone then 1 else 0)
      && (forall t :: t in specific ==> specific[t].Length == MAXSTRINGSZ)
      && (forall t, u :: t in specific && u in specific && t != u ==> specific[t] != specific[u])
    }

    /** The calling thread's own buffer, if it has one. */
    ghost function Own(t: int): set<object>
      reads this
    {
      if t in specific then {specific[t]} else {}
    }

    /** One call by thread `t` with nobody else inside; GetenvThreads has the interleavings. */
    method Getenv(t: int, env: seq<string>, name: string, mallocOk: bool) returns (r: array?<char>)
      requires Valid() && NUL !in name && forall i :: 0 <= i < |env| ==> NUL !in env[i]
      modifies this, Own(t)
      ensures Valid() && keys == 1
      ensures forall u :: u in old(specific) ==> u in specific && specific[u] == old(specific[u])
      ensures forall u :: u != t && u in old(specific) ==> specific[u][..] == old(specific[u][..])
      ensures r == null <==> Lookup(env, name).None? || (t !in old(specific) && !mallocOk)
      ensures r != null ==>
                && t in specific && r == specific[t]
                && Copied(r[..], Lookup(env, name).value, MAXSTRINGSZ - 1)
    {
      if !initDone {
        keys := keys + 1;
        initDone := true;
      }
      if t !in specific {
        if !mallocOk {
          return null;
        }
        var envbuf := new char[MAXSTRINGSZ];
        specific := specific[t := envbuf];
      }
      r := Search(specific[t], env, name);
    }
  }

  /** The loop over environ. */
  method Search(envbuf: array<char>, env: seq<string>, name: string) returns (r: array?<char>)
    requires envbuf.Length == MAXSTRINGSZ && NUL !in name && forall i :: 0 <= i < |env| ==> NUL !in env[i]
    modifies envbuf
    ensures r == null <==> Lookup(env, name).None?
    ensures r != null ==> r == envbuf && Copied(r[..], Lookup(env, name).value, MAXSTRINGSZ - 1)
    ensures r == null ==> envbuf[..] == old(envbuf[..])
  {
    var i := 0;
    while i < |env|
      invariant 0 <= i <= |env| && envbuf[..] == old(envbuf[..])
      invariant Lookup(env, name) == Lookup(env[i..], name)
    {
      MatchesIsPrefix(name, env[i]);
      if Matches(name, env[i]) {
        Strncpy(envbuf, env[i][|name| + 1..], MAXSTRINGSZ - 1);
        return envbuf;
      }
      assert env[i..][1..] == env[i + 1..];
      i := i + 1;
    }
    r := null;
  }
}
