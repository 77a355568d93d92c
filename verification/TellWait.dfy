/** The two-pipe handshake of flock/tell_wait.c: a tell writes one byte, a wait reads one. */
module TellWait {

  /** pipefd1 carries 'p' to the parent, pipefd2 carries 'c' to the child. */
  datatype Pipes = Pipes(toParent: seq<char>, toChild: seq<char>)

  datatype Event = TellParent | WaitChild | TellChild | WaitParent

  /** A read from an empty pipe blocks. */
  predicate Enabled(p: Pipes, e: Event) {
    (e.WaitChild? ==> p.toParent != []) && (e.WaitParent? ==> p.toChild != [])
  }

  function Apply(p: Pipes, e: Event): Pipes
    requires Enabled(p, e)
  {
    match e
    case TellParent => p.(toParent := p.toParent + ['p'])
    case WaitChild => p.(toParent := p.toParent[1..])
    case TellChild => p.(toChild := p.toChild + ['c'])
    case WaitParent => p.(toChild := p.toChild[1..])
  }

  /** A wait that reads some other byte ends the process. */
  predicate WaitSucceeds(p: Pipes, e: Event)
    requires Enabled(p, e)
  {
    (e.WaitChild? ==> p.toParent[0] == 'p') && (e.WaitParent? ==> p.toChild[0] == 'c')
  }

  const Start := Pipes([], [])

  predicate CanRun(p: Pipes, es: seq<Event>)
    decreases |es|
  {
    es == [] || (Enabled(p, es[0]) && CanRun(Apply(p, es[0]), es[1..]))
  }

  function Run(p: Pipes, es: seq<Event>): Pipes
    requires CanRun(p, es)
    decreases |es|
  {
    if es == [] then p else Run(Apply(p, es[0]), es[1..])
  }

  function Count(es: seq<Event>, e: Event): nat {
    if es == [] then 0 else (if es[0] == e then 1 else 0) + Count(es[1..], e)
  }

  ghost predicate Genuine(p: Pipes) {
    (forall i :: 0 <= i < |p.toParent| ==> p.toParent[i] == 'p') &&
    (forall i :: 0 <= i < |p.toChild| ==> p.toChild[i] == 'c')
  }

  lemma {:induction false} TokensBalance(p: Pipes, es: seq<Event>)
    requires Genuine(p) && CanRun(p, es)
    ensures Genuine(Run(p, es))
    ensures |Run(p, es).toParent| + Count(es, WaitChild) == |p.toParent| + Count(es, TellParent)
    ensures |Run(p, es).toChild| + Count(es, WaitParent) == |p.toChild| + Count(es, TellChild)
    decreases |es|
  {
    if es != [] {
      TokensBalance(Apply(p, es[0]), es[1..]);
    }
  }

  lemma {:induction false} PrefixRuns(p: Pipes, es: seq<Event>, i: nat)
    requires CanRun(p, es) && i < |es|
    ensures CanRun(p, es[..i]) && Enabled(Run(p, es[..i]), es[i])
    decreases |es|
  {
    if i > 0 {
      PrefixRuns(Apply(p, es[0]), es[1..], i - 1);
      assert es[1..][..i - 1] == es[..i][1..];
    }
  }

  /** Over any number of rounds, by any interleaving: the k-th wait returns only after the k-th matching
      tell, and what it reads is the byte it checks for. */
  lemma WaitFollowsTell(es: seq<Event>, i: nat)
    requires CanRun(Start, es) && i < |es|
    ensures es[i].WaitChild? ==> Count(es[..i], WaitChild) + 1 <= Count(es[..i], TellParent)
    ensures es[i].WaitParent? ==> Count(es[..i], WaitParent) + 1 <= Count(es[..i], TellChild)
    ensures CanRun(Start, es[..i]) && Enabled(Run(Start, es[..i]), es[i]) && WaitSucceeds(Run(Start, es[..i]), es[i])
  {
    PrefixRuns(Start, es, i);
    TokensBalance(Start, es[..i]);
  }
}
