/** pthread/job_queue.c under its reader/writer lock: any number of threads, every pointer write of
    insert, append and remove a step of its own, and readers walking the list one node at a time.
    Program counters are line numbers of the source file. */
module JobQueueThreads {
  import opened Options

  datatype Ptr = Null | Ref(job: nat)

  datatype Heap = Heap(head: Ptr, tail: Ptr, next: map<nat, Ptr>, prev: map<nat, Ptr>)

  datatype Op = Insert(jp: nat) | Append(jp: nat) | Remove(jp: nat)

  datatype Query = Find(id: int) | Traverse

  // ------------------------------------------------------------------ the code, line by line

  /** A line either moves on with a changed heap or dereferences a null or uninitialised pointer. */
  datatype Outcome = Goto(heap: Heap, line: nat) | Fault

  function SetNext(h: Heap, p: Ptr, v: Ptr, line: nat): Outcome {
    if p.Ref? then Goto(h.(next := h.next[p.job := v]), line) else Fault
  }

  function SetPrev(h: Heap, p: Ptr, v: Ptr, line: nat): Outcome {
    if p.Ref? then Goto(h.(prev := h.prev[p.job := v]), line) else Fault
  }

  function InsertLine(jp: nat, line: nat, h: Heap): Outcome {
    match line
    case 42 => SetNext(h, Ref(jp), h.head, 43)
    case 43 => SetPrev(h, Ref(jp), Null, 44)
    case 44 => Goto(h, if h.head != Null then 45 else 48)
    case 45 => SetPrev(h, h.head, Ref(jp), 50)
    case 48 => Goto(h.(tail := Ref(jp)), 50)
    case 50 => Goto(h.(head := Ref(jp)), 51)
    case _ => Fault
  }

  function AppendLine(jp: nat, line: nat, h: Heap): Outcome {
    match line
    case 57 => SetPrev(h, Ref(jp), h.tail, 58)
    case 58 => SetNext(h, Ref(jp), Null, 59)
    case 59 => Goto(h, if h.tail != Null then 60 else 62)
    case 60 => SetNext(h, h.tail, Ref(jp), 64)
    case 62 => Goto(h.(head := Ref(jp)), 64)
    case 64 => Goto(h.(tail := Ref(jp)), 65)
    case _ => Fault
  }

  function RemoveLine(jp: nat, line: nat, h: Heap): Outcome {
    if jp !in h.next || jp !in h.prev then Fault
    else
      match line
      case 70 => Goto(h, if h.head == Ref(jp) then 71 else 77)
      case 71 => Goto(h.(head := h.next[jp]), 72)
      case 72 => Goto(h, if h.tail == Ref(jp) then 73 else 75)
      case 73 => Goto(h.(tail := Null), 88)
      case 75 => SetPrev(h, h.next[jp], Null, 88)
      case 77 => Goto(h, if h.tail == Ref(jp) then 78 else 85)
      case 78 => Goto(h.(tail := h.prev[jp]), 79)
      case 79 => Goto(h, if h.head == Ref(jp) then 80 else 82)
      case 80 => Goto(h.(head := Null), 88)
      case 82 => SetNext(h, h.prev[jp], Null, 88)
      case 85 => SetNext(h, h.prev[jp], h.next[jp], 86)
      case 86 => SetPrev(h, h.next[jp], h.prev[jp], 88)
      case _ => Fault
  }

  function Line(op: Op, line: nat, h: Heap): Outcome {
    match op
    case Insert(jp) => InsertLine(jp, line, h)
    case Append(jp) => AppendLine(jp, line, h)
    case Remove(jp) => RemoveLine(jp, line, h)
  }

  function FirstLine(op: Op): nat {
    match op case Insert(_) => 42 case Append(_) => 57 case Remove(_) => 70
  }

  function UnlockLine(op: Op): nat {
    match op case Insert(_) => 51 case Append(_) => 65 case Remove(_) => 88
  }

  // ------------------------------------------------------------------ the abstract queue

  function Without(s: seq<nat>, jp: nat): seq<nat> {
    if s == [] then [] else if s[0] == jp then s[1..] else [s[0]] + Without(s[1..], jp)
  }

  function Effect(op: Op, s: seq<nat>): seq<nat> {
    match op
    case Insert(jp) => [jp] + s
    case Append(jp) => s + [jp]
    case Remove(jp) => Without(s, jp)
  }

  /** The queue after a history of completed operations. */
  function Replay(hist: seq<Op>): seq<nat> {
    if hist == [] then [] else Effect(hist[|hist| - 1], Replay(hist[..|hist| - 1]))
  }

  /** The discipline of the callers: insert only absent jobs, remove only present ones. */
  predicate Permitted(op: Op, s: seq<nat>) {
    if op.Remove? then op.jp in s else op.jp !in s
  }

  ghost predicate Distinct(s: seq<nat>) {
    forall i, j :: 0 <= i < j < |s| ==> s[i] != s[j]
  }

  function At(s: seq<nat>, i: int): Ptr {
    if 0 <= i < |s| then Ref(s[i]) else Null
  }

  predicate Linked(h: Heap, s: seq<nat>, i: int)
    requires 0 <= i < |s|
  {
    && s[i] in h.next && h.next[s[i]] == At(s, i + 1)
    && s[i] in h.prev && h.prev[s[i]] == At(s, i - 1)
  }

  /** Both chains of the heap spell `s`, which is free of repetitions. */
  ghost predicate WellFormed(h: Heap, s: seq<nat>) {
    && Distinct(s)
    && h.head == At(s, 0)
    && h.tail == At(s, |s| - 1)
    && (forall i :: 0 <= i < |s| ==> Linked(h, s, i))
  }

  function FirstMatch(ids: nat -> int, s: seq<nat>, id: int): (r: Ptr)
    ensures r.Null? ==> forall j :: j in s ==> ids(j) != id
    ensures r.Ref? ==> exists k :: 0 <= k < |s| && s[k] == r.job && ids(r.job) == id &&
                                   forall i :: 0 <= i < k ==> ids(s[i]) != id
  {
    if s == [] then Null
    else if ids(s[0]) == id then Ref(s[0])
    else
      var r := FirstMatch(ids, s[1..], id);
      assert s == [s[0]] + s[1..];
      r
  }

  function Printed(ids: nat -> int, s: seq<nat>): (out: seq<int>)
    ensures |out| == |s| && forall i :: 0 <= i < |s| ==> out[i] == ids(s[i])
  {
    seq(|s|, i requires 0 <= i < |s| => ids(s[i]))
  }

  // ------------------------------------------------------------------ threads and steps

  /** A writer remembers the heap it found; a reader remembers how many operations were complete
      when it was granted the lock. Both are only for the proof. */
  datatype Thread =
    | Idle
    | Writing(op: Op, line: nat, base: Heap)
    | Reading(query: Query, cursor: Ptr, visited: seq<nat>, seen: nat)

  datatype Result =
    | Traversed(seen: nat, printed: seq<int>)
    | Found(id: int, seen: nat, result: Ptr)
    | Refused(id: int, result: Ptr)

  datatype State = State(heap: Heap, threads: map<nat, Thread>, writer: Option<nat>, readers: set<nat>,
                         hist: seq<Op>, log: seq<Result>, faulted: bool)

  datatype Event =
    | LockWrite(t: nat, op: Op)
    | WriteLine(t: nat)
    | UnlockWrite(t: nat)
    | LockRead(t: nat, query: Query)
    | Walk(t: nat)
    | UnlockRead(t: nat)
    | RefuseRead(t: nat, id: int)

  const Start := State(Heap(Null, Null, map[], map[]), map[], None, {}, [], [], false)

  function Of(s: State, t: nat): Thread {
    if t in s.threads then s.threads[t] else Idle
  }

  /** The walk stops at the end of the list, or for a search at the first matching job. */
  predicate Stopped(ids: nat -> int, th: Thread)
    requires th.Reading?
  {
    th.cursor.Null? || (th.query.Find? && ids(th.cursor.job) == th.query.id)
  }

  /** POSIX: a write lock excludes everybody, read locks are shared. */
  predicate Enabled(ids: nat -> int, s: State, e: Event) {
    && !s.faulted
    && match e
       case LockWrite(t, op) => Of(s, t).Idle? && s.writer.None? && s.readers == {} && Permitted(op, Replay(s.hist))
       case WriteLine(t) => Of(s, t).Writing? && Of(s, t).line != UnlockLine(Of(s, t).op)
       case UnlockWrite(t) => Of(s, t).Writing? && Of(s, t).line == UnlockLine(Of(s, t).op)
       case LockRead(t, _) => Of(s, t).Idle? && s.writer.None?
       case Walk(t) => Of(s, t).Reading? && !Stopped(ids, Of(s, t))
       case UnlockRead(t) => Of(s, t).Reading? && Stopped(ids, Of(s, t))
       case RefuseRead(t, _) => Of(s, t).Idle?
  }

  function Answer(ids: nat -> int, th: Thread): Result
    requires th.Reading?
  {
    if th.query.Find? then Found(th.query.id, th.seen, th.cursor)
    else Traversed(th.seen, Printed(ids, th.visited))
  }

  function Apply(ids: nat -> int, s: State, e: Event): State
    requires Enabled(ids, s, e)
  {
    var th := Of(s, e.t);
    match e
    case LockWrite(t, op) =>
      s.(writer := Some(t), threads := s.threads[t := Writing(op, FirstLine(op), s.heap)])
    case WriteLine(t) =>
      (match Line(th.op, th.line, s.heap)
       case Fault => s.(faulted := true)
       case Goto(h, line) => s.(heap := h, threads := s.threads[t := th.(line := line)]))
    case UnlockWrite(t) =>
      s.(writer := None, threads := s.threads[t := Idle], hist := s.hist + [th.op])
    case LockRead(t, query) =>
      s.(readers := s.readers + {t}, threads := s.threads[t := Reading(query, s.heap.head, [], |s.hist|)])
    case Walk(t) =>
      var j := th.cursor.job;
      if j !in s.heap.next then s.(faulted := true)
      else s.(threads := s.threads[t := th.(cursor := s.heap.next[j], visited := th.visited + [j])])
    case UnlockRead(t) =>
      s.(readers := s.readers - {t}, threads := s.threads[t := Idle], log := s.log + [Answer(ids, th)])
    case RefuseRead(_, id) =>
      s.(log := s.log + [Refused(id, Null)])
  }

  predicate CanRun(ids: nat -> int, s: State, es: seq<Event>)
    decreases |es|
  {
    es == [] || (Enabled(ids, s, es[0]) && CanRun(ids, Apply(ids, s, es[0]), es[1..]))
  }

  function Run(ids: nat -> int, s: State, es: seq<Event>): State
    requires CanRun(ids, s, es)
    decreases |es|
  {
    if es == [] then s else Run(ids, Apply(ids, s, es[0]), es[1..])
  }

  // ------------------------------------------------------------------ the heap a writer has reached

  function Put(m: map<nat, Ptr>, p: Ptr, v: Ptr): map<nat, Ptr> {
    if p.Ref? then m[p.job := v] else m
  }

  function Get(m: map<nat, Ptr>, j: nat): Ptr {
    if j in m then m[j] else Null
  }

  /** Which lines an operation can be at, given the heap it found. Line 80 is missing. */
  predicate OnPath(op: Op, line: nat, b: Heap) {
    match op
    case Insert(_) => line in {42, 43, 44, 50, 51} || line == if b.head.Null? then 48 else 45
    case Append(_) => line in {57, 58, 59, 64, 65} || line == if b.tail.Null? then 62 else 60
    case Remove(jp) =>
      line in {70, 88} ||
      if b.head == Ref(jp) then line in {71, 72, if b.tail == Ref(jp) then 73 else 75}
      else line in (if b.tail == Ref(jp) then {77, 78, 79, 82} else {77, 85, 86})
  }

  function After(op: Op, line: nat, b: Heap): Heap {
    match op
    case Insert(jp) =>
      var h1 := if line <= 42 then b else b.(next := b.next[jp := b.head]);
      var h2 := if line <= 43 then h1 else h1.(prev := b.prev[jp := Null]);
      var h3 := if line < 50 then h2
                else if b.head.Null? then h2.(tail := Ref(jp))
                else h2.(prev := h2.prev[b.head.job := Ref(jp)]);
      if line <= 50 then h3 else h3.(head := Ref(jp))
    case Append(jp) =>
      var h1 := if line <= 57 then b else b.(prev := b.prev[jp := b.tail]);
      var h2 := if line <= 58 then h1 else h1.(next := b.next[jp := Null]);
      var h3 := if line < 64 then h2
                else if b.tail.Null? then h2.(head := Ref(jp))
                else h2.(next := h2.next[b.tail.job := Ref(jp)]);
      if line <= 64 then h3 else h3.(tail := Ref(jp))
    case Remove(jp) =>
      var n, p := Get(b.next, jp), Get(b.prev, jp);
      if b.head == Ref(jp) then
        var h1 := if line <= 71 then b else b.(head := n);
        if line < 88 then h1 else if b.tail == Ref(jp) then h1.(tail := Null) else h1.(prev := Put(b.prev, n, Null))
      else if b.tail == Ref(jp) then
        var h1 := if line <= 78 then b else b.(tail := p);
        if line < 88 then h1 else h1.(next := Put(b.next, p, Null))
      else
        var h1 := if line <= 85 then b else b.(next := Put(b.next, p, n));
        if line < 88 then h1 else h1.(prev := Put(b.prev, n, p))
  }

  lemma LineKeepsPath(op: Op, line: nat, b: Heap, s: seq<nat>)
    requires Permitted(op, s) && WellFormed(b, s) && OnPath(op, line, b) && line != UnlockLine(op)
    ensures var o := Line(op, line, After(op, line, b));
            o.Goto? && OnPath(op, o.line, b) && o.heap == After(op, o.line, b)
  {
    if op.Remove? {
      var k :| 0 <= k < |s| && s[k] == op.jp;
      assert Linked(b, s, k);
    }
  }

  lemma {:induction false} WithoutAt(s: seq<nat>, k: nat)
    requires k < |s| && Distinct(s)
    ensures Without(s, s[k]) == s[..k] + s[k + 1..]
  {
    if k > 0 {
      var rest := s[1..];
      WithoutAt(rest, k - 1);
      assert [s[0]] + (rest[..k - 1] + rest[k..]) == s[..k] + s[k + 1..];
    }
  }

  lemma InsertDone(b: Heap, s: seq<nat>, jp: nat)
    requires WellFormed(b, s) && jp !in s
    ensures WellFormed(After(Insert(jp), 51, b), [jp] + s)
  {
    var h, s' := After(Insert(jp), 51, b), [jp] + s;
    forall i | 0 <= i < |s'| ensures Linked(h, s', i) {
      if i > 0 {
        assert Linked(b, s, i - 1);
      }
    }
  }

  lemma AppendDone(b: Heap, s: seq<nat>, jp: nat)
    requires WellFormed(b, s) && jp !in s
    ensures WellFormed(After(Append(jp), 65, b), s + [jp])
  {
    var h, s' := After(Append(jp), 65, b), s + [jp];
    forall i | 0 <= i < |s'| ensures Linked(h, s', i) {
      if i < |s| {
        assert Linked(b, s, i);
      }
    }
  }

  lemma RemoveDone(b: Heap, s: seq<nat>, k: nat)
    requires WellFormed(b, s) && k < |s|
    ensures WellFormed(After(Remove(s[k]), 88, b), s[..k] + s[k + 1..])
  {
    var h, s' := After(Remove(s[k]), 88, b), s[..k] + s[k + 1..];
    assert Linked(b, s, k);
    forall i | 0 <= i < |s'| ensures Linked(h, s', i) {
      var m := if i < k then i else i + 1;
      assert s'[i] == s[m] && Linked(b, s, m);
    }
  }

  /** Running an operation's lines to the end turns a list spelling `s` into one spelling its effect. */
  lemma OperationDone(op: Op, b: Heap, s: seq<nat>)
    requires Permitted(op, s) && WellFormed(b, s)
    ensures WellFormed(After(op, UnlockLine(op), b), Effect(op, s))
  {
    match op
    case Insert(jp) => InsertDone(b, s, jp);
    case Append(jp) => AppendDone(b, s, jp);
    case Remove(jp) =>
      var k :| 0 <= k < |s| && s[k] == jp;
      WithoutAt(s, k);
      RemoveDone(b, s, k);
  }

  // ------------------------------------------------------------------ the invariant of every run

  ghost predicate LockState(s: State) {
    && (forall t: nat :: Of(s, t).Writing? <==> s.writer == Some(t))
    && (forall t: nat :: Of(s, t).Reading? <==> t in s.readers)
    && (s.writer.Some? ==> s.readers == {})
  }

  ghost predicate HeapState(s: State) {
    match s.writer
    case None => WellFormed(s.heap, Replay(s.hist))
    case Some(t) =>
      var th := Of(s, t);
      && th.Writing?
      && Permitted(th.op, Replay(s.hist))
      && WellFormed(th.base, Replay(s.hist))
      && OnPath(th.op, th.line, th.base)
      && s.heap == After(th.op, th.line, th.base)
  }

  /** How far a reader has come in the queue it found. */
  ghost predicate Progress(ids: nat -> int, s: seq<nat>, th: Thread)
    requires th.Reading?
  {
    && th.visited <= s
    && th.cursor == At(s, |th.visited|)
    && (th.query.Find? ==> forall i :: 0 <= i < |th.visited| ==> ids(s[i]) != th.query.id)
  }

  ghost predicate ReaderState(ids: nat -> int, s: State) {
    forall t: nat :: Of(s, t).Reading? ==>
      Of(s, t).seen == |s.hist| && Progress(ids, Replay(s.hist), Of(s, t))
  }

  /** A traversal printed the queue, and a search answered for the queue, of the moment the lock was granted. */
  ghost predicate Correct(ids: nat -> int, hist: seq<Op>, r: Result) {
    match r
    case Traversed(seen, printed) => seen <= |hist| && printed == Printed(ids, Replay(hist[..seen]))
    case Found(id, seen, p) => seen <= |hist| && p == FirstMatch(ids, Replay(hist[..seen]), id)
    case Refused(_, p) => p == Null
  }

  ghost predicate Inv(ids: nat -> int, s: State) {
    && !s.faulted
    && LockState(s)
    && HeapState(s)
    && ReaderState(ids, s)
    && (forall i :: 0 <= i < |s.log| ==> Correct(ids, s.hist, s.log[i]))
  }

  lemma {:induction false} FirstMatchAt(ids: nat -> int, s: seq<nat>, id: int, k: nat)
    requires k <= |s| && (forall i :: 0 <= i < k ==> ids(s[i]) != id)
    requires k < |s| ==> ids(s[k]) == id
    ensures FirstMatch(ids, s, id) == At(s, k)
  {
    if k > 0 {
      FirstMatchAt(ids, s[1..], id, k - 1);
    }
  }

  lemma AnswerCorrect(ids: nat -> int, hist: seq<Op>, th: Thread)
    requires th.Reading? && th.seen == |hist|
    requires Progress(ids, Replay(hist), th) && Stopped(ids, th)
    ensures Correct(ids, hist, Answer(ids, th))
  {
    var s := Replay(hist);
    assert hist[..|hist|] == hist;
    if th.query.Find? {
      FirstMatchAt(ids, s, th.query.id, |th.visited|);
    } else {
      assert th.visited == s;
    }
  }

  lemma LogKept(ids: nat -> int, hist: seq<Op>, op: Op, r: Result)
    requires Correct(ids, hist, r)
    ensures Correct(ids, hist + [op], r)
  {
    if !r.Refused? {
      assert (hist + [op])[..r.seen] == hist[..r.seen];
    }
  }

  lemma WriterStepKeeps(ids: nat -> int, s: State, e: Event)
    requires Inv(ids, s) && Enabled(ids, s, e) && (e.LockWrite? || e.WriteLine?)
    ensures Inv(ids, Apply(ids, s, e))
  {
    if e.WriteLine? {
      var th := Of(s, e.t);
      LineKeepsPath(th.op, th.line, th.base, Replay(s.hist));
    }
  }

  lemma UnlockWriteKeeps(ids: nat -> int, s: State, t: nat)
    requires Inv(ids, s) && Enabled(ids, s, UnlockWrite(t))
    ensures Inv(ids, Apply(ids, s, UnlockWrite(t)))
  {
    var th, s' := Of(s, t), Apply(ids, s, UnlockWrite(t));
    OperationDone(th.op, th.base, Replay(s.hist));
    assert s'.hist[..|s.hist|] == s.hist;
    forall i | 0 <= i < |s'.log| ensures Correct(ids, s'.hist, s'.log[i]) {
      LogKept(ids, s.hist, th.op, s.log[i]);
    }
  }

  lemma WalkKeeps(ids: nat -> int, s: State, t: nat)
    requires Inv(ids, s) && Enabled(ids, s, Walk(t))
    ensures Inv(ids, Apply(ids, s, Walk(t)))
  {
    assert Linked(s.heap, Replay(s.hist), |Of(s, t).visited|);
  }

  lemma ReaderStepKeeps(ids: nat -> int, s: State, e: Event)
    requires Inv(ids, s) && Enabled(ids, s, e) && (e.LockRead? || e.RefuseRead?)
    ensures Inv(ids, Apply(ids, s, e))
  {
  }

  lemma UnlockReadKeeps(ids: nat -> int, s: State, t: nat)
    requires Inv(ids, s) && Enabled(ids, s, UnlockRead(t))
    ensures Inv(ids, Apply(ids, s, UnlockRead(t)))
  {
    AnswerCorrect(ids, s.hist, Of(s, t));
  }

  /** Every run of any number of threads: no line ever dereferences null, the list spells the history
      whenever no writer is active, and every answer is the one for the queue at lock time. */
  lemma {:induction false} EveryRun(ids: nat -> int, s: State, es: seq<Event>)
    requires Inv(ids, s) && CanRun(ids, s, es)
    ensures Inv(ids, Run(ids, s, es))
    decreases |es|
  {
    if es != [] {
      var e := es[0];
      match e {
        case LockWrite(_, _) => WriterStepKeeps(ids, s, e);
        case WriteLine(_) => WriterStepKeeps(ids, s, e);
        case UnlockWrite(t) => UnlockWriteKeeps(ids, s, t);
        case Walk(t) => WalkKeeps(ids, s, t);
        case UnlockRead(t) => UnlockReadKeeps(ids, s, t);
        case _ => ReaderStepKeeps(ids, s, e);
      }
      EveryRun(ids, Apply(ids, s, e), es[1..]);
    }
  }

  /** The answers of every run from an empty queue. */
  lemma AnswersAreSnapshots(ids: nat -> int, es: seq<Event>, i: nat)
    requires CanRun(ids, Start, es) && i < |Run(ids, Start, es).log|
    ensures var s := Run(ids, Start, es); Correct(ids, s.hist, s.log[i])
  {
    EveryRun(ids, Start, es);
  }

  /** In every run the next line of a writer and the next step of a reader follow pointers that are there, and
      no writer is at line 80. */
  lemma NoFaultAndNoLine80(ids: nat -> int, es: seq<Event>, t: nat)
    requires CanRun(ids, Start, es)
    ensures var s := Run(ids, Start, es); var th := Of(s, t);
            && !s.faulted
            && (th.Writing? ==> th.line != 80 && (th.line != UnlockLine(th.op) ==> Line(th.op, th.line, s.heap).Goto?))
            && (th.Reading? && !Stopped(ids, th) ==> th.cursor.job in s.heap.next)
  {
    EveryRun(ids, Start, es);
    var s := Run(ids, Start, es);
    var th := Of(s, t);
    if th.Writing? && th.line != UnlockLine(th.op) {
      LineKeepsPath(th.op, th.line, th.base, Replay(s.hist));
    }
    if th.Reading? && !Stopped(ids, th) {
      assert Linked(s.heap, Replay(s.hist), |th.visited|);
    }
  }

  // ------------------------------------------------------------------ what the events say

  /** The operation of the last write lock thread `t` took. */
  function LastOp(es: seq<Event>, t: nat): Option<Op> {
    if es == [] then None
    else
      var e := es[|es| - 1];
      if e.LockWrite? && e.t == t then Some(e.op) else LastOp(es[..|es| - 1], t)
  }

  /** The operations whose write locks were released, in the order of their release. */
  function Completed(es: seq<Event>): seq<Op> {
    if es == [] then []
    else
      var before, e := es[..|es| - 1], es[|es| - 1];
      if e.UnlockWrite? && LastOp(before, e.t).Some? then Completed(before) + [LastOp(before, e.t).value]
      else Completed(before)
  }

  /** Where thread `t` took its last read lock, or -1. */
  function LastRead(es: seq<Event>, t: nat): (i: int)
    ensures -1 <= i < |es|
    ensures i >= 0 ==> es[i].LockRead? && es[i].t == t
    ensures forall m :: i < m < |es| ==> !(es[m].LockRead? && es[m].t == t)
  {
    if es == [] then -1
    else if es[|es| - 1].LockRead? && es[|es| - 1].t == t then |es| - 1
    else LastRead(es[..|es| - 1], t)
  }

  /** What thread `t` reports when it releases its read lock: the answer for the operations that were
      complete when it took the lock. */
  function Reported(ids: nat -> int, es: seq<Event>, t: nat): Option<Result> {
    var i := LastRead(es, t);
    if i < 0 then None
    else
      var ops := Completed(es[..i]);
      Some(if es[i].query.Find? then Found(es[i].query.id, |ops|, FirstMatch(ids, Replay(ops), es[i].query.id))
           else Traversed(|ops|, Printed(ids, Replay(ops))))
  }

  /** All reports of a run. */
  function Reports(ids: nat -> int, es: seq<Event>): seq<Result> {
    if es == [] then []
    else
      var before, e := es[..|es| - 1], es[|es| - 1];
      if e.UnlockRead? && Reported(ids, before, e.t).Some? then
        Reports(ids, before) + [Reported(ids, before, e.t).value]
      else if e.RefuseRead? then Reports(ids, before) + [Refused(e.id, Null)]
      else Reports(ids, before)
  }

  lemma {:induction false} RunLast(ids: nat -> int, s: State, es: seq<Event>)
    requires CanRun(ids, s, es) && es != []
    ensures var k := |es| - 1;
            CanRun(ids, s, es[..k]) && Enabled(ids, Run(ids, s, es[..k]), es[k]) &&
            Run(ids, s, es) == Apply(ids, Run(ids, s, es[..k]), es[k])
    decreases |es|
  {
    var k := |es| - 1;
    if k > 0 {
      RunLast(ids, Apply(ids, s, es[0]), es[1..]);
      assert es[..k][1..] == es[1..][..k - 1];
    }
  }

  lemma {:induction false} CompletedGrows(es: seq<Event>, i: nat)
    requires i <= |es|
    ensures Completed(es[..i]) <= Completed(es)
  {
    if i < |es| {
      CompletedGrows(es[..|es| - 1], i);
      assert es[..|es| - 1][..i] == es[..i];
    } else {
      assert es[..i] == es;
    }
  }

  /** A busy thread does what its last lock was taken for. */
  ghost predicate Intends(s: State, es: seq<Event>, t: nat) {
    match Of(s, t)
    case Idle => true
    case Writing(op, _, _) => LastOp(es, t) == Some(op)
    case Reading(query, _, _, seen) =>
      var i := LastRead(es, t);
      i >= 0 && es[i].query == query && seen == |Completed(es[..i])|
  }

  ghost predicate Follows(ids: nat -> int, s: State, es: seq<Event>) {
    && s.hist == Completed(es) && s.log == Reports(ids, es)
    && (forall t: nat :: Intends(s, es, t))
  }

  lemma IntendsStep(ids: nat -> int, s: State, es: seq<Event>, k: nat, t: nat)
    requires es != [] && k == |es| - 1 && Enabled(ids, s, es[k])
    requires Intends(s, es[..k], t) && s.hist == Completed(es[..k])
    ensures Intends(Apply(ids, s, es[k]), es, t)
  {
    var before := es[..k];
    var i := LastRead(before, t);
    if i >= 0 {
      assert before[..i] == es[..i];
    }
  }

  /** A reader that stopped reports for the queue it found. */
  lemma ReportIs(ids: nat -> int, s: State, es: seq<Event>, t: nat)
    requires Inv(ids, s) && s.hist == Completed(es) && Intends(s, es, t) && Enabled(ids, s, UnlockRead(t))
    ensures Reported(ids, es, t) == Some(Answer(ids, Of(s, t)))
  {
    var th, i := Of(s, t), LastRead(es, t);
    CompletedGrows(es, i);
    assert Completed(es[..i]) == s.hist;
    if th.query.Find? {
      FirstMatchAt(ids, Replay(s.hist), th.query.id, |th.visited|);
    } else {
      assert th.visited == Replay(s.hist);
    }
  }

  lemma FollowsStep(ids: nat -> int, s: State, es: seq<Event>, k: nat)
    requires es != [] && k == |es| - 1 && Inv(ids, s) && Follows(ids, s, es[..k]) && Enabled(ids, s, es[k])
    ensures Follows(ids, Apply(ids, s, es[k]), es)
  {
    forall t: nat ensures Intends(Apply(ids, s, es[k]), es, t) {
      IntendsStep(ids, s, es, k, t);
    }
    assert Intends(s, es[..k], es[k].t);
    if es[k].UnlockRead? {
      ReportIs(ids, s, es[..k], es[k].t);
    }
  }

  /** Every run: the operations done are those the write locks were taken for, in the order of their release,
      and the reports are those of the events, each for the queue when its read lock was granted. */
  lemma {:induction false} ReportsFollowEvents(ids: nat -> int, es: seq<Event>)
    requires CanRun(ids, Start, es)
    ensures Follows(ids, Run(ids, Start, es), es)
    decreases |es|
  {
    if es != [] {
      RunLast(ids, Start, es);
      ReportsFollowEvents(ids, es[..|es| - 1]);
      EveryRun(ids, Start, es[..|es| - 1]);
      FollowsStep(ids, Run(ids, Start, es[..|es| - 1]), es, |es| - 1);
    }
  }

  /** Whoever has the lock can go on. */
  lemma HolderMoves(ids: nat -> int, es: seq<Event>, t: nat) returns (e: Event)
    requires CanRun(ids, Start, es) && !Of(Run(ids, Start, es), t).Idle?
    ensures Enabled(ids, Run(ids, Start, es), e) && e.t == t && !e.LockWrite? && !e.LockRead? && !e.RefuseRead?
  {
    EveryRun(ids, Start, es);
    var th := Of(Run(ids, Start, es), t);
    if th.Writing? {
      e := if th.line == UnlockLine(th.op) then UnlockWrite(t) else WriteLine(t);
    } else {
      e := if Stopped(ids, th) then UnlockRead(t) else Walk(t);
    }
  }

  // ------------------------------------------------------------------ everything can be carried out

  lemma Prefixed(ids: nat -> int, s: State, e: Event, es: seq<Event>)
    requires Enabled(ids, s, e) && CanRun(ids, Apply(ids, s, e), es)
    ensures CanRun(ids, s, [e] + es) && Run(ids, s, [e] + es) == Run(ids, Apply(ids, s, e), es)
  {
    assert ([e] + es)[1..] == es;
  }

  lemma {:induction false} FinishWrite(ids: nat -> int, s: State, t: nat) returns (es: seq<Event>)
    requires Inv(ids, s) && Of(s, t).Writing?
    ensures CanRun(ids, s, es) && Inv(ids, Run(ids, s, es))
    ensures Run(ids, s, es).hist == s.hist + [Of(s, t).op] && Of(Run(ids, s, es), t).Idle?
    decreases UnlockLine(Of(s, t).op) - Of(s, t).line
  {
    var th := Of(s, t);
    if th.line == UnlockLine(th.op) {
      UnlockWriteKeeps(ids, s, t);
      Prefixed(ids, s, UnlockWrite(t), []);
      es := [UnlockWrite(t)] + [];
    } else {
      LineKeepsPath(th.op, th.line, th.base, Replay(s.hist));
      WriterStepKeeps(ids, s, WriteLine(t));
      var rest := FinishWrite(ids, Apply(ids, s, WriteLine(t)), t);
      Prefixed(ids, s, WriteLine(t), rest);
      es := [WriteLine(t)] + rest;
    }
  }

  lemma {:induction false} FinishRead(ids: nat -> int, s: State, t: nat) returns (es: seq<Event>)
    requires Inv(ids, s) && Of(s, t).Reading?
    ensures CanRun(ids, s, es) && Inv(ids, Run(ids, s, es))
    ensures var z := Run(ids, s, es);
            z.hist == s.hist && |z.log| == |s.log| + 1 && !z.log[|s.log|].Refused? && Of(z, t).Idle?
    decreases |Replay(s.hist)| - |Of(s, t).visited|
  {
    var th := Of(s, t);
    if Stopped(ids, th) {
      UnlockReadKeeps(ids, s, t);
      Prefixed(ids, s, UnlockRead(t), []);
      es := [UnlockRead(t)] + [];
    } else {
      WalkKeeps(ids, s, t);
      assert Linked(s.heap, Replay(s.hist), |th.visited|);
      var rest := FinishRead(ids, Apply(ids, s, Walk(t)), t);
      Prefixed(ids, s, Walk(t), rest);
      es := [Walk(t)] + rest;
    }
  }

  /** In every state in which nobody has the lock, an idle thread can carry out any permitted operation and
      any query to the end. */
  lemma {:induction false} CanPerform(ids: nat -> int, es: seq<Event>, t: nat, op: Op, q: Query)
    returns (w: seq<Event>, r: seq<Event>)
    requires CanRun(ids, Start, es)
    requires Run(ids, Start, es).writer.None? && Run(ids, Start, es).readers == {}
    requires Permitted(op, Replay(Run(ids, Start, es).hist))
    ensures var s := Run(ids, Start, es);
            && CanRun(ids, s, [LockWrite(t, op)] + w) && Run(ids, s, [LockWrite(t, op)] + w).hist == s.hist + [op]
            && CanRun(ids, s, [LockRead(t, q)] + r) && |Run(ids, s, [LockRead(t, q)] + r).log| == |s.log| + 1
  {
    EveryRun(ids, Start, es);
    var s := Run(ids, Start, es);
    assert Of(s, t).Idle?;
    WriterStepKeeps(ids, s, LockWrite(t, op));
    w := FinishWrite(ids, Apply(ids, s, LockWrite(t, op)), t);
    Prefixed(ids, s, LockWrite(t, op), w);
    ReaderStepKeeps(ids, s, LockRead(t, q));
    r := FinishRead(ids, Apply(ids, s, LockRead(t, q)), t);
    Prefixed(ids, s, LockRead(t, q), r);
  }
}
