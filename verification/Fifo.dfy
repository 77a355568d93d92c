/** The line reader of IPC/fifo_demo.c. readline reads a byte before it checks for room, so a full
    buffer costs the byte just read; at end of file a line without its newline is forgotten. */
module Fifo {
  import opened Options
  import opened CStrings

  // ------------------------------------------------------------------ what one call delivers

  /** With room for `room` more bytes: the text stored and the input left, or None for NULL. */
  function Read(input: seq<char>, room: nat): (Option<seq<char>>, seq<char>) {
    if input == [] then (None, [])
    else if room == 0 then (Some([]), input[1..])
    else if input[0] == '\n' then (Some(['\n']), input[1..])
    else
      var (r, rest) := Read(input[1..], room - 1);
      (if r.None? then None else Some([input[0]] + r.value), rest)
  }

  lemma {:induction false} ReadConsumes(input: seq<char>, room: nat)
    requires input != []
    ensures |Read(input, room).1| < |input|
  {
    if room > 0 && input[0] != '\n' && input[1..] != [] {
      ReadConsumes(input[1..], room - 1);
    }
  }

  /** What %s prints of a text that readline terminated. */
  function Shown(text: seq<char>): (r: seq<char>)
    ensures |r| <= |text| && (r == text <==> NUL !in text)
  {
    if text == [] || text[0] == NUL then []
    else
      var r := Shown(text[1..]);
      assert text == [text[0]] + text[1..];
      [text[0]] + r
  }

  lemma {:induction false} ShownAt(text: seq<char>, n: nat)
    requires n <= |text| && NUL !in text[..n] && (n < |text| ==> text[n] == NUL)
    ensures Shown(text) == text[..n]
  {
    if n > 0 {
      assert text[0] in text[..n];
      assert text[1..][..n - 1] == text[..n][1..];
      ShownAt(text[1..], n - 1);
      assert text[..n] == [text[0]] + text[1..][..n - 1];
    }
  }

  /** What the reader loop prints for a whole stream. */
  function Printed(input: seq<char>, room: nat): seq<char>
    decreases |input|
  {
    if input == [] then []
    else
      ReadConsumes(input, room);
      var (r, rest) := Read(input, room);
      if r.None? then [] else Shown(r.value) + Printed(rest, room)
  }

  // ------------------------------------------------------------------ the code

  /** The bytes that reads deliver, and whether the read behind them fails or finds the end of file. */
  class Pipe {
    var rest: seq<char>
    const broken: bool

    constructor (data: seq<char>, broken: bool)
      ensures rest == data && this.broken == broken
    {
      rest, this.broken := data, broken;
    }

    /** read(fd, &c, 1) with every writer gone or data waiting. */
    method ReadByte() returns (n: int, c: char)
      modifies this
      ensures old(rest) == [] ==> n == AtEnd() && rest == []
      ensures old(rest) != [] ==> n == 1 && c == old(rest)[0] && rest == old(rest)[1..]
    {
      n, c := AtEnd(), NUL;
      if rest != [] {
        n, c := 1, rest[0];
        rest := rest[1..];
      }
    }

    function AtEnd(): int {
      if broken then -1 else 0
    }
  }

  /** The buffer, NULL, or the end of the process. */
  datatype Outcome = Line | Null | Dies

  /** Joins a result to the bytes that are already in the buffer. */
  function Prepend(before: seq<char>, r: Option<seq<char>>): Option<seq<char>> {
    if r.None? then None else Some(before + r.value)
  }

  method Readline(p: Pipe, buf: array<char>, size: nat) returns (r: Outcome, ghost len: nat)
    requires 1 <= size <= buf.Length
    modifies p, buf
    ensures (p.rest, r.Line?) == (Read(old(p.rest), size - 1).1, Read(old(p.rest), size - 1).0.Some?)
    ensures !r.Line? ==> (r.Dies? <==> p.broken)
    ensures r.Line? ==> len < size && Read(old(p.rest), size - 1).0 == Some(buf[..len]) && buf[len] == NUL
  {
    var ptr := 0;
    ghost var input := p.rest;
    len := 0;
    var n, c := p.ReadByte();
    ghost var whole := Read(input, size - 1).0;
    assert input != [] ==> [c] + p.rest == input;
    assert buf[..0] == [] && (whole.Some? ==> [] + whole.value == whole.value);
    while n > 0 && ptr < size - 1
      invariant 0 <= ptr <= size - 1 && (n == p.AtEnd() || n == 1)
      invariant n <= 0 ==> Read(input, size - 1) == (None, p.rest)
      invariant n == 1 ==> Read(input, size - 1) == (Prepend(buf[..ptr], Read([c] + p.rest, size - 1 - ptr).0),
                                                     Read([c] + p.rest, size - 1 - ptr).1)
      decreases |p.rest| + (if n > 0 then 1 else 0)
    {
      ghost var before, pending := buf[..ptr], [c] + p.rest;
      buf[ptr] := c;
      ptr := ptr + 1;
      assert buf[..ptr] == before + [c] && pending[1..] == p.rest;
      if c == '\n' {
        buf[ptr] := NUL;
        len := ptr;
        return Line, len;
      }
      assert p.rest != [] ==> p.rest == [p.rest[0]] + p.rest[1..];
      n, c := p.ReadByte();
      JoinStep(before, pending, size - ptr);
    }
    if n < 0 {
      return Dies, 0;
    }
    if n == 0 {
      return Null, 0;
    }
    assert ([c] + p.rest)[1..] == p.rest && buf[..ptr] + [] == buf[..ptr];
    buf[ptr] := NUL;
    len := ptr;
    r := Line;
  }

  /** Storing the first pending byte and reading on gives what reading from there gives. */
  lemma JoinStep(before: seq<char>, pending: seq<char>, room: nat)
    requires pending != [] && room > 0 && pending[0] != '\n'
    ensures var (r, rest) := Read(pending[1..], room - 1);
            (Prepend(before, Read(pending, room).0), Read(pending, room).1) == (Prepend(before + [pending[0]], r), rest)
  {
    var r := Read(pending[1..], room - 1).0;
    if r.Some? {
      assert before + ([pending[0]] + r.value) == before + [pending[0]] + r.value;
    }
  }

  /** The parent's loop: printf("%s") of every line until NULL, or until a failing read ends the process. */
  method PrintLoop(p: Pipe, buf: array<char>, size: nat) returns (printed: seq<char>, died: bool)
    requires 1 <= size <= buf.Length
    modifies p, buf
    ensures printed == Printed(old(p.rest), size - 1) && died == p.broken
  {
    printed := [];
    var r := Line;
    ghost var input := p.rest;
    while r.Line?
      invariant r.Line? ==> Printed(input, size - 1) == printed + Printed(p.rest, size - 1)
      invariant !r.Line? ==> Printed(input, size - 1) == printed && (r.Dies? <==> p.broken)
      decreases r.Line?, |p.rest|
    {
      if p.rest != [] {
        ReadConsumes(p.rest, size - 1);
      }
      ghost var len;
      r, len := Readline(p, buf, size);
      if r.Line? {
        var text := Text(buf, len);
        printed := printed + text;
      }
    }
    died := r.Dies?;
  }

  /** The reader prints the stream unchanged exactly when it has no NUL and every line, newline included,
      fits into size-1 bytes. */
  method PrintAll(p: Pipe, buf: array<char>, size: nat) returns (printed: seq<char>, died: bool)
    requires 1 <= size <= buf.Length
    modifies p, buf
    ensures died == p.broken
    ensures printed == old(p.rest) <==> NUL !in old(p.rest) && Deliverable(old(p.rest), size - 1)
  {
    PrintsEverything(p.rest, size - 1);
    printed, died := PrintLoop(p, buf, size);
  }

  /** What %s finds in the buffer. */
  method Text(buf: array<char>, ghost len: nat) returns (s: seq<char>)
    requires len < buf.Length && buf[len] == NUL
    ensures s == Shown(buf[..len])
  {
    var n := StrLength(buf);
    assert buf[..][len] in buf[..];
    NoNulBefore(buf[..], n, len);
    s := buf[..n];
    assert buf[..len][..n] == buf[..][..n] == s;
    ShownAt(buf[..len], n);
  }

  // ------------------------------------------------------------------ when nothing is lost

  /** The position of the first newline, or the length when there is none. */
  function FirstNewline(s: seq<char>): (k: nat)
    ensures k <= |s| && (k < |s| ==> s[k] == '\n') && forall i :: 0 <= i < k ==> s[i] != '\n'
  {
    if s == [] || s[0] == '\n' then 0 else 1 + FirstNewline(s[1..])
  }

  /** One call in closed form: a line that fits, a full buffer less one byte, or a forgotten tail. */
  lemma {:induction false} ReadClosed(input: seq<char>, room: nat)
    requires input != []
    ensures var k := FirstNewline(input);
            Read(input, room) ==
              if k < room && k < |input| then (Some(input[..k + 1]), input[k + 1..])
              else if room < |input| then (Some(input[..room]), input[room + 1..])
              else (None, [])
  {
    if room > 0 && input[0] == '\n' {
      assert input[..1] == ['\n'];
    } else if room > 0 {
      var tail := input[1..];
      if tail != [] {
        ReadClosed(tail, room - 1);
        var k := FirstNewline(input);
        if k < room && k < |input| {
          assert [input[0]] + tail[..k] == input[..k + 1];
        } else if room < |input| {
          assert [input[0]] + tail[..room - 1] == input[..room];
        }
      }
    }
  }

  /** Every line, newline included, has at most `room` bytes and the last one is terminated: that is,
      the stream ends in a newline and any `room` consecutive bytes contain one. */
  ghost predicate Deliverable(s: seq<char>, room: nat) {
    s == [] || (s[|s| - 1] == '\n' && forall i :: 0 <= i <= |s| - room ==> NewlineFrom(s, i, room))
  }

  ghost predicate NewlineFrom(s: seq<char>, i: int, room: nat) {
    exists j :: i <= j < i + room && 0 <= j < |s| && s[j] == '\n'
  }

  lemma FirstLineFits(s: seq<char>, room: nat)
    requires s != [] && Deliverable(s, room)
    ensures FirstNewline(s) < |s| && FirstNewline(s) < room
  {
    if room <= |s| {
      assert NewlineFrom(s, 0, room);
    }
  }

  lemma RestDelivers(s: seq<char>, k: nat, room: nat)
    requires k < |s| && Deliverable(s, room)
    ensures Deliverable(s[k + 1..], room)
  {
    var rest := s[k + 1..];
    forall i | 0 <= i <= |rest| - room ensures NewlineFrom(rest, i, room) {
      assert NewlineFrom(s, k + 1 + i, room);
      var j :| k + 1 + i <= j < k + 1 + i + room && 0 <= j < |s| && s[j] == '\n';
      assert rest[j - k - 1] == '\n';
    }
  }

  lemma LineJoins(s: seq<char>, k: nat, room: nat)
    requires k < |s| && k < room && s[k] == '\n' && Deliverable(s[k + 1..], room)
    ensures Deliverable(s, room)
  {
    var rest := s[k + 1..];
    forall i | 0 <= i <= |s| - room ensures NewlineFrom(s, i, room) {
      if i > k {
        assert NewlineFrom(rest, i - k - 1, room);
        var j :| i - k - 1 <= j < i - k - 1 + room && 0 <= j < |rest| && rest[j] == '\n';
        assert s[j + k + 1] == '\n';
      }
    }
  }

  lemma {:induction false} PrintedIsShorter(input: seq<char>, room: nat)
    ensures |Printed(input, room)| <= |input|
    decreases |input|
  {
    if input != [] {
      ReadConsumes(input, room);
      ReadClosed(input, room);
      PrintedIsShorter(Read(input, room).1, room);
    }
  }

  /** A first line that does not fit, or is not terminated, costs at least a byte. */
  lemma PrintedLoses(input: seq<char>, room: nat)
    requires input != [] && (FirstNewline(input) >= room || FirstNewline(input) == |input|)
    ensures |Printed(input, room)| < |input|
  {
    ReadConsumes(input, room);
    ReadClosed(input, room);
    PrintedIsShorter(Read(input, room).1, room);
  }

  lemma PrintedFits(input: seq<char>, room: nat)
    requires FirstNewline(input) < room && FirstNewline(input) < |input|
    ensures var k := FirstNewline(input);
            Printed(input, room) == Shown(input[..k + 1]) + Printed(input[k + 1..], room)
  {
    ReadConsumes(input, room);
    ReadClosed(input, room);
  }

  /** On a nonempty stream, printing all of it means printing a first line that fits and all the rest. */
  lemma PrintedLine(input: seq<char>, room: nat)
    requires input != []
    ensures var k := FirstNewline(input);
            Printed(input, room) == input <==>
              k < room && k < |input| && NUL !in input[..k + 1] && Printed(input[k + 1..], room) == input[k + 1..]
  {
    var k := FirstNewline(input);
    if k < room && k < |input| {
      var rest := input[k + 1..];
      PrintedFits(input, room);
      PrintedIsShorter(rest, room);
      SplitEqual(input, k + 1, Shown(input[..k + 1]), Printed(rest, room));
    } else {
      PrintedLoses(input, room);
    }
  }

  lemma NoNulJoins(s: seq<char>, k: nat)
    requires k <= |s| && NUL !in s[..k] && NUL !in s[k..]
    ensures NUL !in s
  {
    assert s == s[..k] + s[k..];
  }

  lemma {:induction false} PrintedOnlyIf(input: seq<char>, room: nat)
    requires Printed(input, room) == input
    ensures NUL !in input && Deliverable(input, room)
    decreases |input|
  {
    if input != [] {
      var k := FirstNewline(input);
      PrintedLine(input, room);
      PrintedOnlyIf(input[k + 1..], room);
      LineJoins(input, k, room);
      NoNulJoins(input, k + 1);
    }
  }

  lemma {:induction false} PrintedIf(input: seq<char>, room: nat)
    requires NUL !in input && Deliverable(input, room)
    ensures Printed(input, room) == input
    decreases |input|
  {
    if input != [] {
      var k := FirstNewline(input);
      FirstLineFits(input, room);
      RestDelivers(input, k, room);
      PrintedIf(input[k + 1..], room);
      PrintedLine(input, room);
    }
  }

  /** The reader prints the stream unchanged exactly when it is free of NULs and deliverable. */
  lemma PrintsEverything(input: seq<char>, room: nat)
    ensures Printed(input, room) == input <==> NUL !in input && Deliverable(input, room)
  {
    if Printed(input, room) == input {
      PrintedOnlyIf(input, room);
    } else if NUL !in input && Deliverable(input, room) {
      PrintedIf(input, room);
    }
  }

  /** Two parts no longer than the parts of `s` make up `s` exactly when they are those parts. */
  lemma SplitEqual(s: seq<char>, k: nat, a: seq<char>, b: seq<char>)
    requires k <= |s| && |a| <= k && |b| <= |s| - k
    ensures a + b == s <==> a == s[..k] && b == s[k..]
  {
    assert s == s[..k] + s[k..];
    if a + b == s {
      assert |a| == k;
      assert a == (a + b)[..k] && b == (a + b)[k..];
    }
  }

  // ------------------------------------------------------------------ what is printed of every stream

  /** `z` is where %s and strlen stop: the first NUL, or the end. */
  ghost predicate StopsAt(text: seq<char>, z: nat) {
    z <= |text| && NUL !in text[..z] && (z < |text| ==> text[z] == NUL)
  }

  /** A line that fits is printed up to its first NUL. */
  lemma {:induction false} PrintedShort(s: seq<char>, room: nat, z: nat)
    requires FirstNewline(s) < room && FirstNewline(s) < |s| && StopsAt(s[..FirstNewline(s) + 1], z)
    ensures Printed(s, room) == s[..z] + Printed(s[FirstNewline(s) + 1..], room)
  {
    var line := s[..FirstNewline(s) + 1];
    PrintedFits(s, room);
    ShownAt(line, z);
    assert line[..z] == s[..z];
  }

  /** Of a longer one a buffer full is, and the byte behind it is dropped. */
  lemma {:induction false} PrintedFull(s: seq<char>, room: nat, z: nat)
    requires FirstNewline(s) >= room && room < |s| && StopsAt(s[..room], z)
    ensures Printed(s, room) == s[..z] + Printed(s[room + 1..], room)
  {
    ReadConsumes(s, room);
    ReadClosed(s, room);
    ShownAt(s[..room], z);
    assert s[..room][..z] == s[..z];
  }

  /** An end without newline that does not fill the buffer and a byte more is forgotten. */
  lemma {:induction false} PrintedForgotten(s: seq<char>, room: nat)
    requires FirstNewline(s) == |s| <= room
    ensures Printed(s, room) == []
  {
    if s != [] {
      ReadConsumes(s, room);
      ReadClosed(s, room);
    }
  }

  /** The bytes of `s`, the first of them at position `j` of its line, without those at positions room,
      2*room+1, 3*room+2, ... of the line. */
  function Kept(s: seq<char>, room: nat, j: nat): seq<char> {
    if s == [] then [] else (if j % (room + 1) == room then [] else [s[0]]) + Kept(s[1..], room, j + 1)
  }

  /** The same, counting from the start of each buffer full. */
  function Blocks(s: seq<char>, room: nat, p: nat): seq<char>
    requires p <= room
  {
    if s == [] then []
    else if p == room then Blocks(s[1..], room, 0)
    else [s[0]] + Blocks(s[1..], room, p + 1)
  }

  lemma MultipleBounds(m: int, d: int)
    requires m > 0
    ensures d >= 1 ==> m * d >= m
    ensures d >= 2 ==> m * d >= m + m
    ensures d <= -1 ==> m * d <= -m
  {
  }

  lemma NextRemainder(m: nat, j: nat)
    requires m > 0
    ensures (j + 1) % m == if j % m == m - 1 then 0 else j % m + 1
  {
    var q, q' := j / m, (j + 1) / m;
    assert m * (q' - q) == j % m + 1 - (j + 1) % m by {
      assert j == m * q + j % m && j + 1 == m * q' + (j + 1) % m;
      assert m * (q' - q) == m * q' - m * q;
    }
    MultipleBounds(m, q' - q);
  }

  lemma {:induction false} KeptIsBlocks(s: seq<char>, room: nat, j: nat)
    ensures Kept(s, room, j) == Blocks(s, room, j % (room + 1))
  {
    if s != [] {
      NextRemainder(room + 1, j);
      KeptIsBlocks(s[1..], room, j + 1);
    }
  }

  lemma {:induction false} BlocksFit(s: seq<char>, room: nat, p: nat)
    requires p + |s| <= room
    ensures Blocks(s, room, p) == s
  {
    if s != [] {
      BlocksFit(s[1..], room, p + 1);
    }
  }

  /** A buffer full, the byte behind it, and what follows. */
  lemma {:induction false} BlocksSplit(s: seq<char>, room: nat, p: nat)
    requires p <= room && room - p < |s|
    ensures Blocks(s, room, p) == s[..room - p] + Blocks(s[room - p + 1..], room, 0)
    decreases room - p
  {
    if p < room {
      BlocksSplit(s[1..], room, p + 1);
      assert s[..room - p] == [s[0]] + s[1..][..room - p - 1];
      assert s[1..][room - p..] == s[room - p + 1..];
    }
  }

  lemma Slices(s: seq<char>, a: nat, b: nat)
    requires a <= b <= |s|
    ensures s[..b][a..] == s[a..b] && s[a..][..b - a] == s[a..b] && s[a..][b - a..] == s[b..]
  {
  }

  lemma {:induction false} LongLine(s: seq<char>, room: nat, n: nat)
    requires room < n <= |s|
    ensures Blocks(s[..n], room, 0) == s[..room] + Blocks(s[room + 1..n], room, 0)
  {
    BlocksSplit(s[..n], room, 0);
    assert s[..n][..room] == s[..room];
    Slices(s, room + 1, n);
  }

  /** `n` bytes of the stream are printed block by block, and then the rest of the stream is. */
  ghost predicate ByBlocks(s: seq<char>, room: nat, n: nat)
    requires n <= |s|
  {
    Printed(s, room) == Blocks(s[..n], room, 0) + Printed(s[n..], room)
  }

  lemma {:induction false} ShortLineBlocks(s: seq<char>, room: nat)
    requires NUL !in s && FirstNewline(s) < |s| && FirstNewline(s) < room
    ensures ByBlocks(s, room, FirstNewline(s) + 1)
  {
    var k := FirstNewline(s);
    PrintedShort(s, room, k + 1);
    BlocksFit(s[..k + 1], room, 0);
  }

  /** A buffer full of a long line, and the rest of it. */
  lemma {:induction false} LongLineBlocks(s: seq<char>, room: nat, tail: seq<char>)
    requires NUL !in s && room <= FirstNewline(s) < |s|
    requires Printed(s[room + 1..], room) == Blocks(s[room + 1..FirstNewline(s) + 1], room, 0) + tail
    ensures Printed(s, room) == Blocks(s[..FirstNewline(s) + 1], room, 0) + tail
  {
    PrintedFull(s, room, room);
    LongLine(s, room, FirstNewline(s) + 1);
    Joins(s[..room], Blocks(s[room + 1..FirstNewline(s) + 1], room, 0), tail);
  }

  lemma Joins(a: seq<char>, b: seq<char>, c: seq<char>)
    ensures a + (b + c) == a + b + c
  {
  }

  lemma {:induction false} AfterFull(s: seq<char>, room: nat, n: nat)
    requires NUL !in s && room + 1 <= n <= |s| && n == FirstNewline(s) + 1
    requires ByBlocks(s[room + 1..], room, n - room - 1)
    ensures ByBlocks(s, room, n)
  {
    Slices(s, room + 1, n);
    LongLineBlocks(s, room, Printed(s[n..], room));
  }

  lemma {:induction false} RestOfLine(s: seq<char>, n: nat, rest: seq<char>)
    requires NUL !in s && n <= FirstNewline(s) < |s| && rest == s[n..]
    ensures NUL !in rest && FirstNewline(rest) == FirstNewline(s) - n < |rest|
  {
    NewlineLater(s, n);
  }

  lemma {:induction false} LineBlocks(s: seq<char>, room: nat)
    requires NUL !in s && FirstNewline(s) < |s|
    ensures ByBlocks(s, room, FirstNewline(s) + 1)
    decreases |s|
  {
    var k := FirstNewline(s);
    if k < room {
      ShortLineBlocks(s, room);
    } else {
      var rest := s[room + 1..];
      if k > room {
        RestOfLine(s, room + 1, rest);
        LineBlocks(rest, room);
      } else {
        NothingYet(rest, room);
      }
      AfterFull(s, room, k + 1);
    }
  }

  lemma NothingYet(s: seq<char>, room: nat)
    ensures ByBlocks(s, room, 0)
  {
    assert s[0..] == s && s[..0] == [];
  }

  /** Of a line without NUL exactly the bytes at positions other than room, 2*room+1, ... are printed. */
  lemma {:induction false} PrintedLineBytes(s: seq<char>, room: nat)
    requires NUL !in s && FirstNewline(s) < |s|
    ensures var k := FirstNewline(s); Printed(s, room) == Kept(s[..k + 1], room, 0) + Printed(s[k + 1..], room)
  {
    LineBlocks(s, room);
    KeptIsBlocks(s[..FirstNewline(s) + 1], room, 0);
  }

  lemma {:induction false} NewlineLater(s: seq<char>, n: nat)
    requires n <= FirstNewline(s)
    ensures FirstNewline(s[n..]) == FirstNewline(s) - n
  {
    if n > 0 {
      NewlineLater(s[1..], n - 1);
      assert s[1..][n - 1..] == s[n..];
    } else {
      assert s[0..] == s;
    }
  }

  lemma {:induction false} EndBlocks(s: seq<char>, room: nat)
    requires NUL !in s && FirstNewline(s) == |s|
    ensures Printed(s, room) == Blocks(s[..Whole(|s|, room)], room, 0)
    decreases |s|
  {
    if |s| > room {
      PrintedFull(s, room, room);
      NewlineLater(s, room + 1);
      EndBlocks(s[room + 1..], room);
      LongLine(s, room, Whole(|s|, room));
      Slices(s, room + 1, Whole(|s|, room));
    } else {
      PrintedForgotten(s, room);
    }
  }

  /** Of an end without newline the full buffers are printed, and the rest is forgotten. */
  lemma {:induction false} PrintedEndBytes(s: seq<char>, room: nat)
    requires NUL !in s && FirstNewline(s) == |s|
    ensures Printed(s, room) == Kept(s[..Whole(|s|, room)], room, 0)
  {
    EndBlocks(s, room);
    KeptIsBlocks(s[..Whole(|s|, room)], room, 0);
  }

  /** The largest multiple of room+1 up to `n`. */
  function Whole(n: nat, room: nat): (w: nat)
    ensures w <= n < w + room + 1
  {
    if n <= room then 0 else room + 1 + Whole(n - room - 1, room)
  }

  // ------------------------------------------------------------------ the writer

  /** How much fgets takes: a line, or as much of it as fits. */
  function Chunk(input: seq<char>, room: nat): (n: nat)
    ensures n <= |input| && n <= room && (input != [] && room > 0 ==> n > 0)
  {
    if input == [] || room == 0 then 0
    else if input[0] == '\n' then 1
    else 1 + Chunk(input[1..], room - 1)
  }

  /** What the writer sends of its input: of each piece fgets returns, the part strlen finds. */
  function Sent(input: seq<char>, room: nat): seq<char>
    requires room > 0
    decreases |input|
  {
    if input == [] then []
    else var n := Chunk(input, room); Shown(input[..n]) + Sent(input[n..], room)
  }

  /** One piece: a line, as much of it as fits, or what is left; of it goes out what comes before its first NUL. */
  lemma {:induction false} SentCases(s: seq<char>, room: nat, n: nat, z: nat)
    requires room > 0 && s != [] && n <= |s|
    requires n == (if FirstNewline(s) < room && FirstNewline(s) < |s| then FirstNewline(s) + 1
                   else if room < |s| then room else |s|)
    requires StopsAt(s[..n], z)
    ensures Sent(s, room) == s[..z] + Sent(s[n..], room)
  {
    ChunkIs(s, room);
    ShownAt(s[..n], z);
    assert s[..n][..z] == s[..z];
  }

  lemma {:induction false} ChunkIs(s: seq<char>, room: nat)
    ensures Chunk(s, room) == if FirstNewline(s) < room && FirstNewline(s) < |s| then FirstNewline(s) + 1
                              else if room < |s| then room else |s|
  {
    if s != [] && room > 0 && s[0] != '\n' {
      ChunkIs(s[1..], room - 1);
    }
  }

  /** fgets; `len` bytes are stored before the NUL. */
  method Fgets(p: Pipe, buf: array<char>, size: nat) returns (ok: bool, ghost len: nat)
    requires 2 <= size <= buf.Length
    modifies p, buf
    ensures ok <==> old(p.rest) != []
    ensures ok ==>
              && len == Chunk(old(p.rest), size - 1) && len < size && buf[len] == NUL
              && buf[..len] == old(p.rest)[..len] && p.rest == old(p.rest)[len..]
  {
    ghost var input := p.rest;
    var k := 0;
    var more := true;
    while more && k < size - 1 && p.rest != []
      invariant 0 <= k <= size - 1 && k <= |input|
      invariant buf[..k] == input[..k] && p.rest == input[k..]
      invariant Chunk(input, size - 1) == k + if more then Chunk(p.rest, size - 1 - k) else 0
      decreases more, size - k
    {
      var _, c := p.ReadByte();
      buf[k] := c;
      k := k + 1;
      more := c != '\n';
      assert input[..k] == input[..k - 1] + [input[k - 1]];
    }
    ok, len := k > 0, k;
    buf[k] := NUL;
  }

  /** What gets into the FIFO when it takes `cap` bytes, or any number. */
  function Accepted(stream: seq<char>, cap: Option<nat>): seq<char> {
    if cap.Some? && cap.value < |stream| then stream[..cap.value] else stream
  }

  lemma CutHere(out: seq<char>, text: seq<char>, rest: seq<char>, cap: nat)
    requires |out| <= cap < |out| + |text|
    ensures Accepted(out + text + rest, Some(cap)) == out + text[..cap - |out|]
  {
  }

  /** The child's loop. With `cap` the write that would pass that many bytes fails or falls short, which ends
      the process. */
  method WriteLoop(p: Pipe, buf: array<char>, size: nat, cap: Option<nat>) returns (out: seq<char>, died: bool)
    requires 2 <= size <= buf.Length
    modifies p, buf
    ensures out == Accepted(Sent(old(p.rest), size - 1), cap)
    ensures died <==> cap.Some? && cap.value < |Sent(old(p.rest), size - 1)|
  {
    out, died := [], false;
    var ok := true;
    ghost var input := p.rest;
    while ok
      invariant ok ==> Sent(input, size - 1) == out + Sent(p.rest, size - 1)
      invariant !ok ==> Sent(input, size - 1) == out
      invariant cap.Some? ==> |out| <= cap.value
      decreases ok, |p.rest|
    {
      ghost var len;
      ghost var left := p.rest;
      ok, len := Fgets(p, buf, size);
      if ok {
        var text := Text(buf, len);
        assert Sent(left, size - 1) == text + Sent(p.rest, size - 1);
        assert out + (text + Sent(p.rest, size - 1)) == out + text + Sent(p.rest, size - 1);
        if cap.Some? && cap.value < |out| + |text| {
          CutHere(out, text, Sent(p.rest, size - 1), cap.value);
          out, died := out + text[..cap.value - |out|], true;
          return;
        }
        out := out + text;
      }
    }
  }

  lemma {:induction false} ShownShorter(text: seq<char>)
    requires NUL in text
    ensures |Shown(text)| < |text|
  {
    if text[0] != NUL {
      ShownShorter(text[1..]);
    }
  }

  lemma {:induction false} SentWhole(input: seq<char>, room: nat)
    requires room > 0 && NUL !in input
    ensures Sent(input, room) == input
    decreases |input|
  {
    if input != [] {
      var n := Chunk(input, room);
      SentWhole(input[n..], room);
      assert Shown(input[..n]) == input[..n];
      assert input == input[..n] + input[n..];
    }
  }

  /** A NUL costs the rest of its piece. */
  lemma {:induction false} SentShorter(input: seq<char>, room: nat)
    requires room > 0
    ensures |Sent(input, room)| <= |input| && (NUL in input ==> |Sent(input, room)| < |input|)
    decreases |input|
  {
    if input != [] {
      var n := Chunk(input, room);
      SentShorter(input[n..], room);
      assert input == input[..n] + input[n..];
      if NUL in input[..n] {
        ShownShorter(input[..n]);
      }
    }
  }

  /** Both processes together: the parent prints exactly what was typed if and only if that has no NUL, ends
      in a newline, and has no line longer than the buffer less one. */
  lemma {:induction false} EndToEnd(input: seq<char>, room: nat)
    requires room > 0
    ensures Printed(Sent(input, room), room) == input <==> NUL !in input && Deliverable(input, room)
  {
    if NUL in input {
      SentShorter(input, room);
      PrintedIsShorter(Sent(input, room), room);
    } else {
      SentWhole(input, room);
      PrintsEverything(input, room);
    }
  }

  /** The child writes, the parent reads: it prints what was typed exactly when the child did not fail and the
      text is one that gets through. */
  method Demo(typed: Pipe, size: nat, cap: Option<nat>) returns (printed: seq<char>, died: bool)
    requires 2 <= size
    modifies typed
    ensures died <==> cap.Some? && cap.value < |Sent(old(typed.rest), size - 1)|
    ensures printed == old(typed.rest) <==>
              !died && NUL !in old(typed.rest) && Deliverable(old(typed.rest), size - 1)
  {
    ghost var input := typed.rest;
    EndToEnd(input, size - 1);
    SentShorter(input, size - 1);
    var mine, theirs := new char[size], new char[size];
    var sent;
    sent, died := WriteLoop(typed, mine, size, cap);
    PrintedIsShorter(sent, size - 1);
    var fifo := new Pipe(sent, false);
    var failed;
    printed, failed := PrintLoop(fifo, theirs, size);
  }
}
