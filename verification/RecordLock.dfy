/** Record locks as flock/lock_reg.c uses them: lock_reg and lock_test over the table of byte-range
    locks that fcntl (F_SETLK, F_SETLKW, F_GETLK) keeps for a file. A process owns at most one lock
    per byte; setting or clearing a range cuts the ranges it already has. */
module RecordLock {
  import opened Options

  const OFF_MAX := 0x7FFF_FFFF_FFFF_FFFF

  datatype Type = F_RDLCK | F_WRLCK | F_UNLCK

  datatype Command = F_SETLK | F_SETLKW

  datatype Whence = SEEK_SET | SEEK_CUR | SEEK_END

  /** A granted lock on the bytes `lo` to `hi` inclusive. */
  datatype Record = Record(pid: nat, kind: Type, lo: int, hi: int)

  /** What the caller's open file contributes to a request. */
  datatype File = File(position: nat, size: nat)

  function Origin(f: File, whence: Whence): nat {
    match whence case SEEK_SET => 0 case SEEK_CUR => f.position case SEEK_END => f.size
  }

  /** The bytes a request is about: forwards, to the largest offset for length 0, or backwards. */
  predicate Addresses(f: File, offset: int, whence: Whence, len: int, b: int) {
    var d := b - Origin(f, whence) - offset;
    if len > 0 then 0 <= d < len else if len == 0 then 0 <= d && b <= OFF_MAX else len <= d < 0
  }

  /** The same bytes as a range. None is the kernel's EINVAL or EOVERFLOW. */
  function Range(f: File, offset: int, whence: Whence, len: int): (r: Option<(int, int)>)
    ensures r.Some? ==> 0 <= r.value.0 <= r.value.1 <= OFF_MAX
    ensures r.Some? ==> forall b :: r.value.0 <= b <= r.value.1 <==> Addresses(f, offset, whence, len, b)
    ensures r.None? ==> (forall b :: !Addresses(f, offset, whence, len, b)) ||
                        exists b :: Addresses(f, offset, whence, len, b) && !(0 <= b <= OFF_MAX)
  {
    var start := offset + Origin(f, whence);
    var lo := if len < 0 then start + len else start;
    var hi := if len < 0 then start - 1 else if len == 0 then OFF_MAX else start + len - 1;
    assert lo <= hi ==> Addresses(f, offset, whence, len, lo) && Addresses(f, offset, whence, len, hi);
    if 0 <= lo <= hi <= OFF_MAX then Some((lo, hi)) else None
  }

  /** From the start of the file, whatever its position and size: where the range begins and ends, and when
      the request is valid. */
  lemma RangeFromStart(f: File, offset: int, len: int)
    ensures var max := 0x7FFF_FFFF_FFFF_FFFF; var r := Range(f, offset, SEEK_SET, len);
            if len > 0 then
              r == if 0 <= offset && offset + len - 1 <= max then Some((offset, offset + len - 1)) else None
            else if len == 0 then r == if 0 <= offset <= max then Some((offset, max)) else None
            else r == if 0 <= offset + len && offset - 1 <= max then Some((offset + len, offset - 1)) else None
  {
  }

  /** SEEK_CUR counts from the position, SEEK_END from the size; nothing else of the file matters. */
  lemma RangeRelative(f: File, g: File, offset: int, len: int)
    ensures Range(f, offset, SEEK_CUR, len) == Range(g, offset + f.position, SEEK_SET, len)
    ensures Range(f, offset, SEEK_END, len) == Range(g, offset + f.size, SEEK_SET, len)
  {
  }

  predicate Covers(r: Record, b: int) {
    r.lo <= b <= r.hi
  }

  /** Two locks of different processes that share a byte and are not both read locks. */
  predicate Conflicts(r: Record, q: Record) {
    && r.pid != q.pid && r.lo <= q.hi && q.lo <= r.hi
    && (r.kind == F_WRLCK || q.kind == F_WRLCK)
  }

  /** The lock F_GETLK reports. */
  function FirstConflict(recs: seq<Record>, q: Record): Option<Record> {
    if recs == [] then None
    else if Conflicts(recs[0], q) then Some(recs[0])
    else FirstConflict(recs[1..], q)
  }

  /** What is left of a record when `q`'s process gives up the bytes of `q`. */
  function Cut(r: Record, q: Record): seq<Record> {
    if r.pid != q.pid || r.hi < q.lo || q.hi < r.lo then [r]
    else (if r.lo < q.lo then [r.(hi := q.lo - 1)] else []) + (if q.hi < r.hi then [r.(lo := q.hi + 1)] else [])
  }

  function CutAll(recs: seq<Record>, q: Record): seq<Record> {
    if recs == [] then [] else Cut(recs[0], q) + CutAll(recs[1..], q)
  }

  /** The table after a request that the kernel grants. */
  function Granted(recs: seq<Record>, q: Record): seq<Record> {
    CutAll(recs, q) + if q.kind == F_UNLCK then [] else [q]
  }

  /** Unlocking always succeeds; locking fails on a conflict. */
  predicate Grants(recs: seq<Record>, q: Record) {
    q.kind == F_UNLCK || FirstConflict(recs, q).None?
  }

  /** A process that exits, or closes the file, loses all its locks on it. */
  function Released(recs: seq<Record>, pid: nat): seq<Record> {
    Granted(recs, Record(pid, F_UNLCK, 0, OFF_MAX))
  }

  // ------------------------------------------------------------------ lock_reg and lock_test

  datatype Outcome = Ok | Busy | Blocks | Invalid

  function Request(pid: nat, kind: Type, range: (int, int)): Record {
    Record(pid, kind, range.0, range.1)
  }

  class LockTable {
    var recs: seq<Record>

    constructor ()
      ensures recs == []
    {
      recs := [];
    }

    /** lock_reg: fills a struct flock and hands it to fcntl. Blocks means F_SETLKW has not returned. */
    method LockReg(pid: nat, f: File, cmd: Command, kind: Type, offset: int, whence: Whence, len: int)
      returns (r: Outcome)
      modifies this
      ensures var range := Range(f, offset, whence, len);
              if range.None? then r == Invalid && recs == old(recs)
              else
                var q := Request(pid, kind, range.value);
                if Grants(old(recs), q) then r == Ok && recs == Granted(old(recs), q)
                else r == (if cmd == F_SETLK then Busy else Blocks) && recs == old(recs)
      ensures recs == After(old(recs), Reg(pid, f, cmd, kind, offset, whence, len))
      ensures old(Exclusive(recs) && Owners(recs)) && pid > 0 ==> Exclusive(recs) && Owners(recs)
    {
      var range := Range(f, offset, whence, len);
      if range.None? {
        return Invalid;
      }
      var q := Request(pid, kind, range.value);
      if kind != F_UNLCK && FirstConflict(recs, q).Some? {
        return if cmd == F_SETLK then Busy else Blocks;
      }
      if Exclusive(recs) && Owners(recs) && pid > 0 {
        GrantKeepsExclusive(recs, q);
      }
      recs := Granted(recs, q);
      r := Ok;
    }

    /** lock_test: 0 exactly when the same request by F_SETLK would be granted, otherwise the pid of a
        process that holds an incompatible lock on a byte of the range. None is the error exit. */
    method LockTest(pid: nat, f: File, kind: Type, offset: int, whence: Whence, len: int)
      returns (holder: Option<nat>)
      requires Owners(recs)
      ensures holder.None? <==> Range(f, offset, whence, len).None? || kind == F_UNLCK
      ensures holder.Some? ==>
                var range := Range(f, offset, whence, len).value;
                && (holder.value == 0 <==> Grants(recs, Request(pid, kind, range)))
                && (holder.value != 0 ==> ConflictingHolder(recs, Request(pid, kind, range), holder.value))
    {
      var range := Range(f, offset, whence, len);
      if range.None? || kind == F_UNLCK {
        return None;
      }
      var q := Request(pid, kind, range.value);
      var c := FirstConflict(recs, q);
      ConflictIsReal(recs, q);
      holder := Some(if c.None? then 0 else c.value.pid);
    }
  }

  // ------------------------------------------------------------------ locks byte by byte

  /** Process `pid` holds a lock of this kind on byte `b`. */
  ghost predicate Locked(recs: seq<Record>, pid: nat, kind: Type, b: int) {
    exists i :: 0 <= i < |recs| && recs[i].pid == pid && recs[i].kind == kind && Covers(recs[i], b)
  }

  /** Process ids are positive and nobody "holds" F_UNLCK. */
  ghost predicate Owners(recs: seq<Record>) {
    forall i :: 0 <= i < |recs| ==> recs[i].pid > 0 && recs[i].kind != F_UNLCK && recs[i].lo <= recs[i].hi
  }

  /** A write-locked byte is locked by nobody else, and not read-locked by its own holder. */
  ghost predicate Exclusive(recs: seq<Record>) {
    forall p: nat, k, q: nat, b :: Locked(recs, p, F_WRLCK, b) && Locked(recs, q, k, b) ==> p == q && k == F_WRLCK
  }

  /** Process `pid` is another one and holds an incompatible lock on some byte of the request. */
  ghost predicate ConflictingHolder(recs: seq<Record>, q: Record, pid: nat) {
    pid != q.pid && exists b, k :: Covers(q, b) && Locked(recs, pid, k, b) && (k == F_WRLCK || q.kind == F_WRLCK)
  }

  lemma LockedConcat(a: seq<Record>, c: seq<Record>, pid: nat, kind: Type, b: int)
    ensures Locked(a + c, pid, kind, b) <==> Locked(a, pid, kind, b) || Locked(c, pid, kind, b)
  {
    if Locked(a, pid, kind, b) {
      var i :| 0 <= i < |a| && a[i].pid == pid && a[i].kind == kind && Covers(a[i], b);
      assert (a + c)[i] == a[i];
    }
    if Locked(c, pid, kind, b) {
      var i :| 0 <= i < |c| && c[i].pid == pid && c[i].kind == kind && Covers(c[i], b);
      assert (a + c)[|a| + i] == c[i];
    }
  }

  lemma LockedOne(r: Record, pid: nat, kind: Type, b: int)
    ensures Locked([r], pid, kind, b) <==> r.pid == pid && r.kind == kind && Covers(r, b)
  {
    assert [r][0] == r;
  }

  /** Whether byte `b` of process `pid` is given up by `q`. */
  predicate GivenUp(q: Record, pid: nat, b: int) {
    pid == q.pid && Covers(q, b)
  }

  lemma CutAt(r: Record, q: Record, pid: nat, kind: Type, b: int)
    requires q.lo <= q.hi
    ensures Locked(Cut(r, q), pid, kind, b) <==> Locked([r], pid, kind, b) && !GivenUp(q, pid, b)
  {
    LockedOne(r, pid, kind, b);
    if !(r.pid != q.pid || r.hi < q.lo || q.hi < r.lo) {
      var left := if r.lo < q.lo then [r.(hi := q.lo - 1)] else [];
      var right := if q.hi < r.hi then [r.(lo := q.hi + 1)] else [];
      LockedConcat(left, right, pid, kind, b);
      LockedOne(r.(hi := q.lo - 1), pid, kind, b);
      LockedOne(r.(lo := q.hi + 1), pid, kind, b);
    }
  }

  lemma {:induction false} CutAllAt(recs: seq<Record>, q: Record, pid: nat, kind: Type, b: int)
    requires q.lo <= q.hi
    ensures Locked(CutAll(recs, q), pid, kind, b) <==> Locked(recs, pid, kind, b) && !GivenUp(q, pid, b)
  {
    if recs != [] {
      CutAllAt(recs[1..], q, pid, kind, b);
      CutAt(recs[0], q, pid, kind, b);
      LockedConcat(Cut(recs[0], q), CutAll(recs[1..], q), pid, kind, b);
      LockedConcat([recs[0]], recs[1..], pid, kind, b);
      assert recs == [recs[0]] + recs[1..];
    }
  }

  /** A granted request gives its process exactly the requested kind on exactly the requested bytes. */
  lemma GrantedAt(recs: seq<Record>, q: Record, pid: nat, kind: Type, b: int)
    requires q.lo <= q.hi && Owners(recs)
    ensures Locked(Granted(recs, q), pid, kind, b) <==>
            if GivenUp(q, pid, b) then kind == q.kind && kind != F_UNLCK else Locked(recs, pid, kind, b)
  {
    CutAllAt(recs, q, pid, kind, b);
    LockedOne(q, pid, kind, b);
    LockedConcat(CutAll(recs, q), if q.kind == F_UNLCK then [] else [q], pid, kind, b);
  }

  /** F_GETLK finds a conflict exactly when some process holds one, and then reports such a process. */
  lemma {:induction false} ConflictIsReal(recs: seq<Record>, q: Record)
    requires Owners(recs) && q.lo <= q.hi
    ensures FirstConflict(recs, q).None? <==> forall pid: nat :: !ConflictingHolder(recs, q, pid)
    ensures var c := FirstConflict(recs, q);
            c.Some? ==> c.value.pid > 0 && ConflictingHolder(recs, q, c.value.pid)
  {
    if recs == [] {
      assert forall pid: nat :: !ConflictingHolder(recs, q, pid);
    } else {
      var r := recs[0];
      HolderConcat(r, recs[1..], q);
      assert recs == [r] + recs[1..];
      ConflictIsReal(recs[1..], q);
      HolderOne(r, q);
      assert Conflicts(r, q) ==> ConflictingHolder([r], q, r.pid);
    }
  }

  lemma HolderConcat(r: Record, recs: seq<Record>, q: Record)
    ensures forall pid: nat :: ConflictingHolder([r] + recs, q, pid) <==>
                               ConflictingHolder([r], q, pid) || ConflictingHolder(recs, q, pid)
  {
    forall pid: nat, k, b {
      LockedConcat([r], recs, pid, k, b);
    }
  }

  lemma HolderOne(r: Record, q: Record)
    requires r.lo <= r.hi && q.lo <= q.hi
    ensures forall pid: nat :: ConflictingHolder([r], q, pid) <==> pid == r.pid && Conflicts(r, q)
  {
    forall pid: nat, k, b {
      LockedOne(r, pid, k, b);
    }
    if Conflicts(r, q) {
      var b := if r.lo < q.lo then q.lo else r.lo;
      assert Covers(r, b) && Covers(q, b);
      LockedOne(r, r.pid, r.kind, b);
    }
  }

  lemma {:induction false} CutKeepsOwners(recs: seq<Record>, q: Record)
    requires Owners(recs)
    ensures Owners(CutAll(recs, q))
  {
    if recs != [] {
      CutKeepsOwners(recs[1..], q);
    }
  }

  lemma NoConflictAt(recs: seq<Record>, q: Record, pid: nat, kind: Type, b: int)
    requires Owners(recs) && Grants(recs, q) && q.lo <= q.hi && q.kind != F_UNLCK
    ensures Covers(q, b) && pid != q.pid && Locked(recs, pid, kind, b) ==> kind != F_WRLCK && q.kind != F_WRLCK
  {
    ConflictIsReal(recs, q);
    assert !ConflictingHolder(recs, q, pid);
  }

  /** No request that is granted lets two processes have incompatible locks on one byte. */
  lemma GrantKeepsExclusive(recs: seq<Record>, q: Record)
    requires Exclusive(recs) && Owners(recs) && Grants(recs, q) && q.lo <= q.hi && q.pid > 0
    ensures Exclusive(Granted(recs, q)) && Owners(Granted(recs, q))
  {
    CutKeepsOwners(recs, q);
    var recs' := Granted(recs, q);
    forall p: nat, k, o: nat, b | Locked(recs', p, F_WRLCK, b) && Locked(recs', o, k, b)
      ensures p == o && k == F_WRLCK
    {
      GrantedAt(recs, q, p, F_WRLCK, b);
      GrantedAt(recs, q, o, k, b);
      if q.kind != F_UNLCK {
        NoConflictAt(recs, q, p, F_WRLCK, b);
        NoConflictAt(recs, q, o, k, b);
      }
    }
  }

  // ------------------------------------------------------------------ histories of calls

  datatype Call =
    | Reg(pid: nat, file: File, cmd: Command, kind: Type, offset: int, whence: Whence, len: int)
    | Exit(pid: nat)

  /** The table after one call; a refused, blocked or invalid one changes nothing. */
  function After(recs: seq<Record>, c: Call): seq<Record> {
    match c
    case Reg(pid, f, _, kind, offset, whence, len) =>
      var range := Range(f, offset, whence, len);
      if range.Some? && Grants(recs, Request(pid, kind, range.value))
      then Granted(recs, Request(pid, kind, range.value))
      else recs
    case Exit(pid) => Released(recs, pid)
  }

  /** A process that exits loses its locks and nobody else does. */
  lemma ExitReleases(recs: seq<Record>, p: nat, pid: nat, kind: Type, b: int)
    requires Owners(recs) && 0 <= b <= OFF_MAX
    ensures Locked(After(recs, Exit(p)), pid, kind, b) <==> pid != p && Locked(recs, pid, kind, b)
  {
    GrantedAt(recs, Record(p, F_UNLCK, 0, OFF_MAX), pid, kind, b);
  }

  function History(calls: seq<Call>): seq<Record> {
    if calls == [] then [] else After(History(calls[..|calls| - 1]), calls[|calls| - 1])
  }

  /** After any calls by any processes, a write-locked byte is locked by its holder alone. */
  lemma {:induction false} EveryHistory(calls: seq<Call>)
    requires forall i :: 0 <= i < |calls| ==> calls[i].pid > 0
    ensures Exclusive(History(calls)) && Owners(History(calls))
  {
    if calls != [] {
      var c, before := calls[|calls| - 1], History(calls[..|calls| - 1]);
      EveryHistory(calls[..|calls| - 1]);
      match c
      case Reg(pid, f, _, kind, offset, whence, len) =>
        var range := Range(f, offset, whence, len);
        if range.Some? && Grants(before, Request(pid, kind, range.value)) {
          GrantKeepsExclusive(before, Request(pid, kind, range.value));
        }
      case Exit(pid) =>
        GrantKeepsExclusive(before, Record(pid, F_UNLCK, 0, OFF_MAX));
    }
  }
}
