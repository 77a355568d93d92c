/** The doubly linked job queue of pthread/job_queue.c, with its pointers updated in place.
    The ghost field `jobs` is the queue read from head to tail; `Valid` says that the next-chain
    from the head and the prev-chain from the tail are mirror images of that one sequence. */
module JobQueue {

  class Job {
    const id: int
    var prev: Job?
    var next: Job?

    constructor (id: int)
      ensures this.id == id
    {
      this.id := id;
    }
  }

  /** What a traversal prints: the ids of the jobs in order. */
  function Ids(jobs: seq<Job>): (ids: seq<int>)
    ensures |ids| == |jobs| && forall i :: 0 <= i < |jobs| ==> ids[i] == jobs[i].id
  {
    seq(|jobs|, i requires 0 <= i < |jobs| => jobs[i].id)
  }

  ghost function At(jobs: seq<Job>, i: int): Job? {
    if 0 <= i < |jobs| then jobs[i] else null
  }

  ghost predicate Distinct(jobs: seq<Job>) {
    forall i, j :: 0 <= i < j < |jobs| ==> jobs[i] != jobs[j]
  }

  ghost predicate Linked(jobs: seq<Job>, i: int)
    requires 0 <= i < |jobs|
    reads jobs
  {
    jobs[i].next == At(jobs, i + 1) && jobs[i].prev == At(jobs, i - 1)
  }

  class Queue {
    var head: Job?
    var tail: Job?
    ghost var jobs: seq<Job>

    ghost function Nodes(): set<Job>
      reads this
    {
      set j | j in jobs
    }

    ghost predicate Valid()
      reads this, jobs
    {
      && Distinct(jobs)
      && head == At(jobs, 0)
      && tail == At(jobs, |jobs| - 1)
      && (forall i :: 0 <= i < |jobs| ==> Linked(jobs, i))
    }

    /** queue_init */
    constructor ()
      ensures Valid() && jobs == []
    {
      head := null;
      tail := null;
      jobs := [];
    }

    method Insert(jp: Job)
      requires Valid() && jp !in jobs
      modifies this, jp, Nodes()
      ensures Valid() && jobs == [jp] + old(jobs)
    {
      jp.next := head;
      jp.prev := null;
      if head != null {
        head.prev := jp;
      } else {
        tail := jp;
      }
      head := jp;
      ghost var s := jobs;
      jobs := [jp] + jobs;
      forall i | 0 <= i < |jobs| ensures Linked(jobs, i) {
        assert i > 0 ==> jobs[i] == s[i - 1] && old(Linked(s, i - 1));
      }
    }

    method Append(jp: Job)
      requires Valid() && jp !in jobs
      modifies this, jp, Nodes()
      ensures Valid() && jobs == old(jobs) + [jp]
    {
      jp.prev := tail;
      jp.next := null;
      if tail != null {
        tail.next := jp;
      } else {
        head := jp;
      }
      tail := jp;
      ghost var s := jobs;
      jobs := jobs + [jp];
      forall i | 0 <= i < |jobs| ensures Linked(jobs, i) {
        assert i < |s| ==> jobs[i] == s[i] && old(Linked(s, i));
      }
    }

    /** Deletes exactly `jp`, found at position `k`; the removed node keeps its stale pointers. */
    method Remove(jp: Job) returns (ghost k: nat)
      requires Valid() && jp in jobs
      modifies this, Nodes()
      ensures k < |old(jobs)| && old(jobs)[k] == jp
      ensures Valid() && jobs == old(jobs)[..k] + old(jobs)[k + 1..]
      ensures jp !in jobs && jp.next == old(jp.next) && jp.prev == old(jp.prev)
    {
      k :| 0 <= k < |jobs| && jobs[k] == jp;
      assert Linked(jobs, k);
      if jp == head {
        head := jp.next;
        if tail == jp {
          tail := null;
        } else {
          jp.next.prev := null;
        }
      } else if jp == tail {
        tail := jp.prev;
        if jp == head {
          assert false; // the head was compared above and has not moved since
        } else {
          jp.prev.next := null;
        }
      } else {
        jp.prev.next := jp.next;
        jp.next.prev := jp.prev;
      }
      ghost var s := jobs;
      jobs := jobs[..k] + jobs[k + 1..];
      forall i | 0 <= i < |jobs| ensures Linked(jobs, i) {
        var m := if i < k then i else i + 1;
        assert jobs[i] == s[m] && old(Linked(s, m));
      }
    }

    /** The first job with the wanted id, or null when there is none or the read lock was refused. */
    method Find(id: int, lockError: int) returns (jp: Job?)
      requires Valid()
      ensures lockError != 0 ==> jp == null
      ensures lockError == 0 && jp == null ==> id !in Ids(jobs)
      ensures jp != null ==> jp.id == id && exists k :: 0 <= k < |jobs| && jobs[k] == jp && id !in Ids(jobs[..k])
    {
      if lockError != 0 {
        return null;
      }
      ghost var k := 0;
      jp := head;
      while jp != null
        invariant 0 <= k <= |jobs| && jp == At(jobs, k)
        invariant id !in Ids(jobs[..k])
        decreases |jobs| - k
      {
        if jp.id == id {
          assert jobs[k] == jp;
          break;
        }
        assert Linked(jobs, k);
        assert jobs[..k + 1] == jobs[..k] + [jobs[k]];
        jp := jp.next;
        k := k + 1;
      }
      assert jp == null ==> jobs[..k] == jobs;
    }

    /** What traverse_jobs prints; a refused read lock ends the process instead. */
    method Traverse(lockError: int) returns (printed: seq<int>, exited: bool)
      requires Valid()
      ensures exited <==> lockError != 0
      ensures printed == if exited then [] else Ids(jobs)
    {
      printed, exited := [], lockError != 0;
      if exited {
        return;
      }
      var jp := head;
      while jp != null
        invariant |printed| <= |jobs| && jp == At(jobs, |printed|)
        invariant forall i :: 0 <= i < |printed| ==> printed[i] == jobs[i].id
        decreases |jobs| - |printed|
      {
        assert Linked(jobs, |printed|);
        printed := printed + [jp.id];
        jp := jp.next;
      }
    }

    /** Walking `k` links forward from the head and backward from the tail visits the same sequence
        from its two ends, and each walk stops after exactly |jobs| links: no cycle. */
    lemma {:induction false} MirrorChains(k: nat)
      requires Valid() && k <= |jobs|
      ensures Forward(head, k) == At(jobs, k)
      ensures Backward(tail, k) == At(jobs, |jobs| - 1 - k)
    {
      if k > 0 {
        MirrorChains(k - 1);
        assert Linked(jobs, k - 1) && Linked(jobs, |jobs| - k);
      }
    }

    /** The comparison thr_fn2 makes without the lock, when no writer is active. */
    lemma HeadEqualsTail()
      requires Valid()
      ensures head == tail <==> |jobs| <= 1
    {
      if |jobs| > 1 {
        assert jobs[0] != jobs[|jobs| - 1];
      }
    }

    ghost function Forward(j: Job?, k: nat): Job?
      reads this, jobs
      decreases k
    {
      if k == 0 then j
      else var p := Forward(j, k - 1); if p != null && p in jobs then p.next else null
    }

    ghost function Backward(j: Job?, k: nat): Job?
      reads this, jobs
      decreases k
    {
      if k == 0 then j
      else var p := Backward(j, k - 1); if p != null && p in jobs then p.prev else null
    }
  }

  /** The order thr_fn1 builds: odd ids are inserted at the head, even ids appended. */
  function Interleaved(n: nat): (ids: seq<int>)
    ensures |ids| == n
  {
    if n == 0 then []
    else if (n - 1) % 2 == 1 then [n - 1] + Interleaved(n - 1)
    else Interleaved(n - 1) + [n - 1]
  }

  /** Odd ids descending, then even ids ascending. */
  lemma {:induction false} InterleavedAt(n: nat, k: nat)
    requires k < n
    ensures Interleaved(n)[k] == if k < n / 2 then 2 * (n / 2 - k) - 1 else 2 * (k - n / 2)
  {
    if (n - 1) % 2 == 1 {
      if k > 0 {
        InterleavedAt(n - 1, k - 1);
      }
    } else if k < n - 1 {
      InterleavedAt(n - 1, k);
    }
  }

  /** Slots `lo` to `hi` of jp_arr hold the jobs with those ids, all of them in the queue. */
  ghost predicate Recorded(q: Queue, arr: array<Job?>, lo: nat, hi: nat)
    reads q, arr
    requires hi <= arr.Length
  {
    forall k :: lo <= k < hi ==> arr[k] != null && arr[k] in q.Nodes() && arr[k].id == k
  }

  /** One turn of thr_fn1's first loop. */
  method Put(q: Queue, arr: array<Job?>, i: nat)
    requires q.Valid() && i < arr.Length
    modifies q, q.Nodes(), arr
    ensures q.Valid() && arr[i] != null && fresh(arr[i]) && arr[i].id == i
    ensures Ids(q.jobs) == if i % 2 == 1 then [i] + old(Ids(q.jobs)) else old(Ids(q.jobs)) + [i]
    ensures q.Nodes() == old(q.Nodes()) + {arr[i]}
    ensures forall k :: 0 <= k < arr.Length && k != i ==> arr[k] == old(arr[k])
  {
    var jp := new Job(i);
    if i % 2 == 1 {
      q.Insert(jp);
    } else {
      q.Append(jp);
    }
    arr[i] := jp;
  }

  /** First loop of thr_fn1. */
  method Fill(q: Queue, arr: array<Job?>)
    requires q.Valid() && q.jobs == []
    modifies q, arr
    ensures q.Valid() && fresh(q.Nodes())
    ensures Ids(q.jobs) == Interleaved(arr.Length) && Recorded(q, arr, 0, arr.Length)
  {
    var i := 0;
    while i < arr.Length
      invariant 0 <= i <= arr.Length
      invariant q.Valid() && fresh(q.Nodes())
      invariant Ids(q.jobs) == Interleaved(i) && Recorded(q, arr, 0, i)
    {
      Put(q, arr, i);
      i := i + 1;
    }
  }

  /** thr_fn1: whatever the number of jobs, the queue it filled ends empty. */
  method ThreadOne(q: Queue, arr: array<Job?>)
    requires q.Valid() && q.jobs == []
    modifies q, arr
    ensures q.Valid() && q.jobs == []
  {
    Fill(q, arr);
    var i := 0;
    while i < arr.Length
      invariant 0 <= i <= arr.Length
      invariant q.Valid() && fresh(q.Nodes())
      invariant |q.jobs| == arr.Length - i && Recorded(q, arr, i, arr.Length)
    {
      ghost var before, nodes := q.jobs, q.Nodes();
      ghost var k := q.Remove(arr[i]);
      assert before == before[..k] + [before[k]] + before[k + 1..];
      assert q.Nodes() == nodes - {arr[i]};
      i := i + 1;
    }
  }
}
