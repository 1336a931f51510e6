/**
 * The job state machine of `riparr.core.job`: a `Job` whose methods move it between
 * statuses and log errors, and a `JobQueue` that admits jobs under a concurrency limit and
 * retires old completed ones. Timestamps are opaque ordered values, passed in as `now`.
 */
module JobModel {
  import opened Wrappers
  import opened Lists
  import opened CoreDisc

  datatype JobStatus = Pending | Scanning | Ripping | Ripped | Encoding | Complete | Failed | Cancelled

  /** The string value each status carries. */
  function StatusValue(s: JobStatus): string
  {
    match s
    case Pending => "pending"
    case Scanning => "scanning"
    case Ripping => "ripping"
    case Ripped => "ripped"
    case Encoding => "encoding"
    case Complete => "complete"
    case Failed => "failed"
    case Cancelled => "cancelled"
  }

  /** `JobStatus(value)`: the status with that value, if any. */
  function StatusFromValue(v: string): (r: Option<JobStatus>)
    ensures r.Some? ==> StatusValue(r.value) == v
  {
    match v
    case "pending" => Some(Pending)
    case "scanning" => Some(Scanning)
    case "ripping" => Some(Ripping)
    case "ripped" => Some(Ripped)
    case "encoding" => Some(Encoding)
    case "complete" => Some(Complete)
    case "failed" => Some(Failed)
    case "cancelled" => Some(Cancelled)
    case _ => None
  }

  /** Every status reads back from its value, so no two statuses share one. */
  lemma StatusValueRoundTrip(s: JobStatus)
    ensures StatusFromValue(StatusValue(s)) == Some(s)
  {
    match s
    case Pending =>
    case Scanning =>
    case Ripping =>
    case Ripped =>
    case Encoding =>
    case Complete =>
    case Failed =>
    case Cancelled =>
  }

  /** `is_terminal` on a status. */
  predicate Terminal(s: JobStatus)
  {
    s == Complete || s == Failed || s == Cancelled
  }

  /** `can_retry` on a status. */
  predicate Retryable(s: JobStatus)
  {
    s == Failed
  }

  /** Only a terminal job can be retried, and retrying is never offered for a finished or cancelled one. */
  lemma RetryableTerminal(s: JobStatus)
    ensures Retryable(s) ==> Terminal(s)
    ensures Terminal(s) <==> Retryable(s) || s == Complete || s == Cancelled
  {
  }

  /** The statuses `get_next` counts against the concurrency limit. */
  const Running: set<JobStatus> := {Scanning, Ripping, Encoding}

  /** The statuses `get_active` keeps. */
  const NonTerminal: set<JobStatus> := {Pending, Scanning, Ripping, Ripped, Encoding}

  lemma NonTerminalMeaning(s: JobStatus)
    ensures s in NonTerminal <==> !Terminal(s)
    ensures s in Running ==> s in NonTerminal
  {
  }

  /** One entry of a job's error log. */
  datatype JobError = JobError(message: string, stage: string, timestamp: int, details: Option<string>)

  class Job {
    var id: string
    var disc: Disc
    var selectedTitles: seq<Title>
    var outputDir: string
    var status: JobStatus
    var createdAt: int
    var startedAt: Option<int>
    var completedAt: Option<int>
    var currentTitle: Option<int>
    var progress: real
    var errors: seq<JobError>
    var outputFiles: seq<string>

    /** A new job is pending with nothing started, logged or written. */
    constructor(id: string, disc: Disc, outputDir: string, now: int)
      ensures this.id == id && this.disc == disc && this.outputDir == outputDir && createdAt == now
      ensures status == Pending && selectedTitles == [] && startedAt == None && completedAt == None
      ensures currentTitle == None && progress == 0.0 && errors == [] && outputFiles == []
    {
      this.id := id;
      this.disc := disc;
      selectedTitles := [];
      this.outputDir := outputDir;
      status := Pending;
      createdAt := now;
      startedAt := None;
      completedAt := None;
      currentTitle := None;
      progress := 0.0;
      errors := [];
      outputFiles := [];
    }

    /** Everything but the status, the two timestamps, the progress and the error log. */
    ghost predicate SameWork(id0: string, disc0: Disc, titles0: seq<Title>, dir0: string, created0: int, current0: Option<int>, files0: seq<string>)
      reads this
    {
      id == id0 && disc == disc0 && selectedTitles == titles0 && outputDir == dir0 &&
      createdAt == created0 && currentTitle == current0 && outputFiles == files0
    }

    /** `is_terminal`: complete, failed or cancelled, that is, in none of the active states. */
    predicate IsTerminal()
      reads this
      ensures IsTerminal() <==> status !in NonTerminal
    {
      NonTerminalMeaning(status);
      Terminal(status)
    }

    /** `can_retry`: only a failed job, which is always a finished one. */
    predicate CanRetry()
      reads this
      ensures CanRetry() ==> IsTerminal()
    {
      RetryableTerminal(status);
      Retryable(status)
    }

    /** `start`: scanning, started now. */
    method Start(now: int)
      modifies this
      ensures status == Scanning && startedAt == Some(now) && !IsTerminal()
      ensures completedAt == old(completedAt) && progress == old(progress) && errors == old(errors)
      ensures SameWork(old(id), old(disc), old(selectedTitles), old(outputDir), old(createdAt), old(currentTitle), old(outputFiles))
    {
      startedAt := Some(now);
      status := Scanning;
    }

    /** `complete`: complete at 100 per cent, completed now. */
    method Complete(now: int)
      modifies this
      ensures status == JobStatus.Complete && completedAt == Some(now) && progress == 100.0
      ensures IsTerminal() && !CanRetry()
      ensures startedAt == old(startedAt) && errors == old(errors)
      ensures SameWork(old(id), old(disc), old(selectedTitles), old(outputDir), old(createdAt), old(currentTitle), old(outputFiles))
    {
      completedAt := Some(now);
      status := JobStatus.Complete;
      progress := 100.0;
    }

    /** `fail`: failed, with exactly one more error logged; the completion time is left alone. */
    method Fail(message: string, stage: string, details: Option<string>, now: int)
      modifies this
      ensures status == Failed && IsTerminal() && CanRetry()
      ensures errors == old(errors) + [JobError(message, stage, now, details)]
      ensures startedAt == old(startedAt) && completedAt == old(completedAt) && progress == old(progress)
      ensures SameWork(old(id), old(disc), old(selectedTitles), old(outputDir), old(createdAt), old(currentTitle), old(outputFiles))
    {
      status := Failed;
      errors := errors + [JobError(message, stage, now, details)];
    }

    /** `cancel`: cancelled, nothing else touched. */
    method Cancel()
      modifies this
      ensures status == Cancelled && IsTerminal() && !CanRetry()
      ensures startedAt == old(startedAt) && completedAt == old(completedAt) && progress == old(progress)
      ensures errors == old(errors)
      ensures SameWork(old(id), old(disc), old(selectedTitles), old(outputDir), old(createdAt), old(currentTitle), old(outputFiles))
    {
      status := Cancelled;
    }
  }

  // ---------------------------------------------------------------------------
  // The queue's views of its jobs
  // ---------------------------------------------------------------------------

  /** The jobs whose status is in `ss`, in queue order (the comprehensions of `get_pending`, `get_active` and `get_next`). */
  function WithStatus(js: seq<Job>, ss: set<JobStatus>): (r: seq<Job>)
    reads js
    ensures |r| <= |js|
    ensures forall i :: 0 <= i < |r| ==> r[i].status in ss && r[i] in js
    ensures forall j :: j in js && j.status in ss ==> j in r
    decreases |js|
  {
    if js == [] then []
    else
      var init := js[..|js| - 1];
      var last := js[|js| - 1];
      assert js == init + [last];
      WithStatus(init, ss) + (if last.status in ss then [last] else [])
  }

  /** The selection keeps the queue's order. */
  lemma {:induction false} WithStatusSubseq(js: seq<Job>, ss: set<JobStatus>)
    ensures Subseq(WithStatus(js, ss), js)
    decreases |js|
  {
    if js != [] {
      var init := js[..|js| - 1];
      WithStatusSubseq(init, ss);
      var r := WithStatus(js, ss);
      if js[|js| - 1].status in ss {
        assert r[..|r| - 1] == WithStatus(init, ss);
      } else {
        assert r == WithStatus(init, ss);
      }
    }
  }

  /** The first selected job is the earliest job of the queue with such a status. */
  lemma {:induction false} WithStatusFirst(js: seq<Job>, ss: set<JobStatus>)
    ensures WithStatus(js, ss) == [] <==> forall i :: 0 <= i < |js| ==> js[i].status !in ss
    ensures WithStatus(js, ss) != [] ==>
      exists i :: 0 <= i < |js| && js[i] == WithStatus(js, ss)[0] && forall k :: 0 <= k < i ==> js[k].status !in ss
    decreases |js|
  {
    if js != [] {
      var init := js[..|js| - 1];
      WithStatusFirst(init, ss);
      if WithStatus(init, ss) == [] {
        assert forall k :: 0 <= k < |js| - 1 ==> js[k].status !in ss by {
          forall k | 0 <= k < |js| - 1 ensures js[k].status !in ss {
            assert js[k] == init[k];
          }
        }
      } else {
        var i :| 0 <= i < |init| && init[i] == WithStatus(init, ss)[0] && forall k :: 0 <= k < i ==> init[k].status !in ss;
        assert js[i] == init[i];
        assert forall k :: 0 <= k < i ==> js[k] == init[k];
      }
    }
  }

  /**
   * `get_next`: nothing while `maxConcurrent` or more jobs are scanning, ripping or
   * encoding; otherwise the first pending job, if any.
   */
  function Next(js: seq<Job>, maxConcurrent: int): (r: Option<Job>)
    reads js
    ensures |WithStatus(js, Running)| >= maxConcurrent ==> r.None?
    ensures |WithStatus(js, Running)| < maxConcurrent ==>
      (r.None? <==> forall i :: 0 <= i < |js| ==> js[i].status != Pending)
    ensures r.Some? ==>
      exists i :: 0 <= i < |js| && js[i] == r.value && js[i].status == Pending &&
        forall k :: 0 <= k < i ==> js[k].status != Pending
  {
    var pending := WithStatus(js, {Pending});
    WithStatusFirst(js, {Pending});
    if |WithStatus(js, Running)| >= maxConcurrent then None
    else if pending == [] then None
    else Some(pending[0])
  }

  // ---------------------------------------------------------------------------
  // cleanup_completed
  // ---------------------------------------------------------------------------

  /** `datetime.min`, taken as time 0: the least key as long as timestamps are not negative. */
  const DatetimeMin: int := 0

  /** The sort key of a completed job: its completion time, or `datetime.min` without one. */
  function CompletionKey(j: Job): int
    reads j
  {
    match j.completedAt
    case Some(t) => t
    case None => DatetimeMin
  }

  /** A completed job with its key, taken once so that sorting does not read the heap. */
  type Keyed = (Job, int)

  const NewestFirst: Keyed -> int := (p: Keyed) => -p.1

  /** The completed jobs, in queue order, each with its key. */
  function CompletedKeyed(js: seq<Job>): (r: seq<Keyed>)
    reads js
    ensures forall i :: 0 <= i < |r| ==> r[i].0 in js && r[i].0.status == Complete && r[i].1 == CompletionKey(r[i].0)
    ensures multiset(JobsOf(r)) <= multiset(js)
    decreases |js|
  {
    if js == [] then []
    else
      var init := js[..|js| - 1];
      var last := js[|js| - 1];
      assert js == init + [last];
      var r := CompletedKeyed(init) + (if last.status == Complete then [(last, CompletionKey(last))] else []);
      JobsOfAppend(CompletedKeyed(init), if last.status == Complete then [(last, CompletionKey(last))] else []);
      r
  }

  function JobsOf(ps: seq<Keyed>): (r: seq<Job>)
    ensures |r| == |ps| && forall i :: 0 <= i < |ps| ==> r[i] == ps[i].0
  {
    seq(|ps|, i requires 0 <= i < |ps| => ps[i].0)
  }

  lemma JobsOfAppend(a: seq<Keyed>, b: seq<Keyed>)
    ensures JobsOf(a + b) == JobsOf(a) + JobsOf(b)
  {
  }

  lemma JobsOfMultiset(a: seq<Keyed>, b: seq<Keyed>)
    requires multiset(a) == multiset(b)
    ensures multiset(JobsOf(a)) == multiset(JobsOf(b))
    decreases |a|
  {
    if a != [] {
      var x := a[0];
      assert x in multiset(b);
      var i :| 0 <= i < |b| && b[i] == x;
      var b' := b[..i] + b[i + 1..];
      assert b == b[..i] + [x] + b[i + 1..];
      assert a == [x] + a[1..];
      assert multiset(b) == multiset(b[..i]) + multiset{x} + multiset(b[i + 1..]);
      assert multiset(a) == multiset{x} + multiset(a[1..]);
      assert multiset(b') == multiset(b[..i]) + multiset(b[i + 1..]);
      assert multiset(a[1..]) == multiset(a) - multiset{x};
      assert multiset(b') == multiset(b) - multiset{x};
      JobsOfMultiset(a[1..], b');
      JobsOfAppend([x], a[1..]);
      JobsOfAppend(b[..i] + [x], b[i + 1..]);
      JobsOfAppend(b[..i], [x]);
      JobsOfAppend(b[..i], b[i + 1..]);
    }
  }

  /** The completed jobs in the order `cleanup_completed` sorts them: newest completion first. */
  function ByNewest(js: seq<Job>): (r: seq<Keyed>)
    reads js
  {
    SortBy(CompletedKeyed(js), NewestFirst)
  }

  /** The jobs `cleanup_completed(keep)` removes: all but the first `keep` of the newest-first order. */
  function ToRemove(js: seq<Job>, keep: int): seq<Job>
    reads js
  {
    JobsOf(PyDrop(ByNewest(js), keep))
  }

  /** `list.remove`: drop the first occurrence, if there is one. */
  function RemoveFirst(s: seq<Job>, x: Job): (r: seq<Job>)
    ensures multiset(r) == multiset(s) - multiset{x}
    ensures x !in s ==> r == s
  {
    if x !in s then s
    else
      var i := FirstIndex(s, x);
      assert s == s[..i] + [x] + s[i + 1..];
      s[..i] + s[i + 1..]
  }

  /** The position of the first occurrence of a job in the list. */
  function FirstIndex(s: seq<Job>, x: Job): (i: nat)
    requires x in s
    ensures i < |s| && s[i] == x && forall k :: 0 <= k < i ==> s[k] != x
    decreases |s|
  {
    if s[0] == x then 0
    else
      var j := FirstIndex(s[1..], x);
      assert forall k :: 1 <= k <= j ==> s[k] == s[1..][k - 1];
      1 + j
  }

  /** Removing each of `rs` in turn. */
  function RemoveEach(s: seq<Job>, rs: seq<Job>): seq<Job>
    decreases |rs|
  {
    if rs == [] then s else RemoveFirst(RemoveEach(s, rs[..|rs| - 1]), rs[|rs| - 1])
  }

  /** Removing each of `rs` takes exactly `rs` out of the queue's multiset of jobs. */
  lemma {:induction false} RemoveEachMultiset(s: seq<Job>, rs: seq<Job>)
    ensures multiset(RemoveEach(s, rs)) == multiset(s) - multiset(rs)
    decreases |rs|
  {
    if rs != [] {
      var init := rs[..|rs| - 1];
      assert rs == init + [rs[|rs| - 1]];
      RemoveEachMultiset(s, init);
    }
  }

  /** Only completed jobs are removed, each of them at most as often as it is queued. */
  lemma ToRemoveCompleted(js: seq<Job>, keep: int)
    ensures forall j :: j in ToRemove(js, keep) ==> j.status == Complete
    ensures multiset(ToRemove(js, keep)) <= multiset(js)
  {
    var sorted := ByNewest(js);
    var c := CompletedKeyed(js);
    JobsOfMultiset(sorted, c);
    var d := PyDrop(sorted, keep);
    assert sorted == PyTake(sorted, keep) + d;
    JobsOfAppend(PyTake(sorted, keep), d);
    forall j | j in ToRemove(js, keep) ensures j.status == Complete {
      var i :| 0 <= i < |d| && JobsOf(d)[i] == j;
      assert d[i] in multiset(sorted);
      assert d[i] in c;
    }
  }

  /** Jobs that are not complete keep their place in the queue. */
  lemma CleanupKeepsUnfinished(js: seq<Job>, keep: int, j: Job)
    requires j.status != Complete
    ensures multiset(RemoveEach(js, ToRemove(js, keep)))[j] == multiset(js)[j]
  {
    ToRemoveCompleted(js, keep);
    RemoveEachMultiset(js, ToRemove(js, keep));
    assert j !in ToRemove(js, keep);
  }

  /** For a non-negative `keep`, everything beyond the newest `keep` completed jobs goes. */
  lemma CleanupCount(js: seq<Job>, keep: int)
    requires keep >= 0
    ensures |ToRemove(js, keep)| == if |CompletedKeyed(js)| <= keep then 0 else |CompletedKeyed(js)| - keep
  {
    assert PyTake(ByNewest(js), keep) + PyDrop(ByNewest(js), keep) == ByNewest(js);
  }

  /** Every job kept of those completed finished no earlier than any job removed. */
  lemma CleanupKeepsNewest(js: seq<Job>, keep: int)
    requires keep >= 0
    ensures forall x, y :: x in PyTake(ByNewest(js), keep) && y in PyDrop(ByNewest(js), keep) ==> x.1 >= y.1
  {
    var sorted := ByNewest(js);
    var n := |PyTake(sorted, keep)|;
    assert PyTake(sorted, keep) == sorted[..n];
    assert PyDrop(sorted, keep) == sorted[n..];
    SortedPrefixFirst(sorted, NewestFirst, n);
    forall x, y | x in sorted[..n] && y in sorted[n..] ensures x.1 >= y.1 {
      assert y in multiset(sorted[n..]);
      assert NewestFirst(x) <= NewestFirst(y);
    }
  }

  class JobQueue {
    var jobs: seq<Job>
    var maxConcurrent: int

    constructor(maxConcurrent: int)
      ensures jobs == [] && this.maxConcurrent == maxConcurrent
    {
      jobs := [];
      this.maxConcurrent := maxConcurrent;
    }

    /** `add`: the job goes last. */
    method Add(job: Job)
      modifies this
      ensures jobs == old(jobs) + [job] && maxConcurrent == old(maxConcurrent)
    {
      jobs := jobs + [job];
    }

    /** `get_pending`: the pending jobs, all of them, in queue order. */
    function GetPending(): (r: seq<Job>)
      reads this, jobs
      ensures forall i :: 0 <= i < |r| ==> r[i].status == Pending && r[i] in jobs
      ensures forall j :: j in jobs && j.status == Pending ==> j in r
      ensures Subseq(r, jobs)
    {
      WithStatusSubseq(jobs, {Pending});
      WithStatus(jobs, {Pending})
    }

    /** `get_active`: the jobs that are not terminal, all of them, in queue order. */
    function GetActive(): (r: seq<Job>)
      reads this, jobs
      ensures forall i :: 0 <= i < |r| ==> !Terminal(r[i].status) && r[i] in jobs
      ensures forall j :: j in jobs && !Terminal(j.status) ==> j in r
      ensures Subseq(r, jobs)
    {
      WithStatusSubseq(jobs, NonTerminal);
      forall s: JobStatus ensures s in NonTerminal <==> !Terminal(s) {
        NonTerminalMeaning(s);
      }
      WithStatus(jobs, NonTerminal)
    }

    /** `get_next`: nothing at the concurrency limit, else the earliest pending job, if any. */
    function GetNext(): (r: Option<Job>)
      reads this, jobs
      ensures |WithStatus(jobs, Running)| >= maxConcurrent ==> r.None?
      ensures |WithStatus(jobs, Running)| < maxConcurrent ==> (r.None? <==> GetPending() == [])
      ensures r.Some? ==> r.value in jobs && r.value.status == Pending && r.value == GetPending()[0]
    {
      WithStatusFirst(jobs, {Pending});
      Next(jobs, maxConcurrent)
    }

    /** `get_by_id`: the first job in the queue with the id, or nothing. */
    method GetById(id: string) returns (r: Option<Job>)
      ensures r.None? <==> forall i :: 0 <= i < |jobs| ==> jobs[i].id != id
      ensures r.Some? ==>
        exists i :: 0 <= i < |jobs| && jobs[i] == r.value && jobs[i].id == id &&
          forall k :: 0 <= k < i ==> jobs[k].id != id
    {
      var i := 0;
      while i < |jobs|
        invariant 0 <= i <= |jobs|
        invariant forall k :: 0 <= k < i ==> jobs[k].id != id
      {
        if jobs[i].id == id {
          return Some(jobs[i]);
        }
        i := i + 1;
      }
      return None;
    }

    /**
     * `cleanup_completed`: the completed jobs beyond the newest `keep` leave the queue, one
     * `list.remove` each, and their number is returned.
     */
    method CleanupCompleted(keep: int) returns (removed: int)
      modifies this
      ensures jobs == RemoveEach(old(jobs), old(ToRemove(jobs, keep)))
      ensures removed == |old(ToRemove(jobs, keep))|
      ensures maxConcurrent == old(maxConcurrent)
    {
      var toRemove := ToRemove(jobs, keep);
      ghost var jobs0 := jobs;
      var i := 0;
      while i < |toRemove|
        invariant 0 <= i <= |toRemove|
        invariant jobs == RemoveEach(jobs0, toRemove[..i])
        invariant maxConcurrent == old(maxConcurrent)
      {
        assert toRemove[..i + 1][..i] == toRemove[..i];
        jobs := RemoveFirst(jobs, toRemove[i]);
        i := i + 1;
      }
      assert toRemove[..i] == toRemove;
      removed := |toRemove|;
    }
  }
}
