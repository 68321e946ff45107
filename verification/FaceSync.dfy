/**
 * The face-template sync queue: one row per attempt chain of a (device, employee, action), drained by
 * a worker in `next_retry_at` order with exponential backoff. Times are integer seconds.
 */
module FaceSync {
  import opened Options

  type Id = nat

  datatype Action = Enroll | Update | Delete
  datatype Status = Pending | InProgress | Success | Retry | Failed | Cancelled
  datatype Triple = Triple(device: Id, employee: Id, action: Action)

  datatype Job = Job(triple: Triple, status: Status, attempts: nat, nextRetryAt: Option<int>)

  const MAX_ATTEMPTS := 5
  const BACKOFF_SECONDS := [30, 120, 480, 1800, 7200]

  predicate Active(j: Job) { j.status in {Pending, InProgress, Retry} }

  predicate Waiting(j: Job) { j.status in {Pending, Retry} }

  function NextRetryAt(attempts: nat, now: int): int {
    var last := |BACKOFF_SECONDS| - 1;
    var idx := if attempts - 1 < last then attempts - 1 else last;
    now + BACKOFF_SECONDS[if idx > 0 then idx else 0]
  }

  // ---- Enqueue and cancel ---------------------------------------------------------------------

  /** The slot of the triple's active job, the latest one if there were several. */
  function ActiveJob(jobs: seq<Job>, triple: Triple): (found: Option<nat>)
    ensures found.Some? ==> found.value < |jobs| && jobs[found.value].triple == triple && Active(jobs[found.value])
    ensures found.None? ==> forall i :: 0 <= i < |jobs| ==> jobs[i].triple != triple || !Active(jobs[i])
  {
    var n := |jobs|;
    if n == 0 then None
    else if jobs[n - 1].triple == triple && Active(jobs[n - 1]) then Some(n - 1)
    else
      var rest := ActiveJob(jobs[..n - 1], triple);
      assert rest.None? ==> forall i :: 0 <= i < n - 1 ==> jobs[..n - 1][i] == jobs[i];
      rest
  }

  /** `_upsert_active_job`: wake the active job of the triple, or insert a fresh one. */
  function Upsert(jobs: seq<Job>, triple: Triple, now: int): seq<Job> {
    var existing := ActiveJob(jobs, triple);
    if existing.Some? then jobs[existing.value := jobs[existing.value].(nextRetryAt := Some(now))]
    else jobs + [Job(triple, Pending, 0, Some(now))]
  }

  function UpsertAll(jobs: seq<Job>, triples: seq<Triple>, now: int): seq<Job> {
    var n := |triples|;
    if n == 0 then jobs else Upsert(UpsertAll(jobs, triples[..n - 1], now), triples[n - 1], now)
  }

  function CancelJob(j: Job, employee: Id): Job {
    if j.triple.employee == employee && Waiting(j) then j.(status := Cancelled) else j
  }

  function Cancel(jobs: seq<Job>, employee: Id): (r: seq<Job>)
    ensures |r| == |jobs|
  {
    seq(|jobs|, i requires 0 <= i < |jobs| => CancelJob(jobs[i], employee))
  }

  // ---- Retry by hand --------------------------------------------------------------------------

  function Renewed(j: Job, now: int): Job { Job(j.triple, Pending, 0, Some(now)) }

  /** Another active row holds the triple of row `i`: the partial unique index would be violated. */
  predicate Taken(jobs: seq<Job>, i: nat)
    requires i < |jobs|
  {
    exists k :: 0 <= k < |jobs| && k != i && Active(jobs[k]) && jobs[k].triple == jobs[i].triple
  }

  /** The retry route: any row, terminal ones included, back to PENDING; a violated index undoes it. */
  function RetryByHand(jobs: seq<Job>, i: nat, now: int): seq<Job> {
    if i >= |jobs| || Taken(jobs, i) then jobs else jobs[i := Renewed(jobs[i], now)]
  }

  // ---- Draining -------------------------------------------------------------------------------

  predicate Due(j: Job, now: int) {
    Waiting(j) && (j.nextRetryAt.None? || j.nextRetryAt.value <= now)
  }

  /** `nulls_first` ascending order. */
  predicate NotLater(a: Job, b: Job) {
    a.nextRetryAt.None? || (b.nextRetryAt.Some? && a.nextRetryAt.value <= b.nextRetryAt.value)
  }

  /**
   * A batch the query may return: distinct due rows in `next_retry_at` order, at most `limit` of
   * them, and every due row left out comes no earlier than all of them with the limit exhausted.
   * Rows with equal times may come in any order.
   */
  ghost predicate IsBatch(jobs: seq<Job>, now: int, limit: nat, batch: seq<nat>) {
    && |batch| <= limit
    && (forall k :: 0 <= k < |batch| ==> batch[k] < |jobs| && Due(jobs[batch[k]], now))
    && (forall k, l :: 0 <= k < l < |batch| ==> batch[k] != batch[l] && NotLater(jobs[batch[k]], jobs[batch[l]]))
    && (forall i :: 0 <= i < |jobs| && Due(jobs[i], now) && i !in batch ==>
          |batch| == limit && forall k :: 0 <= k < |batch| ==> NotLater(jobs[batch[k]], jobs[i]))
  }

  /** One attempt; `at` is the clock when a failure computes the backoff. */
  function Attempt(j: Job, ok: bool, at: int): Job {
    var tried := j.(status := InProgress, attempts := j.attempts + 1);
    if ok then tried.(status := Success, nextRetryAt := None)
    else if tried.attempts >= MAX_ATTEMPTS then tried.(status := Failed, nextRetryAt := None)
    else tried.(status := Retry, nextRetryAt := Some(NextRetryAt(tried.attempts, at)))
  }

  /** What the vendor adapter answered for each row of a batch, and when. */
  datatype Reply = Reply(ok: bool, at: int)

  function Drain(jobs: seq<Job>, batch: seq<nat>, replies: seq<Reply>): (r: seq<Job>)
    requires |replies| == |batch| && forall k :: 0 <= k < |batch| ==> batch[k] < |jobs|
    ensures |r| == |jobs|
  {
    var n := |batch|;
    if n == 0 then jobs
    else
      var before := Drain(jobs, batch[..n - 1], replies[..n - 1]);
      before[batch[n - 1] := Attempt(before[batch[n - 1]], replies[n - 1].ok, replies[n - 1].at)]
  }

  class Queue {
    var jobs: seq<Job>

    method UpsertActiveJob(triple: Triple, now: int)
      modifies this
      ensures jobs == Upsert(old(jobs), triple, now)
    {
      var existing := ActiveJob(jobs, triple);
      if existing.Some? {
        jobs := jobs[existing.value := jobs[existing.value].(nextRetryAt := Some(now))];
        return;
      }
      jobs := jobs + [Job(triple, Pending, 0, Some(now))];
    }

    method EnqueueForEmployee(employee: Id, action: Action, devices: seq<Id>, now: int) returns (count: nat)
      modifies this
      ensures jobs == UpsertAll(old(jobs), seq(|devices|, k requires 0 <= k < |devices| => Triple(devices[k], employee, action)), now)
      ensures count == |devices|
    {
      ghost var triples := seq(|devices|, k requires 0 <= k < |devices| => Triple(devices[k], employee, action));
      for i := 0 to |devices|
        invariant jobs == UpsertAll(old(jobs), triples[..i], now)
      {
        UpsertActiveJob(Triple(devices[i], employee, action), now);
        assert triples[..i + 1][..i] == triples[..i];
      }
      assert triples[..|devices|] == triples;
      count := |devices|;
    }

    method EnqueueForDevice(device: Id, action: Action, employees: seq<Id>, now: int) returns (count: nat)
      modifies this
      ensures jobs == UpsertAll(old(jobs), seq(|employees|, k requires 0 <= k < |employees| => Triple(device, employees[k], action)), now)
      ensures count == |employees|
    {
      ghost var triples := seq(|employees|, k requires 0 <= k < |employees| => Triple(device, employees[k], action));
      for i := 0 to |employees|
        invariant jobs == UpsertAll(old(jobs), triples[..i], now)
      {
        UpsertActiveJob(Triple(device, employees[i], action), now);
        assert triples[..i + 1][..i] == triples[..i];
      }
      assert triples[..|employees|] == triples;
      count := |employees|;
    }

    method CancelForEmployee(employee: Id) returns (count: nat)
      modifies this
      ensures jobs == Cancel(old(jobs), employee)
      ensures count == CountCancelled(old(jobs), employee)
    {
      count := 0;
      var all := jobs;
      for i := 0 to |all|
        invariant |jobs| == |all|
        invariant forall k :: 0 <= k < i ==> jobs[k] == CancelJob(all[k], employee)
        invariant forall k :: i <= k < |all| ==> jobs[k] == all[k]
        invariant count == CountCancelled(all[..i], employee)
      {
        assert all[..i + 1][..i] == all[..i];
        if jobs[i].triple.employee == employee && jobs[i].status in {Pending, Retry} {
          jobs := jobs[i := jobs[i].(status := Cancelled)];
          count := count + 1;
        }
      }
      assert all[..|all|] == all;
    }

    /** Returns whether the commit went through. */
    method RetryJob(i: nat, now: int) returns (ok: bool)
      requires i < |jobs|
      modifies this
      ensures ok <==> !Taken(old(jobs), i)
      ensures jobs == RetryByHand(old(jobs), i, now)
    {
      var before := jobs;
      jobs := jobs[i := jobs[i].(status := Pending, attempts := 0, nextRetryAt := Some(now))];
      ok := true;
      for k := 0 to |jobs|
        invariant jobs == before[i := Renewed(before[i], now)]
        invariant ok <==> forall l :: 0 <= l < k && l != i && Active(before[l]) ==> before[l].triple != before[i].triple
      {
        if k != i && Active(jobs[k]) && jobs[k].triple == jobs[i].triple {
          ok := false;
        }
      }
      if !ok {
        jobs := before;
      }
    }

    method RunOne(i: nat, reply: Reply)
      requires i < |jobs|
      modifies this
      ensures jobs == old(jobs)[i := Attempt(old(jobs)[i], reply.ok, reply.at)]
    {
      var job := jobs[i].(status := InProgress, attempts := jobs[i].attempts + 1);
      if reply.ok {
        job := job.(status := Success, nextRetryAt := None);
      } else if job.attempts >= MAX_ATTEMPTS {
        job := job.(status := Failed, nextRetryAt := None);
      } else {
        job := job.(status := Retry, nextRetryAt := Some(NextRetryAt(job.attempts, reply.at)));
      }
      jobs := jobs[i := job];
    }

    method ProcessPending(batch: seq<nat>, replies: seq<Reply>, now: int, limit: nat) returns (ok: nat, failed: nat)
      requires IsBatch(jobs, now, limit, batch) && |replies| == |batch|
      modifies this
      ensures jobs == Drain(old(jobs), batch, replies)
      ensures ok == CountOk(replies) && ok + failed == |batch|
    {
      ok, failed := 0, 0;
      for k := 0 to |batch|
        invariant |jobs| == |old(jobs)| && jobs == Drain(old(jobs), batch[..k], replies[..k])
        invariant ok == CountOk(replies[..k]) && ok + failed == k
      {
        assert batch[..k + 1][..k] == batch[..k] && replies[..k + 1][..k] == replies[..k];
        RunOne(batch[k], replies[k]);
        if jobs[batch[k]].status == Success {
          ok := ok + 1;
        } else if jobs[batch[k]].status in {Retry, Failed} {
          failed := failed + 1;
        }
      }
      assert batch[..|batch|] == batch && replies[..|batch|] == replies;
    }
  }

  function CountOk(replies: seq<Reply>): nat { Count(replies, (r: Reply) => r.ok) }

  function CountCancelled(jobs: seq<Job>, employee: Id): nat {
    Count(jobs, (j: Job) => j.triple.employee == employee && Waiting(j))
  }
}
