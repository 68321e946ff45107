/** Safety, termination and fairness of the sync queue over every run of enqueues, cancels, manual retries and drains. */
module SyncQueueTheorems {
  import opened Options
  import opened FaceSync

  datatype Event =
    | EnqueueAt(triples: seq<Triple>, now: int)
    | CancelAt(employee: Id, now: int)
    | RetryAt(job: nat, now: int)                    // by an admin
    | DrainAt(batch: seq<nat>, replies: seq<Reply>, now: int, limit: nat)

  /** A drain takes a batch the query may return, and replies arrive no earlier than the drain began. */
  ghost predicate Possible(jobs: seq<Job>, e: Event) {
    e.DrainAt? ==>
      IsBatch(jobs, e.now, e.limit, e.batch) && |e.replies| == |e.batch|
      && forall k :: 0 <= k < |e.replies| ==> e.now <= e.replies[k].at
  }

  ghost function Step(jobs: seq<Job>, e: Event): seq<Job>
    requires Possible(jobs, e)
  {
    match e
    case EnqueueAt(triples, now) => UpsertAll(jobs, triples, now)
    case CancelAt(employee, _) => Cancel(jobs, employee)
    case RetryAt(job, now) => RetryByHand(jobs, job, now)
    case DrainAt(batch, replies, _, _) => Drain(jobs, batch, replies)
  }

  /** `states` are the tables before, between and after the events. */
  ghost predicate IsRun(states: seq<seq<Job>>, events: seq<Event>) {
    |states| == |events| + 1
    && forall i :: 0 <= i < |events| ==> Possible(states[i], events[i]) && states[i + 1] == Step(states[i], events[i])
  }

  // ---- Safety ---------------------------------------------------------------------------------

  predicate JobOk(j: Job) {
    match j.status
    case Pending => j.attempts == 0 && j.nextRetryAt.Some?
    case Retry => 1 <= j.attempts <= 4 && j.nextRetryAt.Some?
    case Failed => j.attempts == 5 && j.nextRetryAt.None?
    case Success => 1 <= j.attempts <= 5 && j.nextRetryAt.None?
    case Cancelled => j.attempts <= 4
    case InProgress => false
  }

  ghost predicate OneActivePerTriple(jobs: seq<Job>) {
    forall i, j :: 0 <= i < j < |jobs| && Active(jobs[i]) && Active(jobs[j]) ==> jobs[i].triple != jobs[j].triple
  }

  ghost predicate Safe(jobs: seq<Job>) {
    (forall i :: 0 <= i < |jobs| ==> JobOk(jobs[i])) && OneActivePerTriple(jobs)
  }

  /** Rows are never removed, keep their triple, and a terminal row never changes again. */
  ghost predicate Extends(before: seq<Job>, after: seq<Job>) {
    |before| <= |after|
    && forall i :: 0 <= i < |before| ==>
         after[i].triple == before[i].triple && (!Active(before[i]) ==> after[i] == before[i])
  }

  lemma UpsertSafe(jobs: seq<Job>, triple: Triple, now: int)
    requires Safe(jobs)
    ensures Safe(Upsert(jobs, triple, now)) && Extends(jobs, Upsert(jobs, triple, now))
  {
  }

  lemma {:induction false} UpsertAllSafe(jobs: seq<Job>, triples: seq<Triple>, now: int)
    requires Safe(jobs)
    ensures Safe(UpsertAll(jobs, triples, now)) && Extends(jobs, UpsertAll(jobs, triples, now))
  {
    var n := |triples|;
    if n > 0 {
      UpsertAllSafe(jobs, triples[..n - 1], now);
      UpsertSafe(UpsertAll(jobs, triples[..n - 1], now), triples[n - 1], now);
    }
  }

  /** The rows of a batch are distinct, so each is attempted once, from the state it had. */
  lemma {:induction false} DrainSlots(jobs: seq<Job>, batch: seq<nat>, replies: seq<Reply>, i: nat)
    requires |replies| == |batch| && i < |jobs|
    requires forall k :: 0 <= k < |batch| ==> batch[k] < |jobs|
    requires forall k, l :: 0 <= k < l < |batch| ==> batch[k] != batch[l]
    ensures i !in batch ==> Drain(jobs, batch, replies)[i] == jobs[i]
    ensures forall k :: 0 <= k < |batch| && batch[k] == i ==>
              Drain(jobs, batch, replies)[i] == Attempt(jobs[i], replies[k].ok, replies[k].at)
  {
    var n := |batch|;
    if n > 0 {
      DrainSlots(jobs, batch[..n - 1], replies[..n - 1], i);
      assert forall k :: 0 <= k < n - 1 ==> batch[..n - 1][k] == batch[k];
    }
  }

  lemma DrainSafe(jobs: seq<Job>, batch: seq<nat>, replies: seq<Reply>, now: int, limit: nat)
    requires Safe(jobs) && IsBatch(jobs, now, limit, batch) && |replies| == |batch|
    ensures Safe(Drain(jobs, batch, replies)) && Extends(jobs, Drain(jobs, batch, replies))
  {
    var after := Drain(jobs, batch, replies);
    forall i | 0 <= i < |jobs|
      ensures JobOk(after[i]) && after[i].triple == jobs[i].triple
              && (Active(after[i]) ==> Active(jobs[i])) && (!Active(jobs[i]) ==> after[i] == jobs[i])
    {
      DrainSlots(jobs, batch, replies, i);
      if i in batch {
        var k :| 0 <= k < |batch| && batch[k] == i;
        assert Due(jobs[i], now);
      }
    }
  }

  /**
   * Reviving row `i` leaves one active job per triple exactly when no other active row holds its triple,
   * so the unique index decides, although no row is inserted.
   */
  lemma RevivalSafeIff(jobs: seq<Job>, i: nat, now: int)
    requires Safe(jobs) && i < |jobs|
    ensures Safe(jobs[i := Renewed(jobs[i], now)]) <==> !Taken(jobs, i)
  {
    var after := jobs[i := Renewed(jobs[i], now)];
    if k :| 0 <= k < |jobs| && k != i && Active(jobs[k]) && jobs[k].triple == jobs[i].triple {
      assert Active(after[k]) && Active(after[i]) && after[k].triple == after[i].triple;
      assert !OneActivePerTriple(after);
    }
  }

  /** A failing table: an enrolment that succeeded and was queued again cannot be retried. */
  lemma RevivalRefused(triple: Triple, now: int)
    ensures var jobs := [Job(triple, Success, 1, None), Job(triple, Pending, 0, Some(now))];
            Safe(jobs) && Taken(jobs, 0) && !OneActivePerTriple(jobs[0 := Renewed(jobs[0], now)])
  {
    var jobs := [Job(triple, Success, 1, None), Job(triple, Pending, 0, Some(now))];
    var revived := jobs[0 := Renewed(jobs[0], now)];
    assert Active(jobs[1]) && jobs[1].triple == jobs[0].triple;
    assert Active(revived[0]) && Active(revived[1]) && revived[0].triple == revived[1].triple;
  }

  /** Rows are never removed, keep their triple, and a terminal row changes by a retry of its own only. */
  ghost predicate ExtendsBut(before: seq<Job>, after: seq<Job>, e: Event) {
    |before| <= |after|
    && forall i :: 0 <= i < |before| ==>
         after[i].triple == before[i].triple
         && (!Active(before[i]) && !(e.RetryAt? && e.job == i) ==> after[i] == before[i])
  }

  lemma StepSafe(jobs: seq<Job>, e: Event)
    requires Safe(jobs) && Possible(jobs, e)
    ensures Safe(Step(jobs, e)) && ExtendsBut(jobs, Step(jobs, e), e)
  {
    match e
    case EnqueueAt(triples, now) => UpsertAllSafe(jobs, triples, now);
    case CancelAt(_, _) =>
    case RetryAt(job, now) => if job < |jobs| { RevivalSafeIff(jobs, job, now); }
    case DrainAt(batch, replies, now, limit) => DrainSafe(jobs, batch, replies, now, limit);
  }

  /** From an empty table, every reachable state is safe. */
  lemma {:induction false} ReachableSafe(states: seq<seq<Job>>, events: seq<Event>, i: nat)
    requires IsRun(states, events) && states[0] == [] && i < |states|
    ensures Safe(states[i])
  {
    if i > 0 {
      ReachableSafe(states, events, i - 1);
      StepSafe(states[i - 1], events[i - 1]);
    }
  }

  /** One step changes a terminal row exactly when it is a manual retry of that row that the index admits. */
  lemma TerminalChangesIff(jobs: seq<Job>, e: Event, i: nat)
    requires Safe(jobs) && Possible(jobs, e) && i < |jobs| && !Active(jobs[i])
    ensures i < |Step(jobs, e)|
    ensures Step(jobs, e)[i] != jobs[i] <==> e.RetryAt? && e.job == i && !Taken(jobs, i)
  {
    StepSafe(jobs, e);
  }

  /** A terminal job never changes again unless an admin retries that job. */
  lemma {:induction false} TerminalForever(states: seq<seq<Job>>, events: seq<Event>, from: nat, to: nat, job: nat)
    requires IsRun(states, events) && states[0] == [] && from <= to < |states|
    requires job < |states[from]| && !Active(states[from][job])
    requires forall k :: from <= k < to ==> !(events[k].RetryAt? && events[k].job == job)
    ensures job < |states[to]| && states[to][job] == states[from][job]
  {
    if from < to {
      TerminalForever(states, events, from, to - 1, job);
      ReachableSafe(states, events, to - 1);
      StepSafe(states[to - 1], events[to - 1]);
    }
  }

  /** The last backoff step is dead: a job that fails its fifth attempt is FAILED, not retried. */
  lemma TwoHourBackoffUnused(j: Job, at: int)
    requires JobOk(j) && Waiting(j)
    ensures var r := Attempt(j, false, at);
            r.status == Retry ==> r.nextRetryAt == Some(at + [30, 120, 480, 1800][j.attempts])
  {
  }

  // ---- Termination ----------------------------------------------------------------------------

  /** Attempts a job may still use. */
  function Left(j: Job): int {
    if Active(j) then MAX_ATTEMPTS - j.attempts else 0
  }

  function Budget(jobs: seq<Job>): int {
    var n := |jobs|;
    if n == 0 then 0 else Budget(jobs[..n - 1]) + Left(jobs[n - 1])
  }

  lemma {:induction false} BudgetOfUpdate(jobs: seq<Job>, i: nat, j: Job)
    requires i < |jobs|
    ensures Budget(jobs[i := j]) == Budget(jobs) - Left(jobs[i]) + Left(j)
  {
    var n := |jobs|;
    if i == n - 1 {
      assert jobs[i := j][..n - 1] == jobs[..n - 1];
    } else {
      assert jobs[i := j][..n - 1] == jobs[..n - 1][i := j];
      BudgetOfUpdate(jobs[..n - 1], i, j);
    }
  }

  lemma {:induction false} BudgetNonNegative(jobs: seq<Job>)
    requires forall i :: 0 <= i < |jobs| ==> JobOk(jobs[i])
    ensures Budget(jobs) >= 0
  {
    if |jobs| > 0 {
      BudgetNonNegative(jobs[..|jobs| - 1]);
    }
  }

  /** Every row drained uses up at least one of the attempts left in the table. */
  lemma {:induction false} DrainSpendsBudget(jobs: seq<Job>, batch: seq<nat>, replies: seq<Reply>)
    requires |replies| == |batch|
    requires forall k :: 0 <= k < |batch| ==> batch[k] < |jobs| && JobOk(jobs[batch[k]]) && Waiting(jobs[batch[k]])
    requires forall k, l :: 0 <= k < l < |batch| ==> batch[k] != batch[l]
    ensures Budget(Drain(jobs, batch, replies)) <= Budget(jobs) - |batch|
  {
    var n := |batch|;
    if n > 0 {
      var before := Drain(jobs, batch[..n - 1], replies[..n - 1]);
      DrainSpendsBudget(jobs, batch[..n - 1], replies[..n - 1]);
      DrainSlots(jobs, batch[..n - 1], replies[..n - 1], batch[n - 1]);
      assert before[batch[n - 1]] == jobs[batch[n - 1]];
      BudgetOfUpdate(before, batch[n - 1], Attempt(before[batch[n - 1]], replies[n - 1].ok, replies[n - 1].at));
    }
  }

  lemma {:induction false} CancelSpendsBudget(jobs: seq<Job>, employee: Id)
    requires forall i :: 0 <= i < |jobs| ==> JobOk(jobs[i])
    ensures Budget(Cancel(jobs, employee)) <= Budget(jobs)
  {
    var n := |jobs|;
    if n > 0 {
      CancelSpendsBudget(jobs[..n - 1], employee);
      assert Cancel(jobs, employee)[..n - 1] == Cancel(jobs[..n - 1], employee);
    }
  }

  function Drained(e: Event): nat { if e.DrainAt? then |e.batch| else 0 }

  function RowsDrained(events: seq<Event>): nat {
    var n := |events|;
    if n == 0 then 0 else RowsDrained(events[..n - 1]) + Drained(events[n - 1])
  }

  /** Attempts an event can add: a full set per triple enqueued and per manual retry. */
  function Grant(e: Event): nat {
    match e
    case EnqueueAt(triples, _) => MAX_ATTEMPTS * |triples|
    case RetryAt(_, _) => MAX_ATTEMPTS
    case _ => 0
  }

  function Granted(events: seq<Event>): nat {
    var n := |events|;
    if n == 0 then 0 else Granted(events[..n - 1]) + Grant(events[n - 1])
  }

  lemma UpsertGrants(jobs: seq<Job>, triple: Triple, now: int)
    ensures Budget(Upsert(jobs, triple, now)) <= Budget(jobs) + MAX_ATTEMPTS
  {
    var existing := ActiveJob(jobs, triple);
    if existing.Some? {
      BudgetOfUpdate(jobs, existing.value, jobs[existing.value].(nextRetryAt := Some(now)));
    } else {
      assert Upsert(jobs, triple, now)[..|jobs|] == jobs;
    }
  }

  lemma {:induction false} UpsertAllGrants(jobs: seq<Job>, triples: seq<Triple>, now: int)
    ensures Budget(UpsertAll(jobs, triples, now)) <= Budget(jobs) + MAX_ATTEMPTS * |triples|
  {
    var n := |triples|;
    if n > 0 {
      UpsertAllGrants(jobs, triples[..n - 1], now);
      UpsertGrants(UpsertAll(jobs, triples[..n - 1], now), triples[n - 1], now);
    }
  }

  lemma RetryGrants(jobs: seq<Job>, i: nat, now: int)
    requires Safe(jobs)
    ensures Budget(RetryByHand(jobs, i, now)) <= Budget(jobs) + MAX_ATTEMPTS
  {
    if i < |jobs| {
      BudgetOfUpdate(jobs, i, Renewed(jobs[i], now));
    }
  }

  lemma StepGrants(jobs: seq<Job>, e: Event)
    requires Safe(jobs) && Possible(jobs, e)
    ensures Budget(Step(jobs, e)) + Drained(e) <= Budget(jobs) + Grant(e)
  {
    match e
    case EnqueueAt(triples, now) => UpsertAllGrants(jobs, triples, now);
    case CancelAt(employee, _) => CancelSpendsBudget(jobs, employee);
    case RetryAt(job, now) => RetryGrants(jobs, job, now);
    case DrainAt(batch, replies, now, limit) =>
      forall k | 0 <= k < |batch| ensures JobOk(jobs[batch[k]]) && Waiting(jobs[batch[k]]) {
        assert Due(jobs[batch[k]], now);
      }
      DrainSpendsBudget(jobs, batch, replies);
  }

  /**
   * However a queue is drained, it performs at most the attempts it started with and five for each
   * triple enqueued or job retried by hand; without those it runs dry.
   */
  lemma {:induction false} DrainsAreBounded(states: seq<seq<Job>>, events: seq<Event>)
    requires IsRun(states, events) && Safe(states[0])
    ensures Safe(states[|events|])
    ensures 0 <= Budget(states[|events|]) <= Budget(states[0]) + Granted(events) - RowsDrained(events)
  {
    var n := |events|;
    if n == 0 {
      BudgetNonNegative(states[0]);
    } else {
      var prev, e := states[n - 1], events[n - 1];
      assert forall i :: 0 <= i < n ==> states[..n][i] == states[i];
      assert IsRun(states[..n], events[..n - 1]);
      DrainsAreBounded(states[..n], events[..n - 1]);
      StepSafe(prev, e);
      BudgetNonNegative(states[n]);
      StepGrants(prev, e);
      hide Step, Possible, Budget, Safe, Drained, Grant, ExtendsBut;
    }
  }

  // ---- No starvation --------------------------------------------------------------------------

  /** An active job other than `job` that is due no later than `due`. */
  predicate Ahead(jobs: seq<Job>, i: int, job: nat, due: int)
    requires 0 <= i < |jobs|
  {
    i != job && Active(jobs[i]) && (jobs[i].nextRetryAt.None? || jobs[i].nextRetryAt.value <= due)
  }

  function CountAhead(jobs: seq<Job>, job: nat, due: int): nat {
    var n := |jobs|;
    if n == 0 then 0 else CountAhead(jobs[..n - 1], job, due) + if Ahead(jobs, n - 1, job, due) then 1 else 0
  }

  lemma {:induction false} CountAheadOfUpdate(jobs: seq<Job>, i: nat, j: Job, job: nat, due: int)
    requires i < |jobs|
    ensures CountAhead(jobs[i := j], job, due)
            == CountAhead(jobs, job, due) - (if Ahead(jobs, i, job, due) then 1 else 0)
               + (if Ahead(jobs[i := j], i, job, due) then 1 else 0)
  {
    var n := |jobs|;
    if i == n - 1 {
      assert jobs[i := j][..n - 1] == jobs[..n - 1];
    } else {
      assert jobs[i := j][..n - 1] == jobs[..n - 1][i := j];
      CountAheadOfUpdate(jobs[..n - 1], i, j, job, due);
    }
  }

  /** It counts each such job once. */
  lemma {:induction false} CountAheadIsSize(jobs: seq<Job>, job: nat, due: int)
    ensures CountAhead(jobs, job, due)
            == |set i | 0 <= i < |jobs| && i != job && Active(jobs[i]) && (jobs[i].nextRetryAt.None? || jobs[i].nextRetryAt.value <= due)|
  {
    var n := |jobs|;
    var all := set i | 0 <= i < n && i != job && Active(jobs[i]) && (jobs[i].nextRetryAt.None? || jobs[i].nextRetryAt.value <= due);
    if n > 0 {
      var rest := jobs[..n - 1];
      CountAheadIsSize(rest, job, due);
      var fewer := set i | 0 <= i < n - 1 && i != job && Active(rest[i]) && (rest[i].nextRetryAt.None? || rest[i].nextRetryAt.value <= due);
      assert all == fewer + if Ahead(jobs, n - 1, job, due) then {n - 1} else {};
    } else {
      assert all == {};
    }
  }

  /** The job is active and due at `due`. */
  ghost predicate Stands(jobs: seq<Job>, job: nat, due: int) {
    job < |jobs| && Waiting(jobs[job]) && jobs[job].nextRetryAt == Some(due)
  }

  /** The event neither wakes, cancels nor attempts the job. */
  ghost predicate LeavesAlone(jobs: seq<Job>, e: Event, job: nat)
    requires job < |jobs|
  {
    match e
    case EnqueueAt(triples, _) => jobs[job].triple !in triples
    case CancelAt(employee, _) => jobs[job].triple.employee != employee
    case RetryAt(other, _) => other != job
    case DrainAt(batch, _, _, _) => job !in batch
  }

  lemma UpsertKeepsPlace(jobs: seq<Job>, triple: Triple, now: int, job: nat, due: int)
    requires Stands(jobs, job, due) && jobs[job].triple != triple && due < now
    ensures var r := Upsert(jobs, triple, now);
            && Stands(r, job, due) && r[job] == jobs[job]
            && CountAhead(r, job, due) <= CountAhead(jobs, job, due)
  {
    var existing := ActiveJob(jobs, triple);
    if existing.Some? {
      CountAheadOfUpdate(jobs, existing.value, jobs[existing.value].(nextRetryAt := Some(now)), job, due);
    } else {
      assert Upsert(jobs, triple, now)[..|jobs|] == jobs;
    }
  }

  lemma {:induction false} UpsertAllKeepsPlace(jobs: seq<Job>, triples: seq<Triple>, now: int, job: nat, due: int)
    requires Stands(jobs, job, due) && jobs[job].triple !in triples && due < now
    ensures var r := UpsertAll(jobs, triples, now);
            && Stands(r, job, due) && r[job] == jobs[job]
            && CountAhead(r, job, due) <= CountAhead(jobs, job, due)
  {
    var n := |triples|;
    if n > 0 {
      UpsertAllKeepsPlace(jobs, triples[..n - 1], now, job, due);
      UpsertKeepsPlace(UpsertAll(jobs, triples[..n - 1], now), triples[n - 1], now, job, due);
    }
  }

  lemma {:induction false} CancelKeepsPlace(jobs: seq<Job>, employee: Id, job: nat, due: int)
    ensures CountAhead(Cancel(jobs, employee), job, due) <= CountAhead(jobs, job, due)
  {
    var n := |jobs|;
    if n > 0 {
      CancelKeepsPlace(jobs[..n - 1], employee, job, due);
      assert Cancel(jobs, employee)[..n - 1] == Cancel(jobs[..n - 1], employee);
    }
  }

  lemma RetryKeepsPlace(jobs: seq<Job>, i: nat, now: int, job: nat, due: int)
    requires Stands(jobs, job, due) && i != job && due < now
    ensures var r := RetryByHand(jobs, i, now);
            && Stands(r, job, due) && r[job] == jobs[job]
            && CountAhead(r, job, due) <= CountAhead(jobs, job, due)
  {
    if i < |jobs| && !Taken(jobs, i) {
      CountAheadOfUpdate(jobs, i, Renewed(jobs[i], now), job, due);
    }
  }

  /** A failed attempt moves its row behind anything already due, so a batch ahead of the job is spent. */
  lemma {:induction false} BatchMovesBehind(jobs: seq<Job>, batch: seq<nat>, replies: seq<Reply>, job: nat, due: int)
    requires |replies| == |batch|
    requires forall k :: 0 <= k < |batch| ==> batch[k] < |jobs| && Ahead(jobs, batch[k], job, due)
    requires forall k, l :: 0 <= k < l < |batch| ==> batch[k] != batch[l]
    requires forall k :: 0 <= k < |replies| ==> due <= replies[k].at
    ensures CountAhead(Drain(jobs, batch, replies), job, due) == CountAhead(jobs, job, due) - |batch|
  {
    var n := |batch|;
    if n > 0 {
      var before := Drain(jobs, batch[..n - 1], replies[..n - 1]);
      BatchMovesBehind(jobs, batch[..n - 1], replies[..n - 1], job, due);
      DrainSlots(jobs, batch[..n - 1], replies[..n - 1], batch[n - 1]);
      assert before[batch[n - 1]] == jobs[batch[n - 1]];
      CountAheadOfUpdate(before, batch[n - 1], Attempt(before[batch[n - 1]], replies[n - 1].ok, replies[n - 1].at), job, due);
    }
  }

  lemma StepKeepsPlace(jobs: seq<Job>, e: Event, job: nat, due: int)
    requires Possible(jobs, e) && Stands(jobs, job, due) && LeavesAlone(jobs, e, job) && due < e.now
    ensures var r := Step(jobs, e);
            && Stands(r, job, due) && r[job] == jobs[job]
            && CountAhead(r, job, due) <= CountAhead(jobs, job, due) - if e.DrainAt? then e.limit else 0
  {
    match e
    case EnqueueAt(triples, now) => UpsertAllKeepsPlace(jobs, triples, now, job, due);
    case CancelAt(employee, _) => CancelKeepsPlace(jobs, employee, job, due);
    case RetryAt(i, now) => RetryKeepsPlace(jobs, i, now, job, due);
    case DrainAt(batch, replies, now, limit) =>
      DrainSlots(jobs, batch, replies, job);
      forall k | 0 <= k < |batch| ensures Ahead(jobs, batch[k], job, due) {
        assert Due(jobs[batch[k]], now) && NotLater(jobs[batch[k]], jobs[job]);
      }
      BatchMovesBehind(jobs, batch, replies, job, due);
  }

  function Drains(events: seq<Event>): nat { Count(events, (e: Event) => e.DrainAt?) }

  /** As long as nothing touches the job, each drain takes at least `limit` jobs that were ahead of it. */
  lemma {:induction false} WaitingIsBounded(states: seq<seq<Job>>, events: seq<Event>, job: nat, due: int, limit: nat)
    requires IsRun(states, events) && Stands(states[0], job, due)
    requires forall i :: 0 <= i < |events| ==> due < events[i].now && (events[i].DrainAt? ==> events[i].limit >= limit)
    requires forall i :: 0 <= i < |events| ==> job < |states[i]| ==> LeavesAlone(states[i], events[i], job)
    ensures Stands(states[|events|], job, due)
    ensures CountAhead(states[|events|], job, due) + limit * Drains(events) <= CountAhead(states[0], job, due)
  {
    hide Possible, Step, CountAhead, LeavesAlone;
    var n := |events|;
    if n > 0 {
      assert forall i :: 0 <= i < n ==> states[..n][i] == states[i];
      assert forall i :: 0 <= i < n - 1 ==> events[..n - 1][i] == events[i];
      WaitingIsBounded(states[..n], events[..n - 1], job, due, limit);
      StepKeepsPlace(states[n - 1], events[n - 1], job, due);
      assert limit * (Drains(events[..n - 1]) + 1) == limit * Drains(events[..n - 1]) + limit;
    }
  }

  /**
   * No starvation: a due job that is neither re-enqueued, cancelled nor retried by hand is attempted
   * within k / limit + 1 drains, k being the active jobs due no later than it and `limit` the smallest
   * limit drained with, whatever else is enqueued.
   */
  lemma NoStarvation(states: seq<seq<Job>>, events: seq<Event>, job: nat, due: int, limit: nat) returns (drain: nat)
    requires limit > 0
    requires IsRun(states, events) && Stands(states[0], job, due)
    requires forall i :: 0 <= i < |events| ==> due < events[i].now && (events[i].DrainAt? ==> events[i].limit >= limit)
    requires forall i :: 0 <= i < |events| && !events[i].DrainAt? && job < |states[i]| ==> LeavesAlone(states[i], events[i], job)
    requires Drains(events) > CountAhead(states[0], job, due) / limit
    ensures drain < |events| && events[drain].DrainAt? && job in events[drain].batch
    ensures Drains(events[..drain]) <= CountAhead(states[0], job, due) / limit
  {
    hide Possible, Step, CountAhead, Stands;
    drain := 0;
    while drain < |events| && !(events[drain].DrainAt? && job in events[drain].batch)
      invariant drain <= |events|
      invariant forall i :: 0 <= i < drain ==> !(events[i].DrainAt? && job in events[i].batch)
    {
      drain := drain + 1;
    }
    var k := CountAhead(states[0], job, due);
    var states', events' := states[..drain + 1], events[..drain];
    WaitingIsBounded(states', events', job, due, limit);
    var d := Drains(events');
    assert limit * d <= k;
    assert d <= k / limit by { QuotientBound(limit, d, k); }
    assert drain == |events| ==> events' == events;
  }

  lemma ProductMonotone(limit: nat, a: nat, b: nat)
    ensures a <= b ==> limit * a <= limit * b
  {
  }

  lemma QuotientBound(limit: nat, d: nat, k: nat)
    requires limit > 0 && limit * d <= k
    ensures d <= k / limit
  {
    var q := k / limit;
    assert k < limit * (q + 1);
    ProductMonotone(limit, q + 1, d);
  }

  // ---- What each operation does to the table --------------------------------------------------

  /** An attempt counts once and ends in success, the fifth failure, or a retry in the future. */
  lemma AttemptEnds(j: Job, ok: bool, at: int)
    ensures var r := Attempt(j, ok, at);
            && r.triple == j.triple && r.attempts == j.attempts + 1
            && (r.status == Success <==> ok)
            && (r.status == Failed <==> !ok && j.attempts >= 4)
            && (r.status == Retry <==> !ok && j.attempts < 4)
            && (if r.status == Retry then r.nextRetryAt.Some? && at < r.nextRetryAt.value else r.nextRetryAt.None?)
  {
  }

  /** The triple has an active job that is due now. */
  ghost predicate Woken(jobs: seq<Job>, triple: Triple, now: int) {
    exists i :: 0 <= i < |jobs| && Active(jobs[i]) && jobs[i].triple == triple && jobs[i].nextRetryAt == Some(now)
  }

  /** After an enqueue the triple is woken; an existing job keeps its attempts, and no other row changes. */
  lemma UpsertWakes(jobs: seq<Job>, triple: Triple, now: int)
    requires OneActivePerTriple(jobs)
    ensures var r := Upsert(jobs, triple, now);
            && |jobs| <= |r| <= |jobs| + 1 && Woken(r, triple, now)
            && (forall i :: 0 <= i < |jobs| ==>
                  r[i] == if Active(jobs[i]) && jobs[i].triple == triple then jobs[i].(nextRetryAt := Some(now)) else jobs[i])
            && (|r| == |jobs| + 1 ==> r[|jobs|] == Job(triple, Pending, 0, Some(now)))
            && (|r| == |jobs| <==> exists i :: 0 <= i < |jobs| && Active(jobs[i]) && jobs[i].triple == triple)
  {
    var existing := ActiveJob(jobs, triple);
    var r := Upsert(jobs, triple, now);
    if existing.Some? {
      assert Active(r[existing.value]) && r[existing.value].triple == triple;
    } else {
      assert Active(r[|jobs|]) && r[|jobs|].triple == triple;
    }
  }

  lemma StaysWoken(jobs: seq<Job>, triple: Triple, other: Triple, now: int)
    requires OneActivePerTriple(jobs) && Woken(jobs, triple, now)
    ensures Woken(Upsert(jobs, other, now), triple, now)
  {
    UpsertWakes(jobs, other, now);
    var i :| 0 <= i < |jobs| && Active(jobs[i]) && jobs[i].triple == triple && jobs[i].nextRetryAt == Some(now);
    var r := Upsert(jobs, other, now);
    hide Upsert;
    assert i < |r| && Active(r[i]) && r[i].triple == triple;
  }

  /** A fan-out wakes every triple it names. */
  lemma {:induction false} UpsertAllWakes(jobs: seq<Job>, triples: seq<Triple>, now: int, k: nat)
    requires Safe(jobs) && k < |triples|
    ensures Woken(UpsertAll(jobs, triples, now), triples[k], now)
  {
    hide Woken;
    var n := |triples|;
    var before := UpsertAll(jobs, triples[..n - 1], now);
    UpsertAllSafe(jobs, triples[..n - 1], now);
    if k < n - 1 {
      UpsertAllWakes(jobs, triples[..n - 1], now, k);
      StaysWoken(before, triples[k], triples[n - 1], now);
    } else {
      UpsertWakes(before, triples[k], now);
    }
  }

  /** A cancellation ends exactly the employee's waiting jobs. */
  lemma CancelEnds(jobs: seq<Job>, employee: Id, i: nat)
    requires i < |jobs|
    ensures var r := Cancel(jobs, employee);
            |r| == |jobs|
            && r[i] == if jobs[i].triple.employee == employee && (jobs[i].status == Pending || jobs[i].status == Retry)
                       then jobs[i].(status := Cancelled) else jobs[i]
  {
  }
}
