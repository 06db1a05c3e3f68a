/**
  The background task queue (internal/worker/worker.go, internal/data/tasks.go).

  Each SQL statement is one atomic step on the table. Time is in microseconds, the
  resolution of the timestamps in the table, and comes from one clock that never
  goes back. Besides the table, the protocol state records which task each worker
  is busy with and when each task was claimed.
 */
module TaskQueue {
  import opened Common
  import opened Sums

  type TaskId = nat
  type WorkerId = nat

  const MINUTE: int := 60_000_000
  const DEFAULT_MAX_ATTEMPTS: nat := 3

  datatype Status = Pending | Processing | Completed | Dead

  datatype Task = Task(
    jobType: string,
    payload: string,
    status: Status,
    attempts: nat,
    maxAttempts: nat,
    lastError: Option<string>,
    runAt: int,
    lockedAt: Option<int>,
    completedAt: Option<int>)

  function Pow2(n: nat): nat {
    if n == 0 then 1 else 2 * Pow2(n - 1)
  }

  // ---------------------------------------------------------------------
  // Rows: what the statements write.
  // ---------------------------------------------------------------------

  function NewTask(jobType: string, payload: string, now: int): Task {
    Task(jobType, payload, Pending, 0, DEFAULT_MAX_ATTEMPTS, None, now, None, None)
  }

  function ClaimedRow(t: Task, now: int): Task {
    t.(status := Processing, lockedAt := Some(now))
  }

  function CompletedRow(t: Task, now: int): Task {
    t.(status := Completed, completedAt := Some(now))
  }

  function FailedRow(t: Task, now: int, error: string): Task {
    if t.attempts + 1 >= t.maxAttempts
    then t.(status := Dead, attempts := t.attempts + 1, lastError := Some(error))
    else t.(status := Pending, attempts := t.attempts + 1, lastError := Some(error),
            runAt := now + Pow2(t.attempts + 1) * MINUTE)
  }

  predicate Due(t: Task, now: int) {
    t.status == Pending && t.runAt <= now
  }

  /** A task the claim statement may pick: due, and none due has an earlier run_at. */
  predicate FirstDue(tasks: map<TaskId, Task>, id: TaskId, now: int) {
    && id in tasks
    && Due(tasks[id], now)
    && forall x :: x in tasks && Due(tasks[x], now) ==> tasks[id].runAt <= tasks[x].runAt
  }

  lemma {:induction false} EarliestExists(tasks: map<TaskId, Task>, ids: set<TaskId>) returns (first: TaskId)
    requires ids != {} && ids <= tasks.Keys
    ensures first in ids && forall x :: x in ids ==> tasks[first].runAt <= tasks[x].runAt
    decreases |ids|
  {
    first :| first in ids;
    if ids != {first} {
      var other := EarliestExists(tasks, ids - {first});
      if tasks[other].runAt < tasks[first].runAt {
        first := other;
      }
    }
  }

  // ---------------------------------------------------------------------
  // The protocol over any number of workers.
  // ---------------------------------------------------------------------

  datatype Queue = Queue(
    now: int,
    tasks: map<TaskId, Task>,
    held: map<WorkerId, TaskId>,
    claims: map<TaskId, seq<int>>)

  datatype Step =
    | Tick(delta: nat)
    | Insert(id: TaskId, jobType: string, payload: string)
    | Claim(w: WorkerId, id: TaskId)
    | Complete(w: WorkerId)
    | Fail(w: WorkerId, error: string)
    | Lose(w: WorkerId)  // the bookkeeping write failed, or the worker stopped

  predicate Enabled(s: Queue, step: Step) {
    match step
    case Tick(_) => true
    case Insert(id, _, _) => id !in s.tasks
    case Claim(w, id) => w !in s.held && FirstDue(s.tasks, id, s.now)
    case Complete(w) => w in s.held && s.held[w] in s.tasks
    case Fail(w, _) => w in s.held && s.held[w] in s.tasks
    case Lose(w) => w in s.held
  }

  function Next(s: Queue, step: Step): Queue
    requires Enabled(s, step)
  {
    match step
    case Tick(delta) => s.(now := s.now + delta)
    case Insert(id, jobType, payload) =>
      s.(tasks := s.tasks[id := NewTask(jobType, payload, s.now)], claims := s.claims[id := []])
    case Claim(w, id) =>
      s.(tasks := s.tasks[id := ClaimedRow(s.tasks[id], s.now)],
         held := s.held[w := id],
         claims := s.claims[id := (if id in s.claims then s.claims[id] else []) + [s.now]])
    case Complete(w) =>
      var id := s.held[w];
      s.(tasks := s.tasks[id := CompletedRow(s.tasks[id], s.now)], held := s.held - {w})
    case Fail(w, error) =>
      var id := s.held[w];
      s.(tasks := s.tasks[id := FailedRow(s.tasks[id], s.now, error)], held := s.held - {w})
    case Lose(w) => s.(held := s.held - {w})
  }

  const EMPTY_QUEUE := Queue(0, map[], map[], map[])

  ghost predicate ValidRun(s: Queue, steps: seq<Step>)
    decreases |steps|
  {
    steps == [] || (Enabled(s, steps[0]) && ValidRun(Next(s, steps[0]), steps[1..]))
  }

  ghost function Final(s: Queue, steps: seq<Step>): Queue
    requires ValidRun(s, steps)
    decreases |steps|
  {
    if steps == [] then s else Final(Next(s, steps[0]), steps[1..])
  }

  lemma {:induction false} RunConcat(s: Queue, first: seq<Step>, second: seq<Step>)
    requires ValidRun(s, first) && ValidRun(Final(s, first), second)
    ensures ValidRun(s, first + second)
    ensures Final(s, first + second) == Final(Final(s, first), second)
    decreases |first|
  {
    if first == [] {
      assert first + second == second;
    } else {
      RunConcat(Next(s, first[0]), first[1..], second);
      assert (first + second)[1..] == first[1..] + second;
    }
  }

  lemma OneStep(s: Queue, step: Step)
    requires Enabled(s, step)
    ensures ValidRun(s, [step]) && Final(s, [step]) == Next(s, step)
  {
    var s' := Next(s, step);
    assert [step][1..] == [];
    assert ValidRun(s', []) && Final(s', []) == s';
  }

  lemma TwoSteps(s: Queue, a: Step, b: Step)
    requires Enabled(s, a) && Enabled(Next(s, a), b)
    ensures ValidRun(s, [a, b]) && Final(s, [a, b]) == Next(Next(s, a), b)
  {
    OneStep(s, a);
    OneStep(Next(s, a), b);
    RunConcat(s, [a], [b]);
    assert [a] + [b] == [a, b];
  }

  // ---------------------------------------------------------------------
  // What every step keeps.
  // ---------------------------------------------------------------------

  /** Attempts, claims and backoff agree with the status of the row. */
  ghost predicate RowInv(t: Task, claims: seq<int>, now: int) {
    && (t.status == Pending ==> t.attempts < t.maxAttempts && |claims| == t.attempts)
    && (t.status == Processing || t.status == Completed ==> t.attempts < t.maxAttempts && |claims| == t.attempts + 1)
    && (t.status == Dead ==> t.attempts == t.maxAttempts && |claims| == t.attempts)
    && (forall j :: 0 <= j < |claims| ==> claims[j] <= now)
    && (forall j :: 0 <= j < |claims| - 1 ==> claims[j + 1] >= claims[j] + Pow2(j + 1) * MINUTE)
    && (t.status == Pending && claims != [] ==> t.runAt >= claims[|claims| - 1] + Pow2(t.attempts) * MINUTE)
  }

  /** Workers hold processing tasks, and no two hold the same one. */
  ghost predicate Holders(s: Queue) {
    && (forall w :: w in s.held ==> s.held[w] in s.tasks && s.tasks[s.held[w]].status == Processing)
    && (forall v, w :: v in s.held && w in s.held && v != w ==> s.held[v] != s.held[w])
  }

  ghost predicate Inv(s: Queue) {
    && s.claims.Keys == s.tasks.Keys
    && (forall id :: id in s.tasks ==> RowInv(s.tasks[id], s.claims[id], s.now))
    && Holders(s)
  }

  lemma ClaimKeepsRow(t: Task, claims: seq<int>, now: int)
    requires RowInv(t, claims, now) && Due(t, now)
    ensures RowInv(ClaimedRow(t, now), claims + [now], now)
  {
  }

  lemma OutcomeKeepsRow(t: Task, claims: seq<int>, now: int, error: string)
    requires RowInv(t, claims, now) && t.status == Processing
    ensures RowInv(CompletedRow(t, now), claims, now)
    ensures RowInv(FailedRow(t, now, error), claims, now)
  {
  }

  lemma StepKeepsRows(s: Queue, step: Step, id: TaskId)
    requires Inv(s) && Enabled(s, step) && id in Next(s, step).tasks
    ensures id in Next(s, step).claims && RowInv(Next(s, step).tasks[id], Next(s, step).claims[id], Next(s, step).now)
  {
    if id in s.tasks {
      assert RowInv(s.tasks[id], s.claims[id], s.now);
      if step.Claim? {
        ClaimKeepsRow(s.tasks[step.id], s.claims[step.id], s.now);
      } else if step.Complete? || step.Fail? {
        OutcomeKeepsRow(s.tasks[s.held[step.w]], s.claims[s.held[step.w]], s.now,
                        if step.Fail? then step.error else "");
      }
    }
  }

  lemma StepKeepsHolders(s: Queue, step: Step)
    requires Holders(s) && Enabled(s, step)
    ensures Holders(Next(s, step))
  {
  }

  lemma StepKeepsInv(s: Queue, step: Step)
    requires Inv(s) && Enabled(s, step)
    ensures Inv(Next(s, step))
  {
    StepKeepsHolders(s, step);
    var s' := Next(s, step);
    forall id | id in s'.tasks ensures id in s'.claims && RowInv(s'.tasks[id], s'.claims[id], s'.now) {
      StepKeepsRows(s, step, id);
    }
  }

  /**
    In every reachable state a processing task has at most one holder, a pending one
    has attempts left, a dead one has none, and no task was handled too often.
   */
  lemma {:induction false} QueueSafety(s: Queue, steps: seq<Step>)
    requires Inv(s) && ValidRun(s, steps)
    ensures Inv(Final(s, steps))
    ensures forall id :: id in Final(s, steps).tasks ==>
      |Final(s, steps).claims[id]| <= Final(s, steps).tasks[id].maxAttempts
    decreases |steps|
  {
    if steps != [] {
      StepKeepsInv(s, steps[0]);
      QueueSafety(Next(s, steps[0]), steps[1..]);
    }
  }

  /** No later step touches a task that is completed, dead, or processing with no holder. */
  ghost predicate Settled(s: Queue, id: TaskId) {
    && id in s.tasks
    && s.tasks[id].status != Pending
    && forall w :: w in s.held ==> s.held[w] != id
  }

  lemma SettledStep(s: Queue, step: Step, id: TaskId)
    requires Holders(s) && Enabled(s, step) && Settled(s, id)
    ensures Settled(Next(s, step), id) && Next(s, step).tasks[id] == s.tasks[id]
    ensures Lookup(Next(s, step).claims, id) == Lookup(s.claims, id)
  {
  }

  /**
    Completed and dead are absorbing; so is processing once the holder's bookkeeping
    write is lost, because nothing ever reads locked_at.
   */
  lemma {:induction false} SettledForever(s: Queue, steps: seq<Step>, id: TaskId)
    requires Inv(s) && ValidRun(s, steps) && Settled(s, id)
    ensures Settled(Final(s, steps), id) && Final(s, steps).tasks[id] == s.tasks[id]
    ensures Lookup(Final(s, steps).claims, id) == Lookup(s.claims, id)
    decreases |steps|
  {
    if steps != [] {
      StepKeepsInv(s, steps[0]);
      SettledStep(s, steps[0], id);
      SettledForever(Next(s, steps[0]), steps[1..], id);
    }
  }

  // ---------------------------------------------------------------------
  // What the handler gets.
  // ---------------------------------------------------------------------

  lemma InsertedRow(s: Queue, id: TaskId, jobType: string, payload: string)
    requires Enabled(s, Insert(id, jobType, payload))
    ensures var t := Next(s, Insert(id, jobType, payload)).tasks;
            && id in t && t == s.tasks[id := t[id]]
            && t[id].jobType == jobType && t[id].payload == payload && t[id].maxAttempts == 3
            && t[id].status == Pending && t[id].attempts == 0 && t[id].runAt == s.now
  {
  }

  lemma StepKeepsContent(s: Queue, step: Step, id: TaskId)
    requires Enabled(s, step) && id in s.tasks
    ensures var t := Next(s, step).tasks;
            && id in t && t[id].jobType == s.tasks[id].jobType && t[id].payload == s.tasks[id].payload
            && t[id].maxAttempts == s.tasks[id].maxAttempts
  {
  }

  /** No run changes what a task is about, or how often it may be tried, or drops it. */
  lemma {:induction false} ContentStays(s: Queue, steps: seq<Step>, id: TaskId)
    requires ValidRun(s, steps) && id in s.tasks
    ensures var t := Final(s, steps).tasks;
            && id in t && t[id].jobType == s.tasks[id].jobType && t[id].payload == s.tasks[id].payload
            && t[id].maxAttempts == s.tasks[id].maxAttempts
    decreases |steps|
  {
    if steps != [] {
      StepKeepsContent(s, steps[0], id);
      ContentStays(Next(s, steps[0]), steps[1..], id);
    }
  }

  /** A task in the table at the end of a run was there before, or one step of the run inserted what it holds. */
  lemma {:induction false} ContentOrigin(s: Queue, steps: seq<Step>, id: TaskId)
    requires ValidRun(s, steps) && id in Final(s, steps).tasks && id !in s.tasks
    ensures var t := Final(s, steps).tasks[id];
            Insert(id, t.jobType, t.payload) in steps && t.maxAttempts == 3
    decreases |steps|
  {
    var s' := Next(s, steps[0]);
    if id in s'.tasks {
      assert steps[0].Insert? && steps[0].id == id;
      InsertedRow(s, id, steps[0].jobType, steps[0].payload);
      ContentStays(s', steps[1..], id);
    } else {
      ContentOrigin(s', steps[1..], id);
    }
  }

  lemma {:induction false} InsertedOnce(s: Queue, steps: seq<Step>, id: TaskId, i: nat, j: nat)
    requires ValidRun(s, steps) && i <= j < |steps|
    requires steps[i].Insert? && steps[i].id == id && steps[j].Insert? && steps[j].id == id
    ensures i == j && id !in s.tasks
    decreases |steps|
  {
    var rest := steps[1..];
    if i > 0 {
      InsertedOnce(Next(s, steps[0]), rest, id, i - 1, j - 1);
      if id in s.tasks {
        StepKeepsContent(s, steps[0], id);
      }
    } else if j > 0 {
      InsertedOnce(Next(s, steps[0]), rest, id, j - 1, j - 1);
    }
  }

  /**
    Whatever a run from the empty queue claims is, unchanged, the job type and the payload
    of the one insertion of that task.
   */
  lemma ClaimsWhatWasInserted(steps: seq<Step>, w: WorkerId, id: TaskId, i: nat)
    requires ValidRun(EMPTY_QUEUE, steps) && Enabled(Final(EMPTY_QUEUE, steps), Claim(w, id))
    requires i < |steps| && steps[i].Insert? && steps[i].id == id
    ensures var t := Next(Final(EMPTY_QUEUE, steps), Claim(w, id)).tasks[id];
            t.jobType == steps[i].jobType && t.payload == steps[i].payload
  {
    var t := Final(EMPTY_QUEUE, steps).tasks[id];
    ContentOrigin(EMPTY_QUEUE, steps, id);
    StepKeepsContent(Final(EMPTY_QUEUE, steps), Claim(w, id), id);
    var j :| 0 <= j < |steps| && steps[j] == Insert(id, t.jobType, t.payload);
    if i <= j {
      InsertedOnce(EMPTY_QUEUE, steps, id, i, j);
    } else {
      InsertedOnce(EMPTY_QUEUE, steps, id, j, i);
    }
  }

  // ---------------------------------------------------------------------
  // Backoff.
  // ---------------------------------------------------------------------

  /** The (k+1)-st claim comes at least 2^(k+1)-2 minutes after the first. */
  lemma {:induction false} BackoffSpan(t: Task, claims: seq<int>, now: int, k: nat)
    requires RowInv(t, claims, now) && k < |claims|
    ensures claims[k] - claims[0] >= (Pow2(k + 1) - 2) * MINUTE
    decreases k
  {
    if k > 0 {
      BackoffSpan(t, claims, now, k - 1);
      assert claims[(k - 1) + 1] >= claims[k - 1] + Pow2(k) * MINUTE;
    }
  }

  lemma BackoffOverRuns(s: Queue, steps: seq<Step>, id: TaskId, k: nat)
    requires Inv(s) && ValidRun(s, steps)
    requires id in Final(s, steps).tasks && id in Final(s, steps).claims && k < |Final(s, steps).claims[id]|
    ensures var claims := Final(s, steps).claims[id];
            claims[k] - claims[0] >= (Pow2(k + 1) - 2) * MINUTE
  {
    QueueSafety(s, steps);
    BackoffSpan(Final(s, steps).tasks[id], Final(s, steps).claims[id], Final(s, steps).now, k);
  }

  /** With the default three attempts a task that keeps failing waits 2, then 4 minutes, then is dead. */
  lemma DefaultRetrySchedule(jobType: string, payload: string, t0: int, t1: int, t2: int, t3: int, e: string)
    ensures var r1 := FailedRow(ClaimedRow(NewTask(jobType, payload, t0), t0), t1, e);
            var r2 := FailedRow(ClaimedRow(r1, t1), t2, e);
            var r3 := FailedRow(ClaimedRow(r2, t2), t3, e);
            && r1.status == Pending && r1.runAt == t1 + 120_000_000
            && r2.status == Pending && r2.runAt == t2 + 240_000_000
            && r3.status == Dead && r3.runAt == r2.runAt && r3.attempts == 3
  {
    assert Pow2(1) == 2;
    assert Pow2(2) == 2 * Pow2(1);
  }

  // ---------------------------------------------------------------------
  // Termination.
  // ---------------------------------------------------------------------

  /** Claims a task can still have. */
  function Budget(t: Task): int {
    match t.status
    case Pending => t.maxAttempts - t.attempts
    case Processing => t.maxAttempts - t.attempts - 1
    case _ => 0
  }

  /** A measure that every claim, completion and failure lowers. */
  function Weight(t: Task): int {
    match t.status
    case Pending => 2 * (t.maxAttempts - t.attempts)
    case Processing => 2 * (t.maxAttempts - t.attempts) - 1
    case _ => 0
  }

  function Count(steps: seq<Step>, p: Step -> bool): nat {
    if steps == [] then 0 else (if p(steps[0]) then 1 else 0) + Count(steps[1..], p)
  }

  predicate IsClaim(step: Step) { step.Claim? }

  predicate IsWork(step: Step) { step.Claim? || step.Complete? || step.Fail? }

  /** The row a working step writes: the task it is about and its new content. */
  function Written(s: Queue, step: Step): (TaskId, Task)
    requires Enabled(s, step) && IsWork(step)
  {
    match step
    case Claim(w, id) => (id, ClaimedRow(s.tasks[id], s.now))
    case Complete(w) => (s.held[w], CompletedRow(s.tasks[s.held[w]], s.now))
    case Fail(w, error) => (s.held[w], FailedRow(s.tasks[s.held[w]], s.now, error))
  }

  lemma WrittenSpends(s: Queue, step: Step)
    requires Inv(s) && Enabled(s, step) && IsWork(step)
    ensures var (id, row) := Written(s, step);
            && id in s.tasks && Next(s, step).tasks == s.tasks[id := row]
            && Budget(row) + (if step.Claim? then 1 else 0) <= Budget(s.tasks[id])
            && Weight(row) + 1 <= Weight(s.tasks[id])
  {
    var id := Written(s, step).0;
    assert RowInv(s.tasks[id], s.claims[id], s.now);
  }

  lemma StepSpends(s: Queue, step: Step)
    requires Inv(s) && Enabled(s, step) && !step.Insert?
    ensures SumBy(Next(s, step).tasks, Budget) + (if step.Claim? then 1 else 0) <= SumBy(s.tasks, Budget)
    ensures SumBy(Next(s, step).tasks, Weight) + (if IsWork(step) then 1 else 0) <= SumBy(s.tasks, Weight)
  {
    if IsWork(step) {
      WrittenSpends(s, step);
      var (id, row) := Written(s, step);
      SumUpdate(s.tasks, Budget, id, row);
      SumUpdate(s.tasks, Weight, id, row);
    }
  }

  /** Without new tasks the work still possible is bounded, and so are the claims. */
  lemma {:induction false} QueueTerminates(s: Queue, steps: seq<Step>)
    requires Inv(s) && ValidRun(s, steps)
    requires forall i :: 0 <= i < |steps| ==> !steps[i].Insert?
    ensures Count(steps, IsClaim) <= SumBy(s.tasks, Budget)
    ensures Count(steps, IsWork) <= SumBy(s.tasks, Weight)
    decreases |steps|
  {
    if steps == [] {
      SumNonNegative(s.tasks, Budget);
      SumNonNegative(s.tasks, Weight);
    } else {
      StepSpends(s, steps[0]);
      StepKeepsInv(s, steps[0]);
      QueueTerminates(Next(s, steps[0]), steps[1..]);
    }
  }

  // ---------------------------------------------------------------------
  // No starvation.
  // ---------------------------------------------------------------------

  /** The tasks that may still be claimed before `id`. */
  ghost function Ahead(s: Queue, id: TaskId): set<TaskId>
    requires id in s.tasks
  {
    set x | x in s.tasks && x != id && s.tasks[x].status == Pending && s.tasks[x].runAt <= s.tasks[id].runAt
  }

  predicate Waiting(s: Queue, id: TaskId) {
    id in s.tasks && s.tasks[id].status == Pending && s.tasks[id].runAt < s.now
  }

  lemma WaitingStep(s: Queue, step: Step, id: TaskId)
    requires Inv(s) && Enabled(s, step) && Waiting(s, id)
    requires !Claims(step, id)
    ensures var s' := Next(s, step);
            && Waiting(s', id) && s'.tasks[id] == s.tasks[id]
            && Ahead(s', id) <= Ahead(s, id)
            && (step.Claim? ==> step.id in Ahead(s, id) && step.id !in Ahead(s', id))
  {
  }

  predicate Claims(step: Step, id: TaskId) {
    step.Claim? && step.id == id
  }

  lemma AheadShrinks(s: Queue, step: Step, id: TaskId)
    requires Inv(s) && Enabled(s, step) && Waiting(s, id) && !Claims(step, id)
    ensures id in Next(s, step).tasks
    ensures |Ahead(Next(s, step), id)| + (if step.Claim? then 1 else 0) <= |Ahead(s, id)|
  {
    WaitingStep(s, step, id);
    var before, after := Ahead(s, id), Ahead(Next(s, step), id);
    CardinalityMonotone(after, if step.Claim? then before - {step.id} else before);
  }

  lemma {:induction false} OnlyAheadClaimed(s: Queue, steps: seq<Step>, id: TaskId, i: nat)
    requires Inv(s) && ValidRun(s, steps) && Waiting(s, id)
    requires forall j :: 0 <= j < |steps| ==> !Claims(steps[j], id)
    requires i < |steps| && steps[i].Claim?
    ensures steps[i].id in Ahead(s, id)
    decreases |steps|
  {
    assert !Claims(steps[0], id);
    WaitingStep(s, steps[0], id);
    if i > 0 {
      StepKeepsInv(s, steps[0]);
      OnlyAheadClaimed(Next(s, steps[0]), steps[1..], id, i - 1);
    }
  }

  /**
    Once the clock has passed a pending task's run_at, later inserts and requeued
    failures never overtake it: before it is claimed itself, only tasks that were
    already ahead are claimed, each at most once.
   */
  lemma {:induction false} BoundedOvertaking(s: Queue, steps: seq<Step>, id: TaskId)
    requires Inv(s) && ValidRun(s, steps) && Waiting(s, id)
    requires forall i :: 0 <= i < |steps| ==> !Claims(steps[i], id)
    ensures Waiting(Final(s, steps), id)
    ensures forall i :: 0 <= i < |steps| && steps[i].Claim? ==> steps[i].id in Ahead(s, id)
    ensures Count(steps, IsClaim) + |Ahead(Final(s, steps), id)| <= |Ahead(s, id)|
    decreases |steps|
  {
    forall i | 0 <= i < |steps| && steps[i].Claim? ensures steps[i].id in Ahead(s, id) {
      OnlyAheadClaimed(s, steps, id, i);
    }
    if steps != [] {
      assert !Claims(steps[0], id);
      WaitingStep(s, steps[0], id);
      StepKeepsInv(s, steps[0]);
      AheadShrinks(s, steps[0], id);
      BoundedOvertaking(Next(s, steps[0]), steps[1..], id);
    }
  }

  lemma {:induction false} CardinalityMonotone<T>(a: set<T>, b: set<T>)
    requires a <= b
    ensures |a| <= |b|
  {
    assert |b| == |a| + |b - a| by {
      assert b == a + (b - a);
    }
  }

  /** So after that many claims and one more, the task itself has been claimed. */
  lemma NoStarvation(s: Queue, steps: seq<Step>, id: TaskId)
    requires Inv(s) && ValidRun(s, steps) && Waiting(s, id)
    requires Count(steps, IsClaim) > |Ahead(s, id)|
    ensures exists i :: 0 <= i < |steps| && Claims(steps[i], id)
  {
    if forall i :: 0 <= i < |steps| ==> !Claims(steps[i], id) {
      BoundedOvertaking(s, steps, id);
    }
  }

  // ---------------------------------------------------------------------
  // Out of reach, exactly.
  // ---------------------------------------------------------------------

  lemma SomeFirstDue(tasks: map<TaskId, Task>, id: TaskId, now: int) returns (first: TaskId)
    requires id in tasks && Due(tasks[id], now)
    ensures FirstDue(tasks, first, now)
  {
    var due := set x | x in tasks && Due(tasks[x], now);
    assert id in due;
    first := EarliestExists(tasks, due);
    assert forall x :: x in tasks && Due(tasks[x], now) ==> x in due;
  }

  /** A free worker works off the tasks ahead, then claims the waiting one. */
  lemma {:induction false} WaitingCanMove(s: Queue, id: TaskId, w: WorkerId) returns (steps: seq<Step>)
    requires Inv(s) && Waiting(s, id) && w !in s.held
    ensures ValidRun(s, steps) && !Untouched(s, steps, id)
    decreases |Ahead(s, id)|
  {
    if FirstDue(s.tasks, id, s.now) {
      OneStep(s, Claim(w, id));
      return [Claim(w, id)];
    }
    var x := SomeFirstDue(s.tasks, id, s.now);
    var first := [Claim(w, x), Complete(w)];
    var s1 := Next(s, first[0]);
    AheadShrinks(s, first[0], id);
    WaitingStep(s, first[0], id);
    StepKeepsInv(s, first[0]);
    AheadShrinks(s1, first[1], id);
    WaitingStep(s1, first[1], id);
    StepKeepsInv(s1, first[1]);
    var rest := WaitingCanMove(Next(s1, first[1]), id, w);
    TwoSteps(s, first[0], first[1]);
    RunConcat(s, first, rest);
    steps := first + rest;
  }

  /** The run leaves the row of `id` as it is. */
  ghost predicate Untouched(s: Queue, steps: seq<Step>, id: TaskId)
    requires ValidRun(s, steps) && id in s.tasks
  {
    id in Final(s, steps).tasks && Final(s, steps).tasks[id] == s.tasks[id]
  }

  /** Some run changes any other task. */
  lemma UnsettledCanMove(s: Queue, id: TaskId) returns (steps: seq<Step>)
    requires Inv(s) && id in s.tasks && !Settled(s, id)
    ensures ValidRun(s, steps) && !Untouched(s, steps, id)
  {
    if s.tasks[id].status != Pending {
      var w :| w in s.held && s.held[w] == id;
      OneStep(s, Complete(w));
      return [Complete(w)];
    }
    var w := FreshNumber(s.held.Keys);
    var wait := Tick(if s.now > s.tasks[id].runAt then 0 else s.tasks[id].runAt - s.now + 1);
    StepKeepsInv(s, wait);
    var rest := WaitingCanMove(Next(s, wait), id, w);
    OneStep(s, wait);
    RunConcat(s, [wait], rest);
    steps := [wait] + rest;
  }

  /**
    Completed, dead, or processing with no holder: these, and no others, are the tasks that
    no run ever touches again.
   */
  lemma SettledExactly(s: Queue, id: TaskId)
    requires Inv(s) && id in s.tasks
    ensures Settled(s, id) <==>
      s.tasks[id].status == Completed || s.tasks[id].status == Dead
      || (s.tasks[id].status == Processing && id !in s.held.Values)
    ensures Settled(s, id) <==> forall steps :: ValidRun(s, steps) ==> Untouched(s, steps, id)
  {
    assert forall w :: w in s.held ==> s.held[w] in s.held.Values;
    if Settled(s, id) {
      forall steps | ValidRun(s, steps) ensures Untouched(s, steps, id) {
        SettledForever(s, steps, id);
      }
    } else {
      var steps := UnsettledCanMove(s, id);
    }
  }

  /** Inserted, claimed, and the outcome not written down: from then on no run touches the task. */
  lemma LostWriteStrandsTask(jobType: string, payload: string)
    ensures var run := [Insert(1, jobType, payload), Claim(7, 1), Lose(7)];
            && ValidRun(EMPTY_QUEUE, run)
            && Inv(Final(EMPTY_QUEUE, run)) && Settled(Final(EMPTY_QUEUE, run), 1)
            && Final(EMPTY_QUEUE, run).tasks[1].status == Processing
  {
    var run := [Insert(1, jobType, payload), Claim(7, 1), Lose(7)];
    TwoSteps(EMPTY_QUEUE, run[0], run[1]);
    OneStep(Next(Next(EMPTY_QUEUE, run[0]), run[1]), run[2]);
    RunConcat(EMPTY_QUEUE, [run[0], run[1]], [run[2]]);
    assert run == [run[0], run[1]] + [run[2]];
    QueueSafety(EMPTY_QUEUE, run);
  }

  // ---------------------------------------------------------------------
  // One worker's loop, on the table itself.
  // ---------------------------------------------------------------------

  /**
    What the surroundings decide in one turn of the loop: the time of the claim, the
    handler's verdict, the time it returns, and whether the bookkeeping write is kept.
   */
  datatype Turn = Turn(claimAt: int, error: Option<string>, doneAt: int, recorded: bool)

  ghost predicate Chronological(schedule: seq<Turn>, from: int) {
    && (forall i :: 0 <= i < |schedule| ==> from <= schedule[i].claimAt <= schedule[i].doneAt)
    && (forall i, j :: 0 <= i < j < |schedule| ==> schedule[i].doneAt <= schedule[j].claimAt)
  }

  /** The protocol steps of a turn, given the task the claim statement picked, if any. */
  function TurnSteps(s: Queue, w: WorkerId, turn: Turn, id: Option<TaskId>): seq<Step>
    requires s.now <= turn.claimAt <= turn.doneAt
  {
    match id
    case None => [Tick(turn.claimAt - s.now)]
    case Some(x) =>
      [Tick(turn.claimAt - s.now), Claim(w, x), Tick(turn.doneAt - turn.claimAt), Outcome(w, turn)]
  }

  /** A turn goes without a task only if none is due. */
  ghost predicate TookTurn(s: Queue, w: WorkerId, turn: Turn, s': Queue) {
    && s.now <= turn.claimAt <= turn.doneAt
    && exists id :: ValidRun(s, TurnSteps(s, w, turn, id)) && Final(s, TurnSteps(s, w, turn, id)) == s'
         && (id.None? ==> forall x :: x in s.tasks ==> !Due(s.tasks[x], turn.claimAt))
  }

  /** What a turn with a task leaves in the table. */
  function TurnTasks(tasks: map<TaskId, Task>, turn: Turn, id: TaskId): map<TaskId, Task>
    requires id in tasks
  {
    var claimed := ClaimedRow(tasks[id], turn.claimAt);
    tasks[id := if !turn.recorded then claimed
                else if turn.error.Some? then FailedRow(claimed, turn.doneAt, turn.error.value)
                else CompletedRow(claimed, turn.doneAt)]
  }

  /** The state between the claim and the outcome. */
  function Claimed(s: Queue, w: WorkerId, at: int, id: TaskId): Queue
    requires id in s.tasks
  {
    Queue(at, s.tasks[id := ClaimedRow(s.tasks[id], at)], s.held[w := id],
          s.claims[id := (if id in s.claims then s.claims[id] else []) + [at]])
  }

  lemma ClaimIsRun(s: Queue, w: WorkerId, at: int, id: TaskId)
    requires w !in s.held && s.now <= at && FirstDue(s.tasks, id, at)
    ensures var steps := [Tick(at - s.now), Claim(w, id)];
            ValidRun(s, steps) && Final(s, steps) == Claimed(s, w, at, id)
  {
    TwoSteps(s, Tick(at - s.now), Claim(w, id));
  }

  lemma OutcomeIsRun(s: Queue, w: WorkerId, at: int, outcome: Step)
    requires w in s.held && s.held[w] in s.tasks && s.now <= at
    requires outcome == Lose(w) || outcome == Complete(w) || (outcome.Fail? && outcome.w == w)
    ensures var steps := [Tick(at - s.now), outcome];
            && ValidRun(s, steps) && Final(s, steps).now == at && Final(s, steps).held == s.held - {w}
            && Final(s, steps).tasks == (if outcome.Lose? then s.tasks else s.tasks[s.held[w] :=
                 if outcome.Fail? then FailedRow(s.tasks[s.held[w]], at, outcome.error)
                 else CompletedRow(s.tasks[s.held[w]], at)])
  {
    TwoSteps(s, Tick(at - s.now), outcome);
  }

  function Outcome(w: WorkerId, turn: Turn): Step {
    if !turn.recorded then Lose(w) else if turn.error.Some? then Fail(w, turn.error.value) else Complete(w)
  }

  lemma JoinTurn(s: Queue, a: Step, b: Step, between: Queue, c: Step, d: Step)
    requires ValidRun(s, [a, b]) && Final(s, [a, b]) == between && ValidRun(between, [c, d])
    ensures ValidRun(s, [a, b, c, d]) && Final(s, [a, b, c, d]) == Final(between, [c, d])
  {
    RunConcat(s, [a, b], [c, d]);
    assert [a, b] + [c, d] == [a, b, c, d];
  }

  lemma TurnFinal(s: Queue, w: WorkerId, turn: Turn, id: TaskId, between: Queue, rest: seq<Step>)
    requires w !in s.held && s.now <= turn.claimAt <= turn.doneAt && FirstDue(s.tasks, id, turn.claimAt)
    requires between == Claimed(s, w, turn.claimAt, id) && rest == [Tick(turn.doneAt - turn.claimAt), Outcome(w, turn)]
    requires ValidRun(between, rest)
    ensures ValidRun(s, TurnSteps(s, w, turn, Some(id)))
    ensures Final(s, TurnSteps(s, w, turn, Some(id))) == Final(between, rest)
  {
    ClaimIsRun(s, w, turn.claimAt, id);
    JoinTurn(s, Tick(turn.claimAt - s.now), Claim(w, id), between, rest[0], rest[1]);
  }

  lemma TurnIsRun(s: Queue, w: WorkerId, turn: Turn, id: TaskId)
    requires w !in s.held && s.now <= turn.claimAt <= turn.doneAt && FirstDue(s.tasks, id, turn.claimAt)
    ensures ValidRun(s, TurnSteps(s, w, turn, Some(id)))
    ensures var s' := Final(s, TurnSteps(s, w, turn, Some(id)));
            s'.tasks == TurnTasks(s.tasks, turn, id) && s'.held == s.held && s'.now == turn.doneAt
  {
    var between := Claimed(s, w, turn.claimAt, id);
    OutcomeIsRun(between, w, turn.doneAt, Outcome(w, turn));
    TurnFinal(s, w, turn, id, between, [Tick(turn.doneAt - turn.claimAt), Outcome(w, turn)]);
    assert between.held - {w} == s.held;
  }

  class Pool {
    var tasks: map<TaskId, Task>

    constructor (tasks: map<TaskId, Task>)
      ensures this.tasks == tasks
    {
      this.tasks := tasks;
    }

    method Insert(id: TaskId, jobType: string, payload: string, now: int)
      requires id !in tasks
      modifies this
      ensures tasks == old(tasks)[id := NewTask(jobType, payload, now)]
      ensures tasks == old(tasks)[id := Task(jobType, payload, Pending, 0, 3, None, now, None, None)]
    {
      tasks := tasks[id := Task(jobType, payload, Pending, 0, 3, None, now, None, None)];
    }

    method ClaimNext(now: int) returns (id: Option<TaskId>)
      modifies this
      ensures id.None? ==> tasks == old(tasks) && forall x :: x in tasks ==> !Due(tasks[x], now)
      ensures id.Some? ==> FirstDue(old(tasks), id.value, now)
      ensures id.Some? ==> tasks == old(tasks)[id.value := ClaimedRow(old(tasks)[id.value], now)]
      ensures id.None? <==> forall x :: x in old(tasks) ==> old(tasks)[x].status != Pending || old(tasks)[x].runAt > now
      ensures id.Some? ==>
        && id.value in old(tasks) && old(tasks)[id.value].status == Pending && old(tasks)[id.value].runAt <= now
        && (forall x :: x in old(tasks) && old(tasks)[x].status == Pending ==>
             old(tasks)[id.value].runAt <= old(tasks)[x].runAt)
        && tasks == old(tasks)[id.value := old(tasks)[id.value].(status := Processing, lockedAt := Some(now))]
    {
      var due := set x | x in tasks && Due(tasks[x], now);
      if due == {} {
        assert forall x :: x in tasks && Due(tasks[x], now) ==> x in due;
        return None;
      }
      ghost var first := EarliestExists(tasks, due);
      assert FirstDue(tasks, first, now) by {
        assert forall x :: x in tasks && Due(tasks[x], now) ==> x in due;
      }
      var chosen :| chosen in tasks && FirstDue(tasks, chosen, now);
      tasks := tasks[chosen := tasks[chosen].(status := Processing, lockedAt := Some(now))];
      return Some(chosen);
    }

    method MarkCompleted(id: TaskId, now: int)
      modifies this
      ensures tasks == if id in old(tasks) then old(tasks)[id := CompletedRow(old(tasks)[id], now)] else old(tasks)
      ensures id in old(tasks) ==>
        tasks == old(tasks)[id := old(tasks)[id].(status := Completed, completedAt := Some(now))]
    {
      if id in tasks {
        tasks := tasks[id := tasks[id].(status := Completed, completedAt := Some(now))];
      }
    }

    method MarkFailed(id: TaskId, error: string, now: int)
      modifies this
      ensures tasks == if id in old(tasks) then old(tasks)[id := FailedRow(old(tasks)[id], now, error)] else old(tasks)
      ensures id in old(tasks) ==>
        var t := old(tasks)[id];
        tasks == old(tasks)[id := if t.attempts + 1 >= t.maxAttempts
                                  then t.(status := Dead, attempts := t.attempts + 1, lastError := Some(error))
                                  else t.(status := Pending, attempts := t.attempts + 1, lastError := Some(error),
                                          runAt := now + Pow2(t.attempts + 1) * 60_000_000)]
    {
      if id in tasks {
        var t := tasks[id];
        var exhausted := t.attempts + 1 >= t.maxAttempts;
        var status := if exhausted then Dead else Pending;
        var runAt := if exhausted then t.runAt else now + Pow2(t.attempts + 1) * MINUTE;
        tasks := tasks[id := t.(status := status, attempts := t.attempts + 1,
                                lastError := Some(error), runAt := runAt)];
      }
    }

    /** The bookkeeping after the handler returned, unless it is lost. */
    method Record(id: TaskId, turn: Turn)
      requires id in tasks
      modifies this
      ensures tasks == if !turn.recorded then old(tasks)
                       else if turn.error.Some?
                       then old(tasks)[id := FailedRow(old(tasks)[id], turn.doneAt, turn.error.value)]
                       else old(tasks)[id := CompletedRow(old(tasks)[id], turn.doneAt)]
    {
      if turn.recorded {
        if turn.error.Some? {
          MarkFailed(id, turn.error.value, turn.doneAt);
        } else {
          MarkCompleted(id, turn.doneAt);
        }
      }
    }

    /** One turn: claim, hand to the handler, write down the outcome. */
    method TakeTurn(w: WorkerId, turn: Turn, ghost s: Queue) returns (ghost trace: seq<Step>)
      requires s.tasks == tasks && w !in s.held && s.now <= turn.claimAt <= turn.doneAt
      requires Inv(s)
      modifies this
      ensures ValidRun(s, trace) && TookTurn(s, w, turn, Final(s, trace))
      ensures Final(s, trace).tasks == tasks && Final(s, trace).held == s.held
      ensures Final(s, trace).now <= turn.doneAt
    {
      var id := ClaimNext(turn.claimAt);
      trace := TurnSteps(s, w, turn, id);
      if id.Some? {
        TurnIsRun(s, w, turn, id.value);
        Record(id.value, turn);
      } else {
        assert trace[1..] == [];
      }
    }

    /**
      The polling loop until the schedule ends, which stands for cancellation. Every
      turn takes a due task if there is one, and the whole is a run of the protocol.
     */
    method Run(w: WorkerId, schedule: seq<Turn>, ghost start: Queue)
      returns (ghost states: seq<Queue>, ghost trace: seq<Step>)
      requires start.tasks == tasks && w !in start.held
      requires Inv(start) && Chronological(schedule, start.now)
      modifies this
      ensures |states| == |schedule| + 1 && states[0] == start
      ensures forall i :: 0 <= i < |schedule| ==> TookTurn(states[i], w, schedule[i], states[i + 1])
      ensures ValidRun(start, trace) && Final(start, trace) == states[|schedule|]
      ensures tasks == states[|schedule|].tasks
    {
      trace, states := [], [start];
      ghost var s := start;
      var i := 0;
      while i < |schedule|
        invariant 0 <= i <= |schedule|
        invariant |states| == i + 1 && states[0] == start && states[i] == s
        invariant forall j :: 0 <= j < i ==> TookTurn(states[j], w, schedule[j], states[j + 1])
        invariant ValidRun(start, trace) && Final(start, trace) == s && Inv(s)
        invariant s.tasks == tasks && s.held == start.held
        invariant s.now <= if i == 0 then start.now else schedule[i - 1].doneAt
      {
        assert s.now <= schedule[i].claimAt <= schedule[i].doneAt;
        ghost var steps := TakeTurn(w, schedule[i], s);
        RunConcat(start, trace, steps);
        QueueSafety(s, steps);
        trace, s := trace + steps, Final(s, steps);
        states := states + [s];
        i := i + 1;
      }
    }
  }
}
