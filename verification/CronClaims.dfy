/**
  The scheduled jobs and their claims in cron_run (internal/worker/cron.go,
  internal/worker/worker.go). Times are seconds; Africa/Lagos is UTC+1 all year.
 */
module CronClaims {
  import opened Common

  const HOUR: int := 3600
  const DAY: int := 24 * HOUR
  const LAGOS_OFFSET: int := HOUR

  function LagosDate(t: int): int {
    (t + LAGOS_OFFSET) / DAY
  }

  function LagosHour(t: int): int {
    (t + LAGOS_OFFSET) % DAY / HOUR
  }

  /** When a given hour of a given Lagos date starts. */
  function StartOf(date: int, hour: int): int {
    date * DAY + hour * HOUR - LAGOS_OFFSET
  }

  lemma WithinHour(t: int, date: int, hour: int)
    requires 0 <= hour < 24
    ensures StartOf(date, hour) <= t < StartOf(date, hour) + HOUR <==> LagosDate(t) == date && LagosHour(t) == hour
  {
    var x := t + LAGOS_OFFSET;
    assert x == DAY * (x / DAY) + x % DAY;
    var r := x % DAY;
    assert r == HOUR * (r / HOUR) + r % HOUR;
  }

  /** Dates and hours in seconds: Lagos is an hour ahead. */
  lemma HourInSeconds(t: int, date: int, hour: int)
    requires 0 <= hour < 24
    ensures LagosDate(t) == date && LagosHour(t) == hour
       <==> date * 86400 + hour * 3600 <= t + 3600 < date * 86400 + hour * 3600 + 3600
  {
    WithinHour(t, date, hour);
  }

  // ---------------------------------------------------------------------
  // Daily jobs.
  // ---------------------------------------------------------------------

  datatype Job = DeadlineReminders | RecalculateRatings

  function TargetHour(job: Job): int {
    match job
    case DeadlineReminders => 18
    case RecalculateRatings => 3
  }

  datatype Claim = Claim(job: Job, date: int)

  /** The claimed (job, date) rows, and the job bodies started, in order. */
  datatype State = State(claims: set<Claim>, started: seq<Claim>)

  datatype Step =
    | Check(job: Job, t: int)    // the loop of some instance looks at the clock
    | Manual(job: Job, t: int)   // an admin triggers the job
    | Failed(job: Job, t: int)   // either, but the claim statement errors

  /** Insert the claim; whoever inserts it runs the body. */
  function TryClaim(s: State, c: Claim): State {
    if c in s.claims then s else State(s.claims + {c}, s.started + [c])
  }

  function Next(s: State, step: Step): State {
    match step
    case Check(job, t) => if LagosHour(t) != TargetHour(job) then s else TryClaim(s, Claim(job, LagosDate(t)))
    case Manual(job, t) => TryClaim(s, Claim(job, LagosDate(t)))
    case Failed(_, _) => s
  }

  function Run(s: State, steps: seq<Step>): State
    decreases |steps|
  {
    if steps == [] then s else Run(Next(s, steps[0]), steps[1..])
  }

  ghost predicate Inv(s: State) {
    && (forall c :: c in s.started <==> c in s.claims)
    && forall c :: multiset(s.started)[c] <= 1
  }

  lemma ClaimKeepsInv(s: State, c: Claim)
    requires Inv(s)
    ensures Inv(TryClaim(s, c)) && c in TryClaim(s, c).claims
  {
  }

  lemma {:induction false} InvAlways(s: State, steps: seq<Step>)
    requires Inv(s)
    ensures Inv(Run(s, steps)) && s.claims <= Run(s, steps).claims
    decreases |steps|
  {
    if steps != [] {
      if !steps[0].Failed? {
        ClaimKeepsInv(s, Claim(steps[0].job, LagosDate(steps[0].t)));
      }
      InvAlways(Next(s, steps[0]), steps[1..]);
    }
  }

  /** However many instances check and admins trigger, a body starts at most once per date. */
  lemma AtMostOncePerDate(steps: seq<Step>, c: Claim)
    ensures multiset(Run(State({}, []), steps).started)[c] <= 1
  {
    InvAlways(State({}, []), steps);
  }

  /** What starts a body on a date: a trigger on it, or a check within its hour, 18 or 3 o'clock in Lagos. */
  predicate Starts(step: Step, c: Claim) {
    || (step.Manual? && step.job == c.job && LagosDate(step.t) == c.date)
    || (step.Check? && step.job == c.job && LagosDate(step.t) == c.date
        && LagosHour(step.t) == if c.job == DeadlineReminders then 18 else 3)
  }

  lemma {:induction false} ClaimedExactly(s: State, steps: seq<Step>, c: Claim)
    ensures c in Run(s, steps).claims <==> c in s.claims || exists i :: 0 <= i < |steps| && Starts(steps[i], c)
    decreases |steps|
  {
    if steps != [] {
      var rest := steps[1..];
      ClaimedExactly(Next(s, steps[0]), rest, c);
      if i :| 0 <= i < |steps| && Starts(steps[i], c) {
        assert i == 0 || Starts(rest[i - 1], c);
      }
      if i :| 0 <= i < |rest| && Starts(rest[i], c) {
        assert Starts(steps[i + 1], c);
      }
    }
  }

  /** Over every run a body is started on a date exactly if there was such a trigger or check, and then once. */
  lemma StartedExactly(steps: seq<Step>, c: Claim)
    ensures c in Run(State({}, []), steps).started <==>
      exists i :: 0 <= i < |steps| &&
        ((steps[i].Manual? && steps[i].job == c.job && LagosDate(steps[i].t) == c.date)
         || (steps[i].Check? && steps[i].job == c.job && LagosDate(steps[i].t) == c.date
             && LagosHour(steps[i].t) == if c.job == DeadlineReminders then 18 else 3))
    ensures multiset(Run(State({}, []), steps).started)[c] <= 1
  {
    InvAlways(State({}, []), steps);
    ClaimedExactly(State({}, []), steps, c);
    if i :| 0 <= i < |steps| && Starts(steps[i], c) {
      assert c in Run(State({}, []), steps).claims;
    }
  }

  /** The times at which the loops checked one job, errors left out. */
  function CheckTimes(steps: seq<Step>, job: Job): seq<int> {
    if steps == [] then []
    else (if steps[0].Check? && steps[0].job == job then [steps[0].t] else []) + CheckTimes(steps[1..], job)
  }

  /** Checks from before the end of the hour to its start or later, under an hour apart. */
  ghost predicate Covers(times: seq<int>, start: int) {
    && times != []
    && times[0] < start + HOUR
    && times[|times| - 1] >= start
    && forall i :: 0 <= i < |times| - 1 ==> times[i + 1] < times[i] + HOUR
  }

  lemma {:induction false} SomeCheckInHour(times: seq<int>, start: int) returns (i: nat)
    requires Covers(times, start)
    ensures i < |times| && start <= times[i] < start + HOUR
    decreases |times|
  {
    if times[0] >= start {
      i := 0;
    } else {
      assert times[1] < times[0] + HOUR;
      i := SomeCheckInHour(times[1..], start);
      i := i + 1;
    }
  }

  lemma {:induction false} CheckInHourClaims(s: State, steps: seq<Step>, job: Job, i: nat)
    requires Inv(s) && i < |CheckTimes(steps, job)|
    requires LagosHour(CheckTimes(steps, job)[i]) == TargetHour(job)
    ensures Claim(job, LagosDate(CheckTimes(steps, job)[i])) in Run(s, steps).claims
    decreases |steps|
  {
    var s' := Next(s, steps[0]);
    if !steps[0].Failed? {
      ClaimKeepsInv(s, Claim(steps[0].job, LagosDate(steps[0].t)));
    }
    if steps[0].Check? && steps[0].job == job {
      if i == 0 {
        InvAlways(s', steps[1..]);
      } else {
        CheckInHourClaims(s', steps[1..], job, i - 1);
      }
    } else {
      CheckInHourClaims(s', steps[1..], job, i);
    }
  }

  /** On a date whose target hour is covered by checks the body starts exactly once. */
  lemma ExactlyOnceWhenCovered(steps: seq<Step>, job: Job, date: int)
    requires Covers(CheckTimes(steps, job), StartOf(date, TargetHour(job)))
    ensures multiset(Run(State({}, []), steps).started)[Claim(job, date)] == 1
  {
    var i := SomeCheckInHour(CheckTimes(steps, job), StartOf(date, TargetHour(job)));
    WithinHour(CheckTimes(steps, job)[i], date, TargetHour(job));
    CheckInHourClaims(State({}, []), steps, job, i);
    InvAlways(State({}, []), steps);
    assert Claim(job, date) in Run(State({}, []), steps).started;
  }

  // ---------------------------------------------------------------------
  // Jobs run every six hours.
  // ---------------------------------------------------------------------

  predicate CleanupHour(hour: int) {
    hour == 0 || hour == 6 || hour == 12 || hour == 18
  }

  /** The row of each date holds the latest start on it. */
  type Runs = map<int, int>

  predicate Latest(runs: Runs, date: int) {
    date in runs && forall d :: d in runs ==> runs[d] <= runs[date]
  }

  /**
    The guard of a check at `now`: skip if the latest start fell in the same hour of the
    same day of the year. `yearDay` gives the day of the year of a date.
   */
  predicate Skips(lastStarted: Option<int>, now: int, yearDay: int -> int) {
    && lastStarted.Some?
    && LagosHour(lastStarted.value) == LagosHour(now)
    && yearDay(LagosDate(lastStarted.value)) == yearDay(LagosDate(now))
  }

  class CleanupJob {
    var runs: Runs
    ghost var starts: seq<int>

    /** Start times only go up, and the latest one is what the guard will read. */
    ghost predicate Recorded()
      reads this
    {
      && (forall i, j :: 0 <= i < j < |starts| ==> starts[i] <= starts[j])
      && (forall d :: d in runs ==> runs[d] in starts)
      && (starts != [] ==> exists d :: d in runs && runs[d] == starts[|starts| - 1])
    }

    ghost predicate OncePerHour()
      reads this
    {
      forall i, j :: 0 <= i < j < |starts| ==> !SameTargetHour(starts[i], starts[j])
    }

    ghost predicate Valid()
      reads this
    {
      Recorded() && OncePerHour()
    }

    constructor ()
      ensures Valid() && starts == []
    {
      runs, starts := map[], [];
    }

    method LastStarted() returns (last: Option<int>)
      requires Recorded()
      ensures last == if starts == [] then None else Some(starts[|starts| - 1])
    {
      if !exists d :: d in runs {
        return None;
      }
      ghost var latest :| latest in runs && runs[latest] == starts[|starts| - 1];
      forall d | d in runs ensures runs[d] <= runs[latest] {
        assert runs[d] in starts;
      }
      assert Latest(runs, latest);
      var date :| date in runs && Latest(runs, date);
      assert Latest(runs, date) && runs[date] in starts;
      return Some(runs[date]);
    }

    /** The claim: a new row for the date, or the existing one started afresh. */
    method RecordStart(now: int)
      requires Recorded() && forall i :: 0 <= i < |starts| ==> starts[i] <= now
      modifies this
      ensures Recorded() && starts == old(starts) + [now]
      ensures runs == old(runs)[LagosDate(now) := now]
    {
      runs := runs[LagosDate(now) := now];
      starts := starts + [now];
      assert runs[LagosDate(now)] == starts[|starts| - 1];
    }

    /** One check of a single loop; it starts the job at most once per target hour. */
    method MaybeRun(now: int, yearDay: int -> int) returns (ran: bool)
      requires Valid() && forall i :: 0 <= i < |starts| ==> starts[i] <= now
      modifies this
      ensures Valid()
      ensures starts == if ran then old(starts) + [now] else old(starts)
      ensures var last := if old(starts) == [] then None else Some(old(starts)[|old(starts)| - 1]);
              ran <==> CleanupHour(LagosHour(now)) && !Skips(last, now, yearDay)
      ensures ran <==>
        && LagosHour(now) in {0, 6, 12, 18}
        && (old(starts) == []
            || LagosHour(old(starts)[|old(starts)| - 1]) != LagosHour(now)
            || yearDay(LagosDate(old(starts)[|old(starts)| - 1])) != yearDay(LagosDate(now)))
      ensures runs == if ran then old(runs)[LagosDate(now) := now] else old(runs)
    {
      if !CleanupHour(LagosHour(now)) {
        return false;
      }
      var last := LastStarted();
      if last.Some? && LagosHour(last.value) == LagosHour(now) &&
           yearDay(LagosDate(last.value)) == yearDay(LagosDate(now)) {
        return false;
      }
      if starts != [] {
        forall i | 0 <= i < |starts| ensures !SameTargetHour(starts[i], now) {
          SameHourBetween(starts[i], starts[|starts| - 1], now);
        }
      }
      RecordStart(now);
      return true;
    }
  }

  predicate SameTargetHour(a: int, b: int) {
    LagosDate(a) == LagosDate(b) && LagosHour(a) == LagosHour(b)
  }

  lemma SameHourBetween(a: int, m: int, b: int)
    requires a <= m <= b
    ensures SameTargetHour(a, b) ==> SameTargetHour(m, b)
  {
    WithinHour(a, LagosDate(b), LagosHour(b));
    WithinHour(m, LagosDate(b), LagosHour(b));
    WithinHour(b, LagosDate(b), LagosHour(b));
  }
}
