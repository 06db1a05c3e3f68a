/**
  Reviews and the rating columns cached on employers (internal/data/reviews.go,
  internal/app/reviews.go, internal/data/employers.go, internal/worker/cron.go).

  The cache is kept up by queued recalculations. Averages are in hundredths, the
  resolution of the cached columns.
 */
module Ratings {
  import opened Common
  import opened Sums

  type ReviewId = nat
  type EmployerId = nat
  type UserId = nat
  type TaskId = nat
  type ClientId = nat

  datatype ReviewStatus = AwaitingModeration | Approved | Rejected

  datatype Review = Review(
    employer: EmployerId, author: Option<UserId>, difficulty: int, experience: int, status: ReviewStatus)

  datatype Scores = Scores(difficulty: int, experience: int)

  datatype Cache = Cache(count: int, avgDifficulty: Option<int>, avgExperience: Option<int>)

  const NO_REVIEWS := Cache(0, None, None)

  // ---------------------------------------------------------------------
  // The aggregate.
  // ---------------------------------------------------------------------

  function ApprovedOf(reviews: map<ReviewId, Review>, e: EmployerId): map<ReviewId, Scores> {
    map r | r in reviews && reviews[r].employer == e && reviews[r].status == Approved
      :: Scores(reviews[r].difficulty, reviews[r].experience)
  }

  function Difficulty(s: Scores): int { s.difficulty }

  function Experience(s: Scores): int { s.experience }

  /** The mean of `n` scores in hundredths, halves rounded up. */
  function RoundedMean(sum: int, n: nat): int
    requires n > 0
  {
    (200 * sum + n) / (2 * n)
  }

  ghost function Average(scores: map<ReviewId, Scores>, f: Scores -> int): Option<int> {
    if scores == map[] then None else Some(RoundedMean(SumBy(scores, f), |scores|))
  }

  ghost function Aggregate(reviews: map<ReviewId, Review>, e: EmployerId): Cache {
    var scores := ApprovedOf(reviews, e);
    Cache(|scores|, Average(scores, Difficulty), Average(scores, Experience))
  }

  ghost predicate ScoresInRange(reviews: map<ReviewId, Review>) {
    forall r :: r in reviews ==> 1 <= reviews[r].difficulty <= 5 && 1 <= reviews[r].experience <= 5
  }

  lemma RoundedMeanIsClose(sum: int, n: nat)
    requires n > 0
    ensures 200 * sum - n < 2 * n * RoundedMean(sum, n) <= 200 * sum + n
  {
    var q := 200 * sum + n;
    assert q == (2 * n) * (q / (2 * n)) + q % (2 * n);
  }

  lemma MeanInRange(m: int, sum: int, n: nat)
    requires n > 0 && n <= sum <= 5 * n
    requires 200 * sum - n < 2 * n * m <= 200 * sum + n
    ensures 100 <= m <= 500
  {
    assert m <= 99 ==> 2 * n * m <= 2 * n * 99;
    assert m >= 501 ==> 2 * n * m >= 2 * n * 501;
  }

  /**
    Averages are null exactly when no review is approved; otherwise each lies between
    1 and 5 and within half a hundredth of the exact mean.
   */
  lemma AggregateIsTheMean(reviews: map<ReviewId, Review>, e: EmployerId)
    requires ScoresInRange(reviews)
    ensures var a := Aggregate(reviews, e);
            var scores := ApprovedOf(reviews, e);
            var d, x := SumBy(scores, Difficulty), SumBy(scores, Experience);
            && a.count == |scores|
            && (a.count == 0 <==> a.avgDifficulty.None?) && (a.count == 0 <==> a.avgExperience.None?)
            && (a.count > 0 ==>
                  && 100 <= a.avgDifficulty.value <= 500 && 100 <= a.avgExperience.value <= 500
                  && 200 * d - a.count < 2 * a.count * a.avgDifficulty.value <= 200 * d + a.count
                  && 200 * x - a.count < 2 * a.count * a.avgExperience.value <= 200 * x + a.count)
  {
    var scores := ApprovedOf(reviews, e);
    var d, x, n := SumBy(scores, Difficulty), SumBy(scores, Experience), |scores|;
    if n > 0 {
      SumBetween(scores, Difficulty, 1, 5);
      SumBetween(scores, Experience, 1, 5);
      RoundedMeanIsClose(d, n);
      RoundedMeanIsClose(x, n);
      MeanInRange(RoundedMean(d, n), d, n);
      MeanInRange(RoundedMean(x, n), x, n);
    }
  }

  /** What a sum over the approved reviews of an employer is as a sum over all reviews. */
  lemma {:induction false} ApprovedSum(reviews: map<ReviewId, Review>, e: EmployerId, f: Scores -> int,
                                       g: Review -> int)
    requires forall v: Review ::
      g(v) == if v.employer == e && v.status == Approved then f(Scores(v.difficulty, v.experience)) else 0
    ensures SumBy(ApprovedOf(reviews, e), f) == SumBy(reviews, g)
    decreases |reviews|
  {
    if reviews == map[] {
      assert ApprovedOf(reviews, e) == map[];
    } else {
      assert reviews.Keys != {};
      var r :| r in reviews;
      var approved, rest := ApprovedOf(reviews, e), reviews - {r};
      assert ApprovedOf(rest, e) == approved - {r};
      assert rest.Keys < reviews.Keys;
      SumRemove(reviews, g, r);
      if r in approved {
        SumRemove(approved, f, r);
      } else {
        assert approved - {r} == approved;
      }
      assert |rest| < |reviews|;
      ApprovedSum(rest, e, f, g);
    }
  }

  lemma ApprovedCount(reviews: map<ReviewId, Review>, e: EmployerId, one: Review -> int)
    requires forall v: Review :: one(v) == if v.employer == e && v.status == Approved then 1 else 0
    ensures |ApprovedOf(reviews, e)| == SumBy(reviews, one)
  {
    ApprovedSum(reviews, e, (v: Scores) => 1, one);
    SumOfOnes(ApprovedOf(reviews, e), (v: Scores) => 1);
  }

  lemma {:induction false} SumOfOnes<K, V>(m: map<K, V>, one: V -> int)
    requires forall v: V :: one(v) == 1
    ensures SumBy(m, one) == |m|
    decreases |m|
  {
    if m != map[] {
      assert m.Keys != {};
      var k :| k in m;
      SumRemove(m, one, k);
      assert |m - {k}| == |m| - 1;
      SumOfOnes(m - {k}, one);
    }
  }

  /**
    The aggregate against the columns themselves. `one`, `difficulty` and `experience` are 1
    and the two scores on an approved review of the employer, and 0 on every other.
   */
  lemma AggregateIsTheColumnMean(reviews: map<ReviewId, Review>, e: EmployerId,
                                 one: Review -> int, difficulty: Review -> int, experience: Review -> int)
    requires ScoresInRange(reviews)
    requires forall v: Review :: one(v) == if v.employer == e && v.status == Approved then 1 else 0
    requires forall v: Review :: difficulty(v) == if v.employer == e && v.status == Approved then v.difficulty else 0
    requires forall v: Review :: experience(v) == if v.employer == e && v.status == Approved then v.experience else 0
    ensures var a := Aggregate(reviews, e);
            var n, d, x := SumBy(reviews, one), SumBy(reviews, difficulty), SumBy(reviews, experience);
            && a.count == n && (n == 0 <==> a.avgDifficulty.None?) && (n == 0 <==> a.avgExperience.None?)
            && (n > 0 ==>
                  && 100 <= a.avgDifficulty.value <= 500 && 100 <= a.avgExperience.value <= 500
                  && 200 * d - n < 2 * n * a.avgDifficulty.value <= 200 * d + n
                  && 200 * x - n < 2 * n * a.avgExperience.value <= 200 * x + n)
  {
    AggregateIsTheMean(reviews, e);
    ApprovedCount(reviews, e, one);
    ApprovedSum(reviews, e, Difficulty, difficulty);
    ApprovedSum(reviews, e, Experience, experience);
  }

  // ---------------------------------------------------------------------
  // Review writes, moderation, the queue and recalculation.
  // ---------------------------------------------------------------------

  /** A recalculation task; a worker that stops leaves it Running for good. */
  datatype Phase = Queued | Running | Executed | DeadLettered

  datatype Task = Task(employer: EmployerId, phase: Phase)

  /** `missed` names the employers with a change that no recalculation was queued for. */
  datatype System = System(
    reviews: map<ReviewId, Review>,
    caches: map<EmployerId, Cache>,
    enqueueing: map<ClientId, EmployerId>,
    tasks: map<TaskId, Task>,
    missed: set<EmployerId>)

  datatype Step =
    | NewEmployer(e: EmployerId)
    | Submit(r: ReviewId, e: EmployerId, author: UserId, difficulty: int, experience: int)
    | Edit(r: ReviewId, difficulty: int, experience: int)
    | Delete(r: ReviewId)
    | Moderate(c: ClientId, r: ReviewId, approve: bool)
    | Enqueue(c: ClientId, t: TaskId)
    | EnqueueFails(c: ClientId)
    | Claim(t: TaskId)
    | Execute(t: TaskId)
    | Fail(t: TaskId, dead: bool)
    | CronRecalc(e: EmployerId)
    | ForgetAuthors(gone: set<UserId>)

  predicate Enabled(s: System, step: Step) {
    match step
    case NewEmployer(e) => e !in s.caches && forall r :: r in s.reviews ==> s.reviews[r].employer != e
    case Submit(r, e, _, d, x) => r !in s.reviews && e in s.caches && 1 <= d <= 5 && 1 <= x <= 5
    case Edit(r, d, x) => r in s.reviews && 1 <= d <= 5 && 1 <= x <= 5
    case Delete(r) => r in s.reviews
    case Moderate(c, r, _) => c !in s.enqueueing && r in s.reviews
    case Enqueue(c, t) => c in s.enqueueing && t !in s.tasks
    case EnqueueFails(c) => c in s.enqueueing
    case Claim(t) => t in s.tasks && s.tasks[t].phase == Queued
    case Execute(t) => t in s.tasks && s.tasks[t].phase == Running
    case Fail(t, _) => t in s.tasks && s.tasks[t].phase == Running
    case CronRecalc(e) => e in s.caches
    case ForgetAuthors(_) => true
  }

  /** A review leaves the approved ones, or an approved one is edited, with nothing queued. */
  function Missing(s: System, r: ReviewId): set<EmployerId>
    requires r in s.reviews
  {
    if s.reviews[r].status == Approved then {s.reviews[r].employer} else {}
  }

  function WithoutAuthors(reviews: map<ReviewId, Review>, gone: set<UserId>): map<ReviewId, Review> {
    map r | r in reviews ::
      if reviews[r].author.Some? && reviews[r].author.value in gone then reviews[r].(author := None) else reviews[r]
  }

  ghost function Recalculated(s: System, e: EmployerId): System {
    if e !in s.caches then s
    else s.(caches := s.caches[e := Aggregate(s.reviews, e)], missed := s.missed - {e})
  }

  ghost function Next(s: System, step: Step): System
    requires Enabled(s, step)
  {
    match step
    case NewEmployer(e) => s.(caches := s.caches[e := NO_REVIEWS])
    case Submit(r, e, author, d, x) => s.(reviews := s.reviews[r := Review(e, Some(author), d, x, AwaitingModeration)])
    case Edit(r, d, x) =>
      s.(reviews := s.reviews[r := s.reviews[r].(difficulty := d, experience := x, status := AwaitingModeration)],
         missed := s.missed + Missing(s, r))
    case Delete(r) => s.(reviews := s.reviews - {r}, missed := s.missed + Missing(s, r))
    case Moderate(c, r, approve) =>
      if approve
      then s.(reviews := s.reviews[r := s.reviews[r].(status := Approved)],
              enqueueing := s.enqueueing[c := s.reviews[r].employer])
      else s.(reviews := s.reviews[r := s.reviews[r].(status := Rejected)], missed := s.missed + Missing(s, r))
    case Enqueue(c, t) =>
      s.(tasks := s.tasks[t := Task(s.enqueueing[c], Queued)], enqueueing := s.enqueueing - {c})
    case EnqueueFails(c) => s.(missed := s.missed + {s.enqueueing[c]}, enqueueing := s.enqueueing - {c})
    case Claim(t) => s.(tasks := s.tasks[t := s.tasks[t].(phase := Running)])
    case Execute(t) =>
      Recalculated(s.(tasks := s.tasks[t := s.tasks[t].(phase := Executed)]), s.tasks[t].employer)
    case Fail(t, dead) => s.(tasks := s.tasks[t := s.tasks[t].(phase := if dead then DeadLettered else Queued)])
    case CronRecalc(e) => Recalculated(s, e)
    case ForgetAuthors(gone) => s.(reviews := WithoutAuthors(s.reviews, gone))
  }

  const EMPTY_SYSTEM := System(map[], map[], map[], map[], {})

  ghost predicate ValidRun(s: System, steps: seq<Step>)
    decreases |steps|
  {
    steps == [] || (Enabled(s, steps[0]) && ValidRun(Next(s, steps[0]), steps[1..]))
  }

  ghost function Final(s: System, steps: seq<Step>): System
    requires ValidRun(s, steps)
    decreases |steps|
  {
    if steps == [] then s else Final(Next(s, steps[0]), steps[1..])
  }

  lemma {:induction false} RunOneMore(s: System, steps: seq<Step>, step: Step)
    requires ValidRun(s, steps) && Enabled(Final(s, steps), step)
    ensures ValidRun(s, steps + [step]) && Final(s, steps + [step]) == Next(Final(s, steps), step)
    decreases |steps|
  {
    if steps == [] {
      var s' := Next(s, step);
      assert [] + [step] == [step] && [step][1..] == [];
      assert ValidRun(s', []) && Final(s', []) == s';
    } else {
      RunOneMore(Next(s, steps[0]), steps[1..], step);
      assert (steps + [step])[1..] == steps[1..] + [step];
    }
  }

  ghost predicate CacheFresh(s: System, e: EmployerId) {
    e in s.caches && s.caches[e] == Aggregate(s.reviews, e)
  }

  ghost predicate Outstanding(s: System, e: EmployerId, t: TaskId) {
    t in s.tasks && s.tasks[t].employer == e && s.tasks[t].phase != Executed
  }

  /** A recalculation of `e` is being enqueued, queued, running or stuck, or dead-lettered. */
  ghost predicate RecalcDue(s: System, e: EmployerId) {
    e in s.enqueueing.Values || exists t :: Outstanding(s, e, t)
  }

  ghost predicate Referential(s: System) {
    && ScoresInRange(s.reviews)
    && (forall r :: r in s.reviews ==> s.reviews[r].employer in s.caches)
    && (forall t :: t in s.tasks ==> s.tasks[t].employer in s.caches)
    && (forall c :: c in s.enqueueing ==> s.enqueueing[c] in s.caches)
  }

  ghost predicate Inv(s: System) {
    && Referential(s)
    && forall e :: e in s.caches ==> CacheFresh(s, e) || RecalcDue(s, e) || e in s.missed
  }

  /** The aggregate of an employer depends only on its approved reviews. */
  lemma AggregateLocal(a: map<ReviewId, Review>, b: map<ReviewId, Review>, e: EmployerId)
    requires ApprovedOf(a, e) == ApprovedOf(b, e)
    ensures Aggregate(a, e) == Aggregate(b, e)
  {
  }

  /** Forgetting authors, as a purge of users does, changes no approved review. */
  lemma ForgettingAuthorsKeepsAggregates(reviews: map<ReviewId, Review>, gone: set<UserId>, e: EmployerId)
    ensures WithoutAuthors(reviews, gone).Keys == reviews.Keys
    ensures ApprovedOf(WithoutAuthors(reviews, gone), e) == ApprovedOf(reviews, e)
    ensures Aggregate(WithoutAuthors(reviews, gone), e) == Aggregate(reviews, e)
  {
    AggregateLocal(WithoutAuthors(reviews, gone), reviews, e);
  }

  predicate CountsFor(review: Review, e: EmployerId) {
    review.employer == e && review.status == Approved
  }

  /** Writing one review changes the approved ones at that review only. */
  lemma ApprovedAfterWrite(reviews: map<ReviewId, Review>, r: ReviewId, v: Review, e: EmployerId)
    ensures ApprovedOf(reviews[r := v], e)
         == if CountsFor(v, e) then ApprovedOf(reviews, e)[r := Scores(v.difficulty, v.experience)]
            else ApprovedOf(reviews, e) - {r}
    ensures ApprovedOf(reviews - {r}, e) == ApprovedOf(reviews, e) - {r}
    ensures r in ApprovedOf(reviews, e) <==> r in reviews && CountsFor(reviews[r], e)
  {
  }

  lemma NotThere<K, V>(m: map<K, V>, k: K)
    requires k !in m
    ensures m - {k} == m
  {
  }

  /** The approved reviews of an employer change only by a counted review going, or one being approved. */
  lemma ApprovedUnlessMissed(s: System, step: Step, e: EmployerId)
    requires Inv(s) && Enabled(s, step) && e in s.caches
    ensures ApprovedOf(Next(s, step).reviews, e) == ApprovedOf(s.reviews, e)
         || e in Next(s, step).missed || (step.Moderate? && step.approve && s.reviews[step.r].employer == e)
  {
    var before := ApprovedOf(s.reviews, e);
    match step
    case Submit(r, emp, author, d, x) =>
      ApprovedAfterWrite(s.reviews, r, Next(s, step).reviews[r], e);
      NotThere(before, r);
    case Edit(r, _, _) =>
      ApprovedAfterWrite(s.reviews, r, Next(s, step).reviews[r], e);
      if r !in before { NotThere(before, r); }
    case Delete(r) =>
      ApprovedAfterWrite(s.reviews, r, s.reviews[r], e);
      if r !in before { NotThere(before, r); }
    case Moderate(_, r, _) =>
      ApprovedAfterWrite(s.reviews, r, Next(s, step).reviews[r], e);
      if r !in before { NotThere(before, r); }
    case ForgetAuthors(gone) => ForgettingAuthorsKeepsAggregates(s.reviews, gone, e);
    case _ =>
  }

  predicate Recalculates(s: System, step: Step, e: EmployerId) {
    (step.CronRecalc? && step.e == e) || (step.Execute? && step.t in s.tasks && s.tasks[step.t].employer == e)
  }

  lemma StepKeepsDue(s: System, step: Step, e: EmployerId)
    requires Inv(s) && Enabled(s, step) && RecalcDue(s, e) && !Recalculates(s, step, e)
    ensures RecalcDue(Next(s, step), e) || e in Next(s, step).missed
  {
    if exists t :: Outstanding(s, e, t) {
      var t :| Outstanding(s, e, t);
      TaskStaysDue(s, step, e, t);
    } else {
      var c :| c in s.enqueueing && s.enqueueing[c] == e;
      EnqueueingStaysDue(s, step, e, c);
    }
  }

  lemma TaskStaysDue(s: System, step: Step, e: EmployerId, t: TaskId)
    requires Enabled(s, step) && Outstanding(s, e, t) && !Recalculates(s, step, e)
    ensures Outstanding(Next(s, step), e, t)
  {
  }

  lemma EnqueueingStaysDue(s: System, step: Step, e: EmployerId, c: ClientId)
    requires Enabled(s, step) && c in s.enqueueing && s.enqueueing[c] == e
    ensures RecalcDue(Next(s, step), e) || e in Next(s, step).missed
  {
    var s' := Next(s, step);
    if step.Enqueue? && step.c == c {
      assert Outstanding(s', e, step.t);
    } else if !(step.EnqueueFails? && step.c == c) {
      assert c in s'.enqueueing && s'.enqueueing[c] == e;
    }
  }

  lemma CacheStays(s: System, step: Step, e: EmployerId)
    requires Enabled(s, step) && e in s.caches && !Recalculates(s, step, e)
    ensures e in Next(s, step).caches && Next(s, step).caches[e] == s.caches[e]
  {
  }

  lemma StepKeepsFresh(s: System, step: Step, e: EmployerId)
    requires Inv(s) && Enabled(s, step) && e in s.caches && !Recalculates(s, step, e)
    requires CacheFresh(s, e)
    ensures CacheFresh(Next(s, step), e) || RecalcDue(Next(s, step), e) || e in Next(s, step).missed
  {
    var s' := Next(s, step);
    ApprovedUnlessMissed(s, step, e);
    CacheStays(s, step, e);
    if ApprovedOf(s'.reviews, e) == ApprovedOf(s.reviews, e) {
      AggregateLocal(s'.reviews, s.reviews, e);
    } else if e !in s'.missed {
      assert s'.enqueueing[step.c] == e;
      assert e in s'.enqueueing.Values;
    }
  }

  lemma StepKeepsEmployer(s: System, step: Step, e: EmployerId)
    requires Inv(s) && Enabled(s, step) && e in Next(s, step).caches
    ensures CacheFresh(Next(s, step), e) || RecalcDue(Next(s, step), e) || e in Next(s, step).missed
  {
    if step.NewEmployer? && step.e == e {
      assert ApprovedOf(s.reviews, e) == map[];
    } else if Recalculates(s, step, e) {
      AggregateLocal(Next(s, step).reviews, s.reviews, e);
    } else if CacheFresh(s, e) {
      StepKeepsFresh(s, step, e);
    } else if RecalcDue(s, e) {
      StepKeepsDue(s, step, e);
    }
  }

  lemma StepKeepsReferential(s: System, step: Step)
    requires Referential(s) && Enabled(s, step)
    ensures Referential(Next(s, step))
  {
  }

  lemma StepKeepsInv(s: System, step: Step)
    requires Inv(s) && Enabled(s, step)
    ensures Inv(Next(s, step))
  {
    StepKeepsReferential(s, step);
    forall e | e in Next(s, step).caches
      ensures CacheFresh(Next(s, step), e) || RecalcDue(Next(s, step), e) || e in Next(s, step).missed
    {
      StepKeepsEmployer(s, step, e);
    }
  }

  /**
    In every reachable state an employer's cache agrees with its approved reviews, unless
    a recalculation of it is on its way, stuck or dead, or a change went by unqueued.
   */
  lemma {:induction false} CacheInvariant(s: System, steps: seq<Step>)
    requires Inv(s) && ValidRun(s, steps)
    ensures Inv(Final(s, steps))
    ensures var f := Final(s, steps);
            forall e :: e in f.caches && !RecalcDue(f, e) && e !in f.missed ==> f.caches[e] == Aggregate(f.reviews, e)
    decreases |steps|
  {
    if steps != [] {
      StepKeepsInv(s, steps[0]);
      CacheInvariant(Next(s, steps[0]), steps[1..]);
    }
  }

  /** From an empty database, once all recalculations of an employer ran and none was missed, its cache is right. */
  lemma QuiescentCachesAgree(steps: seq<Step>, e: EmployerId)
    requires ValidRun(EMPTY_SYSTEM, steps)
    requires var s := Final(EMPTY_SYSTEM, steps);
             && e in s.caches && e !in s.missed && e !in s.enqueueing.Values
             && forall t :: t in s.tasks && s.tasks[t].employer == e ==> s.tasks[t].phase == Executed
    ensures CacheFresh(Final(EMPTY_SYSTEM, steps), e)
    ensures var s := Final(EMPTY_SYSTEM, steps);
            var n := SumBy(s.reviews, (v: Review) => if v.employer == e && v.status == Approved then 1 else 0);
            var d :=
              SumBy(s.reviews, (v: Review) => if v.employer == e && v.status == Approved then v.difficulty else 0);
            var x :=
              SumBy(s.reviews, (v: Review) => if v.employer == e && v.status == Approved then v.experience else 0);
            var c := s.caches[e];
            && c.count == n && (n == 0 <==> c.avgDifficulty.None?) && (n == 0 <==> c.avgExperience.None?)
            && (n > 0 ==> 200 * d - n < 2 * n * c.avgDifficulty.value <= 200 * d + n)
            && (n > 0 ==> 200 * x - n < 2 * n * c.avgExperience.value <= 200 * x + n)
  {
    CacheInvariant(EMPTY_SYSTEM, steps);
    var s := Final(EMPTY_SYSTEM, steps);
    AggregateIsTheColumnMean(s.reviews, e,
                             (v: Review) => if v.employer == e && v.status == Approved then 1 else 0,
                             (v: Review) => if v.employer == e && v.status == Approved then v.difficulty else 0,
                             (v: Review) => if v.employer == e && v.status == Approved then v.experience else 0);
  }

  /** A change in the number of approved reviews always shows in the cache. */
  lemma CountDecides(s: System, s': System, e: EmployerId)
    requires CacheFresh(s, e) && s'.caches == s.caches
    requires ApprovedOf(s'.reviews, e) == ApprovedOf(s.reviews, e)
          || |ApprovedOf(s'.reviews, e)| != |ApprovedOf(s.reviews, e)|
    ensures CacheFresh(s', e) <==> ApprovedOf(s'.reviews, e) == ApprovedOf(s.reviews, e)
  {
    if ApprovedOf(s'.reviews, e) == ApprovedOf(s.reviews, e) {
      AggregateLocal(s.reviews, s'.reviews, e);
    } else {
      assert Aggregate(s'.reviews, e).count != Aggregate(s.reviews, e).count;
    }
  }

  predicate SpoilsCache(s: System, step: Step)
    requires Enabled(s, step) && (step.Edit? || step.Delete? || step.Moderate?)
  {
    if step.Moderate? && step.approve then s.reviews[step.r].status != Approved
    else s.reviews[step.r].status == Approved
  }

  lemma ApprovedCountChange(s: System, step: Step)
    requires Enabled(s, step)
    requires step.Edit? || step.Delete? || step.Moderate?
    ensures var e := s.reviews[step.r].employer;
            var before, after := ApprovedOf(s.reviews, e), ApprovedOf(Next(s, step).reviews, e);
            if SpoilsCache(s, step) then |after| != |before| else after == before
  {
    var r, e := step.r, s.reviews[step.r].employer;
    WrittenReviews(s, step);
    if step.Delete? {
      ApprovedAfterWrite(s.reviews, r, s.reviews[r], e);
    } else {
      ApprovedAfterWrite(s.reviews, r, Next(s, step).reviews[r], e);
    }
    OneScoreMore(ApprovedOf(s.reviews, e), r, Scores(s.reviews[r].difficulty, s.reviews[r].experience));
  }

  /** The written review counts afterwards only if it was just approved. */
  lemma WrittenReviews(s: System, step: Step)
    requires Enabled(s, step) && (step.Edit? || step.Delete? || step.Moderate?)
    ensures var r, reviews := step.r, Next(s, step).reviews;
            if step.Delete? then reviews == s.reviews - {r}
            else
              && r in reviews && reviews == s.reviews[r := reviews[r]]
              && (CountsFor(reviews[r], s.reviews[r].employer) <==> step.Moderate? && step.approve)
              && (step.Moderate? ==>
                   reviews[r].difficulty == s.reviews[r].difficulty && reviews[r].experience == s.reviews[r].experience)
  {
  }

  lemma OneScoreMore(scores: map<ReviewId, Scores>, r: ReviewId, v: Scores)
    ensures r in scores ==> |scores - {r}| == |scores| - 1
    ensures r !in scores ==> scores - {r} == scores && |scores[r := v]| == |scores| + 1
  {
  }

  /**
    Which review writes spoil a right cache, exactly: editing, rejecting or deleting does
    so if and only if the review was approved, approving if and only if it was not.
   */
  lemma SpoilsExactly(s: System, step: Step)
    requires Enabled(s, step)
    requires step.Edit? || step.Delete? || step.Moderate?
    requires CacheFresh(s, s.reviews[step.r].employer)
    ensures CacheFresh(Next(s, step), s.reviews[step.r].employer) <==> !SpoilsCache(s, step)
  {
    ApprovedCountChange(s, step);
    CountDecides(s, Next(s, step), s.reviews[step.r].employer);
  }

  /** A review is submitted and approved, its recalculation queued. */
  function ApprovalRun(author: UserId, d: int, x: int): seq<Step> {
    [NewEmployer(1)] + [Submit(1, 1, author, d, x)] + [Moderate(0, 1, true)] + [Enqueue(0, 1)]
  }

  lemma ApprovalQueues(author: UserId, d: int, x: int) returns (s: System)
    requires 1 <= d <= 5 && 1 <= x <= 5
    ensures ValidRun(EMPTY_SYSTEM, ApprovalRun(author, d, x)) && Final(EMPTY_SYSTEM, ApprovalRun(author, d, x)) == s
    ensures s == System(map[1 := Review(1, Some(author), d, x, Approved)], map[1 := NO_REVIEWS],
                        map[], map[1 := Task(1, Queued)], {})
  {
    var run1 := [NewEmployer(1)];
    var run2 := run1 + [Submit(1, 1, author, d, x)];
    var run3 := run2 + [Moderate(0, 1, true)];
    RunOneMore(EMPTY_SYSTEM, [], NewEmployer(1));
    assert [] + [NewEmployer(1)] == run1;
    RunOneMore(EMPTY_SYSTEM, run1, Submit(1, 1, author, d, x));
    RunOneMore(EMPTY_SYSTEM, run2, Moderate(0, 1, true));
    RunOneMore(EMPTY_SYSTEM, run3, Enqueue(0, 1));
    s := Final(EMPTY_SYSTEM, run3 + [Enqueue(0, 1)]);
  }

  lemma ApprovalRecalculates(author: UserId, d: int, x: int) returns (s: System)
    requires 1 <= d <= 5 && 1 <= x <= 5
    ensures var run := ApprovalRun(author, d, x) + [Claim(1)] + [Execute(1)];
            ValidRun(EMPTY_SYSTEM, run) && Final(EMPTY_SYSTEM, run) == s
    ensures s.reviews == map[1 := Review(1, Some(author), d, x, Approved)] && CacheFresh(s, 1)
    ensures s.enqueueing == map[] && s.tasks == map[1 := Task(1, Executed)]
  {
    var queued := ApprovalQueues(author, d, x);
    var run := ApprovalRun(author, d, x);
    RunOneMore(EMPTY_SYSTEM, run, Claim(1));
    RunOneMore(EMPTY_SYSTEM, run + [Claim(1)], Execute(1));
    s := Next(Next(queued, Claim(1)), Execute(1));
  }

  /** The author then edits the review: the cache is wrong, and no recalculation is on its way. */
  lemma EditSpoilsCache(author: UserId, d: int, x: int, d': int, x': int)
    requires 1 <= d <= 5 && 1 <= x <= 5 && 1 <= d' <= 5 && 1 <= x' <= 5
    ensures var run := ApprovalRun(author, d, x) + [Claim(1)] + [Execute(1)] + [Edit(1, d', x')];
            && ValidRun(EMPTY_SYSTEM, run)
            && 1 in Final(EMPTY_SYSTEM, run).caches
            && !CacheFresh(Final(EMPTY_SYSTEM, run), 1) && !RecalcDue(Final(EMPTY_SYSTEM, run), 1)
  {
    var s := ApprovalRecalculates(author, d, x);
    RunOneMore(EMPTY_SYSTEM, ApprovalRun(author, d, x) + [Claim(1)] + [Execute(1)], Edit(1, d', x'));
    SpoilsExactly(s, Edit(1, d', x'));
  }

  /**
    What counts as unqueued, exactly: an approved review is edited, deleted or rejected, or
    the insert after an approval fails; a recalculation clears it.
   */
  lemma MissedExactly(s: System, step: Step, e: EmployerId)
    requires Inv(s) && Enabled(s, step)
    ensures e in Next(s, step).missed <==>
      || (e in s.missed && !Recalculates(s, step, e))
      || ((step.Edit? || step.Delete? || (step.Moderate? && !step.approve))
          && s.reviews[step.r].status == Approved && s.reviews[step.r].employer == e)
      || (step.EnqueueFails? && s.enqueueing[step.c] == e)
  {
  }

  // ---------------------------------------------------------------------
  // The statements themselves.
  // ---------------------------------------------------------------------

  /** Every cache is right except those skipped for an error or still to do, which are as before. */
  ghost predicate Refreshed(before: map<EmployerId, Cache>, after: map<EmployerId, Cache>,
                            reviews: map<ReviewId, Review>, errors: set<EmployerId>, todo: set<EmployerId>) {
    && before.Keys == after.Keys
    && forall e :: e in after ==> after[e] == if e in errors || e in todo then before[e] else Aggregate(reviews, e)
  }

  lemma RefreshedStep(before: map<EmployerId, Cache>, after: map<EmployerId, Cache>, reviews: map<ReviewId, Review>,
                      errors: set<EmployerId>, todo: set<EmployerId>, e: EmployerId)
    requires Refreshed(before, after, reviews, errors, todo) && e in todo && e in after
    ensures if e in errors then Refreshed(before, after, reviews, errors, todo - {e})
            else Refreshed(before, after[e := Aggregate(reviews, e)], reviews, errors, todo - {e})
  {
  }

  class RatingStore {
    var reviews: map<ReviewId, Review>
    var caches: map<EmployerId, Cache>
    var tasks: map<TaskId, Task>
    ghost var missed: set<EmployerId>

    constructor (reviews: map<ReviewId, Review>, caches: map<EmployerId, Cache>)
      ensures View() == System(reviews, caches, map[], map[], {})
    {
      this.reviews, this.caches := reviews, caches;
      tasks, missed := map[], {};
    }

    ghost function View(): System
      reads this
    {
      System(reviews, caches, map[], tasks, missed)
    }

    /** An author edits: the scores that were sent replace the old ones, and moderation starts over. */
    method UpdateReview(user: UserId, r: ReviewId, difficulty: Option<int>,
                        experience: Option<int>) returns (found: bool)
      requires difficulty.Some? ==> 1 <= difficulty.value <= 5
      requires experience.Some? ==> 1 <= experience.value <= 5
      requires ScoresInRange(reviews)
      modifies this
      ensures found <==> r in old(reviews) && old(reviews)[r].author == Some(user)
      ensures !found ==> View() == old(View())
      ensures found ==>
        var was := old(reviews)[r];
        View() == Next(old(View()), Edit(r, if difficulty.Some? then difficulty.value else was.difficulty,
                                            if experience.Some? then experience.value else was.experience))
      ensures found ==>
        var was := old(reviews)[r];
        reviews == old(reviews)[r := Review(was.employer, was.author,
                                            if difficulty.Some? then difficulty.value else was.difficulty,
                                            if experience.Some? then experience.value else was.experience,
                                            AwaitingModeration)]
      ensures tasks == old(tasks) && caches == old(caches)
    {
      if r !in reviews || reviews[r].author != Some(user) {
        return false;
      }
      var current := reviews[r];
      if difficulty.Some? {
        current := current.(difficulty := difficulty.value);
      }
      if experience.Some? {
        current := current.(experience := experience.value);
      }
      missed := missed + Missing(View(), r);
      reviews := reviews[r := current.(status := AwaitingModeration)];
      return true;
    }

    /** The handler: one statement sets the status, a second one queues the recalculation. */
    method ModerateReview(r: ReviewId, approve: bool, t: TaskId, enqueueOk: bool) returns (found: bool)
      requires t !in tasks
      modifies this
      ensures found <==> r in old(reviews)
      ensures !found ==> View() == old(View())
      ensures found && !approve ==> View() == Next(old(View()), Moderate(0, r, false))
      ensures found && approve ==>
        var moderated := Next(old(View()), Moderate(0, r, true));
        View() == Next(moderated, if enqueueOk then Enqueue(0, t) else EnqueueFails(0))
      ensures found ==>
        reviews == old(reviews)[r := old(reviews)[r].(status := if approve then Approved else Rejected)]
      ensures tasks == if found && approve && enqueueOk then old(tasks)[t := Task(old(reviews)[r].employer, Queued)]
                       else old(tasks)
      ensures caches == old(caches)
    {
      if r !in reviews {
        return false;
      }
      var employer := reviews[r].employer;
      if !approve {
        missed := missed + Missing(View(), r);
      }
      reviews := reviews[r := reviews[r].(status := if approve then Approved else Rejected)];
      if approve {
        if enqueueOk {
          tasks := tasks[t := Task(employer, Queued)];
        } else {
          missed := missed + {employer};
        }
        assert map[0 := employer] - {0} == map[];
      }
      return true;
    }

    /** The sub-select: count and sum the approved reviews of one employer. */
    method ApprovedTotals(e: EmployerId) returns (count: nat, difficulty: int, experience: int)
      ensures var scores := ApprovedOf(reviews, e);
              count == |scores| && difficulty == SumBy(scores, Difficulty) && experience == SumBy(scores, Experience)
      ensures count == SumBy(reviews, (v: Review) => if v.employer == e && v.status == Approved then 1 else 0)
      ensures difficulty
           == SumBy(reviews, (v: Review) => if v.employer == e && v.status == Approved then v.difficulty else 0)
      ensures experience
           == SumBy(reviews, (v: Review) => if v.employer == e && v.status == Approved then v.experience else 0)
    {
      ApprovedCount(reviews, e, (v: Review) => if v.employer == e && v.status == Approved then 1 else 0);
      ApprovedSum(reviews, e, Difficulty,
                  (v: Review) => if v.employer == e && v.status == Approved then v.difficulty else 0);
      ApprovedSum(reviews, e, Experience,
                  (v: Review) => if v.employer == e && v.status == Approved then v.experience else 0);
      count, difficulty, experience := 0, 0, 0;
      var scores := ApprovedOf(reviews, e);
      var rest := scores;
      while rest != map[]
        invariant rest.Keys <= scores.Keys && forall r :: r in rest ==> rest[r] == scores[r]
        invariant |scores| == count + |rest|
        invariant SumBy(scores, Difficulty) == difficulty + SumBy(rest, Difficulty)
        invariant SumBy(scores, Experience) == experience + SumBy(rest, Experience)
        decreases |rest|
      {
        assert rest.Keys != {};
        var r :| r in rest;
        SumRemove(rest, Difficulty, r);
        SumRemove(rest, Experience, r);
        assert |rest - {r}| == |rest| - 1;
        count, difficulty, experience := count + 1, difficulty + rest[r].difficulty, experience + rest[r].experience;
        rest := rest - {r};
      }
    }

    method RecalculateRatings(e: EmployerId) returns (found: bool)
      modifies this
      ensures reviews == old(reviews) && found == (e in old(caches))
      ensures caches == if found then old(caches)[e := Aggregate(reviews, e)] else old(caches)
      ensures View() == Recalculated(old(View()), e)
      ensures found && ScoresInRange(reviews) ==>
        && e in caches && caches == old(caches)[e := caches[e]]
        && var n := SumBy(reviews, (v: Review) => if v.employer == e && v.status == Approved then 1 else 0);
        && var d := SumBy(reviews, (v: Review) => if v.employer == e && v.status == Approved then v.difficulty else 0);
        && var x := SumBy(reviews, (v: Review) => if v.employer == e && v.status == Approved then v.experience else 0);
        && caches[e].count == n && (n == 0 <==> caches[e].avgDifficulty.None?)
        && (n == 0 <==> caches[e].avgExperience.None?)
        && (n > 0 ==> 200 * d - n < 2 * n * caches[e].avgDifficulty.value <= 200 * d + n)
        && (n > 0 ==> 200 * x - n < 2 * n * caches[e].avgExperience.value <= 200 * x + n)
    {
      if e !in caches {
        return false;
      }
      missed := missed - {e};
      if ScoresInRange(reviews) {
        AggregateIsTheColumnMean(reviews, e,
                                 (v: Review) => if v.employer == e && v.status == Approved then 1 else 0,
                                 (v: Review) => if v.employer == e && v.status == Approved then v.difficulty else 0,
                                 (v: Review) => if v.employer == e && v.status == Approved then v.experience else 0);
      }
      var count, d, x := ApprovedTotals(e);
      assert ApprovedOf(reviews, e) == map[] <==> count == 0;
      if count == 0 {
        caches := caches[e := Cache(0, None, None)];
      } else {
        caches := caches[e := Cache(count, Some(RoundedMean(d, count)), Some(RoundedMean(x, count)))];
      }
      return true;
    }

    /** One employer of the nightly pass: the statement runs, or errors and is skipped. */
    method RecalculateOne(e: EmployerId, errors: set<EmployerId>, ghost before: map<EmployerId, Cache>,
                          ghost todo: set<EmployerId>)
      returns (ok: bool)
      requires e in todo && e in caches && Refreshed(before, caches, reviews, errors, todo)
      modifies this
      ensures ok <==> e !in errors
      ensures reviews == old(reviews) && Refreshed(before, caches, reviews, errors, todo - {e})
    {
      RefreshedStep(before, caches, reviews, errors, todo, e);
      ok := e !in errors;
      if ok {
        var found := RecalculateRatings(e);
      }
    }

    /**
      The nightly pass over all employers; a statement that errors is skipped. Whatever
      else failed, every employer not skipped is right again, and the rest are untouched.
     */
    method RecalculateAll(errors: set<EmployerId>) returns (count: nat)
      modifies this
      ensures reviews == old(reviews) && caches.Keys == old(caches.Keys)
      ensures Refreshed(old(caches), caches, reviews, errors, {})
      ensures count == |caches.Keys - errors|
    {
      count := 0;
      var todo := caches.Keys;
      ghost var handled := {};
      while todo != {}
        invariant todo <= caches.Keys == old(caches.Keys) && reviews == old(reviews)
        invariant Refreshed(old(caches), caches, reviews, errors, todo)
        invariant forall x :: x in handled <==> x in caches.Keys && x !in errors && x !in todo
        invariant count == |handled|
        decreases todo
      {
        var e :| e in todo;
        var ok := RecalculateOne(e, errors, old(caches), todo);
        if ok {
          count, handled := count + 1, handled + {e};
        }
        todo := todo - {e};
      }
      assert forall x :: x in handled <==> x in caches.Keys - errors;
      assert handled == caches.Keys - errors;
    }
  }
}
