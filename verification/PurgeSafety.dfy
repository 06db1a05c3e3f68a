/**
  Soft deletion, the thirty-day grace period and the purge (internal/data/users.go,
  internal/worker/cron.go, migrations 000012 and 000018).
 */
module PurgeSafety {
  import opened Common
  import opened Accounts
  import SessionSafety
  import Ratings
  import Users

  predicate Stamped(s: Db, u: UserId, at: int) {
    u in s.users && s.users[u].deletedAt == Some(at)
  }

  /** In every state of the run, the last included, `u` carries the deletion time `at`. */
  ghost predicate StampedThroughout(s: Db, steps: seq<Step>, u: UserId, at: int)
    requires ValidRun(s, steps)
    decreases |steps|
  {
    Stamped(s, u, at) && (steps == [] || StampedThroughout(Next(s, steps[0]), steps[1..], u, at))
  }

  /** A deletion time already past can no longer be written. */
  lemma StampStep(s: Db, step: Step, u: UserId, at: int)
    requires Inv(s) && Enabled(s, step) && at < s.now && !Stamped(s, u, at)
    ensures !Stamped(Next(s, step), u, at)
  {
    if u in Next(s, step).users {
      if u in s.users {
        DeletionMark(s, step, u);
      } else {
        NewUsersAreLive(s, step, u);
      }
    }
  }

  lemma NewUsersAreLive(s: Db, step: Step, u: UserId)
    requires Inv(s) && Enabled(s, step) && u !in s.users && u in Next(s, step).users
    ensures Next(s, step).users[u].deletedAt.None?
  {
    if step.SignUp? {
      SignUpMarks(s, step, u);
    } else {
      UsersOnlyGo(s, step);
    }
  }

  lemma {:induction false} NeverStampedLater(s: Db, steps: seq<Step>, u: UserId, at: int)
    requires Inv(s) && ValidRun(s, steps) && at < s.now && !Stamped(s, u, at)
    ensures !Stamped(Final(s, steps), u, at)
    decreases |steps|
  {
    if steps != [] {
      StampStep(s, steps[0], u, at);
      StepKeepsInv(s, steps[0]);
      SessionSafety.ClockAndUsedGrow(s, steps[0]);
      NeverStampedLater(Next(s, steps[0]), steps[1..], u, at);
    }
  }

  lemma {:induction false} StampIsContinuous(s: Db, steps: seq<Step>, u: UserId, at: int)
    requires Inv(s) && ValidRun(s, steps) && at < s.now && Stamped(Final(s, steps), u, at)
    ensures StampedThroughout(s, steps, u, at)
    decreases |steps|
  {
    if !Stamped(s, u, at) {
      NeverStampedLater(s, steps, u, at);
    }
    if steps != [] {
      StepKeepsInv(s, steps[0]);
      SessionSafety.ClockAndUsedGrow(s, steps[0]);
      StampIsContinuous(Next(s, steps[0]), steps[1..], u, at);
    }
  }

  /**
    Whoever a step removes was soft-deleted without a break since more than thirty days:
    in every state of any run that leads to the purge from a time within those days.
   */
  lemma PurgedWereDeletedThroughout(s: Db, steps: seq<Step>, last: Step, u: UserId)
    requires Inv(s) && ValidRun(s, steps) && Enabled(Final(s, steps), last)
    requires u in Final(s, steps).users && u !in Next(Final(s, steps), last).users
    requires s.now >= Final(s, steps).now - GRACE_PERIOD
    ensures last.Purge?
    ensures Final(s, steps).users[u].deletedAt.Some?
         && StampedThroughout(s, steps, u, Final(s, steps).users[u].deletedAt.value)
  {
    InvAlways(s, steps);
    UsersKept(Final(s, steps), last, u);
    StampIsContinuous(s, steps, u, Final(s, steps).users[u].deletedAt.value);
  }

  /** `u` is there, and if it is deleted then not since before `since`. */
  predicate KeptSince(s: Db, u: UserId, since: int) {
    u in s.users && (s.users[u].deletedAt.None? || s.users[u].deletedAt.value >= since)
  }

  /**
    From a live account, or one deleted at `since` or later, every run that ends no later
    than thirty days after `since` keeps the user. So restoring and deleting again starts
    a new thirty days.
   */
  lemma {:induction false} GraceIsKept(s: Db, steps: seq<Step>, u: UserId, since: int)
    requires Inv(s) && ValidRun(s, steps) && since <= s.now && KeptSince(s, u, since)
    requires Final(s, steps).now <= since + GRACE_PERIOD
    ensures KeptSince(Final(s, steps), u, since)
    decreases |steps|
  {
    if steps != [] {
      var s' := Next(s, steps[0]);
      ClockOverRun(s, steps);
      UsersKept(s, steps[0], u);
      DeletionMark(s, steps[0], u);
      StepKeepsInv(s, steps[0]);
      SessionSafety.ClockAndUsedGrow(s, steps[0]);
      GraceIsKept(s', steps[1..], u, since);
    }
  }

  lemma {:induction false} ClockOverRun(s: Db, steps: seq<Step>)
    requires ValidRun(s, steps)
    ensures s.now <= Final(s, steps).now
    decreases |steps|
  {
    if steps != [] {
      SessionSafety.ClockAndUsedGrow(s, steps[0]);
      ClockOverRun(Next(s, steps[0]), steps[1..]);
    }
  }

  /**
    A purge keeps every review and every employer's aggregate; it only forgets who wrote
    the reviews of the users it removes.
   */
  lemma PurgeKeepsReviews(s: Db, e: Ratings.EmployerId, r: ReviewId)
    requires Inv(s)
    ensures var s' := Next(s, Purge);
            && s'.reviews.Keys == s.reviews.Keys
            && Ratings.ApprovedOf(s'.reviews, e) == Ratings.ApprovedOf(s.reviews, e)
            && Ratings.Aggregate(s'.reviews, e) == Ratings.Aggregate(s.reviews, e)
            && (r in s.reviews ==>
                  s'.reviews[r] == if s.reviews[r].author.Some? && s.reviews[r].author.value !in s'.users
                                   then s.reviews[r].(author := None) else s.reviews[r])
  {
    var gone := if PurgeAborts(s) then {} else PurgeVictims(s);
    ReviewsAfterPurge(s);
    Ratings.ForgettingAuthorsKeepsAggregates(s.reviews, gone, e);
  }

  lemma ReviewsAfterPurge(s: Db)
    ensures var gone := if PurgeAborts(s) then {} else PurgeVictims(s);
            Next(s, Purge).reviews == Ratings.WithoutAuthors(s.reviews, gone) && Next(s, Purge).users == s.users - gone
  {
    assert Ratings.WithoutAuthors(s.reviews, {}) == s.reviews;
  }

  /** A purge removes exactly the overdue users, or, if one of them owns an import job, nobody. */
  lemma PurgeExactly(s: Db, u: UserId)
    requires Inv(s) && u in s.users
    ensures u !in Next(s, Purge).users <==>
      && s.users[u].deletedAt.Some? && s.now - s.users[u].deletedAt.value > 2_592_000_000_000
      && forall j :: j in s.imports && s.users[s.imports[j]].deletedAt.Some? ==>
           s.now - s.users[s.imports[j]].deletedAt.value <= 2_592_000_000_000
  {
    UsersKept(s, Purge, u);
    if PurgeAborts(s) {
      var j :| j in s.imports && s.imports[j] in PurgeVictims(s);
      assert s.users[s.imports[j]].deletedAt.Some?;
    } else {
      forall j | j in s.imports && s.users[s.imports[j]].deletedAt.Some?
        ensures s.now - s.users[s.imports[j]].deletedAt.value <= GRACE_PERIOD
      {
        assert s.imports[j] !in PurgeVictims(s);
      }
    }
  }

  /** An overdue user who owns an import job. */
  predicate Blocks(s: Db, u: UserId, j: JobId) {
    u in PurgeVictims(s) && j in s.imports && s.imports[j] == u
  }

  /** One such user, unless restored, stops every later purge: nobody is ever removed again. */
  lemma {:induction false} PurgeBlockedForever(s: Db, steps: seq<Step>, u: UserId, j: JobId)
    requires Inv(s) && ValidRun(s, steps) && Blocks(s, u, j) && SessionSafety.NeverRestored(s, steps, u)
    ensures Blocks(Final(s, steps), u, j)
    ensures s.users.Keys <= Final(s, steps).users.Keys
    decreases |steps|
  {
    if steps != [] {
      var s' := Next(s, steps[0]);
      assert PurgeAborts(s);
      UsersKept(s, steps[0], u);
      DeletionMark(s, steps[0], u);
      SessionSafety.ClockAndUsedGrow(s, steps[0]);
      StepKeepsInv(s, steps[0]);
      forall v | v in s.users ensures v in s'.users {
        UsersKept(s, steps[0], v);
      }
      ImportsKept(s, steps[0], j);
      PurgeBlockedForever(s', steps[1..], u, j);
    }
  }

  lemma ImportsKept(s: Db, step: Step, j: JobId)
    requires Enabled(s, step) && j in s.imports
    ensures j in Next(s, step).imports && Next(s, step).imports[j] == s.imports[j]
  {
    if Compound(step) {
      CompoundFrame(s, step);
    }
  }

  /** A user starts an import and deletes the account; when the thirty days are over the purge removes nobody. */
  lemma PurgeBlockedHappens(account: Users.Account)
    ensures var run := [SignUp(1, account, None, 10), StartImport(5, 1), DeleteAccount(1, ""),
                        Tick(GRACE_PERIOD + 1), Purge];
            && ValidRun(EMPTY_DB, run)
            && 1 in Final(EMPTY_DB, run).users && Blocks(Final(EMPTY_DB, run), 1, 5)
  {
    var run := [SignUp(1, account, None, 10), StartImport(5, 1), DeleteAccount(1, "")];
    var s := DeletedImporter(account);
    var later := Next(s, Tick(GRACE_PERIOD + 1));
    RunOneMore(EMPTY_DB, run, Tick(GRACE_PERIOD + 1));
    RunOneMore(EMPTY_DB, run + [Tick(GRACE_PERIOD + 1)], Purge);
    assert run + [Tick(GRACE_PERIOD + 1)] + [Purge]
        == [SignUp(1, account, None, 10), StartImport(5, 1), DeleteAccount(1, ""), Tick(GRACE_PERIOD + 1), Purge];
    BlockedPurge(later, 1, 5);
  }

  lemma BlockedPurge(s: Db, u: UserId, j: JobId)
    requires Blocks(s, u, j)
    ensures Next(s, Purge) == s
  {
    assert s.imports[j] in PurgeVictims(s);
  }

  lemma DeletedImporter(account: Users.Account) returns (s: Db)
    ensures var run := [SignUp(1, account, None, 10), StartImport(5, 1), DeleteAccount(1, "")];
            ValidRun(EMPTY_DB, run) && Final(EMPTY_DB, run) == s
    ensures 1 in s.users && s.users[1].deletedAt == Some(s.now) && s.imports == map[5 := 1]
  {
    var s1 := SessionSafety.SignedUpAlone(account);
    var s2 := Next(s1, StartImport(5, 1));
    var run1 := [SignUp(1, account, None, 10)];
    RunOneMore(EMPTY_DB, run1, StartImport(5, 1));
    RunOneMore(EMPTY_DB, run1 + [StartImport(5, 1)], DeleteAccount(1, ""));
    assert run1 + [StartImport(5, 1)] + [DeleteAccount(1, "")]
        == [SignUp(1, account, None, 10), StartImport(5, 1), DeleteAccount(1, "")];
    s := Next(s2, DeleteAccount(1, ""));
    StepKeepsInv(s1, StartImport(5, 1));
    UsersKept(s2, DeleteAccount(1, ""), 1);
    DeletionMark(s2, DeleteAccount(1, ""), 1);
  }
}
