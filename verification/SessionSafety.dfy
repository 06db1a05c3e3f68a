/**
  Whose sessions there are (internal/app/auth.go, internal/app/middleware.go).
 */
module SessionSafety {
  import opened Common
  import opened Accounts
  import Users

  /** Every session belongs to a user who exists and is not soft-deleted. */
  ghost predicate SessionSafe(s: Db) {
    forall i :: i in s.sessions ==> s.sessions[i].user in s.users && s.users[s.sessions[i].user].deletedAt.None?
  }

  /** A login commits for a user who was deleted after the login read the row as live. */
  predicate StaleLogin(s: Db, step: Step) {
    && step.CommitLogin? && step.c in s.logins
    && !s.logins[step.c].wasDeleted
    && s.logins[step.c].user in s.users
    && s.users[s.logins[step.c].user].deletedAt.Some?
  }

  lemma SafeUnlessStale(s: Db, step: Step, i: SessionId)
    requires Inv(s) && SessionSafe(s) && Enabled(s, step) && !StaleLogin(s, step)
    requires i in Next(s, step).sessions
    ensures var u := Next(s, step).sessions[i].user;
            u in Next(s, step).users && Next(s, step).users[u].deletedAt.None?
  {
    SessionOrigin(s, step, i);
    if i in s.sessions && Next(s, step).sessions[i] == s.sessions[i] {
      OldSessionSafe(s, step, i);
    } else {
      NewSessionSafe(s, step, Next(s, step).sessions[i].user);
    }
  }

  lemma OldSessionSafe(s: Db, step: Step, i: SessionId)
    requires Inv(s) && SessionSafe(s) && Enabled(s, step)
    requires i in s.sessions && i in Next(s, step).sessions && Next(s, step).sessions[i] == s.sessions[i]
    ensures Live(Next(s, step), s.sessions[i].user)
  {
    SessionsRevoked(s, step, i);
    UsersKept(s, step, s.sessions[i].user);
    DeletionMark(s, step, s.sessions[i].user);
  }

  lemma NewSessionSafe(s: Db, step: Step, u: UserId)
    requires Inv(s) && Enabled(s, step) && !StaleLogin(s, step) && OpensFor(s, step) == Some(u)
    ensures Live(Next(s, step), u)
  {
    if u in s.users {
      EnterMarks(s, step, u);
    } else {
      SignUpMarks(s, step, u);
    }
  }

  predicate Live(s: Db, u: UserId) {
    u in s.users && s.users[u].deletedAt.None?
  }

  /** A stale login is exactly what breaks session safety. */
  lemma SafetyStep(s: Db, step: Step)
    requires Inv(s) && SessionSafe(s) && Enabled(s, step)
    ensures SessionSafe(Next(s, step)) <==> !StaleLogin(s, step)
  {
    if StaleLogin(s, step) {
      var u := s.logins[step.c].user;
      LoginMarks(s, s.logins[step.c], step.i, u);
      assert Next(s, step).sessions[step.i].user == u;
    } else {
      forall i | i in Next(s, step).sessions
        ensures Next(s, step).sessions[i].user in Next(s, step).users
          && Next(s, step).users[Next(s, step).sessions[i].user].deletedAt.None?
      {
        SafeUnlessStale(s, step, i);
      }
    }
  }

  ghost predicate NoStaleLogin(s: Db, steps: seq<Step>)
    requires ValidRun(s, steps)
    decreases |steps|
  {
    steps == [] || (!StaleLogin(s, steps[0]) && NoStaleLogin(Next(s, steps[0]), steps[1..]))
  }

  /** Over every run without a stale login, in particular when login is one step, sessions are safe. */
  lemma {:induction false} SessionsAlwaysSafe(s: Db, steps: seq<Step>)
    requires Inv(s) && SessionSafe(s) && ValidRun(s, steps) && NoStaleLogin(s, steps)
    ensures SessionSafe(Final(s, steps))
    decreases |steps|
  {
    if steps != [] {
      SafetyStep(s, steps[0]);
      StepKeepsInv(s, steps[0]);
      SessionsAlwaysSafe(Next(s, steps[0]), steps[1..]);
    }
  }

  lemma {:induction false} AtomicLoginsAreNeverStale(s: Db, steps: seq<Step>)
    requires ValidRun(s, steps) && forall k :: 0 <= k < |steps| ==> !steps[k].CommitLogin?
    ensures NoStaleLogin(s, steps)
    decreases |steps|
  {
    if steps != [] {
      AtomicLoginsAreNeverStale(Next(s, steps[0]), steps[1..]);
    }
  }

  /**
    With every handler one step, all sessions of every reachable state belong to live users,
    and requests see it so.
   */
  lemma AtomicHandlersAreSafe(steps: seq<Step>, i: SessionId)
    requires ValidRun(EMPTY_DB, steps) && forall k :: 0 <= k < |steps| ==> !steps[k].CommitLogin?
    ensures SessionSafe(Final(EMPTY_DB, steps))
    ensures !Authenticate(Final(EMPTY_DB, steps), i).ServerError?
  {
    AtomicLoginsAreNeverStale(EMPTY_DB, steps);
    SessionsAlwaysSafe(EMPTY_DB, steps);
  }

  /** The gap is real: log in, delete the account before the login commits. */
  lemma StaleLoginHappens(account: Users.Account)
    ensures var run := [SignUp(1, account, None, 10), ReadLogin(7, 1), DeleteAccount(1, ""), CommitLogin(7, 11)];
            ValidRun(EMPTY_DB, run) && !SessionSafe(Final(EMPTY_DB, run))
  {
    var run := [SignUp(1, account, None, 10), ReadLogin(7, 1), DeleteAccount(1, "")];
    var s := DeletedMeanwhile(account, ReadLogin(7, 1));
    RunOneMore(EMPTY_DB, run, CommitLogin(7, 11));
    assert run + [CommitLogin(7, 11)]
        == [SignUp(1, account, None, 10), ReadLogin(7, 1), DeleteAccount(1, ""), CommitLogin(7, 11)];
    SafetyStep(s, CommitLogin(7, 11));
  }

  /** A login or a request reads, and then the account is deleted. */
  lemma DeletedMeanwhile(account: Users.Account, read: Step) returns (s: Db)
    requires read == ReadLogin(7, 1) || read == ReadSession(7, 10)
    ensures var run := [SignUp(1, account, None, 10), read, DeleteAccount(1, "")];
            ValidRun(EMPTY_DB, run) && Final(EMPTY_DB, run) == s
    ensures Inv(s) && SessionSafe(s) && 1 in s.users && s.users[1].deletedAt.Some? && s.used.sessions.Keys == {10}
    ensures if read.ReadLogin? then s.logins == map[7 := LoginRead(1, false, account.passwordHash)]
            else s.requests == map[7 := 1]
  {
    var s1 := SignedUpAlone(account);
    var s2 := Next(s1, read);
    var run1 := [SignUp(1, account, None, 10)];
    RunOneMore(EMPTY_DB, run1, read);
    RunOneMore(EMPTY_DB, run1 + [read], DeleteAccount(1, ""));
    assert run1 + [read] + [DeleteAccount(1, "")] == [SignUp(1, account, None, 10), read, DeleteAccount(1, "")];
    s := Next(s2, DeleteAccount(1, ""));
    StepKeepsInv(s1, read);
    SafetyStep(s1, read);
    DeletedSafely(s2, 1);
  }

  lemma DeletedSafely(s: Db, u: UserId)
    requires Inv(s) && SessionSafe(s) && Live(s, u)
    ensures var s' := Next(s, DeleteAccount(u, ""));
            Inv(s') && SessionSafe(s') && u in s'.users && s'.users[u].deletedAt.Some?
  {
    StepKeepsInv(s, DeleteAccount(u, ""));
    SafetyStep(s, DeleteAccount(u, ""));
    UsersKept(s, DeleteAccount(u, ""), u);
    DeletionMark(s, DeleteAccount(u, ""), u);
  }

  /** One user, one session. */
  lemma SignedUpAlone(account: Users.Account) returns (s: Db)
    ensures ValidRun(EMPTY_DB, [SignUp(1, account, None, 10)]) && Final(EMPTY_DB, [SignUp(1, account, None, 10)]) == s
    ensures s == Next(EMPTY_DB, SignUp(1, account, None, 10))
    ensures s.users == map[1 := Users.NewUser(account)] && s.sessions == map[10 := Session(1, 0, SESSION_TTL)]
    ensures s.now == 0 && s.logins == map[] && s.requests == map[] && s.imports == map[] && s.used.sessions.Keys == {10}
    ensures Inv(s) && SessionSafe(s)
  {
    var step := SignUp(1, account, None, 10);
    s := Next(EMPTY_DB, step);
    RunOneMore(EMPTY_DB, [], step);
    assert [] + [step] == [step];
    StepKeepsInv(EMPTY_DB, step);
  }

  // ---------------------------------------------------------------------
  // The middleware.
  // ---------------------------------------------------------------------

  datatype Admission = Anonymous | Admitted(user: UserId) | ServerError

  /** What `authenticate` makes of a session cookie when nothing comes between its two reads. */
  function Authenticate(s: Db, i: SessionId): Admission {
    if i !in s.sessions || s.sessions[i].expiresAt <= s.now then Anonymous
    else if s.sessions[i].user !in s.users || s.users[s.sessions[i].user].deletedAt.Some? then ServerError
    else Admitted(s.sessions[i].user)
  }

  /** The second of the two reads: what becomes of a request whose session was of `u`. */
  function Answer(s: Db, u: UserId): Admission {
    if u !in s.users || s.users[u].deletedAt.Some? then ServerError else Admitted(u)
  }

  /** No login of the run clears the deletion mark of `u`. */
  ghost predicate NeverRestored(s: Db, steps: seq<Step>, u: UserId)
    requires ValidRun(s, steps)
    decreases |steps|
  {
    steps == [] || (!Restores(s, steps[0], u) && NeverRestored(Next(s, steps[0]), steps[1..], u))
  }

  /** Some step deletes the account of `u` and no later one restores it. */
  ghost predicate DeletedForGood(s: Db, steps: seq<Step>, u: UserId)
    requires ValidRun(s, steps)
    decreases |steps|
  {
    steps != []
    && ((Deletes(s, steps[0], u) && NeverRestored(Next(s, steps[0]), steps[1..], u))
        || DeletedForGood(Next(s, steps[0]), steps[1..], u))
  }

  /** Ids are not drawn again, so a purged user is out of reach. */
  lemma {:induction false} GoneForever(s: Db, steps: seq<Step>, u: UserId)
    requires Inv(s) && ValidRun(s, steps) && u in s.used.users && u !in s.users
    ensures u !in Final(s, steps).users
    ensures NeverRestored(s, steps, u) && !DeletedForGood(s, steps, u)
    decreases |steps|
  {
    if steps != [] {
      StepKeepsInv(s, steps[0]);
      ClockAndUsedGrow(s, steps[0]);
      GoneStays(s, steps[0], u);
      GoneForever(Next(s, steps[0]), steps[1..], u);
    }
  }

  lemma GoneStays(s: Db, step: Step, u: UserId)
    requires Inv(s) && Enabled(s, step) && u in s.used.users && u !in s.users
    ensures u !in Next(s, step).users
  {
    if step.SignUp? {
      SignUpMarks(s, step, u);
    } else {
      UsersOnlyGo(s, step);
    }
  }

  /** Over a run a user ends up deleted or gone exactly if deleted, at the start or on the way, and not restored. */
  lemma {:induction false} LiveExactly(s: Db, steps: seq<Step>, u: UserId)
    requires Inv(s) && ValidRun(s, steps) && u in s.users
    ensures Live(Final(s, steps), u)
       <==> !((s.users[u].deletedAt.Some? && NeverRestored(s, steps, u)) || DeletedForGood(s, steps, u))
    decreases |steps|
  {
    if steps != [] {
      var s' := Next(s, steps[0]);
      StepKeepsInv(s, steps[0]);
      ClockAndUsedGrow(s, steps[0]);
      UsersKept(s, steps[0], u);
      if u in s'.users {
        DeletionMark(s, steps[0], u);
        LiveExactly(s', steps[1..], u);
      } else {
        GoneForever(s', steps[1..], u);
      }
    }
  }

  lemma {:induction false} RequestKept(s: Db, steps: seq<Step>, c: ClientId)
    requires ValidRun(s, steps) && c in s.requests && forall k :: 0 <= k < |steps| ==> steps[k] != LoadUser(c)
    ensures c in Final(s, steps).requests && Final(s, steps).requests[c] == s.requests[c]
    decreases |steps|
  {
    if steps != [] {
      RequestStays(s, steps[0], c);
      RequestKept(Next(s, steps[0]), steps[1..], c);
    }
  }

  lemma RequestStays(s: Db, step: Step, c: ClientId)
    requires Enabled(s, step) && c in s.requests && step != LoadUser(c)
    ensures c in Next(s, step).requests && Next(s, step).requests[c] == s.requests[c]
  {
    if Compound(step) {
      CompoundFrame(s, step);
    }
  }

  /**
    The middleware reads the session and, after any steps of others, the user. The request
    is admitted exactly if the user of the session is live at the second read, and then as
    that user. It ends in a server error exactly if the user was deleted already at the
    first read, or has been deleted since, and no login has restored the account.
   */
  lemma AdmitsOnlyLive(s: Db, c: ClientId, i: SessionId, steps: seq<Step>)
    requires Inv(s) && c !in s.requests && OpenSession(s, i)
    requires ValidRun(Next(s, ReadSession(c, i)), steps)
    requires forall k :: 0 <= k < |steps| ==> steps[k] != LoadUser(c)
    ensures var read := Next(s, ReadSession(c, i));
            var f := Final(read, steps);
            var u := s.sessions[i].user;
            && c in f.requests && f.requests[c] == u
            && (Answer(f, f.requests[c]) == Admitted(u) <==> Live(f, u))
            && (Answer(f, f.requests[c]).ServerError? <==>
                  || (s.users[u].deletedAt.Some? && NeverRestored(read, steps, u))
                  || DeletedForGood(read, steps, u))
  {
    var read := Next(s, ReadSession(c, i));
    StepKeepsInv(s, ReadSession(c, i));
    RequestKept(read, steps, c);
    LiveExactly(read, steps, s.sessions[i].user);
  }

  /**
    So in a database without stale logins a request that presents an open session fails
    exactly if the account is deleted between the two reads and not restored.
   */
  lemma ServerErrorExactly(before: seq<Step>, c: ClientId, i: SessionId, steps: seq<Step>)
    requires ValidRun(EMPTY_DB, before) && NoStaleLogin(EMPTY_DB, before)
    requires c !in Final(EMPTY_DB, before).requests && OpenSession(Final(EMPTY_DB, before), i)
    requires ValidRun(Next(Final(EMPTY_DB, before), ReadSession(c, i)), steps)
    requires forall k :: 0 <= k < |steps| ==> steps[k] != LoadUser(c)
    ensures var s := Final(EMPTY_DB, before);
            var read := Next(s, ReadSession(c, i));
            && c in Final(read, steps).requests
            && (Answer(Final(read, steps), Final(read, steps).requests[c]).ServerError?
                <==> DeletedForGood(read, steps, s.sessions[i].user))
  {
    InvAlways(EMPTY_DB, before);
    SessionsAlwaysSafe(EMPTY_DB, before);
    AdmitsOnlyLive(Final(EMPTY_DB, before), c, i, steps);
  }

  /** Such a request: all sessions are safe before and after, no login is involved, and it fails. */
  lemma ServerErrorHappens(account: Users.Account)
    ensures var run := [SignUp(1, account, None, 10), ReadSession(7, 10), DeleteAccount(1, "")];
            && ValidRun(EMPTY_DB, run)
            && SessionSafe(Final(EMPTY_DB, run))
            && 7 in Final(EMPTY_DB, run).requests &&
               Answer(Final(EMPTY_DB, run), Final(EMPTY_DB, run).requests[7]).ServerError?
  {
    var s := DeletedMeanwhile(account, ReadSession(7, 10));
  }

  // ---------------------------------------------------------------------
  // Revocation.
  // ---------------------------------------------------------------------

  /** Apart from `kept`, `u` has only sessions with ids unused at `since`, opened then or later. */
  ghost predicate OnlyNewSessions(s: Db, u: UserId, kept: set<SessionId>, earlier: set<SessionId>, since: int) {
    && earlier <= s.used.sessions.Keys && since <= s.now
    && forall i :: i in s.sessions && s.sessions[i].user == u ==>
         i in kept || (i !in earlier && s.sessions[i].createdAt >= since)
  }

  lemma ClockAndUsedGrow(s: Db, step: Step)
    requires Enabled(s, step)
    ensures s.now <= Next(s, step).now && SubMap(s.used.sessions, Next(s, step).used.sessions)
    ensures s.used.users <= Next(s, step).used.users && s.used.hashes <= Next(s, step).used.hashes
  {
    if Compound(step) {
      CompoundFrame(s, step);
    }
  }

  lemma {:induction false} OnlyNewSessionsForever(s: Db, steps: seq<Step>, u: UserId, kept: set<SessionId>,
                                                  earlier: set<SessionId>, since: int)
    requires ValidRun(s, steps) && OnlyNewSessions(s, u, kept, earlier, since)
    ensures OnlyNewSessions(Final(s, steps), u, kept, earlier, since)
    decreases |steps|
  {
    if steps != [] {
      var s' := Next(s, steps[0]);
      ClockAndUsedGrow(s, steps[0]);
      forall i | i in s'.sessions && s'.sessions[i].user == u
        ensures i in kept || (i !in earlier && s'.sessions[i].createdAt >= since)
      {
        SessionOrigin(s, steps[0], i);
      }
      OnlyNewSessionsForever(s', steps[1..], u, kept, earlier, since);
    }
  }

  /** After a password reset every session of the user that ever shows up was opened later. */
  lemma ResetRevokesForGood(s: Db, h: Hash, password: string, u: UserId, steps: seq<Step>)
    requires Resolve(s, PasswordReset, h) == Some(u)
    requires ValidRun(Next(s, ResetPassword(h, password)), steps)
    ensures var f := Final(Next(s, ResetPassword(h, password)), steps);
            forall i :: i in f.sessions && f.sessions[i].user == u ==>
              i !in s.used.sessions && f.sessions[i].createdAt >= s.now
  {
    OnlyNewSessionsForever(Next(s, ResetPassword(h, password)), steps, u, {}, s.used.sessions.Keys, s.now);
  }

  /** After a password change the same holds, but for the session that made the change. */
  lemma ChangeRevokesOthersForGood(s: Db, u: UserId, keep: SessionId, password: string, steps: seq<Step>)
    requires ValidRun(Next(s, ChangePassword(u, keep, password)), steps)
    ensures var f := Final(Next(s, ChangePassword(u, keep, password)), steps);
            forall i :: i in f.sessions && f.sessions[i].user == u ==>
              i == keep || (i !in s.used.sessions && f.sessions[i].createdAt >= s.now)
  {
    OnlyNewSessionsForever(Next(s, ChangePassword(u, keep, password)), steps, u, {keep}, s.used.sessions.Keys, s.now);
  }

  // ---------------------------------------------------------------------
  // Which sessions stay.
  // ---------------------------------------------------------------------

  /**
    What ends a session, and nothing else does: deletion of its user's account, a reset with
    a token of its user, a password change of its user in another session, its logout, its
    expiry, and a purge that removes its user.
   */
  lemma SessionStaysExactly(s: Db, step: Step, i: SessionId)
    requires Inv(s) && Enabled(s, step) && i in s.sessions
    ensures var x := s.sessions[i];
            i in Next(s, step).sessions <==>
              && !(step.DeleteAccount? && step.u == x.user)
              && !(step.ResetPassword? && step.h in s.resetTokens && s.resetTokens[step.h].expiresAt > s.now
                   && s.resetTokens[step.h].user == x.user)
              && !(step.ChangePassword? && step.u == x.user && step.keep != i)
              && !(step.Logout? && step.i == i)
              && !(step.CleanupSessions? && x.expiresAt < s.now)
              && !(step.Purge?
                   && s.users[x.user].deletedAt.Some? && s.now - s.users[x.user].deletedAt.value > 2_592_000_000_000
                   && forall j :: j in s.imports && s.users[s.imports[j]].deletedAt.Some? ==>
                        s.now - s.users[s.imports[j]].deletedAt.value <= 2_592_000_000_000)
    ensures i in Next(s, step).sessions ==> Next(s, step).sessions[i] == s.sessions[i]
  {
    if Enters(step) {
      EnteringKeepsSessions(s, step, i);
    } else if step.Purge? {
      PurgeEndsSessions(s, i);
    } else if step.ResetPassword? {
      ResetEndsSessions(s, step.h, step.password, i);
    } else if Revokes(step) {
      RevokingEndsSessions(s, step, i);
    } else {
      SessionsStay(s, step);
    }
  }

  lemma ResetEndsSessions(s: Db, h: Hash, password: string, i: SessionId)
    requires i in s.sessions
    ensures var sessions := PasswordWasReset(s, h, password).sessions;
            && (i in sessions <==> !(h in s.resetTokens && s.resetTokens[h].expiresAt > s.now
                                     && s.resetTokens[h].user == s.sessions[i].user))
            && (i in sessions ==> sessions[i] == s.sessions[i])
  {
  }

  lemma RevokingEndsSessions(s: Db, step: Step, i: SessionId)
    requires Enabled(s, step) && i in s.sessions
    requires step.DeleteAccount? || step.ChangePassword? || step.Logout? || step.CleanupSessions?
    ensures var x := s.sessions[i];
            i in Next(s, step).sessions <==>
              && !(step.DeleteAccount? && step.u == x.user)
              && !(step.ChangePassword? && step.u == x.user && step.keep != i)
              && !(step.Logout? && step.i == i)
              && !(step.CleanupSessions? && x.expiresAt < s.now)
    ensures i in Next(s, step).sessions ==> Next(s, step).sessions[i] == s.sessions[i]
  {
  }

  lemma EnteringKeepsSessions(s: Db, step: Step, i: SessionId)
    requires Inv(s) && Enabled(s, step) && Enters(step) && i in s.sessions
    ensures i in Next(s, step).sessions && Next(s, step).sessions[i] == s.sessions[i]
  {
    assert i in s.used.sessions;
    match step
    case SignUp(u, account, token, j) => SignUpKeepsSession(s, u, account, token, j, i);
    case CommitLogin(c, j) => LoginKeepsSession(s, s.logins[c], j, i);
    case SignIn(u, j) => LoginKeepsSession(s, ReadOf(s, u), j, i);
  }

  lemma SignUpKeepsSession(s: Db, u: UserId, account: Users.Account, token: Option<Hash>, j: SessionId, i: SessionId)
    requires i in s.sessions && i != j
    ensures var s' := SignedUp(s, u, account, token, j);
            i in s'.sessions && s'.sessions[i] == s.sessions[i]
  {
  }

  lemma LoginKeepsSession(s: Db, read: LoginRead, j: SessionId, i: SessionId)
    requires i in s.sessions && i != j
    ensures var s' := LoggedIn(s, read, j);
            i in s'.sessions && s'.sessions[i] == s.sessions[i]
  {
  }

  lemma PurgeEndsSessions(s: Db, i: SessionId)
    requires Inv(s) && i in s.sessions
    ensures i in Next(s, Purge).sessions ==> Next(s, Purge).sessions[i] == s.sessions[i]
    ensures i !in Next(s, Purge).sessions <==>
      && s.users[s.sessions[i].user].deletedAt.Some?
      && s.now - s.users[s.sessions[i].user].deletedAt.value > 2_592_000_000_000
      && forall j :: j in s.imports && s.users[s.imports[j]].deletedAt.Some? ==>
           s.now - s.users[s.imports[j]].deletedAt.value <= 2_592_000_000_000
  {
    if PurgeAborts(s) {
      var j :| j in s.imports && s.imports[j] in PurgeVictims(s);
      assert s.users[s.imports[j]].deletedAt.Some?;
    } else {
      forall j | j in s.imports && s.users[s.imports[j]].deletedAt.Some?
        ensures s.now - s.users[s.imports[j]].deletedAt.value <= 2_592_000_000_000
      {
        assert s.imports[j] !in PurgeVictims(s);
      }
    }
  }

  /** The step ends the session. */
  predicate Ends(s: Db, step: Step, i: SessionId)
    requires i in s.sessions
  {
    var u := s.sessions[i].user;
    match step
    case DeleteAccount(v, _) => v == u
    case ResetPassword(h, _) => Resolve(s, PasswordReset, h) == Some(u)
    case ChangePassword(v, keep, _) => v == u && keep != i
    case Logout(j) => j == i
    case CleanupSessions => s.sessions[i].expiresAt < s.now
    case Purge => !PurgeAborts(s) && u in PurgeVictims(s)
    case _ => false
  }

  ghost predicate NeverEnded(s: Db, steps: seq<Step>, i: SessionId)
    requires ValidRun(s, steps)
    decreases |steps|
  {
    steps == []
    || (i in s.sessions && !Ends(s, steps[0], i) && NeverEnded(Next(s, steps[0]), steps[1..], i))
  }

  lemma EndsExactly(s: Db, step: Step, i: SessionId)
    requires Inv(s) && Enabled(s, step) && i in s.sessions
    ensures i in Next(s, step).sessions <==> !Ends(s, step, i)
  {
    SessionStaysExactly(s, step, i);
    if step.Purge? {
      PurgedSession(s, i);
    }
  }

  lemma PurgedSession(s: Db, i: SessionId)
    requires Inv(s) && i in s.sessions
    ensures i in Next(s, Purge).sessions <==> PurgeAborts(s) || s.sessions[i].user !in PurgeVictims(s)
  {
  }

  lemma {:induction false} EndedForever(s: Db, steps: seq<Step>, i: SessionId)
    requires Inv(s) && ValidRun(s, steps) && i in s.used.sessions && i !in s.sessions
    ensures i !in Final(s, steps).sessions
    decreases |steps|
  {
    if steps != [] {
      StepKeepsInv(s, steps[0]);
      ClockAndUsedGrow(s, steps[0]);
      if i in Next(s, steps[0]).sessions {
        SessionOrigin(s, steps[0], i);
      }
      EndedForever(Next(s, steps[0]), steps[1..], i);
    }
  }

  /** Over every run a session is still there, unchanged, exactly if no step ended it. */
  lemma {:induction false} SessionSurvivesExactly(s: Db, steps: seq<Step>, i: SessionId)
    requires Inv(s) && ValidRun(s, steps) && i in s.sessions
    ensures i in Final(s, steps).sessions <==> NeverEnded(s, steps, i)
    ensures i in Final(s, steps).sessions ==> Final(s, steps).sessions[i] == s.sessions[i]
    decreases |steps|
  {
    if steps != [] {
      var s' := Next(s, steps[0]);
      StepKeepsInv(s, steps[0]);
      ClockAndUsedGrow(s, steps[0]);
      EndsExactly(s, steps[0], i);
      SessionStaysExactly(s, steps[0], i);
      if i in s'.sessions {
        SessionSurvivesExactly(s', steps[1..], i);
      } else {
        EndedForever(s', steps[1..], i);
      }
    }
  }

  // ---------------------------------------------------------------------
  // Logins matched against a password that has been reset since.
  // ---------------------------------------------------------------------

  /** No session of `u` was opened by a login matched against the hash. */
  ghost predicate NoSessionUnder(s: Db, u: UserId, hash: Option<string>) {
    forall i :: i in s.sessions && s.sessions[i].user == u ==> i in s.used.sessions && s.used.sessions[i] != hash
  }

  /** No login of `u` matched against the hash is waiting for its transaction. */
  predicate NoLoginUnder(s: Db, u: UserId, hash: Option<string>) {
    forall c :: c in s.logins && s.logins[c].user == u ==> s.logins[c].hash != hash
  }

  ghost predicate Retired(s: Db, u: UserId, hash: Option<string>) {
    && u in s.used.users
    && (u in s.users ==> s.users[u].passwordHash != hash)
    && NoLoginUnder(s, u, hash) && NoSessionUnder(s, u, hash)
  }

  /** The password hash that a step gives `u`, if it does. */
  function SetBy(s: Db, step: Step, u: UserId): Option<string> {
    match step
    case ResetPassword(h, password) => if Resolve(s, PasswordReset, h) == Some(u) then Some(password) else None
    case ChangePassword(v, _, password) => if v == u then Some(password) else None
    case _ => None
  }

  predicate SetsHash(s: Db, step: Step, u: UserId, hash: Option<string>) {
    SetBy(s, step, u).Some? && SetBy(s, step, u) == hash
  }

  ghost predicate NeverSet(s: Db, steps: seq<Step>, u: UserId, hash: Option<string>)
    requires ValidRun(s, steps)
    decreases |steps|
  {
    steps == [] || (!SetsHash(s, steps[0], u, hash) && NeverSet(Next(s, steps[0]), steps[1..], u, hash))
  }

  lemma HashMoves(s: Db, step: Step, u: UserId, hash: Option<string>)
    requires Inv(s) && Enabled(s, step) && !SetsHash(s, step, u, hash)
    requires u in s.used.users && (u in s.users ==> s.users[u].passwordHash != hash)
    ensures u in Next(s, step).users ==> Next(s, step).users[u].passwordHash != hash
  {
    if u !in s.users {
      GoneStays(s, step, u);
    } else if u in Next(s, step).users {
      HashStep(s, step, u);
    }
  }

  lemma HashStep(s: Db, step: Step, u: UserId)
    requires Inv(s) && Enabled(s, step) && u in s.users && u in Next(s, step).users
    ensures Next(s, step).users[u].passwordHash
         == if SetBy(s, step, u).Some? then SetBy(s, step, u) else s.users[u].passwordHash
  {
    if Enters(step) {
      EnterHash(s, step, u);
    } else if !step.Purge? {
      UsersAfter(s, step);
      if RewriteOf(s, step).Some? {
        RewriteIsNoInsert(s, step);
        RewriteHash(s.users, RewriteOf(s, step).value, u);
      }
    }
  }

  lemma LoginsKeepRetired(s: Db, step: Step, u: UserId, hash: Option<string>)
    requires Inv(s) && Enabled(s, step) && Retired(s, u, hash)
    ensures NoLoginUnder(Next(s, step), u, hash)
  {
    if Compound(step) {
      CompoundFrame(s, step);
    }
  }

  lemma SessionsKeepRetired(s: Db, step: Step, u: UserId, hash: Option<string>)
    requires Inv(s) && Enabled(s, step) && Retired(s, u, hash)
    ensures NoSessionUnder(Next(s, step), u, hash)
  {
    var s' := Next(s, step);
    ClockAndUsedGrow(s, step);
    forall i | i in s'.sessions && s'.sessions[i].user == u
      ensures i in s'.used.sessions && s'.used.sessions[i] != hash {
      SessionOrigin(s, step, i);
    }
  }

  lemma {:induction false} RetiredForever(s: Db, steps: seq<Step>, u: UserId, hash: Option<string>)
    requires Inv(s) && ValidRun(s, steps) && Retired(s, u, hash) && NeverSet(s, steps, u, hash)
    ensures Retired(Final(s, steps), u, hash)
    decreases |steps|
  {
    if steps != [] {
      StepKeepsInv(s, steps[0]);
      ClockAndUsedGrow(s, steps[0]);
      HashMoves(s, steps[0], u, hash);
      LoginsKeepRetired(s, steps[0], u, hash);
      SessionsKeepRetired(s, steps[0], u, hash);
      RetiredForever(Next(s, steps[0]), steps[1..], u, hash);
    }
  }

  /** A waiting login opens a session under the password it read. */
  lemma WaitingLoginOpens(s: Db, c: ClientId) returns (steps: seq<Step>)
    requires Inv(s) && c in s.logins && s.logins[c].user in s.users
    ensures ValidRun(s, steps) && !NoSessionUnder(Final(s, steps), s.logins[c].user, s.logins[c].hash)
    ensures forall u, hash :: NeverSet(s, steps, u, hash)
  {
    var i := FreshNumber(s.used.sessions.Keys);
    var step := CommitLogin(c, i);
    steps := [step];
    RunOneMore(s, [], step);
    assert [] + [step] == [step];
    assert Final(s, steps).sessions[i].user == s.logins[c].user;
    assert steps[1..] == [];
  }

  /**
    A password reset shuts out every earlier password for good exactly if no login matched
    against it is waiting for its transaction, as long as nobody sets the same hash again.
    A password change is another matter: see ChangeReplacesReset.
   */
  lemma ResetShutsOutExactly(s: Db, h: Hash, password: string, u: UserId, hash: Option<string>)
    requires Inv(s) && Resolve(s, PasswordReset, h) == Some(u) && hash != Some(password)
    ensures var s' := Next(s, ResetPassword(h, password));
            (forall steps :: ValidRun(s', steps) && NeverSet(s', steps, u, hash) ==>
              NoSessionUnder(Final(s', steps), u, hash))
            <==> NoLoginUnder(s, u, hash)
  {
    var s' := Next(s, ResetPassword(h, password));
    StepKeepsInv(s, ResetPassword(h, password));
    assert u in s.users && s'.users[u].passwordHash == Some(password);
    if NoLoginUnder(s, u, hash) {
      assert Retired(s', u, hash);
      forall steps | ValidRun(s', steps) && NeverSet(s', steps, u, hash)
        ensures NoSessionUnder(Final(s', steps), u, hash) {
        RetiredForever(s', steps, u, hash);
      }
    } else {
      var c :| c in s.logins && s.logins[c].user == u && s.logins[c].hash == hash;
      var steps := WaitingLoginOpens(s', c);
    }
  }

  lemma ReadThenIssued(account: Users.Account) returns (s: Db)
    ensures var run := [SignUp(1, account, None, 10), ReadLogin(7, 1), Issue(PasswordReset, 1, 20)];
            ValidRun(EMPTY_DB, run) && Final(EMPTY_DB, run) == s
    ensures 1 in s.users && s.logins == map[7 := LoginRead(1, false, account.passwordHash)] &&
            s.used.sessions.Keys == {10}
    ensures Resolve(s, PasswordReset, 20) == Some(1)
  {
    var s1 := SignedUpAlone(account);
    var run1 := [SignUp(1, account, None, 10)];
    RunOneMore(EMPTY_DB, run1, ReadLogin(7, 1));
    RunOneMore(EMPTY_DB, run1 + [ReadLogin(7, 1)], Issue(PasswordReset, 1, 20));
    assert run1 + [ReadLogin(7, 1)] + [Issue(PasswordReset, 1, 20)]
        == [SignUp(1, account, None, 10), ReadLogin(7, 1), Issue(PasswordReset, 1, 20)];
    var s2 := Next(s1, ReadLogin(7, 1));
    s := Next(s2, Issue(PasswordReset, 1, 20));
    IssuedFrame(s2, PasswordReset, 1, 20);
    StepKeepsInv(s1, ReadLogin(7, 1));
    TokenIsThere(s2, 1, 20);
  }

  lemma TokenIsThere(s: Db, u: UserId, h: Hash)
    requires u in s.users
    ensures Resolve(Issued(s, PasswordReset, u, h), PasswordReset, h) == Some(u)
  {
  }

  /** A login matched against the old password commits after the reset, and its session stands. */
  lemma OldPasswordOutlivesReset(account: Users.Account, password: string)
    ensures var run := [SignUp(1, account, None, 10), ReadLogin(7, 1), Issue(PasswordReset, 1, 20),
                        ResetPassword(20, password), CommitLogin(7, 11)];
            && ValidRun(EMPTY_DB, run)
            && var f := Final(EMPTY_DB, run);
            && 1 in f.users && f.users[1].passwordHash == Some(password)
            && 11 in f.sessions && f.sessions[11].user == 1
            && 11 in f.used.sessions && f.used.sessions[11] == account.passwordHash
  {
    var run := [SignUp(1, account, None, 10), ReadLogin(7, 1), Issue(PasswordReset, 1, 20)];
    var s := ReadThenIssued(account);
    var s' := Next(s, ResetPassword(20, password));
    ResetFrame(s, 20, password);
    RunOneMore(EMPTY_DB, run, ResetPassword(20, password));
    RunOneMore(EMPTY_DB, run + [ResetPassword(20, password)], CommitLogin(7, 11));
    assert run + [ResetPassword(20, password)] + [CommitLogin(7, 11)]
        == [SignUp(1, account, None, 10), ReadLogin(7, 1), Issue(PasswordReset, 1, 20),
            ResetPassword(20, password), CommitLogin(7, 11)];
  }

  /**
    The check of the current password is made before the transaction of a change, which does
    not repeat it. So a change that was checked before a reset still goes through after it
    and puts its own password in place of the reset's.
   */
  lemma ChangeReplacesReset(s: Db, h: Hash, password: string, u: UserId, keep: SessionId, change: string)
    requires Inv(s) && Resolve(s, PasswordReset, h) == Some(u)
    ensures var f := Next(Next(s, ResetPassword(h, password)), ChangePassword(u, keep, change));
            u in f.users && f.users[u].passwordHash == Some(change)
  {
    var s' := Next(s, ResetPassword(h, password));
    assert u in s'.users;
    RewriteHash(s'.users, Users.SetPassword(u, change), u);
  }

  /** The last password hash that a run gives `u`, if it gives one. */
  ghost function LastSet(s: Db, steps: seq<Step>, u: UserId): Option<string>
    requires ValidRun(s, steps)
    decreases |steps|
  {
    if steps == [] then None
    else
      var later := LastSet(Next(s, steps[0]), steps[1..], u);
      if later.Some? then later else SetBy(s, steps[0], u)
  }

  /** Which password is in force after a run: the last one set, by whatever reset or change. */
  lemma {:induction false} PasswordInForce(s: Db, steps: seq<Step>, u: UserId)
    requires Inv(s) && ValidRun(s, steps) && u in s.users && u in Final(s, steps).users
    ensures Final(s, steps).users[u].passwordHash
         == if LastSet(s, steps, u).Some? then LastSet(s, steps, u) else s.users[u].passwordHash
    decreases |steps|
  {
    if steps != [] {
      var s' := Next(s, steps[0]);
      StepKeepsInv(s, steps[0]);
      ClockAndUsedGrow(s, steps[0]);
      if u !in s'.users {
        GoneForever(s', steps[1..], u);
      }
      HashStep(s, steps[0], u);
      PasswordInForce(s', steps[1..], u);
    }
  }

  /** The password of a reset stays in force exactly as long as the last later one set, if any, is the same. */
  lemma ResetStaysExactly(s: Db, h: Hash, password: string, u: UserId, steps: seq<Step>)
    requires Inv(s) && Resolve(s, PasswordReset, h) == Some(u)
    requires ValidRun(Next(s, ResetPassword(h, password)), steps)
    requires u in Final(Next(s, ResetPassword(h, password)), steps).users
    ensures var s' := Next(s, ResetPassword(h, password));
            Final(s', steps).users[u].passwordHash == Some(password)
            <==> (LastSet(s', steps, u).None? || LastSet(s', steps, u) == Some(password))
  {
    var s' := Next(s, ResetPassword(h, password));
    StepKeepsInv(s, ResetPassword(h, password));
    assert u in s'.users;
    HashStep(s, ResetPassword(h, password), u);
    PasswordInForce(s', steps, u);
  }
}
