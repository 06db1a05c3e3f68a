/**
  The account statements and transaction bodies on the tables themselves
  (internal/data/session.go, internal/data/tokens.go, internal/app/auth.go,
  internal/app/middleware.go, internal/worker/cron.go). Each transaction refines the step
  of the same name.
 */
module AccountStore {
  import opened Common
  import opened Accounts
  import SessionSafety
  import Users
  import Ratings

  function UserInserted(s: Db, u: UserId, account: Users.Account): Db {
    s.(users := s.users[u := Users.NewUser(account)], used := s.used.(users := s.used.users + {u}))
  }

  function AccountOpened(s: Db, u: UserId, h: Option<Hash>, i: SessionId, hash: Option<string>): Db {
    LoggedIn(if h.Some? then Issued(s, Activation, u, h.value) else s, LoginRead(u, false, hash), i)
  }

  /** A sign-up inserts the user, who has no token yet, and then opens the account. */
  lemma SignUpInParts(s: Db, u: UserId, account: Users.Account, h: Option<Hash>, i: SessionId)
    requires Inv(s) && Enabled(s, SignUp(u, account, h, i)) && !Users.EmailTaken(s.users, account.email)
    ensures forall g :: g in s.activationTokens ==> s.activationTokens[g].user != u
    ensures i !in s.sessions
    ensures SignedUp(s, u, account, h, i) == AccountOpened(UserInserted(s, u, account), u, h, i, account.passwordHash)
    ensures h.Some? ==> h.value !in s.used.hashes
  {
  }

  class Store {
    const users: Users.UserModel
    var sessions: map<SessionId, Session>
    var activationTokens: map<Hash, Token>
    var resetTokens: map<Hash, Token>
    var reviews: map<ReviewId, Ratings.Review>
    var imports: map<JobId, UserId>
    ghost var logins: map<ClientId, LoginRead>
    ghost var requests: map<ClientId, UserId>
    ghost var used: Used

    ghost function View(now: int): Db
      reads this, users
    {
      Db(now, users.rows, sessions, activationTokens, resetTokens, reviews, imports, logins, requests, used)
    }

    constructor ()
      ensures fresh(users) && View(0) == EMPTY_DB
    {
      users := new Users.UserModel();
      sessions, activationTokens, resetTokens := map[], map[], map[];
      reviews, imports := map[], map[];
      logins, requests, used := map[], map[], Used({}, map[], {});
    }

    // --- sessions ---

    /** Fails, without effect, when the user is not there: the foreign key. */
    method CreateSession(u: UserId, i: SessionId, now: int, ghost hash: Option<string>) returns (ok: bool)
      requires i !in sessions
      modifies this`sessions, this`used
      ensures ok <==> u in users.rows
      ensures View(now) == LoggedIn(old(View(now)), LoginRead(u, false, hash), i)
      ensures sessions == if ok then old(sessions)[i := Session(u, now, now + 604_800_000_000)] else old(sessions)
    {
      if u !in users.rows {
        return false;
      }
      sessions := sessions[i := Session(u, now, now + SESSION_TTL)];
      used := used.(sessions := used.sessions[i := hash]);
      return true;
    }

    method GetSession(i: SessionId, now: int) returns (session: Option<Session>)
      ensures session == if i in sessions && sessions[i].expiresAt > now then Some(sessions[i]) else None
    {
      if i in sessions && sessions[i].expiresAt > now {
        return Some(sessions[i]);
      }
      return None;
    }

    method DeleteAllForUser(u: UserId)
      modifies this`sessions
      ensures sessions == SessionsWithout(old(sessions), {u})
      ensures forall i :: i in sessions <==> i in old(sessions) && old(sessions)[i].user != u
      ensures forall i :: i in sessions ==> sessions[i] == old(sessions)[i]
    {
      sessions := map i | i in sessions && sessions[i].user != u :: sessions[i];
    }

    method DeleteAllForUserExcept(u: UserId, keep: SessionId)
      modifies this`sessions
      ensures forall i :: i in sessions <==> i in old(sessions) && (old(sessions)[i].user != u || i == keep)
      ensures forall i :: i in sessions ==> sessions[i] == old(sessions)[i]
    {
      sessions := map i | i in sessions && (sessions[i].user != u || i == keep) :: sessions[i];
    }

    // --- tokens ---

    method NewToken(scope: Scope, u: UserId, h: Hash, now: int) returns (ok: bool)
      requires h !in used.hashes
      modifies this
      ensures ok <==> u in users.rows
      ensures View(now) == Issued(old(View(now)), scope, u, h)
      ensures ok && scope == Activation ==>
        && resetTokens == old(resetTokens)
        && h in activationTokens && activationTokens[h] == Token(u, now + 86_400_000_000)
        && (forall g :: g != h ==>
            (g in activationTokens <==> g in old(activationTokens) && old(activationTokens)[g].user != u))
        && forall g :: g != h && g in activationTokens ==> activationTokens[g] == old(activationTokens)[g]
      ensures ok && scope == PasswordReset ==>
        && activationTokens == old(activationTokens)
        && h in resetTokens && resetTokens[h] == Token(u, now + 3_600_000_000)
        && (forall g :: g != h ==> (g in resetTokens <==> g in old(resetTokens) && old(resetTokens)[g].user != u))
        && forall g :: g != h && g in resetTokens ==> resetTokens[g] == old(resetTokens)[g]
    {
      if u !in users.rows {
        return false;
      }
      DeleteTokens(scope, u);
      match scope {
        case Activation => activationTokens := activationTokens[h := Token(u, now + 24 * HOUR)];
        case PasswordReset => resetTokens := resetTokens[h := Token(u, now + HOUR)];
      }
      used := used.(hashes := used.hashes + {h});
      return true;
    }

    method DeleteTokens(scope: Scope, u: UserId)
      modifies this`activationTokens, this`resetTokens
      ensures activationTokens == if scope == Activation then TokensWithout(old(activationTokens), {u})
                                else old(activationTokens)
      ensures resetTokens == if scope == PasswordReset then TokensWithout(old(resetTokens), {u}) else old(resetTokens)
      ensures scope == Activation ==>
        && (forall g :: g in activationTokens <==> g in old(activationTokens) && old(activationTokens)[g].user != u)
        && forall g :: g in activationTokens ==> activationTokens[g] == old(activationTokens)[g]
      ensures scope == PasswordReset ==>
        && (forall g :: g in resetTokens <==> g in old(resetTokens) && old(resetTokens)[g].user != u)
        && forall g :: g in resetTokens ==> resetTokens[g] == old(resetTokens)[g]
    {
      match scope {
        case Activation => activationTokens :=
            map h | h in activationTokens && activationTokens[h].user != u :: activationTokens[h];
        case PasswordReset => resetTokens := map h | h in resetTokens && resetTokens[h].user != u :: resetTokens[h];
      }
    }

    method GetUserForToken(scope: Scope, h: Hash, now: int) returns (u: Option<UserId>)
      ensures u == Resolve(View(now), scope, h)
      ensures var tokens := if scope == Activation then activationTokens else resetTokens;
              u == if h in tokens && tokens[h].expiresAt > now then Some(tokens[h].user) else None
    {
      var tokens := if scope == Activation then activationTokens else resetTokens;
      if h in tokens && tokens[h].expiresAt > now {
        return Some(tokens[h].user);
      }
      return None;
    }

    // --- transactions ---

    /** Sign-up by email; a Google sign-up is the same without the token. */
    method Register(u: UserId, account: Users.Account, h: Option<Hash>, i: SessionId,
                    now: int) returns (outcome: Users.Outcome)
      requires Inv(View(now)) && Enabled(View(now), SignUp(u, account, h, i))
      modifies this, users
      ensures View(now) == Next(old(View(now)), SignUp(u, account, h, i))
      ensures outcome == if Users.EmailTaken(old(users.rows), account.email) then Users.DuplicateEmail else Users.Ok
      ensures outcome == Users.Ok ==>
        && users.rows == old(users.rows)[u :=
             Users.User(account.email, account.passwordHash, account.provider, account.profile,
                                                         account.emailVerified, Users.Active, 1, None, None)]
        && sessions == old(sessions)[i := Session(u, now, now + 604_800_000_000)]
        && resetTokens == old(resetTokens)
      ensures outcome == Users.Ok && h.None? ==> activationTokens == old(activationTokens)
      ensures outcome == Users.Ok && h.Some? ==>
        && h.value in activationTokens && activationTokens[h.value] == Token(u, now + 86_400_000_000)
        && forall g :: g != h.value ==>
             (g in activationTokens <==> g in old(activationTokens))
             && (g in activationTokens ==> activationTokens[g] == old(activationTokens)[g])
      ensures outcome != Users.Ok ==>
        && users.rows == old(users.rows) && sessions == old(sessions)
        && activationTokens == old(activationTokens) && resetTokens == old(resetTokens)
    {
      ghost var s := View(now);
      outcome := InsertUser(u, account, now);
      if outcome == Users.Ok {
        SignUpInParts(s, u, account, h, i);
        OpenAccount(u, h, i, now, account.passwordHash);
      }
    }

    method InsertUser(u: UserId, account: Users.Account, now: int) returns (outcome: Users.Outcome)
      requires u !in users.rows
      modifies users, this`used
      ensures outcome == if Users.EmailTaken(old(users.rows), account.email) then Users.DuplicateEmail else Users.Ok
      ensures View(now) == if outcome == Users.Ok then UserInserted(old(View(now)), u, account) else old(View(now))
      ensures outcome == Users.Ok ==>
        users.rows == old(users.rows)[u :=
          Users.User(account.email, account.passwordHash, account.provider, account.profile,
                                                      account.emailVerified, Users.Active, 1, None, None)]
    {
      outcome := users.Insert(u, account);
      if outcome == Users.Ok {
        used := used.(users := used.users + {u});
      }
    }

    /** The rest of a sign-up: the token, if any, and the first session. */
    method OpenAccount(u: UserId, h: Option<Hash>, i: SessionId, now: int, ghost hash: Option<string>)
      requires u in users.rows && i !in sessions && (h.Some? ==> h.value !in used.hashes)
      requires forall g :: g in activationTokens ==> activationTokens[g].user != u
      modifies this
      ensures View(now) == AccountOpened(old(View(now)), u, h, i, hash)
      ensures sessions == old(sessions)[i := Session(u, now, now + 604_800_000_000)] && resetTokens == old(resetTokens)
      ensures h.None? ==> activationTokens == old(activationTokens)
      ensures h.Some? ==>
        && h.value in activationTokens && activationTokens[h.value] == Token(u, now + 86_400_000_000)
        && forall g :: g != h.value ==>
             (g in activationTokens <==> g in old(activationTokens))
             && (g in activationTokens ==> activationTokens[g] == old(activationTokens)[g])
    {
      if h.Some? {
        var issued := NewToken(Activation, u, h.value, now);
      }
      var loggedIn := CreateSession(u, i, now, hash);
    }

    /** The lookup before the login transaction; the row it saw is all the login remembers. */
    method ReadLogin(c: ClientId, email: string, now: int) returns (found: Option<LoginRead>)
      requires c !in logins
      modifies this`logins
      ensures found.None? ==> View(now) == old(View(now)) && !Users.EmailTaken(users.rows, email)
      ensures found.Some? ==>
        && found.value.user in users.rows && users.rows[found.value.user].email == email
        && View(now) == Next(old(View(now)), Step.ReadLogin(c, found.value.user))
        && logins[c] == found.value
        && found.value.wasDeleted == users.rows[found.value.user].deletedAt.Some?
        && found.value.hash == users.rows[found.value.user].passwordHash
    {
      var u := users.GetByEmailIncludingDeleted(email);
      if u.None? {
        return None;
      }
      found := Some(LoginRead(u.value, users.rows[u.value].deletedAt.Some?, users.rows[u.value].passwordHash));
      logins := logins[c := found.value];
    }

    method CommitLogin(c: ClientId, read: LoginRead, i: SessionId, now: int) returns (ok: bool)
      requires Inv(View(now)) && Enabled(View(now), Step.CommitLogin(c, i)) && logins[c] == read
      modifies this, users
      ensures View(now) == Next(old(View(now)), Step.CommitLogin(c, i))
      ensures ok <==> read.user in old(users.rows)
      ensures sessions == if ok then old(sessions)[i := Session(read.user, now, now + 604_800_000_000)]
                          else old(sessions)
      ensures users.rows == if !ok || !read.wasDeleted then old(users.rows)
                            else old(users.rows)[read.user := old(users.rows)[read.user].(
                                   deletedAt := None, deletionReason := None,
                                   version := old(users.rows)[read.user].version + 1)]
    {
      logins := logins - {c};
      if read.wasDeleted {
        users.Restore(read.user);
      }
      ok := CreateSession(read.user, i, now, read.hash);
    }

    /** Verify an address; if the user cannot be loaded afterwards everything is rolled back. */
    method Activate(h: Hash, now: int) returns (ok: bool)
      modifies this, users
      ensures View(now) == Next(old(View(now)), VerifyEmail(h))
      ensures ok <==>
        var u := Resolve(old(View(now)), Activation, h);
        u.Some? && u.value in old(users.rows) && old(users.rows)[u.value].deletedAt.None?
      ensures ok ==>
        && h in old(activationTokens) && old(activationTokens)[h].expiresAt > now
        && var u := old(activationTokens)[h].user;
        && users.rows == old(users.rows)[u := old(users.rows)[u].(emailVerified := true,
                                                                  version := old(users.rows)[u].version + 1)]
        && (forall g :: g in activationTokens <==> g in old(activationTokens) && old(activationTokens)[g].user != u)
        && forall g :: g in activationTokens ==> activationTokens[g] == old(activationTokens)[g]
      ensures !ok ==> users.rows == old(users.rows) && activationTokens == old(activationTokens)
      ensures sessions == old(sessions) && resetTokens == old(resetTokens)
    {
      var u := GetUserForToken(Activation, h, now);
      if u.None? {
        return false;
      }
      var savedUsers, savedTokens := users.rows, activationTokens;
      users.Activate(u.value);
      DeleteTokens(Activation, u.value);
      var loaded := users.GetById(u.value);
      if loaded.None? {
        users.rows, activationTokens := savedUsers, savedTokens;
        return false;
      }
      return true;
    }

    /** The lookup, before the transaction, of who may get a reset link: a live user with a password. */
    method FindForReset(email: string) returns (u: Option<UserId>)
      requires Users.EmailsUnique(users.rows)
      ensures u.Some? <==>
        exists x ::
          x in users.rows && users.rows[x].email == email && users.rows[x].deletedAt.None? &&
          users.rows[x].provider == Users.EmailProvider
      ensures u.Some? ==> u.value in users.rows && users.rows[u.value].email == email
    {
      u := users.GetByEmail(email);
      if u.Some? && users.rows[u.value].provider != Users.EmailProvider {
        return None;
      }
    }

    /** Undisturbed between lookup and transaction, a link is issued exactly to such a user. */
    method ForgotPassword(email: string, h: Hash, now: int) returns (issuedTo: Option<UserId>)
      requires Inv(View(now)) && h !in used.hashes
      modifies this
      ensures issuedTo.Some? <==>
        exists u ::
          u in users.rows && users.rows[u].email == email && users.rows[u].deletedAt.None? &&
          users.rows[u].provider == Users.EmailProvider
      ensures issuedTo.None? ==> View(now) == old(View(now))
      ensures issuedTo.Some? ==>
        && issuedTo.value in users.rows && users.rows[issuedTo.value].email == email
        && View(now) == Next(old(View(now)), Issue(PasswordReset, issuedTo.value, h))
    {
      var u := FindForReset(email);
      if u.None? {
        return None;
      }
      var ok := NewToken(PasswordReset, u.value, h, now);
      return u;
    }

    method ResetPassword(h: Hash, password: string, now: int) returns (ok: bool)
      modifies this, users
      ensures View(now) == Next(old(View(now)), Step.ResetPassword(h, password))
      ensures ok <==> Resolve(old(View(now)), PasswordReset, h).Some?
      ensures ok <==> h in old(resetTokens) && old(resetTokens)[h].expiresAt > now
      ensures ok ==>
        var u := old(resetTokens)[h].user;
        && (u in old(users.rows) ==>
              users.rows == old(users.rows)[u := old(users.rows)[u].(passwordHash := Some(password),
                                                                     version := old(users.rows)[u].version + 1)])
        && (forall i :: i in sessions <==> i in old(sessions) && old(sessions)[i].user != u)
        && (forall i :: i in sessions ==> sessions[i] == old(sessions)[i])
        && (forall g :: g in resetTokens <==> g in old(resetTokens) && old(resetTokens)[g].user != u)
        && forall g :: g in resetTokens ==> resetTokens[g] == old(resetTokens)[g]
      ensures !ok ==> users.rows == old(users.rows) && sessions == old(sessions) && resetTokens == old(resetTokens)
      ensures activationTokens == old(activationTokens)
    {
      var u := GetUserForToken(PasswordReset, h, now);
      if u.None? {
        return false;
      }
      users.UpdatePassword(u.value, password);
      DeleteTokens(PasswordReset, u.value);
      DeleteAllForUser(u.value);
      return true;
    }

    method ChangePassword(u: UserId, current: SessionId, password: string, now: int)
      modifies this, users
      ensures View(now) == Next(old(View(now)), Step.ChangePassword(u, current, password))
      ensures u in old(users.rows) ==>
        users.rows == old(users.rows)[u := old(users.rows)[u].(passwordHash := Some(password),
                                                               version := old(users.rows)[u].version + 1)]
      ensures forall i :: i in sessions <==> i in old(sessions) && (old(sessions)[i].user != u || i == current)
      ensures forall i :: i in sessions ==> sessions[i] == old(sessions)[i]
    {
      users.UpdatePassword(u, password);
      DeleteAllForUserExcept(u, current);
      assert sessions == Next(old(View(now)), Step.ChangePassword(u, current, password)).sessions;
    }

    method DeleteAccount(u: UserId, reason: string, now: int)
      modifies this, users
      ensures View(now) == Next(old(View(now)), Step.DeleteAccount(u, reason))
      ensures u in old(users.rows) && old(users.rows)[u].deletedAt.None? ==>
        users.rows == old(users.rows)[u := old(users.rows)[u].(
          deletedAt := Some(now), deletionReason := if reason == "" then None else Some(reason),
          version := old(users.rows)[u].version + 1)]
      ensures u !in old(users.rows) || old(users.rows)[u].deletedAt.Some? ==> users.rows == old(users.rows)
      ensures forall i :: i in sessions <==> i in old(sessions) && old(sessions)[i].user != u
      ensures forall i :: i in sessions ==> sessions[i] == old(sessions)[i]
    {
      users.SoftDelete(u, reason, now);
      DeleteAllForUser(u);
    }

    /** Expired sessions go. */
    method CleanupSessions(now: int) returns (deleted: nat)
      modifies this`sessions
      ensures View(now) == Next(old(View(now)), Step.CleanupSessions)
      ensures deleted == |old(sessions)| - |sessions|
      ensures forall i :: i in sessions <==> i in old(sessions) && old(sessions)[i].expiresAt >= now
      ensures forall i :: i in sessions ==> sessions[i] == old(sessions)[i]
    {
      var kept := map i | i in sessions && sessions[i].expiresAt >= now :: sessions[i];
      assert |kept.Keys| + |sessions.Keys - kept.Keys| == |sessions.Keys|;
      deleted := |sessions| - |kept|;
      sessions := kept;
    }

    /** Users go, with their sessions and tokens; their reviews lose the author. */
    method DeleteUsers(gone: set<UserId>)
      modifies users, this`sessions, this`activationTokens, this`resetTokens, this`reviews
      ensures users.rows == Users.Apply(old(users.rows), Users.Remove(gone))
      ensures sessions == SessionsWithout(old(sessions), gone)
      ensures activationTokens == TokensWithout(old(activationTokens), gone)
      ensures resetTokens == TokensWithout(old(resetTokens), gone)
      ensures reviews == Ratings.WithoutAuthors(old(reviews), gone)
      ensures forall i :: i in sessions <==> i in old(sessions) && old(sessions)[i].user !in gone
      ensures forall i :: i in sessions ==> sessions[i] == old(sessions)[i]
    {
      users.rows := users.rows - gone;
      sessions := map i | i in sessions && sessions[i].user !in gone :: sessions[i];
      activationTokens := map h | h in activationTokens && activationTokens[h].user !in gone :: activationTokens[h];
      resetTokens := map h | h in resetTokens && resetTokens[h].user !in gone :: resetTokens[h];
      reviews := map r | r in reviews ::
        if reviews[r].author.Some? && reviews[r].author.value in gone then reviews[r].(author := None) else reviews[r];
    }

    /** The DELETE and its cascades, or the foreign key violation that undoes it. */
    method PurgeSoftDeleted(now: int) returns (purged: Option<nat>)
      modifies this, users
      ensures View(now) == Next(old(View(now)), Purge)
      ensures purged == if PurgeAborts(old(View(now))) then None else Some(|PurgeVictims(old(View(now)))|)
      ensures purged.Some? ==>
        && (forall u :: u in users.rows <==>
              && u in old(users.rows)
              && (old(users.rows)[u].deletedAt.None? || now - old(users.rows)[u].deletedAt.value <= 2_592_000_000_000))
        && (forall u :: u in users.rows ==> users.rows[u] == old(users.rows)[u])
      ensures purged.Some? ==>
        && (forall i :: i in sessions <==>
              && i in old(sessions)
              && (old(sessions)[i].user in users.rows || old(sessions)[i].user !in old(users.rows)))
        && (forall i :: i in sessions ==> sessions[i] == old(sessions)[i])
      ensures purged.None? ==> users.rows == old(users.rows) && sessions == old(sessions) && reviews == old(reviews)
    {
      var gone :=
        set u | u in users.rows && users.rows[u].deletedAt.Some? && users.rows[u].deletedAt.value < now - GRACE_PERIOD;
      ghost var before := View(now);
      assert gone == PurgeVictims(before);
      if j :| j in imports && imports[j] in gone {
        return None;
      }
      DeleteUsers(gone);
      return Some(|gone|);
    }

    // --- the session middleware, two statements outside of any transaction ---

    method ReadSession(c: ClientId, i: SessionId, now: int) returns (user: Option<UserId>)
      requires c !in requests
      modifies this`requests
      ensures View(now) == Next(old(View(now)), Step.ReadSession(c, i))
      ensures user == if OpenSession(View(now), i) then Some(sessions[i].user) else None
      ensures user == if i in sessions && sessions[i].expiresAt > now then Some(sessions[i].user) else None
    {
      var session := GetSession(i, now);
      if session.None? {
        return None;
      }
      requests := requests[c := session.value.user];
      return Some(session.value.user);
    }

    /**
      The lookup of the user already filters soft-deleted rows, so the session of a deleted
      account ends in a server error and is left in the table.
     */
    method LoadUser(c: ClientId, u: UserId, now: int) returns (a: SessionSafety.Admission)
      requires c in requests && requests[c] == u
      modifies this`requests
      ensures View(now) == Next(old(View(now)), Step.LoadUser(c))
      ensures a == SessionSafety.Answer(old(View(now)), u)
      ensures a == if u in users.rows && users.rows[u].deletedAt.None? then SessionSafety.Admitted(u)
                   else SessionSafety.ServerError
    {
      requests := requests - {c};
      var user := users.GetById(u);
      if user.None? {
        return SessionSafety.ServerError;
      }
      return SessionSafety.Admitted(u);
    }

    /** Both, with nothing in between. */
    method Authenticate(c: ClientId, i: SessionId, now: int) returns (a: SessionSafety.Admission)
      requires c !in requests
      modifies this`requests
      ensures View(now) == old(View(now))
      ensures a == SessionSafety.Authenticate(View(now), i)
      ensures a == if i !in sessions || sessions[i].expiresAt <= now then SessionSafety.Anonymous
                   else if sessions[i].user in users.rows && users.rows[sessions[i].user].deletedAt.None?
                   then SessionSafety.Admitted(sessions[i].user)
                   else SessionSafety.ServerError
    {
      var user := ReadSession(c, i, now);
      if user.None? {
        return SessionSafety.Anonymous;
      }
      a := LoadUser(c, user.value, now);
      assert requests == old(requests);
    }
  }
}
