/**
  Accounts over time: sign-up, login, tokens, sessions, soft deletion and purge
  (internal/app/auth.go, internal/app/middleware.go, internal/data/session.go,
  internal/data/tokens.go, internal/data/users.go, internal/worker/cron.go).

  Every transaction body is one atomic step on the tables. What the code does outside of a
  transaction and later relies on is in steps of its own: login reads the user before its
  transaction, and the session middleware reads the session and then the user. The lookup
  of a forgotten password and the check of the current one before a change or a deletion
  leave nothing behind but the step itself, which may come at any time after them.
  A token is named by its hash; token hashes and ids are never drawn twice.
 */
module Accounts {
  import opened Common
  import Users
  import Ratings

  type UserId = nat
  type SessionId = nat
  type Hash = nat
  type ReviewId = nat
  type JobId = nat
  type ClientId = nat

  const HOUR: int := 3_600_000_000
  const SESSION_TTL: int := 7 * 24 * HOUR
  const ACTIVATION_TTL: int := 24 * HOUR
  const RESET_TTL: int := HOUR
  const GRACE_PERIOD: int := 30 * 24 * HOUR

  datatype Session = Session(user: UserId, createdAt: int, expiresAt: int)

  datatype Token = Token(user: UserId, expiresAt: int)

  datatype Scope = Activation | PasswordReset

  /** What a login remembers of the row it read; it matched the password against `hash`. */
  datatype LoginRead = LoginRead(user: UserId, wasDeleted: bool, hash: Option<string>)

  /** All ids ever drawn; of each session also the password hash its login was matched against. */
  datatype Used = Used(users: set<UserId>, sessions: map<SessionId, Option<string>>, hashes: set<Hash>)

  datatype Db = Db(
    now: int,
    users: Users.Table,
    sessions: map<SessionId, Session>,
    activationTokens: map<Hash, Token>,
    resetTokens: map<Hash, Token>,
    reviews: map<ReviewId, Ratings.Review>,
    imports: map<JobId, UserId>,
    logins: map<ClientId, LoginRead>,
    requests: map<ClientId, UserId>,
    used: Used)

  // ---------------------------------------------------------------------
  // Statements.
  // ---------------------------------------------------------------------

  function SessionsWithout(sessions: map<SessionId, Session>, gone: set<UserId>): map<SessionId, Session> {
    map i | i in sessions && sessions[i].user !in gone :: sessions[i]
  }

  function TokensWithout(tokens: map<Hash, Token>, gone: set<UserId>): map<Hash, Token> {
    map h | h in tokens && tokens[h].user !in gone :: tokens[h]
  }

  function Ttl(scope: Scope): int {
    match scope
    case Activation => ACTIVATION_TTL
    case PasswordReset => RESET_TTL
  }

  function TokensOf(s: Db, scope: Scope): map<Hash, Token> {
    match scope
    case Activation => s.activationTokens
    case PasswordReset => s.resetTokens
  }

  function WithTokens(s: Db, scope: Scope, tokens: map<Hash, Token>): Db {
    match scope
    case Activation => s.(activationTokens := tokens)
    case PasswordReset => s.(resetTokens := tokens)
  }

  /** The user a token stands for, unless it is unknown or expired. */
  function Resolve(s: Db, scope: Scope, h: Hash): Option<UserId> {
    var tokens := TokensOf(s, scope);
    if h in tokens && tokens[h].expiresAt > s.now then Some(tokens[h].user) else None
  }

  /** Replace the user's token of a scope; the foreign key refuses unknown users. */
  function Issued(s: Db, scope: Scope, u: UserId, h: Hash): Db {
    if u !in s.users then s
    else
      WithTokens(s, scope, TokensWithout(TokensOf(s, scope), {u})[h := Token(u, s.now + Ttl(scope))])
        .(used := s.used.(hashes := s.used.hashes + {h}))
  }

  function LoggedIn(s: Db, read: LoginRead, i: SessionId): Db {
    if read.user !in s.users then s
    else s.(users := if read.wasDeleted then Users.Apply(s.users, Users.Restore(read.user)) else s.users,
            sessions := s.sessions[i := Session(read.user, s.now, s.now + SESSION_TTL)],
            used := s.used.(sessions := s.used.sessions[i := read.hash]))
  }

  function ReadOf(s: Db, u: UserId): LoginRead
    requires u in s.users
  {
    LoginRead(u, s.users[u].deletedAt.Some?, s.users[u].passwordHash)
  }

  /** A session that is there and has not expired. */
  predicate OpenSession(s: Db, i: SessionId) {
    i in s.sessions && s.sessions[i].expiresAt > s.now
  }

  function PurgeVictims(s: Db): set<UserId> {
    set u | u in s.users && s.users[u].deletedAt.Some? && s.users[u].deletedAt.value < s.now - GRACE_PERIOD
  }

  /** A victim that owns an import job makes the whole DELETE fail: the column cannot be null. */
  predicate PurgeAborts(s: Db) {
    exists j :: j in s.imports && s.imports[j] in PurgeVictims(s)
  }

  function Purged(s: Db): Db {
    if PurgeAborts(s) then s
    else
      var gone := PurgeVictims(s);
      s.(users := Users.Apply(s.users, Users.Remove(gone)),
         sessions := SessionsWithout(s.sessions, gone),
         activationTokens := TokensWithout(s.activationTokens, gone),
         resetTokens := TokensWithout(s.resetTokens, gone),
         reviews := Ratings.WithoutAuthors(s.reviews, gone))
  }

  // ---------------------------------------------------------------------
  // Steps.
  // ---------------------------------------------------------------------

  datatype Step =
    | Tick(delta: nat)
    | SignUp(u: UserId, account: Users.Account, token: Option<Hash>, i: SessionId)
    | ReadLogin(c: ClientId, u: UserId)
    | CommitLogin(c: ClientId, i: SessionId)
    | SignIn(u: UserId, i: SessionId)  // a login whose two parts nothing comes between
    | ReadSession(c: ClientId, i: SessionId)
    | LoadUser(c: ClientId)
    | Issue(scope: Scope, u: UserId, h: Hash)
    | VerifyEmail(h: Hash)
    | ResetPassword(h: Hash, password: string)
    | ChangePassword(u: UserId, keep: SessionId, password: string)
    | DeleteAccount(u: UserId, reason: string)
    | Logout(i: SessionId)
    | PatchProfile(u: UserId, input: Users.ProfileInput)
    | MarkEmail(email: string, status: Users.EmailStatus)
    | CleanupSessions
    | Purge
    | StartImport(j: JobId, u: UserId)
    | WriteReview(r: ReviewId, review: Ratings.Review)

  predicate Enabled(s: Db, step: Step) {
    match step
    case SignUp(u, _, token, i) =>
      u !in s.used.users && i !in s.used.sessions && (token.Some? ==> token.value !in s.used.hashes)
    case ReadLogin(c, u) => c !in s.logins && u in s.users
    case CommitLogin(c, i) => c in s.logins && i !in s.used.sessions
    case SignIn(u, i) => u in s.users && i !in s.used.sessions
    case ReadSession(c, _) => c !in s.requests
    case LoadUser(c) => c in s.requests
    case Issue(_, _, h) => h !in s.used.hashes
    case StartImport(j, u) => j !in s.imports && u in s.users
    case WriteReview(_, review) => review.author.Some? ==> review.author.value in s.users
    case _ => true
  }

  /** Insert the user, issue the activation token if any, open the first session. */
  function SignedUp(s: Db, u: UserId, account: Users.Account, token: Option<Hash>, i: SessionId): Db {
    if Users.EmailTaken(s.users, account.email) then s
    else
      s.(users := s.users[u := Users.NewUser(account)],
         activationTokens :=
           if token.Some? then TokensWithout(s.activationTokens, {u})[token.value := Token(u, s.now + ACTIVATION_TTL)]
           else s.activationTokens,
         sessions := s.sessions[i := Session(u, s.now, s.now + SESSION_TTL)],
         used := Used(s.used.users + {u}, s.used.sessions[i := account.passwordHash],
                      if token.Some? then s.used.hashes + {token.value} else s.used.hashes))
  }

  /** Activation of a soft-deleted user is rolled back: the user cannot be loaded afterwards. */
  function Verified(s: Db, h: Hash): Db {
    var u := Resolve(s, Activation, h);
    if u.None? || u.value !in s.users || s.users[u.value].deletedAt.Some? then s
    else s.(users := Users.Apply(s.users, Users.Activate(u.value)),
            activationTokens := TokensWithout(s.activationTokens, {u.value}))
  }

  function PasswordWasReset(s: Db, h: Hash, password: string): Db {
    var u := Resolve(s, PasswordReset, h);
    if u.None? then s
    else s.(users := Users.Apply(s.users, Users.SetPassword(u.value, password)),
            resetTokens := TokensWithout(s.resetTokens, {u.value}),
            sessions := SessionsWithout(s.sessions, {u.value}))
  }

  function Next(s: Db, step: Step): Db
    requires Enabled(s, step)
  {
    match step
    case Tick(delta) => s.(now := s.now + delta)
    case SignUp(u, account, token, i) => SignedUp(s, u, account, token, i)
    case ReadLogin(c, u) => s.(logins := s.logins[c := ReadOf(s, u)])
    case CommitLogin(c, i) => LoggedIn(s, s.logins[c], i).(logins := s.logins - {c})
    case SignIn(u, i) => LoggedIn(s, ReadOf(s, u), i)
    case ReadSession(c, i) => if OpenSession(s, i) then s.(requests := s.requests[c := s.sessions[i].user]) else s
    case LoadUser(c) => s.(requests := s.requests - {c})
    case Issue(scope, u, h) => Issued(s, scope, u, h)
    case VerifyEmail(h) => Verified(s, h)
    case ResetPassword(h, password) => PasswordWasReset(s, h, password)
    case ChangePassword(u, keep, password) =>
      s.(users := Users.Apply(s.users, Users.SetPassword(u, password)),
         sessions := map i | i in s.sessions && (s.sessions[i].user != u || i == keep) :: s.sessions[i])
    case DeleteAccount(u, reason) =>
      s.(users := Users.Apply(s.users, Users.SoftDelete(u, reason, s.now)),
         sessions := SessionsWithout(s.sessions, {u}))
    case Logout(i) => s.(sessions := s.sessions - {i})
    case PatchProfile(u, input) => s.(users := Users.Apply(s.users, Users.Patch(u, input)))
    case MarkEmail(email, status) => s.(users := Users.Apply(s.users, Users.MarkEmail(email, status)))
    case CleanupSessions => s.(sessions := map i | i in s.sessions && s.sessions[i].expiresAt >= s.now :: s.sessions[i])
    case Purge => Purged(s)
    case StartImport(j, u) => s.(imports := s.imports[j := u])
    case WriteReview(r, review) => s.(reviews := s.reviews[r := review])
  }

  ghost predicate ValidRun(s: Db, steps: seq<Step>)
    decreases |steps|
  {
    steps == [] || (Enabled(s, steps[0]) && ValidRun(Next(s, steps[0]), steps[1..]))
  }

  ghost function Final(s: Db, steps: seq<Step>): Db
    requires ValidRun(s, steps)
    decreases |steps|
  {
    if steps == [] then s else Final(Next(s, steps[0]), steps[1..])
  }

  const EMPTY_DB := Db(0, map[], map[], map[], map[], map[], map[], map[], map[], Used({}, map[], {}))

  lemma {:induction false} RunOneMore(s: Db, steps: seq<Step>, step: Step)
    requires ValidRun(s, steps) && Enabled(Final(s, steps), step)
    ensures ValidRun(s, steps + [step]) && Final(s, steps + [step]) == Next(Final(s, steps), step)
    decreases |steps|
  {
    if steps == [] {
      var s' := Next(s, step);
      assert [] + [step] == [step] && [step][1..] == [];
      assert ValidRun(s', []) && Final(s', []) == s';
    } else {
      RunOneMore(Next(s, steps[0]), steps[1..], step);
      assert (steps + [step])[1..] == steps[1..] + [step];
    }
  }

  // ---------------------------------------------------------------------
  // What every step keeps.
  // ---------------------------------------------------------------------

  /** At most one token per user. */
  ghost predicate OneEach(tokens: map<Hash, Token>) {
    forall g, h :: g in tokens && h in tokens && tokens[g].user == tokens[h].user ==> g == h
  }

  ghost predicate TokensInv(tokens: map<Hash, Token>, users: Users.Table, used: set<Hash>) {
    && OneEach(tokens)
    && (forall h :: h in tokens ==> h in used && tokens[h].user in users)
  }

  ghost predicate SessionsInv(s: Db) {
    forall i :: i in s.sessions ==>
      i in s.used.sessions && s.sessions[i].user in s.users && s.sessions[i].createdAt <= s.now
  }

  ghost predicate UsersInv(s: Db) {
    && s.users.Keys <= s.used.users
    && Users.EmailsUnique(s.users)
    && forall u :: u in s.users && s.users[u].deletedAt.Some? ==> s.users[u].deletedAt.value <= s.now
  }

  ghost predicate OwnersInv(s: Db) {
    && (forall j :: j in s.imports ==> s.imports[j] in s.users)
    && (forall r :: r in s.reviews && s.reviews[r].author.Some? ==> s.reviews[r].author.value in s.users)
  }

  ghost predicate PendingInv(s: Db) {
    && (forall c :: c in s.requests ==> s.requests[c] in s.used.users)
    && (forall c :: c in s.logins ==> s.logins[c].user in s.used.users)
  }

  /** Unique emails, no dangling reference in any table, and one token per user and scope. */
  ghost predicate Inv(s: Db) {
    && UsersInv(s)
    && SessionsInv(s)
    && TokensInv(s.activationTokens, s.users, s.used.hashes)
    && TokensInv(s.resetTokens, s.users, s.used.hashes)
    && OwnersInv(s)
    && PendingInv(s)
  }

  lemma RewriteKeepsInv(s: Db, op: Users.Op)
    requires Inv(s) && !op.Insert? && !op.Remove? && (op.SoftDelete? ==> op.now == s.now)
    ensures Inv(s.(users := Users.Apply(s.users, op)))
    ensures Users.Apply(s.users, op).Keys == s.users.Keys
  {
    var users := Users.Apply(s.users, op);
    Users.ApplyKeepsEmailsUnique(s.users, op);
    Users.RewriteKeepsRows(s.users, op);
    forall v | v in users && users[v].deletedAt.Some? ensures users[v].deletedAt.value <= s.now {
      RewriteMarks(s.users, op, v);
    }
    OtherUsersKeepInv(s, users);
  }

  lemma OtherUsersKeepInv(s: Db, users: Users.Table)
    requires Inv(s) && users.Keys == s.users.Keys && Users.EmailsUnique(users)
    requires forall v :: v in users && users[v].deletedAt.Some? ==> users[v].deletedAt.value <= s.now
    ensures Inv(s.(users := users))
  {
  }

  ghost predicate SubMap<K, V>(a: map<K, V>, b: map<K, V>) {
    a.Keys <= b.Keys && forall k :: k in a ==> a[k] == b[k]
  }

  lemma FewerSessionsKeepInv(s: Db, sessions: map<SessionId, Session>)
    requires Inv(s) && SubMap(sessions, s.sessions)
    ensures Inv(s.(sessions := sessions))
  {
  }

  lemma FewerTokensKeepInv(s: Db, scope: Scope, tokens: map<Hash, Token>)
    requires Inv(s) && SubMap(tokens, TokensOf(s, scope))
    ensures Inv(WithTokens(s, scope, tokens))
  {
  }

  lemma LoginKeepsInv(s: Db, read: LoginRead, i: SessionId)
    requires Inv(s) && i !in s.used.sessions
    ensures Inv(LoggedIn(s, read, i))
  {
    var u := read.user;
    if u in s.users && read.wasDeleted {
      RewriteKeepsInv(s, Users.Restore(u));
      SessionAddedKeepsInv(s.(users := Users.Apply(s.users, Users.Restore(u))), u, i, read.hash);
    } else if u in s.users {
      SessionAddedKeepsInv(s, u, i, read.hash);
    }
  }

  lemma SessionAddedKeepsInv(s: Db, u: UserId, i: SessionId, hash: Option<string>)
    requires Inv(s) && u in s.users
    ensures Inv(s.(sessions := s.sessions[i := Session(u, s.now, s.now + SESSION_TTL)],
                   used := s.used.(sessions := s.used.sessions[i := hash])))
  {
  }

  lemma TokenAddedKeepsInv(tokens: map<Hash, Token>, users: Users.Table, used: set<Hash>, u: UserId, h: Hash, t: Token)
    requires TokensInv(tokens, users, used) && u in users && t.user == u
    ensures TokensInv(TokensWithout(tokens, {u})[h := t], users, used + {h})
  {
  }

  lemma IssueKeepsInv(s: Db, scope: Scope, u: UserId, h: Hash)
    requires Inv(s) && h !in s.used.hashes
    ensures Inv(Issued(s, scope, u, h))
  {
    if u in s.users {
      TokenAddedKeepsInv(TokensOf(s, scope), s.users, s.used.hashes, u, h, Token(u, s.now + Ttl(scope)));
      OtherTokensKeepInv(s, scope, TokensOf(Issued(s, scope, u, h), scope), s.used.hashes + {h});
    }
  }

  lemma OtherTokensKeepInv(s: Db, scope: Scope, tokens: map<Hash, Token>, hashes: set<Hash>)
    requires Inv(s) && TokensInv(tokens, s.users, hashes) && s.used.hashes <= hashes
    ensures Inv(WithTokens(s, scope, tokens).(used := s.used.(hashes := hashes)))
  {
  }

  lemma InsertKeepsInv(s: Db, u: UserId, account: Users.Account)
    requires Inv(s) && u !in s.used.users && !Users.EmailTaken(s.users, account.email)
    ensures Inv(s.(users := Users.Apply(s.users, Users.Insert(u, account)),
                   used := s.used.(users := s.used.users + {u})))
  {
    Users.ApplyKeepsEmailsUnique(s.users, Users.Insert(u, account));
  }

  lemma SignUpKeepsTokens(s: Db, u: UserId, account: Users.Account, token: Option<Hash>, i: SessionId)
    requires Inv(s) && u !in s.used.users && !Users.EmailTaken(s.users, account.email)
    ensures var s' := SignedUp(s, u, account, token, i);
            TokensInv(s'.activationTokens, s'.users, s'.used.hashes) &&
            TokensInv(s'.resetTokens, s'.users, s'.used.hashes)
  {
    var users := s.users[u := Users.NewUser(account)];
    assert TokensInv(s.activationTokens, users, s.used.hashes);
    if token.Some? {
      TokenAddedKeepsInv(s.activationTokens, users, s.used.hashes, u, token.value, Token(u, s.now + ACTIVATION_TTL));
    }
  }

  lemma SignUpKeepsInv(s: Db, u: UserId, account: Users.Account, token: Option<Hash>, i: SessionId)
    requires Inv(s) && Enabled(s, SignUp(u, account, token, i))
    ensures Inv(SignedUp(s, u, account, token, i))
  {
    if !Users.EmailTaken(s.users, account.email) {
      InsertKeepsInv(s, u, account);
      SignUpKeepsTokens(s, u, account, token, i);
    }
  }

  /** The foreign keys leave nothing dangling: sessions and tokens go with their user, reviews stay. */
  lemma PurgeKeepsInv(s: Db)
    requires Inv(s)
    ensures Inv(Purged(s))
  {
    if !PurgeAborts(s) {
      var gone := PurgeVictims(s);
      var s' := Purged(s);
      assert TokensInv(s'.activationTokens, s'.users, s'.used.hashes);
      assert TokensInv(s'.resetTokens, s'.users, s'.used.hashes);
      assert forall j :: j in s.imports ==> s.imports[j] !in gone;
      assert OwnersInv(s');
    }
  }

  lemma VerifyKeepsInv(s: Db, h: Hash)
    requires Inv(s)
    ensures Inv(Verified(s, h))
  {
    var u := Resolve(s, Activation, h);
    if u.Some? {
      RewriteKeepsInv(s, Users.Activate(u.value));
      FewerTokensKeepInv(s.(users := Users.Apply(s.users, Users.Activate(u.value))), Activation,
                          TokensWithout(s.activationTokens, {u.value}));
    }
  }

  lemma ResetKeepsInv(s: Db, h: Hash, password: string)
    requires Inv(s)
    ensures Inv(PasswordWasReset(s, h, password))
  {
    var u := Resolve(s, PasswordReset, h);
    if u.Some? {
      RewriteKeepsInv(s, Users.SetPassword(u.value, password));
      var s1 := s.(users := Users.Apply(s.users, Users.SetPassword(u.value, password)));
      FewerTokensKeepInv(s1, PasswordReset, TokensWithout(s.resetTokens, {u.value}));
      FewerSessionsKeepInv(s1.(resetTokens := TokensWithout(s.resetTokens, {u.value})),
                            SessionsWithout(s.sessions, {u.value}));
    }
  }

  /** A write to user rows, then the deletion of some sessions. */
  lemma RewriteAndRevokeKeepInv(s: Db, op: Users.Op, sessions: map<SessionId, Session>)
    requires Inv(s) && !op.Insert? && !op.Remove? && (op.SoftDelete? ==> op.now == s.now)
    requires SubMap(sessions, s.sessions)
    ensures Inv(s.(users := Users.Apply(s.users, op), sessions := sessions))
  {
    RewriteKeepsInv(s, op);
    FewerSessionsKeepInv(s.(users := Users.Apply(s.users, op)), sessions);
  }

  lemma PlainStepKeepsInv(s: Db, step: Step)
    requires Inv(s) && Enabled(s, step)
    requires step.Tick? || step.ReadLogin? || step.ReadSession? ||
             step.LoadUser? || step.StartImport? || step.WriteReview?
    ensures Inv(Next(s, step))
  {
    if step.ReadLogin? || step.ReadSession? || step.LoadUser? {
      ReadingKeepsInv(s, step);
    }
  }

  lemma ReadingKeepsInv(s: Db, step: Step)
    requires Inv(s) && Enabled(s, step) && (step.ReadLogin? || step.ReadSession? || step.LoadUser?)
    ensures Inv(Next(s, step))
  {
    var s' := Next(s, step);
    OtherPendingKeepInv(s, s'.logins, s'.requests);
    assert s' == s.(logins := s'.logins, requests := s'.requests);
  }

  lemma OtherPendingKeepInv(s: Db, logins: map<ClientId, LoginRead>, requests: map<ClientId, UserId>)
    requires Inv(s) && PendingInv(s.(logins := logins, requests := requests))
    ensures Inv(s.(logins := logins, requests := requests))
  {
  }

  lemma CompoundKeepsInv(s: Db, step: Step)
    requires Inv(s) && Enabled(s, step) && Compound(step)
    ensures Inv(Next(s, step))
  {
    match step
    case SignUp(u, account, token, i) => SignUpKeepsInv(s, u, account, token, i);
    case CommitLogin(c, i) => CommitKeepsInv(s, c, i);
    case SignIn(u, i) => LoginKeepsInv(s, ReadOf(s, u), i);
    case Issue(scope, u, h) => IssueKeepsInv(s, scope, u, h);
    case VerifyEmail(h) => VerifyKeepsInv(s, h);
    case ResetPassword(h, password) => ResetKeepsInv(s, h, password);
    case Purge => PurgeKeepsInv(s);
  }

  lemma CommitKeepsInv(s: Db, c: ClientId, i: SessionId)
    requires Inv(s) && c in s.logins && i !in s.used.sessions
    ensures Inv(LoggedIn(s, s.logins[c], i).(logins := s.logins - {c}))
  {
    LoginKeepsInv(s, s.logins[c], i);
  }

  lemma FlatStepKeepsInv(s: Db, step: Step)
    requires Inv(s) && Enabled(s, step) && !Compound(step)
    ensures Inv(Next(s, step))
  {
    match step
    case ChangePassword(u, _, password) =>
      RewriteAndRevokeKeepInv(s, Users.SetPassword(u, password), Next(s, step).sessions);
    case DeleteAccount(u, reason) =>
      RewriteAndRevokeKeepInv(s, Users.SoftDelete(u, reason, s.now), Next(s, step).sessions);
    case Logout(i) => FewerSessionsKeepInv(s, Next(s, step).sessions);
    case PatchProfile(u, input) => RewriteKeepsInv(s, Users.Patch(u, input));
    case MarkEmail(email, status) => RewriteKeepsInv(s, Users.MarkEmail(email, status));
    case CleanupSessions => FewerSessionsKeepInv(s, Next(s, step).sessions);
    case _ => PlainStepKeepsInv(s, step);
  }

  lemma StepKeepsInv(s: Db, step: Step)
    requires Inv(s) && Enabled(s, step)
    ensures Inv(Next(s, step))
  {
    if Compound(step) {
      CompoundKeepsInv(s, step);
    } else {
      FlatStepKeepsInv(s, step);
    }
  }

  lemma {:induction false} InvAlways(s: Db, steps: seq<Step>)
    requires Inv(s) && ValidRun(s, steps)
    ensures Inv(Final(s, steps))
    decreases |steps|
  {
    if steps != [] {
      StepKeepsInv(s, steps[0]);
      InvAlways(Next(s, steps[0]), steps[1..]);
    }
  }

  // ---------------------------------------------------------------------
  // What single steps do to deletion marks and sessions.
  // ---------------------------------------------------------------------

  /** A login that clears the deletion mark of `u`. */
  predicate Restores(s: Db, step: Step, u: UserId) {
    || (step.CommitLogin? && step.c in s.logins &&
        s.logins[step.c].user == u && s.logins[step.c].wasDeleted && u in s.users)
    || (step.SignIn? && step.u == u && u in s.users && s.users[u].deletedAt.Some?)
  }

  predicate Deletes(s: Db, step: Step, u: UserId) {
    step.DeleteAccount? && step.u == u && u in s.users && s.users[u].deletedAt.None?
  }

  lemma LoginMarks(s: Db, read: LoginRead, i: SessionId, v: UserId)
    requires v in s.users
    ensures v in LoggedIn(s, read, i).users
    ensures LoggedIn(s, read, i).users[v].deletedAt
         == if read.wasDeleted && v == read.user then None else s.users[v].deletedAt
    ensures LoggedIn(s, read, i).users.Keys == s.users.Keys
  {
    if read.user in s.users && read.wasDeleted {
      RewriteMarks(s.users, Users.Restore(read.user), v);
      Users.RewriteKeepsRows(s.users, Users.Restore(read.user));
    }
  }

  lemma SignUpMarks(s: Db, step: Step, v: UserId)
    requires Inv(s) && Enabled(s, step) && step.SignUp?
    ensures v in s.users ==> v in Next(s, step).users && Next(s, step).users[v].deletedAt == s.users[v].deletedAt
    ensures v in Next(s, step).users && v !in s.users ==> v == step.u && Next(s, step).users[v].deletedAt.None?
  {
  }

  lemma RewriteMarks(users: Users.Table, op: Users.Op, v: UserId)
    requires v in users && !op.Insert? && !op.Remove?
    ensures v in Users.Apply(users, op)
    ensures Users.Apply(users, op)[v].deletedAt
         == if op.SoftDelete? && op.id == v && users[v].deletedAt.None? then Some(op.now)
            else if op.Restore? && op.id == v then None
            else users[v].deletedAt
  {
  }

  predicate Enters(step: Step) {
    step.SignUp? || step.CommitLogin? || step.SignIn?
  }

  // What the compound steps leave alone.

  ghost predicate SameBystanders(s: Db, s': Db) {
    s'.now == s.now && s'.logins == s.logins && s'.requests == s.requests && s'.imports == s.imports
  }

  lemma IssuedFrame(s: Db, scope: Scope, u: UserId, h: Hash)
    ensures var s' := Issued(s, scope, u, h);
            && SameBystanders(s, s') && s'.users == s.users && s'.sessions == s.sessions && s'.reviews == s.reviews
            && s'.used.users == s.used.users && s'.used.sessions == s.used.sessions && s.used.hashes <= s'.used.hashes
  {
  }

  lemma VerifiedFrame(s: Db, h: Hash)
    ensures var s' := Verified(s, h);
            && SameBystanders(s, s') && s'.sessions == s.sessions && s'.resetTokens == s.resetTokens
            && s'.reviews == s.reviews && s'.used == s.used
  {
  }

  lemma ResetFrame(s: Db, h: Hash, password: string)
    ensures var s' := PasswordWasReset(s, h, password);
            SameBystanders(s, s') && s'.activationTokens == s.activationTokens &&
            s'.reviews == s.reviews && s'.used == s.used
  {
  }

  lemma PurgedFrame(s: Db)
    ensures SameBystanders(s, Purged(s)) && Purged(s).used == s.used
  {
  }

  lemma SignUpFrame(s: Db, u: UserId, account: Users.Account, token: Option<Hash>, i: SessionId)
    ensures var s' := SignedUp(s, u, account, token, i);
            && SameBystanders(s, s') && s'.resetTokens == s.resetTokens && s'.reviews == s.reviews
            && s.used.users <= s'.used.users && s.used.hashes <= s'.used.hashes
            && (i !in s.used.sessions ==> SubMap(s.used.sessions, s'.used.sessions))
  {
  }

  lemma LoggedInFrame(s: Db, read: LoginRead, i: SessionId)
    ensures var s' := LoggedIn(s, read, i);
            && SameBystanders(s, s') && s'.activationTokens == s.activationTokens && s'.resetTokens == s.resetTokens
            && s'.reviews == s.reviews && s'.used.users == s.used.users && s'.used.hashes == s.used.hashes
            && (i !in s.used.sessions ==> SubMap(s.used.sessions, s'.used.sessions))
  {
  }

  predicate Compound(step: Step) {
    Enters(step) || step.Issue? || step.VerifyEmail? || step.ResetPassword? || step.Purge?
  }

  /** Logins and requests under way change only by their own steps, imports by starting one. */
  lemma CompoundFrame(s: Db, step: Step)
    requires Enabled(s, step) && Compound(step)
    ensures var s' := Next(s, step);
            && s'.now == s.now && s'.requests == s.requests && s'.imports == s.imports
            && s'.logins == (if step.CommitLogin? then s.logins - {step.c} else s.logins)
            && s.used.users <= s'.used.users && s.used.hashes <= s'.used.hashes
            && SubMap(s.used.sessions, s'.used.sessions)
  {
    match step
    case SignUp(u, account, token, i) => SignUpFrame(s, u, account, token, i);
    case CommitLogin(c, i) => LoggedInFrame(s, s.logins[c], i);
    case SignIn(u, i) => LoggedInFrame(s, ReadOf(s, u), i);
    case Issue(scope, u, h) => IssuedFrame(s, scope, u, h);
    case VerifyEmail(h) => VerifiedFrame(s, h);
    case ResetPassword(h, password) => ResetFrame(s, h, password);
    case Purge => PurgedFrame(s);
  }

  /** The statement by which a step rewrites user rows in place, if it is one that does. */
  function RewriteOf(s: Db, step: Step): Option<Users.Op> {
    match step
    case VerifyEmail(h) =>
      var u := Resolve(s, Activation, h);
      if u.None? || u.value !in s.users || s.users[u.value].deletedAt.Some? then None else Some(Users.Activate(u.value))
    case ResetPassword(h, password) =>
      var u := Resolve(s, PasswordReset, h);
      if u.None? then None else Some(Users.SetPassword(u.value, password))
    case ChangePassword(u, _, password) => Some(Users.SetPassword(u, password))
    case DeleteAccount(u, reason) => Some(Users.SoftDelete(u, reason, s.now))
    case PatchProfile(u, input) => Some(Users.Patch(u, input))
    case MarkEmail(email, status) => Some(Users.MarkEmail(email, status))
    case _ => None
  }

  lemma UsersAfter(s: Db, step: Step)
    requires Enabled(s, step) && !Enters(step) && !step.Purge?
    ensures Next(s, step).users
         == (if RewriteOf(s, step).Some? then Users.Apply(s.users, RewriteOf(s, step).value) else s.users)
  {
    if step.Issue? {
      IssuedFrame(s, step.scope, step.u, step.h);
    } else if !step.VerifyEmail? && !step.ResetPassword? {
      FlatUsersAfter(s, step);
    }
  }

  lemma FlatUsersAfter(s: Db, step: Step)
    requires Enabled(s, step) && !Compound(step)
    ensures Next(s, step).users
         == (if RewriteOf(s, step).Some? then Users.Apply(s.users, RewriteOf(s, step).value) else s.users)
  {
  }

  lemma EnterMarks(s: Db, step: Step, v: UserId)
    requires Inv(s) && Enabled(s, step) && v in s.users && Enters(step)
    ensures v in Next(s, step).users
    ensures Next(s, step).users[v].deletedAt == if Restores(s, step, v) then None else s.users[v].deletedAt
  {
    match step
    case SignUp(_, _, _, _) => SignUpMarks(s, step, v);
    case CommitLogin(c, i) => LoginMarks(s, s.logins[c], i, v);
    case SignIn(u, i) => LoginMarks(s, ReadOf(s, u), i, v);
  }

  lemma RewritingMarks(s: Db, step: Step, v: UserId)
    requires Enabled(s, step) && v in s.users && !Enters(step) && !step.Purge?
    ensures v in Next(s, step).users
    ensures Next(s, step).users[v].deletedAt == if Deletes(s, step, v) then Some(s.now) else s.users[v].deletedAt
  {
    UsersAfter(s, step);
    if RewriteOf(s, step).Some? {
      RewriteMarks(s.users, RewriteOf(s, step).value, v);
    }
  }

  lemma RewriteHash(users: Users.Table, op: Users.Op, v: UserId)
    requires v in users && !op.Insert? && !op.Remove?
    ensures v in Users.Apply(users, op)
    ensures Users.Apply(users, op)[v].passwordHash
         == if op.SetPassword? && op.id == v then Some(op.hash) else users[v].passwordHash
  {
  }

  lemma EnterHash(s: Db, step: Step, v: UserId)
    requires Inv(s) && Enabled(s, step) && Enters(step) && v in s.users
    ensures v in Next(s, step).users && Next(s, step).users[v].passwordHash == s.users[v].passwordHash
  {
    EnterMarks(s, step, v);
    if step.CommitLogin? && s.logins[step.c].user in s.users {
      RewriteHash(s.users, Users.Restore(s.logins[step.c].user), v);
    } else if step.SignIn? {
      RewriteHash(s.users, Users.Restore(step.u), v);
    }
  }

  /** Deletion marks move only by a deletion of a live account or a restoring login. */
  lemma DeletionMark(s: Db, step: Step, v: UserId)
    requires Inv(s) && Enabled(s, step) && v in s.users && v in Next(s, step).users
    ensures Next(s, step).users[v].deletedAt
         == if Deletes(s, step, v) then Some(s.now) else if Restores(s, step, v) then None else s.users[v].deletedAt
  {
    if Enters(step) {
      EnterMarks(s, step, v);
    } else if !step.Purge? {
      RewritingMarks(s, step, v);
    }
  }

  /** Only a purge removes users, and it removes all of its victims or nobody. */
  lemma UsersKept(s: Db, step: Step, v: UserId)
    requires Inv(s) && Enabled(s, step) && v in s.users
    ensures v in Next(s, step).users <==> !(step.Purge? && !PurgeAborts(s) && v in PurgeVictims(s))
  {
    if Enters(step) {
      EnterMarks(s, step, v);
    } else if !step.Purge? {
      RewritingMarks(s, step, v);
    }
  }

  lemma UsersOnlyGo(s: Db, step: Step)
    requires Enabled(s, step) && !step.SignUp?
    ensures Next(s, step).users.Keys <= s.users.Keys
  {
    if step.CommitLogin? && s.logins[step.c].user in s.users {
      LoginMarks(s, s.logins[step.c], step.i, s.logins[step.c].user);
    } else if step.SignIn? {
      LoginMarks(s, ReadOf(s, step.u), step.i, step.u);
    } else if !Enters(step) && !step.Purge? {
      UsersAfter(s, step);
      RewriteIsNoInsert(s, step);
    }
  }

  lemma RewriteIsNoInsert(s: Db, step: Step)
    ensures RewriteOf(s, step).Some? ==>
      !RewriteOf(s, step).value.Insert? && !RewriteOf(s, step).value.Remove?
      && Users.Apply(s.users, RewriteOf(s, step).value).Keys == s.users.Keys
  {
    if RewriteOf(s, step).Some? {
      Users.RewriteKeepsRows(s.users, RewriteOf(s, step).value);
    }
  }

  /** The user a step opens a session for, if it does. */
  function OpensFor(s: Db, step: Step): Option<UserId> {
    match step
    case SignUp(u, account, _, _) => if Users.EmailTaken(s.users, account.email) then None else Some(u)
    case CommitLogin(c, _) => if c in s.logins && s.logins[c].user in s.users then Some(s.logins[c].user) else None
    case SignIn(u, _) => if u in s.users then Some(u) else None
    case _ => None
  }

  /** A session in the table was there before, or was opened by this very step. */
  lemma SessionOrigin(s: Db, step: Step, i: SessionId)
    requires Enabled(s, step) && i in Next(s, step).sessions
    ensures var x := Next(s, step).sessions[i];
            || (i in s.sessions && x == s.sessions[i])
            || (OpensFor(s, step) == Some(x.user) && i == step.i && x.createdAt == s.now && i !in s.used.sessions)
  {
    if !Enters(step) {
      SessionsOnlyGo(s, step);
    }
  }

  lemma SessionsOnlyGo(s: Db, step: Step)
    requires Enabled(s, step) && !Enters(step)
    ensures SubMap(Next(s, step).sessions, s.sessions)
  {
    if !Revokes(step) {
      SessionsStay(s, step);
    }
  }

  predicate Revokes(step: Step) {
    step.ResetPassword? || step.ChangePassword? || step.DeleteAccount? ||
    step.Logout? || step.CleanupSessions? || step.Purge?
  }

  lemma SessionsStay(s: Db, step: Step)
    requires Enabled(s, step) && !Enters(step) && !Revokes(step)
    ensures Next(s, step).sessions == s.sessions
  {
    match step
    case Issue(scope, u, h) => IssuedFrame(s, scope, u, h);
    case _ =>
  }

  /** What revokes sessions: deletion and reset all of the user's, a password change all but one. */
  lemma SessionsRevoked(s: Db, step: Step, i: SessionId)
    requires Enabled(s, step) && i in Next(s, step).sessions
    ensures var x := Next(s, step).sessions[i];
            && (step.DeleteAccount? ==> x.user != step.u)
            && (step.ResetPassword? ==> Resolve(s, PasswordReset, step.h) != Some(x.user))
            && (step.ChangePassword? && x.user == step.u ==> i == step.keep)
            && (step.Logout? ==> i != step.i)
            && (step.Purge? && !PurgeAborts(s) ==> x.user !in PurgeVictims(s))
  {
  }
}
