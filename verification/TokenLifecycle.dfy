/**
  Email verification and password reset tokens (internal/data/tokens.go,
  internal/app/auth.go).
 */
module TokenLifecycle {
  import opened Common
  import opened Accounts
  import SessionSafety
  import Users

  /** Over every run, a user has at most one stored token in each scope. */
  lemma AtMostOneToken(steps: seq<Step>, scope: Scope, g: Hash, h: Hash)
    requires ValidRun(EMPTY_DB, steps)
    requires var tokens := TokensOf(Final(EMPTY_DB, steps), scope);
             g in tokens && h in tokens && tokens[g].user == tokens[h].user
    ensures g == h
  {
    InvAlways(EMPTY_DB, steps);
  }

  /** A stored token was stored before, unchanged, or carries a hash never used before. */
  lemma TokenOrigin(s: Db, step: Step, scope: Scope, h: Hash)
    requires Enabled(s, step) && h in TokensOf(Next(s, step), scope)
    ensures || (h in TokensOf(s, scope) && TokensOf(Next(s, step), scope)[h] == TokensOf(s, scope)[h])
            || h !in s.used.hashes
  {
    match step
    case SignUp(u, account, token, i) => if token != Some(h) { SignUpTokens(s, u, account, token, i, scope, h); }
    case Issue(issued, u, g) => if g != h { IssuedTokens(s, issued, u, g, scope, h); }
    case CommitLogin(c, i) => LoggedInFrame(s, s.logins[c], i);
    case SignIn(u, i) => LoggedInFrame(s, ReadOf(s, u), i);
    case _ => TokensOnlyGo(s, step, scope);
  }

  lemma SignUpTokens(s: Db, u: UserId, account: Users.Account, token: Option<Hash>, i: SessionId, scope: Scope, h: Hash)
    requires h in TokensOf(SignedUp(s, u, account, token, i), scope) && token != Some(h)
    ensures h in TokensOf(s, scope) && TokensOf(SignedUp(s, u, account, token, i), scope)[h] == TokensOf(s, scope)[h]
  {
  }

  lemma IssuedTokens(s: Db, issued: Scope, u: UserId, g: Hash, scope: Scope, h: Hash)
    requires h in TokensOf(Issued(s, issued, u, g), scope) && g != h
    ensures h in TokensOf(s, scope) && TokensOf(Issued(s, issued, u, g), scope)[h] == TokensOf(s, scope)[h]
  {
  }

  lemma TokensOnlyGo(s: Db, step: Step, scope: Scope)
    requires Enabled(s, step) && !Enters(step) && !step.Issue?
    ensures SubMap(TokensOf(Next(s, step), scope), TokensOf(s, scope))
  {
    if !step.VerifyEmail? && !step.ResetPassword? && !step.Purge? {
      TokensStay(s, step, scope);
    }
  }

  lemma TokensStay(s: Db, step: Step, scope: Scope)
    requires Enabled(s, step) && !Compound(step)
    ensures TokensOf(Next(s, step), scope) == TokensOf(s, scope)
  {
  }

  /** A hash that was drawn and does not resolve: consumed, superseded, purged or expired. */
  predicate Spent(s: Db, scope: Scope, h: Hash) {
    h in s.used.hashes && Resolve(s, scope, h).None?
  }

  /** A token that has stopped working never works again. */
  lemma {:induction false} SpentForever(s: Db, steps: seq<Step>, scope: Scope, h: Hash)
    requires ValidRun(s, steps) && Spent(s, scope, h)
    ensures Spent(Final(s, steps), scope, h)
    decreases |steps|
  {
    if steps != [] {
      var s' := Next(s, steps[0]);
      SessionSafety.ClockAndUsedGrow(s, steps[0]);
      if h in TokensOf(s', scope) {
        TokenOrigin(s, steps[0], scope, h);
      }
      SpentForever(s', steps[1..], scope, h);
    }
  }

  /** Issuing spends the user's earlier token of that scope and touches no other token. */
  lemma IssueSupersedes(s: Db, scope: Scope, u: UserId, h: Hash, g: Hash, other: Scope)
    requires Inv(s) && Enabled(s, Issue(scope, u, h)) && u in s.users && g in s.used.hashes
    ensures Resolve(Next(s, Issue(scope, u, h)), scope, h) == Some(u)
    ensures Resolve(Next(s, Issue(scope, u, h)), other, g)
         == if other == scope && Resolve(s, scope, g) == Some(u) then None else Resolve(s, other, g)
  {
  }

  /** The tokens of one scope are out of reach of everything done with the other. */
  lemma ScopesIndependent(s: Db, step: Step)
    requires Enabled(s, step)
    ensures step.VerifyEmail? || (step.Issue? && step.scope == Activation) ==>
      Next(s, step).resetTokens == s.resetTokens
    ensures step.ResetPassword? || (step.Issue? && step.scope == PasswordReset) ==>
      Next(s, step).activationTokens == s.activationTokens
  {
  }

  /** An activation token goes only with a new one of its user, its user's verification, or its user. */
  lemma ActivationTokenStaysExactly(s: Db, step: Step, h: Hash)
    requires Inv(s) && Enabled(s, step) && h in s.activationTokens
    ensures var u := s.activationTokens[h].user;
            h in Next(s, step).activationTokens <==>
              && !(step.Issue? && step.scope == Activation && step.u == u)
              && !(step.VerifyEmail? && step.h in s.activationTokens && s.activationTokens[step.h].expiresAt > s.now
                   && s.activationTokens[step.h].user == u && s.users[u].deletedAt.None?)
              && u in Next(s, step).users
    ensures h in Next(s, step).activationTokens ==> Next(s, step).activationTokens[h] == s.activationTokens[h]
  {
    StaysOrGoes(s, step, s.activationTokens[h].user);
    if step.SignUp? {
      SignUpKeepsToken(s, step.u, step.account, step.token, step.i, h);
    } else if step.Issue? {
      IssueEndsTokens(s, step.scope, step.u, step.h, Activation, h);
    } else if step.VerifyEmail? {
      VerifyEndsTokens(s, step.h, h);
    } else if step.Purge? {
      PurgedTokens(s);
    } else {
      ActivationTokensStay(s, step);
    }
  }

  lemma ActivationTokensStay(s: Db, step: Step)
    requires Enabled(s, step) && !step.SignUp? && !step.Issue? && !step.VerifyEmail? && !step.Purge?
    ensures Next(s, step).activationTokens == s.activationTokens
  {
    match step
    case CommitLogin(c, i) => LoggedInFrame(s, s.logins[c], i);
    case SignIn(u, i) => LoggedInFrame(s, ReadOf(s, u), i);
    case ResetPassword(g, password) => ResetFrame(s, g, password);
    case _ => TokensStay(s, step, Activation);
  }

  lemma ResetTokensStay(s: Db, step: Step)
    requires Enabled(s, step) && !step.Issue? && !step.ResetPassword? && !step.Purge?
    ensures Next(s, step).resetTokens == s.resetTokens
  {
    match step
    case SignUp(u, account, token, i) => SignUpFrame(s, u, account, token, i);
    case CommitLogin(c, i) => LoggedInFrame(s, s.logins[c], i);
    case SignIn(u, i) => LoggedInFrame(s, ReadOf(s, u), i);
    case VerifyEmail(g) => VerifiedFrame(s, g);
    case _ => TokensStay(s, step, PasswordReset);
  }

  lemma SignUpKeepsToken(s: Db, u: UserId, account: Users.Account, token: Option<Hash>, i: SessionId, h: Hash)
    requires Inv(s) && Enabled(s, SignUp(u, account, token, i)) && h in s.activationTokens
    ensures var s' := SignedUp(s, u, account, token, i);
            h in s'.activationTokens && s'.activationTokens[h] == s.activationTokens[h]
  {
    assert h in s.used.hashes && s.activationTokens[h].user in s.users;
  }

  lemma IssueEndsTokens(s: Db, issued: Scope, u: UserId, g: Hash, scope: Scope, h: Hash)
    requires Inv(s) && g !in s.used.hashes && h in TokensOf(s, scope)
    ensures var tokens := TokensOf(Issued(s, issued, u, g), scope);
            && (h in tokens <==> !(issued == scope && TokensOf(s, scope)[h].user == u))
            && (h in tokens ==> tokens[h] == TokensOf(s, scope)[h])
  {
    assert TokensInv(TokensOf(s, scope), s.users, s.used.hashes);
    if issued == scope && u in s.users {
      IssuedSameScope(s, scope, u, g);
    } else if issued != scope {
      IssuedOtherScope(s, issued, u, g, scope);
    }
  }

  lemma IssuedSameScope(s: Db, scope: Scope, u: UserId, g: Hash)
    requires u in s.users
    ensures TokensOf(Issued(s, scope, u, g), scope)
         == TokensWithout(TokensOf(s, scope), {u})[g := Token(u, s.now + Ttl(scope))]
  {
  }

  lemma IssuedOtherScope(s: Db, issued: Scope, u: UserId, g: Hash, scope: Scope)
    requires issued != scope
    ensures TokensOf(Issued(s, issued, u, g), scope) == TokensOf(s, scope)
  {
  }

  lemma VerifyEndsTokens(s: Db, g: Hash, h: Hash)
    requires Inv(s) && h in s.activationTokens
    ensures var u := s.activationTokens[h].user;
            var tokens := Verified(s, g).activationTokens;
            && (h in tokens <==> !(g in s.activationTokens && s.activationTokens[g].expiresAt > s.now
                                   && s.activationTokens[g].user == u && s.users[u].deletedAt.None?))
            && (h in tokens ==> tokens[h] == s.activationTokens[h])
  {
  }

  lemma ResetEndsTokens(s: Db, g: Hash, password: string, h: Hash)
    requires Inv(s) && h in s.resetTokens
    ensures var u := s.resetTokens[h].user;
            var tokens := PasswordWasReset(s, g, password).resetTokens;
            && (h in tokens <==> !(g in s.resetTokens && s.resetTokens[g].expiresAt > s.now
                                    && s.resetTokens[g].user == u))
            && (h in tokens ==> tokens[h] == s.resetTokens[h])
  {
  }

  /** A reset token goes only with a new one of its user, a reset of its user, or its user. */
  lemma ResetTokenStaysExactly(s: Db, step: Step, h: Hash)
    requires Inv(s) && Enabled(s, step) && h in s.resetTokens
    ensures var u := s.resetTokens[h].user;
            h in Next(s, step).resetTokens <==>
              && !(step.Issue? && step.scope == PasswordReset && step.u == u)
              && !(step.ResetPassword? && step.h in s.resetTokens && s.resetTokens[step.h].expiresAt > s.now
                   && s.resetTokens[step.h].user == u)
              && u in Next(s, step).users
    ensures h in Next(s, step).resetTokens ==> Next(s, step).resetTokens[h] == s.resetTokens[h]
  {
    StaysOrGoes(s, step, s.resetTokens[h].user);
    if step.Issue? {
      IssueEndsTokens(s, step.scope, step.u, step.h, PasswordReset, h);
    } else if step.ResetPassword? {
      ResetEndsTokens(s, step.h, step.password, h);
    } else if step.Purge? {
      PurgedTokens(s);
    } else {
      ResetTokensStay(s, step);
    }
  }

  lemma StaysOrGoes(s: Db, step: Step, u: UserId)
    requires Inv(s) && Enabled(s, step) && u in s.users
    ensures u !in Next(s, step).users <==> step.Purge? && !PurgeAborts(s) && u in PurgeVictims(s)
  {
    UsersKept(s, step, u);
  }

  lemma PurgedTokens(s: Db)
    ensures !PurgeAborts(s) ==>
      && Next(s, Purge).activationTokens == TokensWithout(s.activationTokens, PurgeVictims(s))
      && Next(s, Purge).resetTokens == TokensWithout(s.resetTokens, PurgeVictims(s))
    ensures PurgeAborts(s) ==> Next(s, Purge) == s
  {
  }

  /**
    A verification link takes effect at most once, over any later run; it takes effect
    exactly when its token resolves to a user who is not soft-deleted.
   */
  lemma VerifyOnce(s: Db, h: Hash, u: UserId, steps: seq<Step>)
    requires Inv(s) && Resolve(s, Activation, h) == Some(u)
    requires ValidRun(Next(s, VerifyEmail(h)), steps)
    ensures var s' := Next(s, VerifyEmail(h));
            if u in s.users && s.users[u].deletedAt.None?
            then s'.users[u].emailVerified && Resolve(Final(s', steps), Activation, h).None?
            else s' == s
  {
    var s' := Next(s, VerifyEmail(h));
    if u in s.users && s.users[u].deletedAt.None? {
      assert TokensInv(TokensOf(s, Activation), s.users, s.used.hashes);
      VerifiedFrame(s, h);
      assert h !in TokensOf(s', Activation);
      SpentForever(s', steps, Activation, h);
    }
  }

  /** A reset token sets a password once, and never resolves again over any later run. */
  lemma ResetOnce(s: Db, h: Hash, password: string, u: UserId, steps: seq<Step>)
    requires Inv(s) && Resolve(s, PasswordReset, h) == Some(u)
    requires ValidRun(Next(s, ResetPassword(h, password)), steps)
    ensures var s' := Next(s, ResetPassword(h, password));
            u in s'.users && s'.users[u].passwordHash == Some(password)
            && Resolve(Final(s', steps), PasswordReset, h).None?
  {
    assert TokensInv(TokensOf(s, PasswordReset), s.users, s.used.hashes);
    SpentForever(Next(s, ResetPassword(h, password)), steps, PasswordReset, h);
  }
}
