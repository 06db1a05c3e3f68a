/**
  The user table and its optimistic lock (internal/data/users.go, internal/app/users.go).

  A profile PATCH writes back the row that the request read, `email_verified` included,
  if the version is unchanged. Activation, password changes, soft deletion and restoring
  bump the version; marking an address as bounced or complained does not.
 */
module Users {
  import opened Common

  type UserId = nat
  type ClientId = nat

  datatype Profile = Profile(
    firstName: string,
    lastName: string,
    degreeDiscipline: Option<string>,
    graduationYear: Option<int>,
    targetIndustries: seq<string>,
    preferredLocations: seq<string>,
    preferences: Option<string>)

  datatype Provider = EmailProvider | GoogleProvider

  datatype EmailStatus = Active | Bounced | Complained

  datatype User = User(
    email: string,
    passwordHash: Option<string>,
    provider: Provider,
    profile: Profile,
    emailVerified: bool,
    emailStatus: EmailStatus,
    version: int,
    deletedAt: Option<int>,
    deletionReason: Option<string>)

  datatype ProfileInput = ProfileInput(
    firstName: Option<string>,
    lastName: Option<string>,
    degreeDiscipline: Option<string>,
    graduationYear: Option<int>,
    targetIndustries: Option<seq<string>>,
    preferredLocations: Option<seq<string>>,
    preferences: Option<string>)

  datatype Account = Account(
    email: string, passwordHash: Option<string>, provider: Provider, profile: Profile, emailVerified: bool)

  datatype Outcome = Ok | EditConflict | DuplicateEmail

  type Table = map<UserId, User>

  // ---------------------------------------------------------------------
  // Rows.
  // ---------------------------------------------------------------------

  function Merged(p: Profile, sent: ProfileInput): Profile {
    Profile(Or(sent.firstName, p.firstName), Or(sent.lastName, p.lastName),
            OrKeep(sent.degreeDiscipline, p.degreeDiscipline), OrKeep(sent.graduationYear, p.graduationYear),
            Or(sent.targetIndustries, p.targetIndustries), Or(sent.preferredLocations, p.preferredLocations),
            OrKeep(sent.preferences, p.preferences))
  }

  function NewUser(a: Account): User {
    User(a.email, a.passwordHash, a.provider, a.profile, a.emailVerified, Active, 1, None, None)
  }

  function ActivatedRow(u: User): User {
    u.(emailVerified := true, version := u.version + 1)
  }

  function NewPasswordRow(u: User, hash: string): User {
    u.(passwordHash := Some(hash), version := u.version + 1)
  }

  /** Deleting again leaves the first deletion, its time and its reason in place. */
  function SoftDeletedRow(u: User, reason: string, now: int): User {
    if u.deletedAt.Some? then u
    else u.(deletedAt := Some(now), deletionReason := if reason == "" then None else Some(reason),
            version := u.version + 1)
  }

  function RestoredRow(u: User): User {
    u.(deletedAt := None, deletionReason := None, version := u.version + 1)
  }

  predicate EmailTaken(rows: Table, email: string) {
    exists x :: x in rows && rows[x].email == email
  }

  // ---------------------------------------------------------------------
  // The operations, each as one indivisible change of the table.
  // ---------------------------------------------------------------------

  datatype Op =
    | Insert(newId: UserId, account: Account)
    | Patch(id: UserId, input: ProfileInput)
    | Activate(id: UserId)
    | SetPassword(id: UserId, hash: string)
    | SoftDelete(id: UserId, reason: string, now: int)
    | Restore(id: UserId)
    | MarkEmail(email: string, status: EmailStatus)
    | Remove(ids: set<UserId>)

  function PatchedRow(u: User, input: ProfileInput): User {
    u.(profile := Merged(u.profile, input), version := u.version + 1)
  }

  function Rewrite(rows: Table, id: UserId, f: User -> User): Table {
    if id in rows then rows[id := f(rows[id])] else rows
  }

  function Apply(rows: Table, op: Op): Table {
    match op
    case Insert(id, account) => if EmailTaken(rows, account.email) then rows else rows[id := NewUser(account)]
    case Patch(id, input) => Rewrite(rows, id, u => PatchedRow(u, input))
    case Activate(id) => Rewrite(rows, id, ActivatedRow)
    case SetPassword(id, hash) => Rewrite(rows, id, u => NewPasswordRow(u, hash))
    case SoftDelete(id, reason, now) => Rewrite(rows, id, u => SoftDeletedRow(u, reason, now))
    case Restore(id) => Rewrite(rows, id, RestoredRow)
    case MarkEmail(email, status) =>
      map id | id in rows :: if rows[id].email == email then rows[id].(emailStatus := status) else rows[id]
    case Remove(ids) => rows - ids
  }

  ghost predicate EmailsUnique(rows: Table) {
    forall a, b :: a in rows && b in rows && rows[a].email == rows[b].email ==> a == b
  }

  lemma ApplyKeepsEmailsUnique(rows: Table, op: Op)
    requires EmailsUnique(rows)
    requires op.Insert? ==> op.newId !in rows
    ensures EmailsUnique(Apply(rows, op))
  {
  }

  /** Every statement but sign-up and purge keeps the set of users and their addresses. */
  lemma RewriteKeepsRows(rows: Table, op: Op)
    requires !op.Insert? && !op.Remove?
    ensures Apply(rows, op).Keys == rows.Keys
    ensures forall u :: u in rows ==> Apply(rows, op)[u].email == rows[u].email
  {
  }

  // ---------------------------------------------------------------------
  // Many requests, each with a read and a later compare-and-set.
  // ---------------------------------------------------------------------

  datatype Edit = Edit(id: UserId, current: User, input: ProfileInput)

  datatype System = System(rows: Table, edits: map<ClientId, Edit>, used: set<UserId>, committed: seq<Op>)

  datatype Step =
    | Load(c: ClientId, id: UserId, input: ProfileInput)
    | Commit(c: ClientId)
    | Direct(op: Op)

  /** Requests load live users only. */
  predicate Enabled(s: System, step: Step) {
    match step
    case Load(c, id, _) => c !in s.edits && id in s.rows && s.rows[id].deletedAt.None?
    case Commit(c) => c in s.edits
    case Direct(op) => !op.Patch? && (op.Insert? ==> op.newId !in s.used)
  }

  predicate CasSucceeds(rows: Table, id: UserId, current: User) {
    id in rows && rows[id].version == current.version
  }

  function CasTable(rows: Table, id: UserId, current: User): Table {
    if CasSucceeds(rows, id, current)
    then rows[id := rows[id].(profile := current.profile, emailVerified := current.emailVerified,
                              version := rows[id].version + 1)]
    else rows
  }

  function WithInput(e: Edit): User {
    e.current.(profile := Merged(e.current.profile, e.input))
  }

  function Next(s: System, step: Step): System
    requires Enabled(s, step)
  {
    match step
    case Load(c, id, input) => s.(edits := s.edits[c := Edit(id, s.rows[id], input)])
    case Commit(c) =>
      var e := s.edits[c];
      s.(rows := CasTable(s.rows, e.id, WithInput(e)),
         edits := s.edits - {c},
         committed := if CasSucceeds(s.rows, e.id, WithInput(e)) then s.committed + [Patch(e.id, e.input)]
                      else s.committed)
    case Direct(op) =>
      s.(rows := Apply(s.rows, op),
         used := if op.Insert? then s.used + {op.newId} else s.used,
         committed := s.committed + [op])
  }

  ghost predicate ValidRun(s: System, steps: seq<Step>)
    decreases |steps|
  {
    steps == [] || (Enabled(s, steps[0]) && ValidRun(Next(s, steps[0]), steps[1..]))
  }

  ghost function Final(s: System, steps: seq<Step>): System
    requires ValidRun(s, steps)
    decreases |steps|
  {
    if steps == [] then s else Final(Next(s, steps[0]), steps[1..])
  }

  function Replay(rows: Table, ops: seq<Op>): Table
    decreases |ops|
  {
    if ops == [] then rows else Replay(Apply(rows, ops[0]), ops[1..])
  }

  lemma {:induction false} ReplayLast(rows: Table, ops: seq<Op>, op: Op)
    ensures Replay(rows, ops + [op]) == Apply(Replay(rows, ops), op)
    decreases |ops|
  {
    if ops == [] {
      assert (ops + [op])[1..] == [];
    } else {
      ReplayLast(Apply(rows, ops[0]), ops[1..], op);
      assert (ops + [op])[1..] == ops[1..] + [op];
    }
  }

  /** A loaded row whose version is current is still right, delivery status apart. */
  ghost predicate EditInv(rows: Table, used: set<UserId>, e: Edit) {
    && e.id in used && e.current.deletedAt.None?
    && (e.id in rows ==>
          && e.current.version <= rows[e.id].version
          && (e.current.version == rows[e.id].version ==>
               rows[e.id] == e.current.(emailStatus := rows[e.id].emailStatus)))
  }

  ghost predicate Inv(s: System) {
    && s.rows.Keys <= s.used
    && forall c :: c in s.edits ==> EditInv(s.rows, s.used, s.edits[c])
  }

  lemma ApplyKeepsEdit(rows: Table, used: set<UserId>, e: Edit, op: Op)
    requires EditInv(rows, used, e) && rows.Keys <= used
    requires op.Insert? ==> op.newId !in used
    ensures EditInv(Apply(rows, op), used, e)
  {
  }

  /** The operation a step commits, if any. */
  function Committed(s: System, step: Step): Option<Op>
    requires Enabled(s, step)
  {
    match step
    case Load(_, _, _) => None
    case Direct(op) => Some(op)
    case Commit(c) =>
      var e := s.edits[c];
      if CasSucceeds(s.rows, e.id, WithInput(e)) then Some(Patch(e.id, e.input)) else None
  }

  lemma StepIsItsOp(s: System, step: Step)
    requires Inv(s) && Enabled(s, step)
    ensures var op := Committed(s, step);
            && Next(s, step).rows == (if op.Some? then Apply(s.rows, op.value) else s.rows)
            && Next(s, step).committed == s.committed + (if op.Some? then [op.value] else [])
  {
    if step.Commit? {
      var e := s.edits[step.c];
      assert EditInv(s.rows, s.used, e);
    }
  }

  lemma StepKeepsInv(s: System, step: Step)
    requires Inv(s) && Enabled(s, step)
    ensures Inv(Next(s, step))
  {
    StepIsItsOp(s, step);
    var s', op := Next(s, step), Committed(s, step);
    forall c | c in s'.edits ensures EditInv(s'.rows, s'.used, s'.edits[c]) {
      if c in s.edits && op.Some? {
        ApplyKeepsEdit(s.rows, s.used, s.edits[c], op.value);
      }
    }
  }

  /**
    Serializability: the table always is what the committed operations give when each
    runs alone, in commit order, every PATCH applied to the row of that moment.
   */
  lemma {:induction false} Serializable(init: Table, s: System, steps: seq<Step>)
    requires Inv(s) && ValidRun(s, steps)
    requires s.rows == Replay(init, s.committed)
    ensures Inv(Final(s, steps))
    ensures Final(s, steps).rows == Replay(init, Final(s, steps).committed)
    decreases |steps|
  {
    if steps != [] {
      StepIsItsOp(s, steps[0]);
      StepKeepsInv(s, steps[0]);
      var op := Committed(s, steps[0]);
      if op.Some? {
        ReplayLast(init, s.committed, op.value);
      } else {
        assert s.committed + [] == s.committed;
      }
      Serializable(init, Next(s, steps[0]), steps[1..]);
    }
  }

  /**
    A stale PATCH changes nothing. One that commits found a live row that agrees with the
    one it loaded, delivery status apart, and changes the profile and the version only.
   */
  lemma CommitExactly(s: System, c: ClientId)
    requires Inv(s) && c in s.edits
    ensures var e := s.edits[c];
            var s' := Next(s, Commit(c));
            if e.id in s.rows && s.rows[e.id].version == e.current.version
            then s.rows[e.id].deletedAt.None? && s'.rows == s.rows[e.id := PatchedRow(s.rows[e.id], e.input)]
            else s'.rows == s.rows && s'.committed == s.committed
  {
    assert EditInv(s.rows, s.used, s.edits[c]);
  }

  /** Once an address is verified, no PATCH loaded before or after takes that back. */
  lemma {:induction false} VerifiedForever(s: System, steps: seq<Step>, id: UserId)
    requires Inv(s) && ValidRun(s, steps)
    requires id in s.used && (id in s.rows ==> s.rows[id].emailVerified)
    ensures id in Final(s, steps).rows ==> Final(s, steps).rows[id].emailVerified
    decreases |steps|
  {
    if steps != [] {
      StepIsItsOp(s, steps[0]);
      StepKeepsInv(s, steps[0]);
      VerifiedForever(Next(s, steps[0]), steps[1..], id);
    }
  }

  // ---------------------------------------------------------------------
  // The model's methods, on the table itself.
  // ---------------------------------------------------------------------

  class UserModel {
    var rows: Table

    constructor ()
      ensures rows == map[]
    {
      rows := map[];
    }

    method Insert(newId: UserId, account: Account) returns (outcome: Outcome)
      requires newId !in rows
      modifies this
      ensures outcome == if EmailTaken(old(rows), account.email) then DuplicateEmail else Ok
      ensures rows == Apply(old(rows), Op.Insert(newId, account))
      ensures outcome == Ok <==> forall x :: x in old(rows) ==> old(rows)[x].email != account.email
      ensures outcome != Ok ==> outcome == DuplicateEmail && rows == old(rows)
      ensures outcome == Ok ==> rows == old(rows)[newId := User(account.email, account.passwordHash, account.provider,
                                                                account.profile, account.emailVerified, Active,
                                                                1, None, None)]
    {
      if EmailTaken(rows, account.email) {
        return DuplicateEmail;
      }
      rows := rows[newId := User(account.email, account.passwordHash, account.provider, account.profile,
                                 account.emailVerified, Active, 1, None, None)];
      return Ok;
    }

    /** Live users only. */
    method GetById(id: UserId) returns (user: Option<User>)
      ensures user.Some? <==> id in rows && rows[id].deletedAt.None?
      ensures user.Some? ==> user.value == rows[id]
    {
      if id in rows && rows[id].deletedAt.None? {
        return Some(rows[id]);
      }
      return None;
    }

    method GetByEmailIncludingDeleted(email: string) returns (id: Option<UserId>)
      ensures id.Some? ==> id.value in rows && rows[id.value].email == email
      ensures id.None? ==> !EmailTaken(rows, email)
    {
      if x :| x in rows && rows[x].email == email {
        return Some(x);
      }
      return None;
    }

    method GetByEmail(email: string) returns (id: Option<UserId>)
      requires EmailsUnique(rows)
      ensures id.Some? ==> id.value in rows && rows[id.value].email == email && rows[id.value].deletedAt.None?
      ensures id.None? ==> forall x :: x in rows && rows[x].email == email ==> rows[x].deletedAt.Some?
    {
      id := GetByEmailIncludingDeleted(email);
      if id.Some? && rows[id.value].deletedAt.Some? {
        return None;
      }
    }

    /** The compare-and-set; on success the caller's copy gets the new version. */
    method Update(id: UserId, user: User) returns (outcome: Outcome, written: User)
      modifies this
      ensures rows == CasTable(old(rows), id, user)
      ensures outcome == if CasSucceeds(old(rows), id, user) then Ok else EditConflict
      ensures written == if outcome == Ok then user.(version := user.version + 1) else user
      ensures outcome == Ok <==> id in old(rows) && old(rows)[id].version == user.version
      ensures outcome != Ok ==> rows == old(rows)
      ensures outcome == Ok ==>
        rows == old(rows)[id := old(rows)[id].(profile := user.profile, emailVerified := user.emailVerified,
                                               version := old(rows)[id].version + 1)]
    {
      if id !in rows || rows[id].version != user.version {
        return EditConflict, user;
      }
      var version := rows[id].version + 1;
      rows := rows[id := rows[id].(profile := user.profile, emailVerified := user.emailVerified, version := version)];
      return Ok, user.(version := version);
    }

    /** The profile fields that were sent, assigned one by one to the loaded user. */
    static method Overwrite(read: User, input: ProfileInput) returns (user: User)
      ensures user == read.(profile := Merged(read.profile, input))
      ensures user.profile.firstName ==
        (if input.firstName.Some? then input.firstName.value else read.profile.firstName)
      ensures user.profile.lastName == (if input.lastName.Some? then input.lastName.value else read.profile.lastName)
      ensures user.profile.degreeDiscipline ==
        (if input.degreeDiscipline.Some? then input.degreeDiscipline else read.profile.degreeDiscipline)
      ensures user.profile.graduationYear ==
        (if input.graduationYear.Some? then input.graduationYear else read.profile.graduationYear)
      ensures user.profile.targetIndustries ==
        (if input.targetIndustries.Some? then input.targetIndustries.value else read.profile.targetIndustries)
      ensures user.profile.preferredLocations ==
        (if input.preferredLocations.Some? then input.preferredLocations.value else read.profile.preferredLocations)
      ensures user.profile.preferences ==
        (if input.preferences.Some? then input.preferences else read.profile.preferences)
    {
      var p := read.profile;
      if input.firstName.Some? { p := p.(firstName := input.firstName.value); }
      if input.lastName.Some? { p := p.(lastName := input.lastName.value); }
      if input.degreeDiscipline.Some? { p := p.(degreeDiscipline := input.degreeDiscipline); }
      if input.graduationYear.Some? { p := p.(graduationYear := input.graduationYear); }
      if input.targetIndustries.Some? { p := p.(targetIndustries := input.targetIndustries.value); }
      if input.preferredLocations.Some? { p := p.(preferredLocations := input.preferredLocations.value); }
      if input.preferences.Some? { p := p.(preferences := input.preferences); }
      user := read.(profile := p);
    }

    /** The whole PATCH: load, overwrite, compare-and-set. Undisturbed, it is the atomic patch. */
    method PatchProfile(id: UserId, input: ProfileInput) returns (outcome: Option<Outcome>)
      modifies this
      ensures outcome == if id in old(rows) && old(rows)[id].deletedAt.None? then Some(Ok) else None
      ensures rows == if outcome.Some? then Apply(old(rows), Patch(id, input)) else old(rows)
      ensures outcome.Some? ==>
        && id in rows
        && rows == old(rows)[id := old(rows)[id].(profile := rows[id].profile, version := old(rows)[id].version + 1)]
      ensures outcome.Some? ==>
        var p, kept := rows[id].profile, old(rows)[id].profile;
        && p.firstName == (if input.firstName.Some? then input.firstName.value else kept.firstName)
        && p.lastName == (if input.lastName.Some? then input.lastName.value else kept.lastName)
        && p.degreeDiscipline ==
             (if input.degreeDiscipline.Some? then input.degreeDiscipline else kept.degreeDiscipline)
        && p.graduationYear == (if input.graduationYear.Some? then input.graduationYear else kept.graduationYear)
        && p.targetIndustries ==
             (if input.targetIndustries.Some? then input.targetIndustries.value else kept.targetIndustries)
        && p.preferredLocations ==
             (if input.preferredLocations.Some? then input.preferredLocations.value else kept.preferredLocations)
        && p.preferences == (if input.preferences.Some? then input.preferences else kept.preferences)
    {
      var read := GetById(id);
      if read.None? {
        return None;
      }
      var user := Overwrite(read.value, input);
      var cas, written := Update(id, user);
      return Some(cas);
    }

    method Activate(id: UserId)
      modifies this
      ensures rows == Apply(old(rows), Op.Activate(id))
      ensures rows == if id !in old(rows) then old(rows)
                      else old(rows)[id := old(rows)[id].(emailVerified := true, version := old(rows)[id].version + 1)]
    {
      if id in rows {
        rows := rows[id := rows[id].(emailVerified := true, version := rows[id].version + 1)];
      }
    }

    method UpdatePassword(id: UserId, hash: string)
      modifies this
      ensures rows == Apply(old(rows), Op.SetPassword(id, hash))
      ensures rows == if id !in old(rows) then old(rows)
                      else old(rows)[id := old(rows)[id].(passwordHash := Some(hash),
                                                           version := old(rows)[id].version + 1)]
    {
      if id in rows {
        rows := rows[id := rows[id].(passwordHash := Some(hash), version := rows[id].version + 1)];
      }
    }

    method SoftDelete(id: UserId, reason: string, now: int)
      modifies this
      ensures rows == Apply(old(rows), Op.SoftDelete(id, reason, now))
      ensures rows == if id !in old(rows) || old(rows)[id].deletedAt.Some? then old(rows)
                      else old(rows)[id := old(rows)[id].(deletedAt := Some(now),
                                                          deletionReason := if reason == "" then None else Some(reason),
                                                          version := old(rows)[id].version + 1)]
    {
      if id in rows && rows[id].deletedAt.None? {
        var stored := if reason == "" then None else Some(reason);
        rows := rows[id := rows[id].(deletedAt := Some(now), deletionReason := stored,
                                     version := rows[id].version + 1)];
      } else {
        assert id in rows ==> rows[id := rows[id]] == rows;
      }
    }

    method Restore(id: UserId)
      modifies this
      ensures rows == Apply(old(rows), Op.Restore(id))
      ensures rows == if id !in old(rows) then old(rows)
                      else old(rows)[id := old(rows)[id].(deletedAt := None, deletionReason := None,
                                                          version := old(rows)[id].version + 1)]
    {
      if id in rows {
        rows := rows[id := rows[id].(deletedAt := None, deletionReason := None, version := rows[id].version + 1)];
      }
    }

    method MarkEmailStatus(email: string, status: EmailStatus)
      modifies this
      ensures rows == Apply(old(rows), Op.MarkEmail(email, status))
      ensures rows.Keys == old(rows).Keys
      ensures forall x :: x in rows ==>
        rows[x] == old(rows)[x].(emailStatus :=
          if old(rows)[x].email == email then status else old(rows)[x].emailStatus)
    {
      var hit := set x | x in rows && rows[x].email == email;
      rows := map id | id in rows :: if id in hit then rows[id].(emailStatus := status) else rows[id];
    }
  }
}
