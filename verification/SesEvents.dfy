/**
  Bounces and complaints from SES, through SQS and the task queue to the delivery status
  of users (internal/worker/ses_events.go, internal/app/workers.go,
  internal/data/users.go).

  Delivery is at least once: a message may be received again at any time, even after its
  deletion, inserts and deletions may fail, and a handler may stop anywhere in its
  recipients. Meanwhile users sign up, change and are purged; their ids are never drawn twice.
 */
module SesEvents {
  import Users
  import TaskQueue

  type MessageId = nat
  type TaskId = nat

  datatype Event =
    | Bounce(bounceType: string, recipients: seq<string>)
    | Complaint(complained: seq<string>)
    | Unhandled(eventType: string)

  datatype Body = Malformed | WellFormed(event: Event)

  /** A task row; `marked` counts the recipients its running handler has dealt with. */
  datatype Task = Task(message: MessageId, status: TaskQueue.Status, marked: nat)

  datatype System = System(
    users: Users.Table,
    ids: set<Users.UserId>,
    sent: map<MessageId, Body>,
    queue: set<MessageId>,
    processed: set<MessageId>,
    tasks: map<TaskId, Task>)

  // ---------------------------------------------------------------------
  // What a handler does.
  // ---------------------------------------------------------------------

  /** The event gets a task; other events are acknowledged without one. */
  predicate Actionable(b: Body) {
    b.WellFormed? && !b.event.Unhandled?
  }

  /** The addresses to suppress: of a bounce only if it is permanent. */
  function Targets(e: Event): seq<string> {
    match e
    case Bounce(bounceType, recipients) => if bounceType == "Permanent" then recipients else []
    case Complaint(complained) => complained
    case Unhandled(_) => []
  }

  function NewStatus(e: Event): Users.EmailStatus {
    if e.Bounce? then Users.Bounced else Users.Complained
  }

  function MarkAll(users: Users.Table, emails: seq<string>, status: Users.EmailStatus): Users.Table
    decreases |emails|
  {
    if emails == [] then users
    else MarkAll(Users.Apply(users, Users.MarkEmail(emails[0], status)), emails[1..], status)
  }

  lemma {:induction false} MarkAllLast(users: Users.Table, emails: seq<string>, email: string,
                                       status: Users.EmailStatus)
    ensures MarkAll(users, emails + [email], status)
         == Users.Apply(MarkAll(users, emails, status), Users.MarkEmail(email, status))
    decreases |emails|
  {
    if emails == [] {
      assert (emails + [email])[1..] == [];
    } else {
      MarkAllLast(Users.Apply(users, Users.MarkEmail(emails[0], status)), emails[1..], email, status);
      assert (emails + [email])[1..] == emails[1..] + [email];
    }
  }

  /** Every row of a listed address gets the status, and nothing else changes. */
  lemma {:induction false} MarkAllMarks(users: Users.Table, emails: seq<string>, status: Users.EmailStatus)
    ensures MarkAll(users, emails, status).Keys == users.Keys
    ensures forall u :: u in users ==>
      MarkAll(users, emails, status)[u]
      == users[u].(emailStatus := if users[u].email in emails then status else users[u].emailStatus)
    decreases |emails|
  {
    if emails != [] {
      MarkAllMarks(Users.Apply(users, Users.MarkEmail(emails[0], status)), emails[1..], status);
    }
  }

  /** The loops of the two handlers; the database refuses the statement numbered `failAt`. */
  method MarkRecipients(users: Users.UserModel, emails: seq<string>, status: Users.EmailStatus, failAt: nat)
    returns (failed: bool)
    modifies users
    ensures failed <==> failAt < |emails|
    ensures users.rows == MarkAll(old(users.rows), if failed then emails[..failAt] else emails, status)
    ensures users.rows.Keys == old(users.rows).Keys
    ensures forall u :: u in users.rows ==>
      users.rows[u] == old(users.rows)[u].(
        emailStatus := if old(users.rows)[u].email in (if failed then emails[..failAt] else emails) then status
                       else old(users.rows)[u].emailStatus)
  {
    MarkAllMarks(users.rows, if failAt < |emails| then emails[..failAt] else emails, status);
    for i := 0 to |emails|
      invariant i <= failAt
      invariant users.rows == MarkAll(old(users.rows), emails[..i], status)
    {
      if i == failAt {
        return true;
      }
      MarkAllLast(old(users.rows), emails[..i], emails[i], status);
      assert emails[..i + 1] == emails[..i] + [emails[i]];
      users.MarkEmailStatus(emails[i], status);
    }
    assert emails[..|emails|] == emails;
    return false;
  }

  method HandleEvent(users: Users.UserModel, e: Event, failAt: nat) returns (failed: bool)
    modifies users
    ensures failed <==> failAt < |Targets(e)|
    ensures users.rows == MarkAll(old(users.rows), if failed then Targets(e)[..failAt] else Targets(e), NewStatus(e))
    ensures users.rows.Keys == old(users.rows).Keys
    ensures !failed && e.Bounce? && e.bounceType == "Permanent" ==>
      forall u :: u in users.rows ==>
        users.rows[u] == old(users.rows)[u].(
          emailStatus := if old(users.rows)[u].email in e.recipients then Users.Bounced
                         else old(users.rows)[u].emailStatus)
    ensures e.Bounce? && e.bounceType != "Permanent" ==> !failed && users.rows == old(users.rows)
    ensures !failed && e.Complaint? ==>
      forall u :: u in users.rows ==>
        users.rows[u] == old(users.rows)[u].(
          emailStatus := if old(users.rows)[u].email in e.complained then Users.Complained
                         else old(users.rows)[u].emailStatus)
    ensures e.Unhandled? ==> !failed && users.rows == old(users.rows)
  {
    match e {
      case Bounce(bounceType, recipients) =>
        if bounceType != "Permanent" {
          return false;
        }
        failed := MarkRecipients(users, recipients, Users.Bounced, failAt);
      case Complaint(complained) =>
        failed := MarkRecipients(users, complained, Users.Complained, failAt);
      case Unhandled(_) =>
        return false;
    }
  }

  // ---------------------------------------------------------------------
  // The pipeline.
  // ---------------------------------------------------------------------

  datatype Step =
    | Send(m: MessageId, body: Body)
    | Enqueue(m: MessageId, t: TaskId)   // received, task row inserted
    | Skip(m: MessageId)                 // received, acknowledged without a task
    | Delete(m: MessageId, ok: bool)
    | Start(t: TaskId)
    | Mark(t: TaskId)                    // one MarkEmailStatus statement
    | Finish(t: TaskId)
    | Fail(t: TaskId, dead: bool)        // the handler stopped with an error
    | OtherWrite(op: Users.Op)           // sign-up, purge and all else; only handlers mark addresses

  predicate Enabled(s: System, step: Step) {
    match step
    case Send(m, _) => m !in s.sent
    case Enqueue(m, t) => HasEvent(s, m) && t !in s.tasks
    case Skip(m) => m in s.sent && s.sent[m].WellFormed? && s.sent[m].event.Unhandled?
    case Delete(m, _) => m in s.processed
    case Start(t) => t in s.tasks && s.tasks[t].status == TaskQueue.Pending
    case Mark(t) => Running(s, t) && s.tasks[t].marked < |Targets(EventOf(s, t))|
    case Finish(t) => Running(s, t) && s.tasks[t].marked == |Targets(EventOf(s, t))|
    case Fail(t, _) => Running(s, t)
    case OtherWrite(op) => !op.MarkEmail? && (op.Insert? ==> op.newId !in s.ids)
  }

  predicate Running(s: System, t: TaskId) {
    t in s.tasks && s.tasks[t].status == TaskQueue.Processing && HasEvent(s, s.tasks[t].message)
  }

  predicate HasEvent(s: System, m: MessageId) {
    m in s.sent && Actionable(s.sent[m])
  }

  function EventOf(s: System, t: TaskId): Event
    requires t in s.tasks && HasEvent(s, s.tasks[t].message)
  {
    s.sent[s.tasks[t].message].event
  }

  function Next(s: System, step: Step): System
    requires Enabled(s, step)
  {
    match step
    case Send(m, body) => s.(sent := s.sent[m := body], queue := s.queue + {m})
    case Enqueue(m, t) =>
      s.(tasks := s.tasks[t := Task(m, TaskQueue.Pending, 0)], processed := s.processed + {m})
    case Skip(m) => s.(processed := s.processed + {m})
    case Delete(m, ok) => if ok then s.(queue := s.queue - {m}) else s
    case Start(t) => s.(tasks := s.tasks[t := s.tasks[t].(status := TaskQueue.Processing, marked := 0)])
    case Mark(t) =>
      var e := EventOf(s, t);
      s.(users := Users.Apply(s.users, Users.MarkEmail(Targets(e)[s.tasks[t].marked], NewStatus(e))),
         tasks := s.tasks[t := s.tasks[t].(marked := s.tasks[t].marked + 1)])
    case Finish(t) => s.(tasks := s.tasks[t := s.tasks[t].(status := TaskQueue.Completed)])
    case Fail(t, dead) =>
      s.(tasks := s.tasks[t := s.tasks[t].(status := if dead then TaskQueue.Dead else TaskQueue.Pending, marked := 0)])
    case OtherWrite(op) =>
      s.(users := Users.Apply(s.users, op), ids := if op.Insert? then s.ids + {op.newId} else s.ids)
  }

  ghost predicate ValidRun(s: System, steps: seq<Step>)
    decreases |steps|
  {
    steps == [] || (Enabled(s, steps[0]) && ValidRun(Next(s, steps[0]), steps[1..]))
  }

  ghost function Final(s: System, steps: seq<Step>): System
    requires ValidRun(s, steps)
    decreases |steps|
  {
    if steps == [] then s else Final(Next(s, steps[0]), steps[1..])
  }

  function Initial(users: Users.Table): System {
    System(users, users.Keys, map[], {}, {}, map[])
  }

  // ---------------------------------------------------------------------
  // Nothing is lost, and nobody is un-suppressed.
  // ---------------------------------------------------------------------

  /** Users no mail goes to. */
  function Suppressed(users: Users.Table): set<Users.UserId> {
    set u | u in users && users[u].emailStatus != Users.Active
  }

  ghost predicate TaskFor(s: System, m: MessageId, t: TaskId) {
    t in s.tasks && s.tasks[t].message == m
  }

  ghost predicate Delivered(s: System, m: MessageId) {
    m in s.queue || exists t :: TaskFor(s, m, t)
  }

  ghost predicate Inv(s: System) {
    && (forall m :: HasEvent(s, m) ==> Delivered(s, m))
    && (forall m :: m in s.processed && HasEvent(s, m) ==> exists t :: TaskFor(s, m, t))
    && (forall t :: t in s.tasks ==> HasEvent(s, s.tasks[t].message))
    && s.processed <= s.sent.Keys && s.queue <= s.sent.Keys
    && s.users.Keys <= s.ids
  }

  lemma StepKeepsInv(s: System, step: Step)
    requires Inv(s) && Enabled(s, step)
    ensures Inv(Next(s, step))
  {
    var s' := Next(s, step);
    forall m, t | TaskFor(s, m, t) ensures TaskFor(s', m, t) {
    }
    if step.Enqueue? {
      assert TaskFor(s', step.m, step.t);
    }
    assert forall m :: m in s.sent ==> (HasEvent(s', m) <==> HasEvent(s, m));
  }

  /** Every bounce or complaint ever sent is still in the queue or has a task row. */
  lemma {:induction false} NothingLost(s: System, steps: seq<Step>)
    requires Inv(s) && ValidRun(s, steps)
    ensures Inv(Final(s, steps))
    ensures forall m :: HasEvent(Final(s, steps), m) ==> Delivered(Final(s, steps), m)
    decreases |steps|
  {
    if steps != [] {
      StepKeepsInv(s, steps[0]);
      NothingLost(Next(s, steps[0]), steps[1..]);
    }
  }

  predicate Active(users: Users.Table, u: Users.UserId) {
    u in users && users[u].emailStatus == Users.Active
  }

  /** `u` is gone, or was there before, at the same address and suppressed if it was. */
  ghost predicate SameUser(before: Users.Table, after: Users.Table, u: Users.UserId) {
    u in after ==>
      && u in before && after[u].email == before[u].email
      && (Active(after, u) ==> Active(before, u))
  }

  lemma OtherWriteKeepsUsers(users: Users.Table, op: Users.Op, u: Users.UserId)
    requires !op.MarkEmail? && (op.Insert? ==> op.newId != u)
    ensures SameUser(users, Users.Apply(users, op), u)
  {
  }

  lemma MarkKeepsUsers(users: Users.Table, email: string, status: Users.EmailStatus, u: Users.UserId)
    requires status != Users.Active
    ensures SameUser(users, Users.Apply(users, Users.MarkEmail(email, status)), u)
  {
  }

  lemma StepKeepsUsers(s: System, step: Step, u: Users.UserId)
    requires Enabled(s, step) && u in s.ids
    ensures u in Next(s, step).ids && SameUser(s.users, Next(s, step).users, u)
  {
    match step
    case OtherWrite(op) => OtherWriteKeepsUsers(s.users, op, u);
    case Mark(t) => MarkKeepsUsers(s.users, Targets(EventOf(s, t))[s.tasks[t].marked], NewStatus(EventOf(s, t)), u);
    case _ =>
  }

  /** A user once suppressed is never active again while the row is there, whatever signs up or is purged. */
  lemma {:induction false} SuppressedForever(s: System, steps: seq<Step>, u: Users.UserId)
    requires ValidRun(s, steps) && u in s.ids
    ensures SameUser(s.users, Final(s, steps).users, u)
    decreases |steps|
  {
    if steps != [] {
      StepKeepsUsers(s, steps[0], u);
      SuppressedForever(Next(s, steps[0]), steps[1..], u);
    }
  }

  /** The step marks the address of `u`, who is there. */
  predicate MarksUser(s: System, step: Step, u: Users.UserId)
    requires Enabled(s, step)
  {
    step.Mark? && u in s.users && s.users[u].email == Targets(EventOf(s, step.t))[s.tasks[step.t].marked]
  }

  /** Some step of the run marks the address of `u` while `u` is there. */
  ghost predicate Marked(s: System, steps: seq<Step>, u: Users.UserId)
    requires ValidRun(s, steps)
    decreases |steps|
  {
    steps != [] && (MarksUser(s, steps[0], u) || Marked(Next(s, steps[0]), steps[1..], u))
  }

  lemma SuppressedStep(s: System, step: Step, u: Users.UserId)
    requires Enabled(s, step) && s.users.Keys <= s.ids && u in Next(s, step).users
    ensures u in Suppressed(Next(s, step).users) <==> u in Suppressed(s.users) || MarksUser(s, step, u)
  {
  }

  /**
    Of the users there at the end of a run, exactly those are suppressed who were so at the
    start or whose address was marked after they had signed up.
   */
  lemma {:induction false} SuppressedExactly(s: System, steps: seq<Step>, u: Users.UserId)
    requires Inv(s) && ValidRun(s, steps) && u in Final(s, steps).users
    ensures u in Suppressed(Final(s, steps).users) <==> u in Suppressed(s.users) || Marked(s, steps, u)
    decreases |steps|
  {
    if steps != [] {
      var s' := Next(s, steps[0]);
      StepKeepsInv(s, steps[0]);
      SuppressedExactly(s', steps[1..], u);
      if u in s.ids {
        StepKeepsUsers(s, steps[0], u);
        SuppressedForever(s', steps[1..], u);
      }
      if u in s'.users {
        SuppressedStep(s, steps[0], u);
      }
    }
  }

  // ---------------------------------------------------------------------
  // The same users are suppressed as under exactly-once delivery.
  // ---------------------------------------------------------------------

  /** A sent event suppresses the address of `u`. */
  ghost predicate Hit(s: System, u: Users.UserId) {
    u in s.users && exists m :: HasEvent(s, m) && s.users[u].email in Targets(s.sent[m].event)
  }

  /** A recipient that the task is done with. */
  ghost predicate Dealt(s: System, t: TaskId, email: string) {
    && t in s.tasks && HasEvent(s, s.tasks[t].message)
    && exists k :: 0 <= k < |Targets(EventOf(s, t))| && Targets(EventOf(s, t))[k] == email
         && (k < s.tasks[t].marked || s.tasks[t].status == TaskQueue.Completed)
  }

  /** Users there from the start are suppressed once a task has dealt with their address. */
  ghost predicate Progress(s: System, start: set<Users.UserId>) {
    forall t, u :: u in start && u in s.users && Dealt(s, t, s.users[u].email) ==> !Active(s.users, u)
  }

  /** Only users that were suppressed to begin with or are hit by an event are suppressed. */
  ghost predicate Justified(s: System, before: set<Users.UserId>) {
    forall u :: u in Suppressed(s.users) ==> u in before || Hit(s, u)
  }

  /** Only marking makes progress, and only with the recipient it marks. */
  lemma DealtBefore(s: System, step: Step, t: TaskId, email: string)
    requires Inv(s) && Enabled(s, step) && Dealt(Next(s, step), t, email)
    ensures Dealt(s, t, email)
         || (step.Mark? && step.t == t && email == Targets(EventOf(s, t))[s.tasks[t].marked])
  {
    var s' := Next(s, step);
    var k :| 0 <= k < |Targets(EventOf(s', t))| && Targets(EventOf(s', t))[k] == email
      && (k < s'.tasks[t].marked || s'.tasks[t].status == TaskQueue.Completed);
    if t in s.tasks {
      assert s'.tasks[t].message == s.tasks[t].message;
      assert EventOf(s', t) == EventOf(s, t);
    }
  }

  lemma StepKeepsProgress(s: System, step: Step, start: set<Users.UserId>)
    requires Inv(s) && Progress(s, start) && start <= s.ids && Enabled(s, step)
    ensures Progress(Next(s, step), start)
  {
    var s' := Next(s, step);
    forall t, u | u in start && u in s'.users && Dealt(s', t, s'.users[u].email) ensures !Active(s'.users, u) {
      StepKeepsUsers(s, step, u);
      DealtBefore(s, step, t, s'.users[u].email);
    }
  }

  lemma HitKept(s: System, step: Step, u: Users.UserId)
    requires Enabled(s, step) && u in s.ids && Hit(s, u) && u in Next(s, step).users
    ensures Hit(Next(s, step), u)
  {
    var s' := Next(s, step);
    StepKeepsUsers(s, step, u);
    var m :| HasEvent(s, m) && s.users[u].email in Targets(s.sent[m].event);
    assert HasEvent(s', m) && s'.users[u].email in Targets(s'.sent[m].event);
  }

  /** A user that a step suppresses is hit, or was suppressed already. */
  lemma SuppressedByHit(s: System, step: Step, u: Users.UserId)
    requires Inv(s) && Enabled(s, step) && u in Suppressed(Next(s, step).users)
    ensures u in Suppressed(s.users) || Hit(Next(s, step), u)
  {
    if step.Mark? {
      assert HasEvent(Next(s, step), s.tasks[step.t].message);
    }
  }

  lemma StepKeepsJustified(s: System, step: Step, before: set<Users.UserId>)
    requires Inv(s) && Justified(s, before) && Enabled(s, step)
    ensures Justified(Next(s, step), before)
  {
    forall u | u in Suppressed(Next(s, step).users) ensures u in before || Hit(Next(s, step), u) {
      SuppressedByHit(s, step, u);
      if u in Suppressed(s.users) && Hit(s, u) {
        HitKept(s, step, u);
      }
    }
  }

  lemma {:induction false} ProgressAndJustified(s: System, steps: seq<Step>, start: set<Users.UserId>,
                                                before: set<Users.UserId>)
    requires Inv(s) && ValidRun(s, steps) && Progress(s, start) && start <= s.ids && Justified(s, before)
    ensures Progress(Final(s, steps), start) && Justified(Final(s, steps), before)
    decreases |steps|
  {
    if steps != [] {
      var s' := Next(s, steps[0]);
      StepKeepsInv(s, steps[0]);
      StepKeepsProgress(s, steps[0], start);
      StepKeepsJustified(s, steps[0], before);
      assert start <= s'.ids;
      ProgressAndJustified(s', steps[1..], start, before);
    }
  }

  /** All messages about events are gone from the queue and all their tasks completed. */
  ghost predicate Drained(s: System) {
    && (forall m :: HasEvent(s, m) ==> m !in s.queue)
    && forall t :: t in s.tasks ==> s.tasks[t].status == TaskQueue.Completed
  }

  /** The reference: every message handled once, in the given order, without any failure. */
  function ExactlyOnce(users: Users.Table, sent: map<MessageId, Body>, order: seq<MessageId>): Users.Table
    decreases |order|
  {
    if order == [] then users
    else
      ExactlyOnce(
        if order[0] in sent && Actionable(sent[order[0]])
        then MarkAll(users, Targets(sent[order[0]].event), NewStatus(sent[order[0]].event))
        else users,
        sent, order[1..])
  }

  lemma {:induction false} MarkAllSuppresses(users: Users.Table, emails: seq<string>, status: Users.EmailStatus)
    requires status != Users.Active
    ensures var after := MarkAll(users, emails, status);
            && after.Keys == users.Keys
            && (forall u :: u in users ==> after[u].email == users[u].email)
            && (forall u :: u in users ==>
                 (u in Suppressed(after) <==> u in Suppressed(users) || users[u].email in emails))
    decreases |emails|
  {
    if emails != [] {
      MarkAllSuppresses(Users.Apply(users, Users.MarkEmail(emails[0], status)), emails[1..], status);
    }
  }

  ghost predicate HitBy(users: Users.Table, sent: map<MessageId, Body>, order: seq<MessageId>, u: Users.UserId) {
    && u in users
    && exists i :: 0 <= i < |order| && order[i] in sent && Actionable(sent[order[i]])
         && users[u].email in Targets(sent[order[i]].event)
  }

  lemma {:induction false} ExactlyOnceSuppresses(users: Users.Table, sent: map<MessageId, Body>,
                                                 order: seq<MessageId>, u: Users.UserId)
    requires u in users
    ensures var after := ExactlyOnce(users, sent, order);
            && u in after
            && (u in Suppressed(after) <==> u in Suppressed(users) || HitBy(users, sent, order, u))
    decreases |order|
  {
    if order != [] {
      var first := order[0] in sent && Actionable(sent[order[0]]);
      var users' := if first then MarkAll(users, Targets(sent[order[0]].event), NewStatus(sent[order[0]].event))
                    else users;
      if first {
        MarkAllSuppresses(users, Targets(sent[order[0]].event), NewStatus(sent[order[0]].event));
      }
      ExactlyOnceSuppresses(users', sent, order[1..], u);
      if HitBy(users', sent, order[1..], u) {
        var i :| 0 <= i < |order[1..]| && order[1..][i] in sent && Actionable(sent[order[1..][i]])
          && users'[u].email in Targets(sent[order[1..][i]].event);
        assert order[i + 1] == order[1..][i];
      }
      if HitBy(users, sent, order, u) {
        var i :| 0 <= i < |order| && order[i] in sent && Actionable(sent[order[i]])
          && users[u].email in Targets(sent[order[i]].event);
        if i > 0 {
          assert order[1..][i - 1] == order[i];
        }
      }
    }
  }

  /** Which events hit a user: a permanent bounce of the address, or a complaint from it. */
  lemma HitExactly(s: System, u: Users.UserId)
    requires u in s.users
    ensures Hit(s, u) <==>
      exists m :: m in s.sent && s.sent[m].WellFormed? &&
        ((s.sent[m].event.Bounce? && s.sent[m].event.bounceType == "Permanent"
          && s.users[u].email in s.sent[m].event.recipients)
         || (s.sent[m].event.Complaint? && s.users[u].email in s.sent[m].event.complained))
  {
    forall m | m in s.sent && s.sent[m].WellFormed?
      ensures (HasEvent(s, m) && s.users[u].email in Targets(s.sent[m].event)) <==>
        ((s.sent[m].event.Bounce? && s.sent[m].event.bounceType == "Permanent"
          && s.users[u].email in s.sent[m].event.recipients)
         || (s.sent[m].event.Complaint? && s.users[u].email in s.sent[m].event.complained))
    {
    }
  }

  /**
    In a drained state, of the users there from the start exactly those hit, or suppressed
    before, are suppressed; of those who signed up later, exactly those hit by an event that
    marked their address after they had.
   */
  lemma DrainedSuppresses(users: Users.Table, steps: seq<Step>, u: Users.UserId)
    requires ValidRun(Initial(users), steps) && Drained(Final(Initial(users), steps))
    requires u in Final(Initial(users), steps).users
    ensures var f := Final(Initial(users), steps);
            if u in users
            then f.users[u].email == users[u].email &&
                 (u in Suppressed(f.users) <==> u in Suppressed(users) || Hit(f, u))
            else (u in Suppressed(f.users) <==> Marked(Initial(users), steps, u)) &&
                 (u in Suppressed(f.users) ==> Hit(f, u))
    ensures var f := Final(Initial(users), steps);
            u in users ==>
              (f.users[u].emailStatus != Users.Active <==>
                 || users[u].emailStatus != Users.Active
                 || exists m :: m in f.sent && f.sent[m].WellFormed? &&
                      ((f.sent[m].event.Bounce? && f.sent[m].event.bounceType == "Permanent"
                        && users[u].email in f.sent[m].event.recipients)
                       || (f.sent[m].event.Complaint? && users[u].email in f.sent[m].event.complained)))
  {
    var s := Initial(users);
    var f := Final(s, steps);
    NothingLost(s, steps);
    ProgressAndJustified(s, steps, users.Keys, Suppressed(users));
    SuppressedExactly(s, steps, u);
    if u in users {
      SuppressedForever(s, steps, u);
      HitExactly(f, u);
      if Hit(f, u) {
        var m :| HasEvent(f, m) && f.users[u].email in Targets(f.sent[m].event);
        var t :| TaskFor(f, m, t);
        var k :| 0 <= k < |Targets(EventOf(f, t))| && Targets(EventOf(f, t))[k] == f.users[u].email;
        assert Dealt(f, t, f.users[u].email);
      }
    }
  }

  /**
    Redelivery, failed inserts and deletions, retries and handlers stopped midway make no
    difference in the end: once drained, of the users there at the start and at the end the
    same ones are suppressed as if every message had been delivered and handled exactly
    once, in whatever order.
   */
  lemma AsIfExactlyOnce(users: Users.Table, steps: seq<Step>, order: seq<MessageId>)
    requires ValidRun(Initial(users), steps) && Drained(Final(Initial(users), steps))
    requires forall m :: m in order <==> m in Final(Initial(users), steps).sent
    ensures var f := Final(Initial(users), steps);
            Suppressed(f.users) * users.Keys == Suppressed(ExactlyOnce(users, f.sent, order)) * f.users.Keys
  {
    var f := Final(Initial(users), steps);
    var once := ExactlyOnce(users, f.sent, order);
    ExactlyOnceKeys(users, f.sent, order);
    forall u | u in users && u in f.users ensures u in Suppressed(f.users) <==> u in Suppressed(once) {
      DrainedSuppresses(users, steps, u);
      ExactlyOnceSuppresses(users, f.sent, order, u);
      HitByOrder(users, f, order, u);
    }
  }

  lemma HitByOrder(users: Users.Table, f: System, order: seq<MessageId>, u: Users.UserId)
    requires u in users && u in f.users && f.users[u].email == users[u].email
    requires forall m :: m in order <==> m in f.sent
    ensures Hit(f, u) <==> HitBy(users, f.sent, order, u)
  {
    if Hit(f, u) {
      var m :| HasEvent(f, m) && f.users[u].email in Targets(f.sent[m].event);
      var i :| 0 <= i < |order| && order[i] == m;
    }
    if HitBy(users, f.sent, order, u) {
      var i :| 0 <= i < |order| && order[i] in f.sent && Actionable(f.sent[order[i]])
        && users[u].email in Targets(f.sent[order[i]].event);
      assert HasEvent(f, order[i]);
    }
  }

  lemma {:induction false} ExactlyOnceKeys(users: Users.Table, sent: map<MessageId, Body>, order: seq<MessageId>)
    ensures ExactlyOnce(users, sent, order).Keys == users.Keys
    decreases |order|
  {
    if order != [] {
      if order[0] in sent && Actionable(sent[order[0]]) {
        MarkAllSuppresses(users, Targets(sent[order[0]].event), NewStatus(sent[order[0]].event));
        ExactlyOnceKeys(MarkAll(users, Targets(sent[order[0]].event), NewStatus(sent[order[0]].event)),
                        sent, order[1..]);
      } else {
        ExactlyOnceKeys(users, sent, order[1..]);
      }
    }
  }

  // ---------------------------------------------------------------------
  // The poller's loop over one batch.
  // ---------------------------------------------------------------------

  /** A received message, and whether the insert and the deletion will succeed. */
  datatype Received = Received(m: MessageId, body: Body, insertOk: bool, deleteOk: bool)

  /** processSESMessage returns without an error. */
  predicate Processes(r: Received) {
    r.body.WellFormed? && (r.body.event.Unhandled? || r.insertOk)
  }

  lemma {:induction false} RunConcat(s: System, first: seq<Step>, second: seq<Step>)
    requires ValidRun(s, first) && ValidRun(Final(s, first), second)
    ensures ValidRun(s, first + second)
    ensures Final(s, first + second) == Final(Final(s, first), second)
    decreases |first|
  {
    if first == [] {
      assert first + second == second;
    } else {
      RunConcat(Next(s, first[0]), first[1..], second);
      assert (first + second)[1..] == first[1..] + second;
    }
  }

  lemma TwoSteps(s: System, a: Step, b: Step)
    requires Enabled(s, a) && Enabled(Next(s, a), b)
    ensures ValidRun(s, [a, b]) && Final(s, [a, b]) == Next(Next(s, a), b)
  {
    var s1 := Next(s, a);
    assert [a, b][1..] == [b] && [b][1..] == [];
    assert ValidRun(Next(s1, b), []) && Final(Next(s1, b), []) == Next(s1, b);
    assert ValidRun(s1, [b]) && Final(s1, [b]) == Next(s1, b);
  }

  class Poller {
    var queue: set<MessageId>
    var tasks: map<TaskId, Task>
    ghost var processed: set<MessageId>

    constructor (queue: set<MessageId>)
      ensures this.queue == queue && tasks == map[] && processed == {}
    {
      this.queue, tasks, processed := queue, map[], {};
    }

    /** The pipeline with what this poller has done so far. */
    ghost function View(s: System): System
      reads this
    {
      s.(queue := queue, tasks := tasks, processed := processed)
    }

    /** Enqueue first, delete only then; on an error the message stays for redelivery. */
    method ProcessMessage(r: Received, t: TaskId, ghost s: System) returns (ghost trace: seq<Step>)
      requires s == View(s) && r.m in s.sent && s.sent[r.m] == r.body && t !in tasks
      modifies this
      ensures ValidRun(s, trace) && Final(s, trace) == View(s)
      ensures queue == if Processes(r) && r.deleteOk then old(queue) - {r.m} else old(queue)
      ensures tasks == if Processes(r) && Actionable(r.body) then old(tasks)[t := Task(r.m, TaskQueue.Pending, 0)]
                       else old(tasks)
      ensures queue == if r.body.WellFormed? && (r.body.event.Unhandled? || r.insertOk) && r.deleteOk
                       then old(queue) - {r.m}
                       else old(queue)
      ensures tasks == if r.body.WellFormed? && !r.body.event.Unhandled? && r.insertOk
                       then old(tasks)[t := Task(r.m, TaskQueue.Pending, 0)]
                       else old(tasks)
    {
      trace := [];
      if r.body.Malformed? {
        return;
      }
      if r.body.event.Unhandled? {
        trace := [Skip(r.m), Delete(r.m, r.deleteOk)];
      } else {
        if !r.insertOk {
          return;
        }
        tasks := tasks[t := Task(r.m, TaskQueue.Pending, 0)];
        trace := [Enqueue(r.m, t), Delete(r.m, r.deleteOk)];
      }
      processed := processed + {r.m};
      if r.deleteOk {
        queue := queue - {r.m};
      }
      TwoSteps(s, trace[0], trace[1]);
    }

    /**
      One batch is a run of the pipeline. What was processed and deleted is not in the queue
      afterwards, the rest of the batch is where it was, and other messages stay.
     */
    method PollBatch(batch: seq<Received>, firstTask: TaskId, ghost s: System) returns (ghost trace: seq<Step>)
      requires s == View(s)
      requires forall k :: 0 <= k < |batch| ==> batch[k].m in s.sent && s.sent[batch[k].m] == batch[k].body
      requires forall t :: t in tasks ==> t < firstTask
      modifies this
      ensures ValidRun(s, trace) && Final(s, trace) == View(s)
      ensures queue == old(queue) - DeletedBy(batch)
      ensures forall m :: m in queue <==>
        && m in old(queue)
        && forall k :: 0 <= k < |batch| && batch[k].m == m ==>
             !(batch[k].body.WellFormed? && (batch[k].body.event.Unhandled? || batch[k].insertOk) && batch[k].deleteOk)
      ensures forall k :: 0 <= k < |batch| && Processes(batch[k]) && Actionable(batch[k].body) ==>
        firstTask + k in tasks && tasks[firstTask + k] == Task(batch[k].m, TaskQueue.Pending, 0)
    {
      trace := [];
      ghost var now := s;
      for i := 0 to |batch|
        invariant now == View(s)
        invariant ValidRun(s, trace) && Final(s, trace) == now
        invariant forall t :: t in tasks ==> t < firstTask + i
        invariant queue == old(queue) - DeletedBy(batch[..i])
        invariant forall k :: 0 <= k < i && Processes(batch[k]) && Actionable(batch[k].body) ==>
          firstTask + k in tasks && tasks[firstTask + k] == Task(batch[k].m, TaskQueue.Pending, 0)
      {
        ghost var steps := ProcessMessage(batch[i], firstTask + i, now);
        RunConcat(s, trace, steps);
        trace, now := trace + steps, Final(now, steps);
        DeletedByOneMore(batch, i);
      }
      assert batch[..|batch|] == batch;
    }
  }

  /** The messages a batch acknowledges. */
  ghost function DeletedBy(batch: seq<Received>): set<MessageId> {
    set k | 0 <= k < |batch| && Processes(batch[k]) && batch[k].deleteOk :: batch[k].m
  }

  lemma DeletedByOneMore(batch: seq<Received>, i: nat)
    requires i < |batch|
    ensures DeletedBy(batch[..i + 1])
         == DeletedBy(batch[..i]) + (if Processes(batch[i]) && batch[i].deleteOk then {batch[i].m} else {})
  {
    assert batch[..i + 1] == batch[..i] + [batch[i]];
  }
}
