/**
  Deadline reminders: grouping bookmarks by user, and mailing each deadline once
  (internal/data/bookmarks.go, internal/worker/cron.go).
 */
module Reminders {
  import CronClaims

  const DAYS_AHEAD: int := 3

  datatype Bookmark = Bookmark(opportunity: nat, title: string, employer: string, deadline: int, daysRemaining: int)

  /** One row of the query. */
  datatype Row = Row(
    user: nat, email: string, firstName: string, opportunity: nat, title: string, employer: string, deadline: int)

  datatype Recipient = Recipient(user: nat, email: string, firstName: string, bookmarks: seq<Bookmark>)

  // ---------------------------------------------------------------------
  // Grouping.
  // ---------------------------------------------------------------------

  function BookmarkOf(row: Row, daysAhead: int): Bookmark {
    Bookmark(row.opportunity, row.title, row.employer, row.deadline, daysAhead)
  }

  function DeliveriesOf(r: Recipient): seq<(nat, Bookmark)> {
    seq(|r.bookmarks|, i requires 0 <= i < |r.bookmarks| => (r.user, r.bookmarks[i]))
  }

  /** Who gets what, in order. */
  function Deliveries(recipients: seq<Recipient>): seq<(nat, Bookmark)> {
    if recipients == [] then []
    else Deliveries(recipients[..|recipients| - 1]) + DeliveriesOf(recipients[|recipients| - 1])
  }

  function RowDeliveries(rows: seq<Row>, daysAhead: int): seq<(nat, Bookmark)> {
    seq(|rows|, i requires 0 <= i < |rows| => (rows[i].user, BookmarkOf(rows[i], daysAhead)))
  }

  ghost predicate SortedByUser(rows: seq<Row>) {
    forall i, j :: 0 <= i < j < |rows| ==> rows[i].user <= rows[j].user
  }

  /** One more bookmark for the last recipient. */
  function WithBookmark(recipients: seq<Recipient>, b: Bookmark): seq<Recipient>
    requires recipients != []
  {
    var k := |recipients| - 1;
    recipients[k := recipients[k].(bookmarks := recipients[k].bookmarks + [b])]
  }

  lemma OneMoreDelivery(r: Recipient, b: Bookmark)
    ensures DeliveriesOf(r.(bookmarks := r.bookmarks + [b])) == DeliveriesOf(r) + [(r.user, b)]
  {
  }

  lemma AppendBookmark(recipients: seq<Recipient>, b: Bookmark)
    requires recipients != []
    ensures Deliveries(WithBookmark(recipients, b)) == Deliveries(recipients) + [(recipients[|recipients| - 1].user, b)]
  {
    var k := |recipients| - 1;
    var r := recipients[k];
    var grown := WithBookmark(recipients, b);
    assert grown[..k] == recipients[..k];
    OneMoreDelivery(r, b);
  }

  lemma AppendRecipient(recipients: seq<Recipient>, r: Recipient)
    requires r.bookmarks == []
    ensures Deliveries(recipients + [r]) == Deliveries(recipients)
  {
    assert (recipients + [r])[..|recipients|] == recipients;
  }

  /** A recipient has at least one bookmark and the address of a row of that user. */
  ghost predicate FromRows(r: Recipient, rows: seq<Row>) {
    r.bookmarks != []
    && exists i ::
         0 <= i < |rows| && rows[i].user == r.user && rows[i].email == r.email && rows[i].firstName == r.firstName
  }

  /** Nothing is lost, added or reordered; neighbours differ; sorted rows give each user one recipient. */
  ghost predicate Grouped(recipients: seq<Recipient>, rows: seq<Row>, daysAhead: int) {
    && Deliveries(recipients) == RowDeliveries(rows, daysAhead)
    && (forall k :: 0 <= k < |recipients| ==> FromRows(recipients[k], rows))
    && (forall k :: 0 < k < |recipients| ==> recipients[k - 1].user != recipients[k].user)
    && (rows != [] ==> recipients != [] && recipients[|recipients| - 1].user == rows[|rows| - 1].user)
    && (SortedByUser(rows) ==> forall j, k :: 0 <= j < k < |recipients| ==> recipients[j].user < recipients[k].user)
  }

  lemma FromMoreRows(r: Recipient, rows: seq<Row>, row: Row)
    requires FromRows(r, rows)
    ensures FromRows(r, rows + [row])
  {
    var i :| 0 <= i < |rows| && rows[i].user == r.user && rows[i].email == r.email && rows[i].firstName == r.firstName;
    assert (rows + [row])[i] == rows[i];
  }

  lemma FromLastRow(r: Recipient, rows: seq<Row>, row: Row)
    requires r.bookmarks != [] && r.user == row.user && r.email == row.email && r.firstName == row.firstName
    ensures FromRows(r, rows + [row])
  {
    assert (rows + [row])[|rows|] == row;
  }

  lemma OneMoreRow(rows: seq<Row>, row: Row, daysAhead: int)
    ensures RowDeliveries(rows + [row], daysAhead)
         == RowDeliveries(rows, daysAhead) + [(row.user, BookmarkOf(row, daysAhead))]
  {
  }

  /** The next row goes to the last recipient, who is of the same user. */
  lemma GroupSame(recipients: seq<Recipient>, rows: seq<Row>, row: Row, daysAhead: int)
    requires Grouped(recipients, rows, daysAhead) && recipients != [] && recipients[|recipients| - 1].user == row.user
    ensures Grouped(WithBookmark(recipients, BookmarkOf(row, daysAhead)), rows + [row], daysAhead)
  {
    var grown := WithBookmark(recipients, BookmarkOf(row, daysAhead));
    AppendBookmark(recipients, BookmarkOf(row, daysAhead));
    OneMoreRow(rows, row, daysAhead);
    forall j | 0 <= j < |grown| ensures FromRows(grown[j], rows + [row]) {
      FromMoreRows(recipients[j], rows, row);
    }
    assert SortedByUser(rows + [row]) ==> SortedByUser(rows) by {
      PrefixSorted(rows, row);
    }
  }

  lemma PrefixSorted(rows: seq<Row>, row: Row)
    ensures SortedByUser(rows + [row]) ==>
      SortedByUser(rows) && forall i :: 0 <= i < |rows| ==> rows[i].user <= row.user
  {
    if SortedByUser(rows + [row]) {
      forall i, j | 0 <= i < j < |rows| ensures rows[i].user <= rows[j].user {
        assert (rows + [row])[i].user <= (rows + [row])[j].user;
      }
      forall i | 0 <= i < |rows| ensures rows[i].user <= row.user {
        assert (rows + [row])[i].user <= (rows + [row])[|rows|].user;
      }
    }
  }

  /** The next row opens a new recipient. */
  lemma GroupNew(recipients: seq<Recipient>, rows: seq<Row>, row: Row, daysAhead: int)
    requires Grouped(recipients, rows, daysAhead) &&
             (recipients != [] ==> recipients[|recipients| - 1].user != row.user)
    ensures Grouped(WithBookmark(recipients + [Recipient(row.user, row.email, row.firstName, [])],
                                 BookmarkOf(row, daysAhead)),
                    rows + [row], daysAhead)
  {
    var empty := Recipient(row.user, row.email, row.firstName, []);
    var widened := recipients + [empty];
    var grown := WithBookmark(widened, BookmarkOf(row, daysAhead));
    AppendRecipient(recipients, empty);
    AppendBookmark(widened, BookmarkOf(row, daysAhead));
    OneMoreRow(rows, row, daysAhead);
    forall j | 0 <= j < |grown| ensures FromRows(grown[j], rows + [row]) {
      if j < |recipients| {
        FromMoreRows(recipients[j], rows, row);
      } else {
        FromLastRow(grown[j], rows, row);
      }
    }
    PrefixSorted(rows, row);
  }

  lemma {:induction false} DeliveryAt(recipients: seq<Recipient>, p: nat, x: nat)
    requires p < |recipients| && x < |recipients[p].bookmarks|
    ensures var k := |Deliveries(recipients[..p])| + x;
            k < |Deliveries(recipients)| &&
            Deliveries(recipients)[k] == (recipients[p].user, recipients[p].bookmarks[x])
    decreases |recipients|
  {
    var last := |recipients| - 1;
    var before := recipients[..last];
    if p < last {
      DeliveryAt(before, p, x);
      assert before[..p] == recipients[..p];
    } else {
      assert Deliveries(recipients) == Deliveries(before) + DeliveriesOf(recipients[last]);
    }
  }

  /** Each bookmark of each recipient has a row of its own. */
  lemma RowOfBookmark(recipients: seq<Recipient>, rows: seq<Row>, daysAhead: int, p: nat, x: nat)
    requires Grouped(recipients, rows, daysAhead) && p < |recipients| && x < |recipients[p].bookmarks|
    ensures var k := |Deliveries(recipients[..p])| + x;
            k < |rows| && rows[k].user == recipients[p].user &&
            recipients[p].bookmarks[x] == BookmarkOf(rows[k], daysAhead)
  {
    DeliveryAt(recipients, p, x);
    var k := |Deliveries(recipients[..p])| + x;
    assert Deliveries(recipients)[k] == RowDeliveries(rows, daysAhead)[k];
  }

  lemma {:induction false} DeliveryFrom(recipients: seq<Recipient>, k: nat) returns (p: nat, x: nat)
    requires k < |Deliveries(recipients)|
    ensures p < |recipients| && x < |recipients[p].bookmarks|
    ensures Deliveries(recipients)[k] == (recipients[p].user, recipients[p].bookmarks[x])
    decreases |recipients|
  {
    var last := |recipients| - 1;
    var before := recipients[..last];
    assert Deliveries(recipients) == Deliveries(before) + DeliveriesOf(recipients[last]);
    if k < |Deliveries(before)| {
      p, x := DeliveryFrom(before, k);
      assert before[p] == recipients[p];
    } else {
      p, x := last, k - |Deliveries(before)|;
    }
  }

  /** The recipients with one more row taken in. */
  function Grown(recipients: seq<Recipient>, row: Row, daysAhead: int): seq<Recipient> {
    if recipients == [] || recipients[|recipients| - 1].user != row.user
    then WithBookmark(recipients + [Recipient(row.user, row.email, row.firstName, [])], BookmarkOf(row, daysAhead))
    else WithBookmark(recipients, BookmarkOf(row, daysAhead))
  }

  lemma GroupOneMore(recipients: seq<Recipient>, rows: seq<Row>, row: Row, daysAhead: int)
    requires Grouped(recipients, rows, daysAhead)
    ensures Grouped(Grown(recipients, row, daysAhead), rows + [row], daysAhead)
  {
    if recipients == [] || recipients[|recipients| - 1].user != row.user {
      GroupNew(recipients, rows, row, daysAhead);
    } else {
      GroupSame(recipients, rows, row, daysAhead);
    }
  }

  /** What the loop builds, row by row. */
  function Grouping(rows: seq<Row>, daysAhead: int): seq<Recipient> {
    if rows == [] then [] else Grown(Grouping(rows[..|rows| - 1], daysAhead), rows[|rows| - 1], daysAhead)
  }

  lemma {:induction false} GroupingIsGrouped(rows: seq<Row>, daysAhead: int)
    ensures Grouped(Grouping(rows, daysAhead), rows, daysAhead)
    decreases |rows|
  {
    if rows != [] {
      var init, last := rows[..|rows| - 1], rows[|rows| - 1];
      GroupingIsGrouped(init, daysAhead);
      GroupOneMore(Grouping(init, daysAhead), init, last, daysAhead);
      assert rows == init + [last];
    }
  }

  /** The grouping loop. `current` stands for the pointer into the growing slice, -1 for nil. */
  method GroupRecipients(rows: seq<Row>, daysAhead: int) returns (recipients: seq<Recipient>)
    ensures recipients == Grouping(rows, daysAhead)
    ensures Grouped(recipients, rows, daysAhead)
  {
    recipients := [];
    var current := -1;
    for i := 0 to |rows|
      invariant current == |recipients| - 1
      invariant recipients == Grouping(rows[..i], daysAhead)
    {
      var row := rows[i];
      ghost var before := recipients;
      assert rows[..i + 1][..i] == rows[..i];
      if current == -1 || recipients[current].user != row.user {
        recipients := recipients + [Recipient(row.user, row.email, row.firstName, [])];
        current := |recipients| - 1;
      }
      recipients := recipients[
        current := recipients[current].(bookmarks := recipients[current].bookmarks + [BookmarkOf(row, daysAhead)])];
      assert recipients == Grown(before, row, daysAhead);
    }
    assert rows[..|rows|] == rows;
    GroupingIsGrouped(rows, daysAhead);
  }

  /** A recipient is addressed as in a row of that user. */
  lemma RecipientAddress(recipients: seq<Recipient>, rows: seq<Row>, daysAhead: int, p: nat) returns (k: nat)
    requires Grouped(recipients, rows, daysAhead) && p < |recipients|
    ensures k < |rows| && rows[k].user == recipients[p].user
    ensures rows[k].email == recipients[p].email && rows[k].firstName == recipients[p].firstName
  {
    assert FromRows(recipients[p], rows);
    k :| 0 <= k < |rows| && rows[k].user == recipients[p].user && rows[k].email == recipients[p].email
         && rows[k].firstName == recipients[p].firstName;
  }

  /** Rows in the order of their users give each user one recipient. */
  lemma OneRecipientEach(recipients: seq<Recipient>, rows: seq<Row>, daysAhead: int, p: nat, q: nat)
    requires Grouped(recipients, rows, daysAhead) && p < |recipients| && q < |recipients|
    requires forall i, j :: 0 <= i < j < |rows| ==> rows[i].user <= rows[j].user
    requires recipients[p].user == recipients[q].user
    ensures p == q
  {
  }

  /** Every bookmark is a row of its user, column by column. */
  lemma EveryBookmarkIsARow(recipients: seq<Recipient>, rows: seq<Row>, daysAhead: int, p: nat, x: nat) returns (k: nat)
    requires Grouped(recipients, rows, daysAhead) && p < |recipients| && x < |recipients[p].bookmarks|
    ensures k < |rows| && rows[k].user == recipients[p].user
    ensures recipients[p].bookmarks[x]
         == Bookmark(rows[k].opportunity, rows[k].title, rows[k].employer, rows[k].deadline, daysAhead)
  {
    RowOfBookmark(recipients, rows, daysAhead, p, x);
    k := |Deliveries(recipients[..p])| + x;
  }

  /** And every row is a bookmark of its user. */
  lemma EveryRowIsABookmark(recipients: seq<Recipient>, rows: seq<Row>, daysAhead: int, k: nat) returns (p: nat, x: nat)
    requires Grouped(recipients, rows, daysAhead) && k < |rows|
    ensures p < |recipients| && x < |recipients[p].bookmarks| && recipients[p].user == rows[k].user
    ensures recipients[p].bookmarks[x]
         == Bookmark(rows[k].opportunity, rows[k].title, rows[k].employer, rows[k].deadline, daysAhead)
  {
    assert RowDeliveries(rows, daysAhead)[k] == (rows[k].user, BookmarkOf(rows[k], daysAhead));
    p, x := DeliveryFrom(recipients, k);
  }

  // ---------------------------------------------------------------------
  // One task per recipient.
  // ---------------------------------------------------------------------

  /** The tasks are for the recipients at the picked positions, in order. */
  ghost predicate Picks(tasks: seq<Recipient>, recipients: seq<Recipient>, picked: seq<nat>) {
    && |tasks| == |picked|
    && (forall p :: 0 <= p < |picked| ==> picked[p] < |recipients| && tasks[p] == recipients[picked[p]])
    && forall p, q :: 0 <= p < q < |picked| ==> picked[p] < picked[q]
  }

  /** The loop that enqueues: a failed insert is skipped, the others still get their task. */
  method EnqueueDeadlineReminders(rows: seq<Row>, insertOk: nat -> bool)
    returns (tasks: seq<Recipient>, enqueued: nat, ghost recipients: seq<Recipient>, ghost picked: seq<nat>)
    ensures Grouped(recipients, rows, 3) && Picks(tasks, recipients, picked)
    ensures forall k: nat :: k in picked <==> k < |recipients| && insertOk(k)
    ensures enqueued == |tasks|
  {
    var found := GroupRecipients(rows, DAYS_AHEAD);
    recipients := found;
    tasks, enqueued, picked := EnqueueEach(found, insertOk);
  }

  method EnqueueEach(found: seq<Recipient>, insertOk: nat -> bool)
    returns (tasks: seq<Recipient>, enqueued: nat, ghost picked: seq<nat>)
    ensures Picks(tasks, found, picked) && enqueued == |tasks|
    ensures forall k: nat :: k in picked <==> k < |found| && insertOk(k)
  {
    tasks, enqueued, picked := [], 0, [];
    for k := 0 to |found|
      invariant Picks(tasks, found, picked) && enqueued == |tasks|
      invariant forall x: nat :: x in picked <==> x < k && insertOk(x)
      invariant forall p :: 0 <= p < |picked| ==> picked[p] < k
    {
      if insertOk(k) {
        tasks, enqueued, picked := tasks + [found[k]], enqueued + 1, picked + [k];
      }
    }
  }

  // ---------------------------------------------------------------------
  // Each deadline once.
  // ---------------------------------------------------------------------

  /** A run of the job: the date it claimed, the date its query read, and the rows it mailed. */
  datatype Run = Run(claimDate: int, queryDate: int, rows: seq<Row>)

  /** The query asks for one deadline, and a user bookmarks an opportunity at most once. */
  ghost predicate Possible(run: Run) {
    && (forall k :: 0 <= k < |run.rows| ==> run.rows[k].deadline == run.queryDate + DAYS_AHEAD)
    && forall k, l :: 0 <= k < l < |run.rows| ==>
         !(run.rows[k].user == run.rows[l].user && run.rows[k].opportunity == run.rows[l].opportunity)
  }

  ghost predicate PossibleHistory(history: seq<Run>) {
    forall i :: 0 <= i < |history| ==> Possible(history[i])
  }

  predicate SameReminder(a: Row, b: Row) {
    a.user == b.user && a.opportunity == b.opportunity && a.deadline == b.deadline
  }

  /** No (user, opportunity, deadline) is mailed twice. */
  ghost predicate OnceEver(history: seq<Run>) {
    forall i, j, k, l ::
      (0 <= i < |history| && 0 <= j < |history| && 0 <= k < |history[i].rows| && 0 <= l < |history[j].rows|
       && SameReminder(history[i].rows[k], history[j].rows[l])) ==> i == j && k == l
  }

  ghost predicate Distinct(dates: seq<int>) {
    forall i, j :: 0 <= i < j < |dates| ==> dates[i] != dates[j]
  }

  ghost predicate Queried(history: seq<Run>, dates: seq<int>) {
    |history| == |dates| && forall i :: 0 <= i < |dates| ==> history[i].queryDate == dates[i]
  }

  lemma DistinctQueriesMailOnce(history: seq<Run>, dates: seq<int>)
    requires PossibleHistory(history) && Queried(history, dates) && Distinct(dates)
    ensures OnceEver(history)
  {
    forall i, j, k, l | 0 <= i < |history| && 0 <= j < |history| &&
      0 <= k < |history[i].rows| && 0 <= l < |history[j].rows|
      && SameReminder(history[i].rows[k], history[j].rows[l]) ensures i == j && k == l
    {
      assert Possible(history[i]) && Possible(history[j]);
      assert dates[i] == dates[j];
    }
  }

  /** What one run queued: its tasks, and the recipients they are for. */
  datatype Batch = Batch(tasks: seq<Recipient>, recipients: seq<Recipient>, picked: seq<nat>)

  ghost predicate BatchOf(batch: Batch, run: Run) {
    && SortedByUser(run.rows)
    && Grouped(batch.recipients, run.rows, DAYS_AHEAD)
    && Picks(batch.tasks, batch.recipients, batch.picked)
  }

  /** A bookmark in a task: the run, the task of that run, the bookmark of that task. */
  datatype Place = Place(run: nat, task: nat, mark: nat)

  predicate PlaceIn(batches: seq<Batch>, at: Place) {
    at.run < |batches| && at.task < |batches[at.run].tasks| && at.mark < |batches[at.run].tasks[at.task].bookmarks|
  }

  function Reminder(batches: seq<Batch>, at: Place): (nat, nat, int)
    requires PlaceIn(batches, at)
  {
    var task := batches[at.run].tasks[at.task];
    (task.user, task.bookmarks[at.mark].opportunity, task.bookmarks[at.mark].deadline)
  }

  lemma PlaceHasRow(history: seq<Run>, batches: seq<Batch>, at: Place) returns (k: nat)
    requires |batches| == |history| && PlaceIn(batches, at) && BatchOf(batches[at.run], history[at.run])
    ensures var batch := batches[at.run];
            k == |Deliveries(batch.recipients[..batch.picked[at.task]])| + at.mark
    ensures k < |history[at.run].rows|
    ensures var row := history[at.run].rows[k];
            Reminder(batches, at) == (row.user, row.opportunity, row.deadline)
  {
    var batch := batches[at.run];
    RowOfBookmark(batch.recipients, history[at.run].rows, DAYS_AHEAD, batch.picked[at.task], at.mark);
    k := |Deliveries(batch.recipients[..batch.picked[at.task]])| + at.mark;
  }

  /** If no row is mailed twice then each (user, opportunity, deadline) is in at most one task, and there once. */
  lemma TasksMailOnce(history: seq<Run>, batches: seq<Batch>, a: Place, b: Place)
    requires OnceEver(history) && |batches| == |history|
    requires forall i :: 0 <= i < |history| ==> BatchOf(batches[i], history[i])
    requires PlaceIn(batches, a) && PlaceIn(batches, b) && Reminder(batches, a) == Reminder(batches, b)
    ensures a == b
  {
    var k := PlaceHasRow(history, batches, a);
    var l := PlaceHasRow(history, batches, b);
    assert SameReminder(history[a.run].rows[k], history[b.run].rows[l]);
    var batch := batches[a.run];
    var p, q := batch.picked[a.task], batch.picked[b.task];
    assert batch.recipients[p].user == batch.recipients[q].user;
    assert p == q;
    assert a.task == b.task;
  }

  function OneRowEach(dates: seq<int>): seq<Run> {
    seq(|dates|, i requires 0 <= i < |dates| => Run(i, dates[i], [Row(0, "", "", 0, "", "", dates[i] + DAYS_AHEAD)]))
  }

  /** Reminders never repeat, whatever is bookmarked, exactly if no two runs query the same date. */
  lemma OnceEverExactly(dates: seq<int>)
    ensures (forall history :: PossibleHistory(history) && Queried(history, dates) ==> OnceEver(history))
       <==> Distinct(dates)
  {
    if Distinct(dates) {
      forall history | PossibleHistory(history) && Queried(history, dates) ensures OnceEver(history) {
        DistinctQueriesMailOnce(history, dates);
      }
    } else {
      var i, j :| 0 <= i < j < |dates| && dates[i] == dates[j];
      var history := OneRowEach(dates);
      assert PossibleHistory(history) && Queried(history, dates);
      assert SameReminder(history[i].rows[0], history[j].rows[0]);
      assert !OnceEver(history);
    }
  }

  // ---------------------------------------------------------------------
  // The two readings of the clock: one to claim, one to query.
  // ---------------------------------------------------------------------

  datatype Timed = Timed(claimAt: int, queryAt: int)

  /** The midnight that ends the Lagos date of a time. */
  function NextMidnight(t: int): int {
    CronClaims.StartOf(CronClaims.LagosDate(t) + 1, 0)
  }

  function QueryDates(runs: seq<Timed>): seq<int> {
    seq(|runs|, i requires 0 <= i < |runs| => CronClaims.LagosDate(runs[i].queryAt))
  }

  /** Each date is claimed once, and each run queries after it claimed. */
  ghost predicate ClaimedOnce(runs: seq<Timed>) {
    && (forall i :: 0 <= i < |runs| ==> runs[i].claimAt <= runs[i].queryAt)
    && forall i, j :: 0 <= i < j < |runs| ==>
         CronClaims.LagosDate(runs[i].claimAt) != CronClaims.LagosDate(runs[j].claimAt)
  }

  /** No reminder is queried twice, whatever is bookmarked. */
  ghost predicate MailOnce(runs: seq<Timed>) {
    forall history :: PossibleHistory(history) && Queried(history, QueryDates(runs)) ==> OnceEver(history)
  }

  predicate MidnightBetween(a: int, b: int) {
    NextMidnight(a) <= b || NextMidnight(b) <= a
  }

  lemma SameDate(a: int, b: int)
    ensures CronClaims.LagosDate(a) == CronClaims.LagosDate(b) <==> !MidnightBetween(a, b)
  {
    CronClaims.WithinHour(a, CronClaims.LagosDate(a), CronClaims.LagosHour(a));
    CronClaims.WithinHour(b, CronClaims.LagosDate(b), CronClaims.LagosHour(b));
  }

  /** Reminders never repeat exactly if a midnight lies between any two queries. */
  lemma MailOnceExactly(runs: seq<Timed>)
    ensures MailOnce(runs) <==> forall i, j :: 0 <= i < j < |runs| ==> MidnightBetween(runs[i].queryAt, runs[j].queryAt)
  {
    OnceEverExactly(QueryDates(runs));
    forall i, j | 0 <= i < j < |runs|
      ensures QueryDates(runs)[i] != QueryDates(runs)[j] <==> MidnightBetween(runs[i].queryAt, runs[j].queryAt)
    {
      SameDate(runs[i].queryAt, runs[j].queryAt);
    }
    if Distinct(QueryDates(runs)) {
      forall i, j | 0 <= i < j < |runs| ensures MidnightBetween(runs[i].queryAt, runs[j].queryAt) {
        assert QueryDates(runs)[i] != QueryDates(runs)[j];
      }
    }
  }

  /** The run queries before the midnight that ends the date it claimed. */
  predicate Stays(run: Timed) {
    run.queryAt < NextMidnight(run.claimAt)
  }

  lemma StayingReadsItsDate(run: Timed)
    requires run.claimAt <= run.queryAt
    ensures Stays(run) <==> CronClaims.LagosDate(run.queryAt) == CronClaims.LagosDate(run.claimAt)
  {
    SameDate(run.claimAt, run.queryAt);
    SameDate(run.queryAt, run.queryAt);
  }

  /** If all runs stay within their dates no reminder repeats. */
  lemma StayingRunsMailOnce(runs: seq<Timed>)
    requires ClaimedOnce(runs) && forall i :: 0 <= i < |runs| ==> Stays(runs[i])
    ensures MailOnce(runs)
  {
    forall i, j | 0 <= i < j < |runs| ensures MidnightBetween(runs[i].queryAt, runs[j].queryAt) {
      StayingReadsItsDate(runs[i]);
      StayingReadsItsDate(runs[j]);
      SameDate(runs[i].queryAt, runs[j].queryAt);
    }
    MailOnceExactly(runs);
  }

  /**
    For a run that claims at one time and queries at another, staying is what it takes:
    otherwise some run on another date, itself staying, repeats its reminders.
   */
  lemma StayingExactly(run: Timed)
    requires run.claimAt <= run.queryAt
    ensures Stays(run) <==> forall other: Timed :: ClaimedOnce([run, other]) && Stays(other) ==> MailOnce([run, other])
  {
    if Stays(run) {
      forall other: Timed | ClaimedOnce([run, other]) && Stays(other) ensures MailOnce([run, other]) {
        StayingRunsMailOnce([run, other]);
      }
    } else {
      var other := Timed(run.queryAt, run.queryAt);
      var both := [run, other];
      StayingReadsItsDate(run);
      StayingReadsItsDate(other);
      SameDate(run.queryAt, run.queryAt);
      MailOnceExactly(both);
      assert !MidnightBetween(both[0].queryAt, both[1].queryAt);
      assert ClaimedOnce(both) && Stays(other) && !MailOnce(both);
    }
  }

  /** What to check before a trigger: the query, however late, must come before midnight. */
  lemma TriggerGuardExactly(claimAt: int, patience: nat)
    ensures (forall queryAt :: claimAt <= queryAt <= claimAt + patience ==> Stays(Timed(claimAt, queryAt)))
       <==> claimAt + patience < NextMidnight(claimAt)
  {
    if claimAt + patience >= NextMidnight(claimAt) {
      assert !Stays(Timed(claimAt, claimAt + patience));
    }
  }

  /** The dates whose claim started the reminder job, in order. */
  function ReminderDates(started: seq<CronClaims.Claim>): seq<int> {
    if started == [] then []
    else
      ReminderDates(started[..|started| - 1])
      + (if started[|started| - 1].job == CronClaims.DeadlineReminders then [started[|started| - 1].date] else [])
  }

  lemma {:induction false} ClaimedDatesAreDistinct(started: seq<CronClaims.Claim>)
    requires forall c :: multiset(started)[c] <= 1
    ensures Distinct(ReminderDates(started))
    ensures forall d :: d in ReminderDates(started) ==> CronClaims.Claim(CronClaims.DeadlineReminders, d) in started
    decreases |started|
  {
    if started != [] {
      var init, last := started[..|started| - 1], started[|started| - 1];
      assert started == init + [last];
      assert multiset(started) == multiset(init) + multiset{last};
      forall c ensures multiset(init)[c] <= 1 {
        assert multiset(init)[c] <= multiset(started)[c];
      }
      ClaimedDatesAreDistinct(init);
      assert multiset(started)[last] <= 1;
      assert multiset(init)[last] == 0;
      assert last !in init;
    }
  }

  /** With one date read per run, the daily claim makes the queries find every reminder at most once, ever. */
  lemma ClaimedRunsMailOnce(steps: seq<CronClaims.Step>, history: seq<Run>)
    requires PossibleHistory(history)
    requires Queried(history, ReminderDates(CronClaims.Run(CronClaims.State({}, []), steps).started))
    ensures OnceEver(history)
  {
    CronClaims.InvAlways(CronClaims.State({}, []), steps);
    var started := CronClaims.Run(CronClaims.State({}, []), steps).started;
    ClaimedDatesAreDistinct(started);
    DistinctQueriesMailOnce(history, ReminderDates(started));
  }

  /** The same of the queued tasks: over any run of checks and triggers, no reminder is in two of them. */
  lemma ClaimedTasksMailOnce(steps: seq<CronClaims.Step>, history: seq<Run>, batches: seq<Batch>, a: Place, b: Place)
    requires PossibleHistory(history)
    requires Queried(history, ReminderDates(CronClaims.Run(CronClaims.State({}, []), steps).started))
    requires |batches| == |history| && forall i :: 0 <= i < |history| ==> BatchOf(batches[i], history[i])
    requires PlaceIn(batches, a) && PlaceIn(batches, b) && Reminder(batches, a) == Reminder(batches, b)
    ensures a == b
  {
    ClaimedRunsMailOnce(steps, history);
    TasksMailOnce(history, batches, a, b);
  }

  /**
    The code reads the clock twice, once to claim and once to query. Scheduled runs start
    at 18:00 to 18:59 and agree for the next five hours; a manual trigger just before
    midnight may query the date that the next day's run queries again.
   */
  lemma ScheduledRunsReadOneDate(t: int, t': int)
    requires CronClaims.LagosHour(t) == CronClaims.TargetHour(CronClaims.DeadlineReminders)
    requires t <= t' <= t + 5 * CronClaims.HOUR
    ensures CronClaims.LagosDate(t') == CronClaims.LagosDate(t)
  {
    var d := CronClaims.LagosDate(t);
    CronClaims.WithinHour(t, d, 18);
    var x := t' + CronClaims.LAGOS_OFFSET;
    assert d * CronClaims.DAY <= x < (d + 1) * CronClaims.DAY;
  }

  lemma MidnightTriggerRepeats(row: Row)
    requires row.deadline == 1 + DAYS_AHEAD
    ensures var steps := [CronClaims.Manual(CronClaims.DeadlineReminders, CronClaims.StartOf(1, 0) - 1),
                          CronClaims.Check(CronClaims.DeadlineReminders, CronClaims.StartOf(1, 18))];
            var history := [Run(0, CronClaims.LagosDate(CronClaims.StartOf(1, 0)), [row]),
                            Run(1, CronClaims.LagosDate(CronClaims.StartOf(1, 18)), [row])];
            && CronClaims.Run(CronClaims.State({}, []), steps).started
               == [CronClaims.Claim(CronClaims.DeadlineReminders, 0), CronClaims.Claim(CronClaims.DeadlineReminders, 1)]
            && PossibleHistory(history) && !OnceEver(history)
  {
    CronClaims.WithinHour(CronClaims.StartOf(1, 0) - 1, 0, 23);
    CronClaims.WithinHour(CronClaims.StartOf(1, 0), 1, 0);
    CronClaims.WithinHour(CronClaims.StartOf(1, 18), 1, 18);
    var steps := [CronClaims.Manual(CronClaims.DeadlineReminders, CronClaims.StartOf(1, 0) - 1),
                  CronClaims.Check(CronClaims.DeadlineReminders, CronClaims.StartOf(1, 18))];
    assert steps[1..] == [steps[1]] && steps[1..][1..] == [];
    var s1 := CronClaims.Next(CronClaims.State({}, []), steps[0]);
    assert CronClaims.Run(CronClaims.Next(s1, steps[1]), []) == CronClaims.Next(s1, steps[1]);
    assert CronClaims.Run(s1, [steps[1]]) == CronClaims.Next(s1, steps[1]);
    var history := [Run(0, 1, [row]), Run(1, 1, [row])];
    assert SameReminder(history[0].rows[0], history[1].rows[0]);
  }
}
