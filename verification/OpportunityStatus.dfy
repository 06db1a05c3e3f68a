/**
  The computed status of an opportunity and the status filters of the listing
  (internal/data/opportunities.go). Dates are day numbers.
 */
module OpportunityStatus {
  import opened Common

  datatype Opportunity = Opportunity(isActive: bool, opensAt: Option<int>, deadline: Option<int>)

  datatype Status = Withdrawn | Upcoming | Closed | Open

  datatype Filter = All | WithStatus(status: Status) | OpenOrUpcoming

  /** The CASE of the column list. */
  function StatusOn(o: Opportunity, today: int): Status {
    if !o.isActive then Withdrawn
    else if o.opensAt.Some? && today < o.opensAt.value then Upcoming
    else if o.deadline.Some? && today > o.deadline.value then Closed
    else Open
  }

  /** When each status is shown. */
  lemma StatusMeans(o: Opportunity, today: int)
    ensures StatusOn(o, today) == Withdrawn <==> !o.isActive
    ensures StatusOn(o, today) == Upcoming <==> o.isActive && o.opensAt.Some? && o.opensAt.value > today
    ensures StatusOn(o, today) == Closed <==>
      && o.isActive && (o.opensAt.None? || o.opensAt.value <= today)
      && o.deadline.Some? && o.deadline.value < today
    ensures StatusOn(o, today) == Open <==>
      && o.isActive && (o.opensAt.None? || o.opensAt.value <= today)
      && (o.deadline.None? || today <= o.deadline.value)
  {
  }

  /** The status part of the WHERE clause. */
  predicate Selects(f: Filter, o: Opportunity, today: int) {
    match f
    case All => true
    case WithStatus(Withdrawn) => !o.isActive
    case WithStatus(Upcoming) => o.isActive && o.opensAt.Some? && today < o.opensAt.value
    case WithStatus(Closed) => o.isActive && o.deadline.Some? && today > o.deadline.value
    case WithStatus(Open) =>
      o.isActive && (o.opensAt.None? || today >= o.opensAt.value) && (o.deadline.None? || today <= o.deadline.value)
    case OpenOrUpcoming => o.isActive && (o.deadline.None? || today <= o.deadline.value)
  }

  type Table = map<nat, Opportunity>

  function Selected(table: Table, f: Filter, today: int): set<nat> {
    set i | i in table && Selects(f, table[i], today)
  }

  function HavingStatus(table: Table, statuses: set<Status>, today: int): set<nat> {
    set i | i in table && StatusOn(table[i], today) in statuses
  }

  /** Not opening more than a day after its deadline. */
  predicate WellDated(o: Opportunity) {
    o.isActive && o.opensAt.Some? && o.deadline.Some? ==> o.opensAt.value <= o.deadline.value + 1
  }

  /** On a day every filter returns exactly the rows shown with its status. */
  ghost predicate FiltersAgree(table: Table, today: int) {
    && (forall s: Status :: Selected(table, WithStatus(s), today) == HavingStatus(table, {s}, today))
    && Selected(table, OpenOrUpcoming, today) == HavingStatus(table, {Open, Upcoming}, today)
  }

  lemma WellDatedRowAgrees(o: Opportunity, today: int, s: Status)
    requires WellDated(o)
    ensures Selects(WithStatus(s), o, today) <==> StatusOn(o, today) == s
    ensures Selects(OpenOrUpcoming, o, today) <==> StatusOn(o, today) in {Open, Upcoming}
  {
  }

  /** The filters agree with the computed status on every day exactly if all rows are well dated. */
  lemma FiltersAgreeExactly(table: Table)
    ensures (forall today :: FiltersAgree(table, today)) <==> forall i :: i in table ==> WellDated(table[i])
    ensures (forall today :: FiltersAgree(table, today)) <==>
      forall i :: i in table && table[i].isActive && table[i].opensAt.Some? && table[i].deadline.Some? ==>
        table[i].opensAt.value <= table[i].deadline.value + 1
  {
    if forall i :: i in table ==> WellDated(table[i]) {
      forall today ensures FiltersAgree(table, today) {
        forall s: Status ensures Selected(table, WithStatus(s), today) == HavingStatus(table, {s}, today) {
          forall i | i in table
            ensures i in Selected(table, WithStatus(s), today) <==> i in HavingStatus(table, {s}, today) {
            WellDatedRowAgrees(table[i], today, s);
          }
        }
        forall i | i in table
          ensures i in Selected(table, OpenOrUpcoming, today) <==> i in HavingStatus(table, {Open, Upcoming}, today)
        {
          WellDatedRowAgrees(table[i], today, Open);
        }
      }
    } else {
      var i :| i in table && !WellDated(table[i]);
      var today := table[i].deadline.value + 1;
      assert i in Selected(table, WithStatus(Closed), today) && i !in HavingStatus(table, {Closed}, today);
      assert !FiltersAgree(table, today);
    }
  }

  /** Where they agree, the four status filters split the table: every row in one, none in two. */
  lemma FiltersPartition(table: Table, today: int, i: nat, s: Status, s': Status)
    requires FiltersAgree(table, today) && i in table
    ensures exists t :: i in Selected(table, WithStatus(t), today)
    ensures i in Selected(table, All, today)
    ensures i in Selected(table, WithStatus(s), today) && i in Selected(table, WithStatus(s'), today) ==> s == s'
    ensures i in Selected(table, OpenOrUpcoming, today)
       <==> i in Selected(table, WithStatus(Open), today) || i in Selected(table, WithStatus(Upcoming), today)
  {
    var t := StatusOn(table[i], today);
    assert i in HavingStatus(table, {t}, today);
    assert i in Selected(table, WithStatus(t), today);
  }

  function Rank(s: Status): int {
    match s
    case Withdrawn => 3
    case Upcoming => 0
    case Open => 1
    case Closed => 2
  }

  /** As days pass an untouched opportunity only moves from upcoming to open to closed. */
  lemma StatusOnlyAdvances(o: Opportunity, day: int, later: int)
    requires day <= later
    ensures Rank(StatusOn(o, day)) <= Rank(StatusOn(o, later))
  {
  }

  // ---------------------------------------------------------------------
  // Where the dates come from.
  // ---------------------------------------------------------------------

  datatype DatesInput = DatesInput(opensAt: Option<int>, deadline: Option<int>)

  /** Create and update check the order only of dates that are both in the request. */
  predicate ValidDates(input: DatesInput) {
    input.opensAt.Some? && input.deadline.Some? ==> input.opensAt.value <= input.deadline.value
  }

  /** The row an update writes back. */
  function Updated(read: Opportunity, input: DatesInput, isActive: Option<bool>): Opportunity {
    Opportunity(Or(isActive, read.isActive), OrKeep(input.opensAt, read.opensAt), OrKeep(input.deadline, read.deadline))
  }

  method Update(read: Opportunity, input: DatesInput, isActive: Option<bool>) returns (current: Opportunity)
    ensures current == Updated(read, input, isActive)
    ensures current.opensAt == (if input.opensAt.Some? then input.opensAt else read.opensAt)
    ensures current.deadline == (if input.deadline.Some? then input.deadline else read.deadline)
    ensures current.isActive == (if isActive.Some? then isActive.value else read.isActive)
  {
    current := read;
    if input.opensAt.Some? {
      current := current.(opensAt := input.opensAt);
    }
    if input.deadline.Some? {
      current := current.(deadline := input.deadline);
    }
    if isActive.Some? {
      current := current.(isActive := isActive.value);
    }
  }

  /** Both dates are sent, or none and no reactivation, or the row is withdrawn. */
  predicate SafeUpdate(input: DatesInput, isActive: Option<bool>) {
    || (input.opensAt.Some? && input.deadline.Some?)
    || (input.opensAt.None? && input.deadline.None? && isActive != Some(true))
    || isActive == Some(false)
  }

  /**
    An update that passes the check keeps every well dated row well dated exactly if it is
    a safe one: the check never compares a date that was sent with one that was stored.
   */
  lemma UpdateKeepsDatesExactly(input: DatesInput, isActive: Option<bool>)
    requires ValidDates(input)
    ensures (forall read: Opportunity :: WellDated(read) ==> WellDated(Updated(read, input, isActive)))
       <==> SafeUpdate(input, isActive)
  {
    if !SafeUpdate(input, isActive) {
      var read :=
        if input.opensAt.Some? then Opportunity(isActive.None?, None, Some(input.opensAt.value - 2))
        else if input.deadline.Some? then Opportunity(isActive.None?, Some(input.deadline.value + 2), None)
        else Opportunity(false, Some(2), Some(0));
      assert WellDated(read) && !WellDated(Updated(read, input, isActive));
    }
  }

  /** Every opportunity that passed the create check is well dated. */
  lemma CreatedIsWellDated(input: DatesInput)
    requires ValidDates(input)
    ensures WellDated(Opportunity(true, input.opensAt, input.deadline))
  {
  }

  /** What an import row makes of its cells: both dates as they are, active unless the row says otherwise. */
  function ImportedRow(input: DatesInput, isActive: Option<bool>): Opportunity {
    Opportunity(Or(isActive, true), input.opensAt, input.deadline)
  }

  /** No check stands between an import row and the table: one that the create check refuses is misfiled. */
  lemma ImportCanMisfile()
    ensures var input := DatesInput(Some(10), Some(5));
            var row := ImportedRow(input, None);
            && !ValidDates(input) && !WellDated(row)
            && StatusOn(row, 7) == Upcoming
            && Selects(WithStatus(Closed), row, 7) && Selects(WithStatus(Upcoming), row, 7)
            && !Selects(OpenOrUpcoming, row, 7)
  {
  }

  /** A valid update of the deadline alone can misfile a row: shown as upcoming, listed as closed too. */
  lemma UpdateCanMisfile()
    ensures var before := Opportunity(true, Some(10), Some(20));
            var input := DatesInput(None, Some(5));
            var after := before.(deadline := input.deadline);
            && WellDated(before) && ValidDates(input)
            && StatusOn(after, 7) == Upcoming
            && Selects(WithStatus(Closed), after, 7) && Selects(WithStatus(Upcoming), after, 7)
            && !Selects(OpenOrUpcoming, after, 7)
  {
  }
}
