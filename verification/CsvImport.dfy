/**
  CSV imports (internal/app/import_processor.go, internal/data/import_jobs.go).

  Each data row runs in its own transaction. What the database or a row parser says
  about a row is the parameter `verdict`: an error message, or none.
 */
module CsvImport {
  import opened Common
  import opened Employers

  type Row = seq<string>

  type Verdict = (nat, Row) -> Option<string>

  datatype RowError = RowError(rowNumber: int, message: string)

  datatype JobStatus = JobPending | JobProcessing | JobCompleted | JobFailed

  datatype Job = Job(
    importType: string,
    status: JobStatus,
    rowsTotal: Option<int>,
    rowsImported: Option<int>,
    rowErrors: seq<RowError>,
    errorMessage: Option<string>)
  {
    /** Derived when the job is read. */
    function RowsFailed(): Option<int> {
      if rowsTotal.Some? && rowsImported.Some? then Some(rowsTotal.value - rowsImported.value) else None
    }
  }

  // ---------------------------------------------------------------------
  // Columns.
  // ---------------------------------------------------------------------

  /** Each column name leads to its last position in the header. */
  ghost predicate Indexes(idx: map<string, nat>, header: Row) {
    && (forall name :: name in idx <==> name in header)
    && forall name :: name in idx ==>
         && idx[name] < |header| && header[idx[name]] == name
         && forall j :: idx[name] < j < |header| ==> header[j] != name
  }

  method IndexColumns(header: Row) returns (idx: map<string, nat>)
    ensures Indexes(idx, header)
  {
    idx := map[];
    for i := 0 to |header|
      invariant Indexes(idx, header[..i])
    {
      assert header[..i + 1] == header[..i] + [header[i]];
      idx := idx[header[i] := i];
    }
    assert header[..|header|] == header;
  }

  /** A map lookup that gives position 0 for a name that is not there. */
  function Position(idx: map<string, nat>, name: string): nat {
    if name in idx then idx[name] else 0
  }

  /** A row the loop hands to a processor has a cell for every column it may be asked for. */
  lemma PositionsInBounds(idx: map<string, nat>, header: Row, row: Row, name: string)
    requires Indexes(idx, header) && |header| <= |row| && header != []
    ensures Position(idx, name) < |row|
  {
  }

  const NAME := "name"
  const SLUG := "slug"
  const INDUSTRY := "industry"
  const EMPLOYER_COLUMNS: seq<string> := [NAME, SLUG, INDUSTRY]
  const OPPORTUNITY_COLUMNS: seq<string> :=
    [EMPLOYER_ID, "title", "slug", "type", "intake_year", "description", "location", "application_url"]
  const ASSESSMENT_COLUMNS: seq<string> := [EMPLOYER_SLUG, "programme_type"]

  method RequireColumns(idx: map<string, nat>, required: seq<string>) returns (missing: Option<string>)
    ensures missing.None? <==> forall c :: c in required ==> c in idx
    ensures missing.Some? ==> missing.value in required && missing.value !in idx
  {
    for i := 0 to |required|
      invariant forall c :: c in required[..i] ==> c in idx
    {
      if required[i] !in idx {
        return Some(required[i]);
      }
    }
    return None;
  }

  const EMPLOYER_ID := "employer_id"
  const EMPLOYER_SLUG := "employer_slug"

  /** The key by which an opportunity row looks for its employer. */
  function EmployerKey(row: Row, idx: map<string, nat>): string
    requires Position(idx, EMPLOYER_SLUG) < |row|
  {
    row[Position(idx, EMPLOYER_SLUG)]
  }

  /** The last column of a name is the one at `j`. */
  predicate LastColumn(header: Row, name: string, j: nat) {
    j < |header| && header[j] == name && forall k :: j < k < |header| ==> header[k] != name
  }

  /**
    An opportunities file passes its column check without an employer_slug column. The key
    of a row is its employer_slug cell if there is that column, and otherwise whatever the
    first column holds.
   */
  lemma EmployerKeyOfOpportunity(idx: map<string, nat>, header: Row, row: Row)
    requires Indexes(idx, header) && |header| <= |row|
    requires forall c :: c in OPPORTUNITY_COLUMNS ==> c in idx
    ensures Position(idx, EMPLOYER_SLUG) < |row|
    ensures if EMPLOYER_SLUG in header
            then exists j: nat :: LastColumn(header, EMPLOYER_SLUG, j) && EmployerKey(row, idx) == row[j]
            else EmployerKey(row, idx) == row[0]
  {
    assert OPPORTUNITY_COLUMNS[0] in idx;
    if EMPLOYER_SLUG in header {
      assert LastColumn(header, EMPLOYER_SLUG, idx[EMPLOYER_SLUG]);
    }
  }

  /** Such a file: exactly the required columns. It passes, and its rows are matched by employer_id. */
  lemma IdIsTakenForSlug(idx: map<string, nat>, row: Row)
    requires Indexes(idx, OPPORTUNITY_COLUMNS) && |OPPORTUNITY_COLUMNS| <= |row|
    ensures forall c :: c in OPPORTUNITY_COLUMNS ==> c in idx
    ensures EMPLOYER_SLUG !in OPPORTUNITY_COLUMNS
    ensures EMPLOYER_ID in idx && idx[EMPLOYER_ID] == 0 && EmployerKey(row, idx) == row[idx[EMPLOYER_ID]]
  {
    var columns := OPPORTUNITY_COLUMNS;
    assert columns[0] == EMPLOYER_ID;
    forall k | 0 < k < |columns| ensures columns[k] != EMPLOYER_ID && columns[k] != EMPLOYER_SLUG {
      assert columns[k][0] != 'e';
    }
    assert |EMPLOYER_ID| != |EMPLOYER_SLUG|;
  }

  /** The first thing done with an opportunity row: find the employer, or fail. */
  method FindEmployerOfRow(header: Row, row: Row, idx: map<string, nat>,
                           table: EmployerModel) returns (employer: Option<EmployerId>)
    requires Indexes(idx, header) && header != [] && |header| <= |row|
    ensures employer.Some? ==> HasSlug(table.rows, EmployerKey(row, idx), employer.value)
    ensures employer.None? ==> forall x :: !HasSlug(table.rows, EmployerKey(row, idx), x)
  {
    var key := row[Position(idx, EMPLOYER_SLUG)];
    if x :| x in table.rows && HasSlug(table.rows, key, x) {
      return Some(x);
    }
    return None;
  }

  function Optional(row: Row, idx: map<string, nat>, name: string): Option<string> {
    if name in idx && idx[name] < |row| && row[idx[name]] != "" then Some(row[idx[name]]) else None
  }

  /** The header of an employers file that passed the column check. */
  ghost predicate EmployerHeader(idx: map<string, nat>, header: Row) {
    Indexes(idx, header) && NAME in idx && SLUG in idx && INDUSTRY in idx
  }

  predicate HasCell(row: Row, idx: map<string, nat>, name: string) {
    name in idx && idx[name] < |row|
  }

  predicate HasCells(row: Row, idx: map<string, nat>) {
    HasCell(row, idx, NAME) && HasCell(row, idx, SLUG) && HasCell(row, idx, INDUSTRY)
  }

  /** What processEmployerRow hands to the upsert: three JSON and text columns stay null. */
  function EmployerInput(row: Row, idx: map<string, nat>): CreateInput
    requires HasCells(row, idx)
  {
    CreateInput(row[idx[NAME]], row[idx[SLUG]], row[idx[INDUSTRY]],
                Optional(row, idx, "size"), Optional(row, idx, "hq_location"), None, Optional(row, idx, "logo_url"),
                Optional(row, idx, "overview"), None, Optional(row, idx, "website"), None)
  }

  // ---------------------------------------------------------------------
  // The row loop.
  // ---------------------------------------------------------------------

  const TOO_SHORT := "row has too few columns"

  /** Why row `i` of the data fails, if it does. */
  function RowFailure(header: Row, rows: seq<Row>, i: nat, verdict: Verdict): Option<string>
    requires i < |rows|
  {
    if |rows[i]| < |header| then Some(TOO_SHORT) else verdict(i, rows[i])
  }

  /** The upserts of the good rows among the first `n`, in file order. */
  ghost function GoodUpserts(header: Row, rows: seq<Row>, idx: map<string, nat>, verdict: Verdict, firstId: nat,
                             n: nat): seq<Op>
    requires n <= |rows| && EmployerHeader(idx, header)
  {
    if n == 0 then []
    else
      GoodUpserts(header, rows, idx, verdict, firstId, n - 1)
      + (if RowFailure(header, rows, n - 1, verdict).Some? then []
         else [Op.Upsert(firstId + n - 1, EmployerInput(rows[n - 1], idx))])
  }

  /** The error report is exactly the failing rows, numbered from 2, in order. */
  ghost predicate Reports(errors: seq<RowError>, header: Row, rows: seq<Row>, n: nat, verdict: Verdict)
    requires n <= |rows|
  {
    && (forall j, k :: 0 <= j < k < |errors| ==> errors[j].rowNumber < errors[k].rowNumber)
    && forall e :: e in errors <==>
         2 <= e.rowNumber < n + 2 && RowFailure(header, rows, e.rowNumber - 2, verdict) == Some(e.message)
  }

  lemma ReportsNoMore(errors: seq<RowError>, header: Row, rows: seq<Row>, i: nat, verdict: Verdict)
    requires i < |rows| && Reports(errors, header, rows, i, verdict)
    requires RowFailure(header, rows, i, verdict).None?
    ensures Reports(errors, header, rows, i + 1, verdict)
  {
  }

  lemma ReportsOneMore(errors: seq<RowError>, header: Row, rows: seq<Row>, i: nat, verdict: Verdict, message: string)
    requires i < |rows| && Reports(errors, header, rows, i, verdict)
    requires RowFailure(header, rows, i, verdict) == Some(message)
    ensures Reports(errors + [RowError(i + 2, message)], header, rows, i + 1, verdict)
  {
    var last := RowError(i + 2, message);
    forall j | 0 <= j < |errors| ensures errors[j].rowNumber < last.rowNumber {
      assert errors[j] in errors;
    }
    forall e ensures e in errors + [last] <==> e in errors || e == last {
    }
  }

  /** The employer table after the first `n` data rows. */
  ghost predicate Loaded(before: Table, table: Table, header: Row, rows: seq<Row>, idx: map<string, nat>,
                         verdict: Verdict, firstId: nat, n: nat) {
    && n <= |rows| && EmployerHeader(idx, header)
    && SlugsUnique(table)
    && (forall x :: x in table ==> x < firstId + n)
    && table == Replay(before, GoodUpserts(header, rows, idx, verdict, firstId, n))
  }

  lemma LoadedSkip(before: Table, table: Table, header: Row, rows: seq<Row>, idx: map<string, nat>, verdict: Verdict,
                   firstId: nat, n: nat)
    requires Loaded(before, table, header, rows, idx, verdict, firstId, n)
    requires n < |rows| && RowFailure(header, rows, n, verdict).Some?
    ensures Loaded(before, table, header, rows, idx, verdict, firstId, n + 1)
  {
    assert GoodUpserts(header, rows, idx, verdict, firstId, n + 1)
        == GoodUpserts(header, rows, idx, verdict, firstId, n);
  }

  lemma ReadyToUpsert(before: Table, table: Table, header: Row, rows: seq<Row>, idx: map<string, nat>,
                      verdict: Verdict, firstId: nat, n: nat)
    requires Loaded(before, table, header, rows, idx, verdict, firstId, n)
    requires n < |rows| && RowFailure(header, rows, n, verdict).None?
    ensures SlugsUnique(table) && firstId + n !in table && HasCells(rows[n], idx)
  {
  }

  lemma LoadedMore(before: Table, table: Table, header: Row, rows: seq<Row>, idx: map<string, nat>, verdict: Verdict,
                   firstId: nat, n: nat, op: Op)
    requires Loaded(before, table, header, rows, idx, verdict, firstId, n)
    requires n < |rows| && RowFailure(header, rows, n, verdict).None?
    requires HasCells(rows[n], idx) && op == Op.Upsert(firstId + n, EmployerInput(rows[n], idx))
    ensures Loaded(before, Apply(table, op), header, rows, idx, verdict, firstId, n + 1)
  {
    ReplayLast(before, GoodUpserts(header, rows, idx, verdict, firstId, n), op);
    UpsertBySlug(table, op, op.create.slug);
  }

  /** A cell that is there and not empty. */
  method ReadOptional(row: Row, idx: map<string, nat>, name: string) returns (cell: Option<string>)
    ensures cell.Some? <==> name in idx && idx[name] < |row| && row[idx[name]] != ""
    ensures cell.Some? ==> cell.value == row[idx[name]]
  {
    if name in idx && idx[name] < |row| && row[idx[name]] != "" {
      return Some(row[idx[name]]);
    }
    return None;
  }

  /** Every field from the last column of its own name. */
  method ReadEmployerRow(row: Row, idx: map<string, nat>) returns (input: CreateInput)
    requires HasCells(row, idx)
    ensures input == EmployerInput(row, idx)
    ensures input.name == row[idx["name"]] && input.slug == row[idx["slug"]] && input.industry == row[idx["industry"]]
    ensures input.size ==
      if "size" in idx && idx["size"] < |row| && row[idx["size"]] != "" then Some(row[idx["size"]]) else None
    ensures input.hqLocation ==
      if "hq_location" in idx && idx["hq_location"] < |row| && row[idx["hq_location"]] != "" then
        Some(row[idx["hq_location"]]) else None
    ensures input.logoUrl ==
      if "logo_url" in idx && idx["logo_url"] < |row| && row[idx["logo_url"]] != "" then
        Some(row[idx["logo_url"]]) else None
    ensures input.overview ==
      if "overview" in idx && idx["overview"] < |row| && row[idx["overview"]] != "" then
        Some(row[idx["overview"]]) else None
    ensures input.website ==
      if "website" in idx && idx["website"] < |row| && row[idx["website"]] != "" then
        Some(row[idx["website"]]) else None
    ensures input.offices.None? && input.culture.None? && input.socialLinks.None?
  {
    var size := ReadOptional(row, idx, "size");
    var hqLocation := ReadOptional(row, idx, "hq_location");
    var logoUrl := ReadOptional(row, idx, "logo_url");
    var overview := ReadOptional(row, idx, "overview");
    var website := ReadOptional(row, idx, "website");
    var name, slug, industry := row[idx[NAME]], row[idx[SLUG]], row[idx[INDUSTRY]];
    input := CreateInput(name, slug, industry, size, hqLocation, None, logoUrl, overview, None, website, None);
  }

  /** processEmployerRow on a row that the database accepts. */
  method UpsertEmployerRow(header: Row, rows: seq<Row>, i: nat, idx: map<string, nat>, verdict: Verdict,
                           table: EmployerModel, firstId: nat, ghost before: Table)
    requires i < |rows| && RowFailure(header, rows, i, verdict).None?
    requires Loaded(before, table.rows, header, rows, idx, verdict, firstId, i)
    modifies table
    ensures Loaded(before, table.rows, header, rows, idx, verdict, firstId, i + 1)
  {
    ReadyToUpsert(before, table.rows, header, rows, idx, verdict, firstId, i);
    var input := ReadEmployerRow(rows[i], idx);
    LoadedMore(before, table.rows, header, rows, idx, verdict, firstId, i, Op.Upsert(firstId + i, input));
    var id := table.Upsert(firstId + i, input);
  }

  /** One data row: check its width, ask for the verdict, upsert. */
  method ImportRow(header: Row, rows: seq<Row>, i: nat, idx: map<string, nat>, verdict: Verdict,
                   table: EmployerModel?, firstId: nat, ghost before: Table)
    returns (failure: Option<string>)
    requires i < |rows|
    requires table != null ==> Loaded(before, table.rows, header, rows, idx, verdict, firstId, i)
    modifies table
    ensures failure == RowFailure(header, rows, i, verdict)
    ensures failure == if |rows[i]| < |header| then Some("row has too few columns") else verdict(i, rows[i])
    ensures table != null ==> Loaded(before, table.rows, header, rows, idx, verdict, firstId, i + 1)
  {
    var row := rows[i];
    if |row| < |header| {
      if table != null {
        LoadedSkip(before, table.rows, header, rows, idx, verdict, firstId, i);
      }
      return Some(TOO_SHORT);
    }
    failure := verdict(i, row);
    if table != null {
      if failure.None? {
        UpsertEmployerRow(header, rows, i, idx, verdict, table, firstId, before);
      } else {
        LoadedSkip(before, table.rows, header, rows, idx, verdict, firstId, i);
      }
    }
  }

  /** The loop over the data rows; `table` is null when the file is not about employers. */
  method ImportRows(header: Row, rows: seq<Row>, idx: map<string, nat>, verdict: Verdict, table: EmployerModel?,
                    firstId: nat, ghost before: Table)
    returns (imported: int, errors: seq<RowError>)
    requires table != null ==> Loaded(before, table.rows, header, rows, idx, verdict, firstId, 0)
    modifies table
    ensures imported + |errors| == |rows|
    ensures Reports(errors, header, rows, |rows|, verdict)
    ensures table != null ==> Loaded(before, table.rows, header, rows, idx, verdict, firstId, |rows|)
  {
    imported, errors := 0, [];
    for i := 0 to |rows|
      invariant imported + |errors| == i
      invariant Reports(errors, header, rows, i, verdict)
      invariant table != null ==> Loaded(before, table.rows, header, rows, idx, verdict, firstId, i)
    {
      var failure := ImportRow(header, rows, i, idx, verdict, table, firstId, before);
      if failure.Some? {
        ReportsOneMore(errors, header, rows, i, verdict, failure.value);
        errors := errors + [RowError(i + 2, failure.value)];
      } else {
        ReportsNoMore(errors, header, rows, i, verdict);
        imported := imported + 1;
      }
    }
  }

  /** Empty for an unknown import type. */
  function RequiredColumns(importType: string): seq<string> {
    if importType == "employers" then EMPLOYER_COLUMNS
    else if importType == "opportunities" then OPPORTUNITY_COLUMNS
    else if importType == "assessments" then ASSESSMENT_COLUMNS
    else []
  }

  /** A known type, a readable file with at least one data row, and every required column. */
  ghost predicate Importable(job: Job, records: Option<seq<Row>>) {
    && records.Some? && |records.value| >= 2
    && RequiredColumns(job.importType) != []
    && forall c :: c in RequiredColumns(job.importType) ==> c in records.value[0]
  }

  /** Which files get as far as their rows, column by column. */
  lemma ImportableExactly(job: Job, records: seq<Row>)
    requires |records| >= 2
    ensures var header := records[0];
            Importable(job, Some(records)) <==>
              || (job.importType == "employers" && "name" in header && "slug" in header && "industry" in header)
              || (job.importType == "opportunities"
                  && "employer_id" in header && "title" in header && "slug" in header && "type" in header
                  && "intake_year" in header && "description" in header && "location" in header
                  && "application_url" in header)
              || (job.importType == "assessments" && "employer_slug" in header && "programme_type" in header)
  {
    assert EMPLOYER_COLUMNS == ["name", "slug", "industry"];
    assert OPPORTUNITY_COLUMNS
        == ["employer_id", "title", "slug", "type", "intake_year", "description", "location", "application_url"];
    assert ASSESSMENT_COLUMNS == ["employer_slug", "programme_type"];
    assert |"employers"| != |"opportunities"| && |"employers"| != |"assessments"| &&
           |"opportunities"| != |"assessments"|;
  }

  /** The employer table after an import that went through all rows. */
  ghost predicate Imported(job: Job, records: seq<Row>, verdict: Verdict, before: Table, after: Table, firstId: nat)
    requires |records| >= 2
  {
    if job.importType != "employers" then after == before
    else
      exists idx {:trigger EmployerHeader(idx, records[0])} ::
        Loaded(before, after, records[0], records[1..], idx, verdict, firstId, |records| - 1)
  }

  /** All rows, by the processor of the import type. */
  method ImportByType(job: Job, records: seq<Row>, idx: map<string, nat>, verdict: Verdict, employers: EmployerModel,
                      firstId: nat)
    returns (imported: int, errors: seq<RowError>)
    requires |records| >= 2 && Indexes(idx, records[0])
    requires forall c :: c in RequiredColumns(job.importType) ==> c in idx
    requires SlugsUnique(employers.rows) && forall x :: x in employers.rows ==> x < firstId
    modifies employers
    ensures imported + |errors| == |records| - 1
    ensures Reports(errors, records[0], records[1..], |records| - 1, verdict)
    ensures Imported(job, records, verdict, old(employers.rows), employers.rows, firstId)
  {
    if job.importType == "employers" {
      assert EMPLOYER_COLUMNS[0] == NAME && EMPLOYER_COLUMNS[1] == SLUG && EMPLOYER_COLUMNS[2] == INDUSTRY;
      assert EmployerHeader(idx, records[0]);
      imported, errors := ImportRows(records[0], records[1..], idx, verdict, employers, firstId, employers.rows);
    } else {
      imported, errors := ImportRows(records[0], records[1..], idx, verdict, null, firstId, map[]);
    }
  }

  /**
    One attempt at the whole job. `records` is None when the file cannot be fetched or
    parsed; `recordOk` tells whether the statement that marks the job completed succeeds.
   */
  method ProcessImport(job: Job, records: Option<seq<Row>>, verdict: Verdict, employers: EmployerModel, firstId: nat,
                       recordOk: bool)
    returns (done: Job)
    requires SlugsUnique(employers.rows) && forall x :: x in employers.rows ==> x < firstId
    modifies employers
    ensures done.status == (if !Importable(job, records) then JobFailed
                            else if recordOk then JobCompleted else JobProcessing)
    ensures done.status == JobFailed ==>
      && employers.rows == old(employers.rows) && done.errorMessage.Some?
      && (records.None? ==> done.rowsTotal == Some(0))
    ensures done.status == JobCompleted ==>
      && records.Some? && |records.value| >= 2
      && done.rowsTotal == Some(|records.value| - 1)
      && done.RowsFailed() == Some(|done.rowErrors|)
      && Reports(done.rowErrors, records.value[0], records.value[1..], |records.value| - 1, verdict)
    ensures done.status == JobCompleted ==>
      forall n, m :: RowError(n, m) in done.rowErrors <==>
        && 2 <= n <= |records.value|
        && Some(m) == (if |records.value[n - 1]| < |records.value[0]| then Some("row has too few columns")
                       else verdict(n - 2, records.value[n - 1]))
    ensures Importable(job, records) ==>
      && Imported(job, records.value, verdict, old(employers.rows), employers.rows, firstId)
      && (!recordOk ==> done == job.(status := JobProcessing))
  {
    done := job.(status := JobProcessing);
    if records.None? {
      return done.(status := JobFailed, rowsTotal := Some(0), errorMessage := Some("unreadable file"));
    }
    if |records.value| < 2 {
      return done.(status := JobFailed, rowsTotal := Some(0),
                   errorMessage := Some("csv must contain a header row and at least one data row"));
    }
    var header, rows := records.value[0], records.value[1..];
    var idx := IndexColumns(header);
    var required := RequiredColumns(job.importType);
    if required == [] {
      return done.(status := JobFailed, rowsTotal := Some(|rows|),
                   errorMessage := Some("unknown import type: " + job.importType));
    }
    var missing := RequireColumns(idx, required);
    if missing.Some? {
      return done.(status := JobFailed, rowsTotal := Some(|rows|),
                   errorMessage := Some("missing required column: " + missing.value));
    }
    var imported, errors := ImportByType(job, records.value, idx, verdict, employers, firstId);
    if recordOk {
      done := done.(status := JobCompleted, rowsTotal := Some(|rows|),
                    rowsImported := Some(imported), rowErrors := errors);
    }
  }

  /**
    An attempt whose last statement fails leaves a task that is tried again. By then the
    uploaded file is gone: the job ends as failed, with all its good rows imported.
   */
  method RetryUnrecorded(job: Job, records: seq<Row>, verdict: Verdict, employers: EmployerModel, firstId: nat)
    returns (done: Job)
    requires SlugsUnique(employers.rows) && forall x :: x in employers.rows ==> x < firstId
    requires Importable(job, Some(records))
    modifies employers
    ensures done.status == JobFailed && done.rowsTotal == Some(0)
    ensures Imported(job, records, verdict, old(employers.rows), employers.rows, firstId)
  {
    var first := ProcessImport(job, Some(records), verdict, employers, firstId, false);
    ImportedKeepsSlugs(job, records, verdict, old(employers.rows), employers.rows, firstId);
    done := ProcessImport(first, None, verdict, employers, firstId + |records|, true);
  }

  lemma ImportedKeepsSlugs(job: Job, records: seq<Row>, verdict: Verdict, before: Table, after: Table, firstId: nat)
    requires |records| >= 2 && Imported(job, records, verdict, before, after, firstId)
    requires SlugsUnique(before) && forall x :: x in before ==> x < firstId
    ensures SlugsUnique(after) && forall x :: x in after ==> x < firstId + |records|
  {
    if job.importType == "employers" {
      var idx :| Loaded(before, after, records[0], records[1..], idx, verdict, firstId, |records| - 1);
      assert EmployerHeader(idx, records[0]);
    }
  }

  // ---------------------------------------------------------------------
  // What a fold of upserts leaves behind, slug by slug.
  // ---------------------------------------------------------------------

  /** The row with a slug, if there is one. */
  ghost function RowOf(rows: Table, slug: string): Option<Employer> {
    if exists x :: HasSlug(rows, slug, x) then (var x :| HasSlug(rows, slug, x); Some(rows[x])) else None
  }

  lemma RowOfIs(rows: Table, slug: string, x: EmployerId)
    requires SlugsUnique(rows) && HasSlug(rows, slug, x)
    ensures RowOf(rows, slug) == Some(rows[x])
  {
  }

  ghost predicate AllUpserts(ops: seq<Op>, rows: Table) {
    && (forall i :: 0 <= i < |ops| ==> ops[i].Upsert? && ops[i].newId !in rows)
    && forall i, j :: 0 <= i < j < |ops| ==> ops[i].newId != ops[j].newId
  }

  /** The imported contents for one slug, in file order. */
  function InputsFor(ops: seq<Op>, slug: string): seq<CreateInput> {
    if ops == [] then []
    else (if ops[0].Upsert? && ops[0].create.slug == slug then [ops[0].create] else []) + InputsFor(ops[1..], slug)
  }

  /**
    Last row wins; the verification flag, the ratings and the review count survive; the
    version counts the rows that hit the slug.
   */
  function AfterImport(e: Option<Employer>, inputs: seq<CreateInput>): Option<Employer> {
    if inputs == [] then e
    else
      var last := Fresh(inputs[|inputs| - 1]);
      match e
      case None => Some(last.(version := |inputs|))
      case Some(row) =>
        Some(last.(isVerified := row.isVerified, avgDifficulty := row.avgDifficulty, avgExperience := row.avgExperience,
                   reviewCount := row.reviewCount, version := row.version + |inputs|))
  }

  lemma UpsertBySlug(rows: Table, op: Op, slug: string)
    requires SlugsUnique(rows) && op.Upsert? && op.newId !in rows
    ensures SlugsUnique(Apply(rows, op))
    ensures RowOf(Apply(rows, op), slug)
         == if slug == op.create.slug then AfterImport(RowOf(rows, slug), [op.create]) else RowOf(rows, slug)
    ensures Apply(rows, op).Keys <= rows.Keys + {op.newId}
    ensures RowOf(rows, op.create.slug).Some? ==> Apply(rows, op).Keys == rows.Keys
  {
    ApplyKeepsSlugsUnique(rows, op);
    UpsertOwnSlug(rows, op);
    if slug != op.create.slug {
      UpsertOtherSlug(rows, op, slug);
    }
  }

  lemma UpsertOwnSlug(rows: Table, op: Op)
    requires SlugsUnique(rows) && op.Upsert? && op.newId !in rows && SlugsUnique(Apply(rows, op))
    ensures RowOf(Apply(rows, op), op.create.slug) == AfterImport(RowOf(rows, op.create.slug), [op.create])
    ensures Apply(rows, op).Keys <= rows.Keys + {op.newId}
    ensures RowOf(rows, op.create.slug).Some? ==> Apply(rows, op).Keys == rows.Keys
  {
    var rows' := Apply(rows, op);
    if exists x :: HasSlug(rows, op.create.slug, x) {
      var x :| HasSlug(rows, op.create.slug, x);
      RowOfIs(rows, op.create.slug, x);
      RowOfIs(rows', op.create.slug, x);
    } else {
      RowOfIs(rows', op.create.slug, op.newId);
    }
  }

  lemma UpsertOtherSlug(rows: Table, op: Op, slug: string)
    requires SlugsUnique(rows) && op.Upsert? && op.newId !in rows && SlugsUnique(Apply(rows, op))
    requires slug != op.create.slug
    ensures RowOf(Apply(rows, op), slug) == RowOf(rows, slug)
  {
    var rows' := Apply(rows, op);
    if exists y :: HasSlug(rows, slug, y) {
      var y :| HasSlug(rows, slug, y);
      RowOfIs(rows, slug, y);
      RowOfIs(rows', slug, y);
    } else {
      assert forall y :: HasSlug(rows', slug, y) ==> HasSlug(rows, slug, y);
    }
  }

  lemma AfterImportSplit(e: Option<Employer>, first: CreateInput, rest: seq<CreateInput>)
    ensures AfterImport(AfterImport(e, [first]), rest) == AfterImport(e, [first] + rest)
  {
  }

  /** What the first upsert does to a row, the rest continues. */
  lemma FirstThenRest(before: Option<Employer>, after: Option<Employer>, ops: seq<Op>, slug: string)
    requires ops != [] && ops[0].Upsert?
    requires forall i :: 0 <= i < |ops| ==> ops[i].Upsert?
    requires after == if slug == ops[0].create.slug then AfterImport(before, [ops[0].create]) else before
    ensures AfterImport(after, InputsFor(ops[1..], slug)) == AfterImport(before, InputsFor(ops, slug))
  {
    if slug == ops[0].create.slug {
      AfterImportSplit(before, ops[0].create, InputsFor(ops[1..], slug));
    }
  }

  lemma RestUpserts(rows: Table, ops: seq<Op>)
    requires ops != [] && SlugsUnique(rows) && AllUpserts(ops, rows)
    ensures AllUpserts(ops[1..], Apply(rows, ops[0]))
  {
    UpsertBySlug(rows, ops[0], "");
    forall i | 0 <= i < |ops[1..]| ensures ops[1..][i].Upsert? && ops[1..][i].newId !in Apply(rows, ops[0]) {
      assert ops[1..][i] == ops[i + 1];
    }
  }

  /** For every slug the fold of the upserts is the closed form above. */
  lemma {:induction false} ImportBySlug(rows: Table, ops: seq<Op>, slug: string)
    requires SlugsUnique(rows) && AllUpserts(ops, rows)
    ensures SlugsUnique(Replay(rows, ops))
    ensures RowOf(Replay(rows, ops), slug) == AfterImport(RowOf(rows, slug), InputsFor(ops, slug))
    decreases |ops|
  {
    if ops != [] {
      var next := Apply(rows, ops[0]);
      UpsertBySlug(rows, ops[0], slug);
      RestUpserts(rows, ops);
      ImportBySlug(next, ops[1..], slug);
      FirstThenRest(RowOf(rows, slug), RowOf(next, slug), ops, slug);
    }
  }

  predicate SameButVersion(a: Option<Employer>, b: Option<Employer>) {
    a.Some? == b.Some? && (a.Some? ==> a.value == b.value.(version := a.value.version))
  }

  ghost predicate SameFile(first: seq<Op>, second: seq<Op>) {
    |first| == |second| && forall i :: 0 <= i < |first| ==>
      first[i].Upsert? && second[i].Upsert? && first[i].create == second[i].create
  }

  lemma {:induction false} SameFileSameInputs(first: seq<Op>, second: seq<Op>, slug: string)
    requires SameFile(first, second)
    ensures InputsFor(first, slug) == InputsFor(second, slug)
    decreases |first|
  {
    if first != [] {
      assert first[0].create == second[0].create;
      SameFileSameInputs(first[1..], second[1..], slug);
    }
  }

  /** Importing the same employers file again changes nothing but versions. */
  lemma ImportTwice(rows: Table, first: seq<Op>, second: seq<Op>, slug: string)
    requires SlugsUnique(rows) && AllUpserts(first, rows)
    requires SameFile(first, second) && AllUpserts(second, Replay(rows, first))
    ensures SameButVersion(RowOf(Replay(Replay(rows, first), second), slug), RowOf(Replay(rows, first), slug))
  {
    ImportBySlug(rows, first, slug);
    ImportBySlug(Replay(rows, first), second, slug);
    SameFileSameInputs(first, second, slug);
  }

  /** A second import inserts no row. */
  lemma {:induction false} NoNewRows(rows: Table, ops: seq<Op>)
    requires SlugsUnique(rows) && AllUpserts(ops, rows)
    requires forall i :: 0 <= i < |ops| ==> RowOf(rows, ops[i].create.slug).Some?
    ensures Replay(rows, ops).Keys == rows.Keys
    decreases |ops|
  {
    if ops != [] {
      var rows' := Apply(rows, ops[0]);
      UpsertBySlug(rows, ops[0], ops[0].create.slug);
      forall i | 0 <= i < |ops[1..]| ensures RowOf(rows', ops[1..][i].create.slug).Some? {
        assert ops[1..][i] == ops[i + 1];
        UpsertBySlug(rows, ops[0], ops[i + 1].create.slug);
      }
      RestUpserts(rows, ops);
      NoNewRows(rows', ops[1..]);
    }
  }

  lemma FreshOneMore(ops: seq<Op>, table: Table, firstId: nat, n: nat, c: CreateInput)
    requires AllUpserts(ops, table) && forall i :: 0 <= i < |ops| ==> firstId <= ops[i].newId < firstId + n
    requires forall x :: x in table ==> x < firstId
    ensures var more := ops + [Op.Upsert(firstId + n, c)];
            AllUpserts(more, table) && forall i :: 0 <= i < |more| ==> firstId <= more[i].newId < firstId + n + 1
  {
  }

  /** The upserts of a file meet the conditions of the lemmas above. */
  lemma {:induction false} GoodUpsertsAreFresh(header: Row, rows: seq<Row>, idx: map<string, nat>, verdict: Verdict,
                                               firstId: nat, n: nat, table: Table)
    requires n <= |rows| && EmployerHeader(idx, header)
    requires forall x :: x in table ==> x < firstId
    ensures var ops := GoodUpserts(header, rows, idx, verdict, firstId, n);
            AllUpserts(ops, table) && forall i :: 0 <= i < |ops| ==> firstId <= ops[i].newId < firstId + n
    decreases n
  {
    if n > 0 {
      var ops := GoodUpserts(header, rows, idx, verdict, firstId, n - 1);
      GoodUpsertsAreFresh(header, rows, idx, verdict, firstId, n - 1, table);
      if RowFailure(header, rows, n - 1, verdict).None? {
        FreshOneMore(ops, table, firstId, n - 1, EmployerInput(rows[n - 1], idx));
      }
    }
  }

  /** Two imports of one file upsert the same contents, whatever ids they draw. */
  lemma {:induction false} SameGoodUpserts(header: Row, rows: seq<Row>, idx: map<string, nat>, verdict: Verdict,
                                           a: nat, b: nat, n: nat)
    requires n <= |rows| && EmployerHeader(idx, header)
    ensures SameFile(GoodUpserts(header, rows, idx, verdict, a, n), GoodUpserts(header, rows, idx, verdict, b, n))
    decreases n
  {
    if n > 0 {
      SameGoodUpserts(header, rows, idx, verdict, a, b, n - 1);
    }
  }

  /** The table after one import and after two, for a whole file and any starting table. */
  lemma ImportIsIdempotent(header: Row, rows: seq<Row>, idx: map<string, nat>, verdict: Verdict, table: Table,
                           a: nat, b: nat, slug: string)
    requires EmployerHeader(idx, header) && SlugsUnique(table)
    requires forall x :: x in table ==> x < a
    requires forall x :: x in Replay(table, GoodUpserts(header, rows, idx, verdict, a, |rows|)) ==> x < b
    ensures var once := Replay(table, GoodUpserts(header, rows, idx, verdict, a, |rows|));
            var twice := Replay(once, GoodUpserts(header, rows, idx, verdict, b, |rows|));
            SameButVersion(RowOf(twice, slug), RowOf(once, slug)) && twice.Keys == once.Keys
  {
    var first := GoodUpserts(header, rows, idx, verdict, a, |rows|);
    var second := GoodUpserts(header, rows, idx, verdict, b, |rows|);
    var once := Replay(table, first);
    GoodUpsertsAreFresh(header, rows, idx, verdict, a, |rows|, table);
    GoodUpsertsAreFresh(header, rows, idx, verdict, b, |rows|, once);
    SameGoodUpserts(header, rows, idx, verdict, a, b, |rows|);
    ImportTwice(table, first, second, slug);
    ImportBySlug(table, first, slug);
    forall i | 0 <= i < |second| ensures RowOf(once, second[i].create.slug).Some? {
      ImportBySlug(table, first, second[i].create.slug);
      InputsInclude(first, i);
    }
    NoNewRows(once, second);
  }

  lemma {:induction false} InputsInclude(ops: seq<Op>, i: nat)
    requires i < |ops| && forall j :: 0 <= j < |ops| ==> ops[j].Upsert?
    ensures InputsFor(ops, ops[i].create.slug) != []
    decreases |ops|
  {
    if i > 0 {
      InputsInclude(ops[1..], i - 1);
    }
  }

  // ---------------------------------------------------------------------
  // What an import leaves in the columns.
  // ---------------------------------------------------------------------

  lemma {:induction false} InputsForLast(ops: seq<Op>, op: Op, slug: string)
    ensures InputsFor(ops + [op], slug)
         == InputsFor(ops, slug) + (if op.Upsert? && op.create.slug == slug then [op.create] else [])
    decreases |ops|
  {
    if ops == [] {
      assert ([] + [op])[1..] == [];
    } else {
      assert (ops + [op])[1..] == ops[1..] + [op];
      InputsForLast(ops[1..], op, slug);
    }
  }

  /** `j` is the last of the first `n` rows that is good and for its slug. */
  ghost predicate LastFor(header: Row, rows: seq<Row>, idx: map<string, nat>, verdict: Verdict, n: nat, j: nat)
    requires n <= |rows| && EmployerHeader(idx, header)
  {
    && j < n && RowFailure(header, rows, j, verdict).None?
    && forall k :: j < k < n && RowFailure(header, rows, k, verdict).None? ==> rows[k][idx[SLUG]] != rows[j][idx[SLUG]]
  }

  lemma {:induction false} LastInput(header: Row, rows: seq<Row>, idx: map<string, nat>, verdict: Verdict, firstId: nat,
                                     n: nat, j: nat)
    requires n <= |rows| && EmployerHeader(idx, header) && LastFor(header, rows, idx, verdict, n, j)
    ensures var inputs := InputsFor(GoodUpserts(header, rows, idx, verdict, firstId, n), rows[j][idx[SLUG]]);
            inputs != [] && inputs[|inputs| - 1] == EmployerInput(rows[j], idx)
    decreases n
  {
    var m, slug := n - 1, rows[j][idx[SLUG]];
    var was := InputsFor(GoodUpserts(header, rows, idx, verdict, firstId, m), slug);
    var now := InputsFor(GoodUpserts(header, rows, idx, verdict, firstId, n), slug);
    InputsOneMore(header, rows, idx, verdict, firstId, m, slug);
    if j == m {
      assert now == was + [EmployerInput(rows[j], idx)];
    } else {
      LastInput(header, rows, idx, verdict, firstId, m, j);
      assert RowFailure(header, rows, m, verdict).None? ==> rows[m][idx[SLUG]] != slug;
      assert now == was;
    }
  }

  lemma InputsOneMore(header: Row, rows: seq<Row>, idx: map<string, nat>, verdict: Verdict, firstId: nat, n: nat,
                      slug: string)
    requires n < |rows| && EmployerHeader(idx, header)
    ensures InputsFor(GoodUpserts(header, rows, idx, verdict, firstId, n + 1), slug)
         == InputsFor(GoodUpserts(header, rows, idx, verdict, firstId, n), slug)
            + (if RowFailure(header, rows, n, verdict).None? && rows[n][idx[SLUG]] == slug
               then [EmployerInput(rows[n], idx)] else [])
  {
    var ops := GoodUpserts(header, rows, idx, verdict, firstId, n);
    if RowFailure(header, rows, n, verdict).None? {
      InputsForLast(ops, Op.Upsert(firstId + n, EmployerInput(rows[n], idx)), slug);
    } else {
      assert GoodUpserts(header, rows, idx, verdict, firstId, n + 1) == ops;
    }
  }

  lemma AfterImportCells(before: Option<Employer>, inputs: seq<CreateInput>)
    requires inputs != []
    ensures var c, after := inputs[|inputs| - 1], AfterImport(before, inputs);
            && after.Some?
            && after.value.name == c.name && after.value.slug == c.slug && after.value.industry == c.industry
            && after.value.size == c.size && after.value.hqLocation == c.hqLocation && after.value.logoUrl == c.logoUrl
            && after.value.overview == c.overview && after.value.website == c.website
            && after.value.isVerified == (before.Some? && before.value.isVerified)
            && after.value.avgDifficulty == (if before.Some? then before.value.avgDifficulty else None)
            && after.value.avgExperience == (if before.Some? then before.value.avgExperience else None)
            && after.value.reviewCount == (if before.Some? then before.value.reviewCount else 0)
  {
  }

  /**
    The last good row for a slug wins, column by column; what was there before only decides
    on the verification flag, the ratings and the review count.
   */
  lemma LastRowWins(header: Row, rows: seq<Row>, idx: map<string, nat>, verdict: Verdict, table: Table, firstId: nat,
                    j: nat)
    requires EmployerHeader(idx, header) && SlugsUnique(table) && forall y :: y in table ==> y < firstId
    requires LastFor(header, rows, idx, verdict, |rows|, j)
    ensures var row, slug := rows[j], rows[j][idx["slug"]];
            var before := RowOf(table, slug);
            var after := RowOf(Replay(table, GoodUpserts(header, rows, idx, verdict, firstId, |rows|)), slug);
            && after.Some?
            && after.value.name == row[idx["name"]] && after.value.slug == slug
            && after.value.industry == row[idx["industry"]]
            && after.value.size == Optional(row, idx, "size")
            && after.value.hqLocation == Optional(row, idx, "hq_location")
            && after.value.logoUrl == Optional(row, idx, "logo_url")
            && after.value.overview == Optional(row, idx, "overview")
            && after.value.website == Optional(row, idx, "website")
            && after.value.isVerified == (before.Some? && before.value.isVerified)
            && after.value.avgDifficulty == (if before.Some? then before.value.avgDifficulty else None)
            && after.value.avgExperience == (if before.Some? then before.value.avgExperience else None)
            && after.value.reviewCount == (if before.Some? then before.value.reviewCount else 0)
  {
    var slug := rows[j][idx[SLUG]];
    var ops := GoodUpserts(header, rows, idx, verdict, firstId, |rows|);
    GoodUpsertsAreFresh(header, rows, idx, verdict, firstId, |rows|, table);
    LastInput(header, rows, idx, verdict, firstId, |rows|, j);
    ImportBySlug(table, ops, slug);
    AfterImportCells(RowOf(table, slug), InputsFor(ops, slug));
  }

  // ---------------------------------------------------------------------
  // The columns an import does not carry.
  // ---------------------------------------------------------------------

  predicate NoDetails(offices: Option<string>, culture: Option<string>, socialLinks: Option<string>) {
    offices.None? && culture.None? && socialLinks.None?
  }

  predicate SameDetails(a: Employer, b: Employer) {
    a.offices == b.offices && a.culture == b.culture && a.socialLinks == b.socialLinks
  }

  /** Some good row of the file is for the slug. */
  ghost predicate Mentions(header: Row, rows: seq<Row>, idx: map<string, nat>, verdict: Verdict, n: nat, slug: string)
    requires n <= |rows| && EmployerHeader(idx, header)
  {
    exists i :: 0 <= i < n && RowFailure(header, rows, i, verdict).None? && rows[i][idx[SLUG]] == slug
  }

  /** Upserts of a file carry none of the three columns, and come from its good rows in order. */
  lemma {:induction false} GoodUpsertsCarryNone(header: Row, rows: seq<Row>, idx: map<string, nat>, verdict: Verdict,
                                                firstId: nat, n: nat)
    requires n <= |rows| && EmployerHeader(idx, header)
    ensures forall op :: op in GoodUpserts(header, rows, idx, verdict, firstId, n) ==>
      op.Upsert? && NoDetails(op.create.offices, op.create.culture, op.create.socialLinks)
    decreases n
  {
    if n > 0 {
      GoodUpsertsCarryNone(header, rows, idx, verdict, firstId, n - 1);
    }
  }

  ghost predicate UpsertsFor(ops: seq<Op>, slug: string) {
    exists op :: op in ops && op.Upsert? && op.create.slug == slug
  }

  lemma UpsertsForOneMore(ops: seq<Op>, op: Op, slug: string)
    requires op.Upsert?
    ensures UpsertsFor(ops + [op], slug) <==> UpsertsFor(ops, slug) || op.create.slug == slug
  {
    assert forall o :: o in ops + [op] <==> o in ops || o == op;
  }

  lemma {:induction false} GoodUpsertsMention(header: Row, rows: seq<Row>, idx: map<string, nat>, verdict: Verdict,
                                              firstId: nat, n: nat, slug: string)
    requires n <= |rows| && EmployerHeader(idx, header)
    ensures Mentions(header, rows, idx, verdict, n, slug)
       <==> UpsertsFor(GoodUpserts(header, rows, idx, verdict, firstId, n), slug)
    decreases n
  {
    if n == 0 {
      assert GoodUpserts(header, rows, idx, verdict, firstId, n) == [];
    } else {
      var m := n - 1;
      GoodUpsertsMention(header, rows, idx, verdict, firstId, m, slug);
      MentionsOneMore(header, rows, idx, verdict, m, slug);
      UpsertsOneMore(header, rows, idx, verdict, firstId, m, slug);
    }
  }

  lemma UpsertsOneMore(header: Row, rows: seq<Row>, idx: map<string, nat>, verdict: Verdict, firstId: nat, n: nat,
                       slug: string)
    requires n < |rows| && EmployerHeader(idx, header)
    ensures UpsertsFor(GoodUpserts(header, rows, idx, verdict, firstId, n + 1), slug)
       <==> UpsertsFor(GoodUpserts(header, rows, idx, verdict, firstId, n), slug)
            || (RowFailure(header, rows, n, verdict).None? && rows[n][idx[SLUG]] == slug)
  {
    var ops := GoodUpserts(header, rows, idx, verdict, firstId, n);
    if RowFailure(header, rows, n, verdict).None? {
      UpsertsForOneMore(ops, Op.Upsert(firstId + n, EmployerInput(rows[n], idx)), slug);
    } else {
      assert GoodUpserts(header, rows, idx, verdict, firstId, n + 1) == ops;
    }
  }

  lemma MentionsOneMore(header: Row, rows: seq<Row>, idx: map<string, nat>, verdict: Verdict, n: nat, slug: string)
    requires n < |rows| && EmployerHeader(idx, header)
    ensures Mentions(header, rows, idx, verdict, n + 1, slug)
       <==> Mentions(header, rows, idx, verdict, n, slug)
            || (RowFailure(header, rows, n, verdict).None? && rows[n][idx[SLUG]] == slug)
  {
  }

  lemma {:induction false} InputsAreUpserts(ops: seq<Op>, slug: string)
    ensures forall c :: c in InputsFor(ops, slug) ==> exists op :: op in ops && op.Upsert? && op.create == c
    ensures InputsFor(ops, slug) == [] <==> !UpsertsFor(ops, slug)
    decreases |ops|
  {
    if ops != [] {
      InputsAreUpserts(ops[1..], slug);
      assert forall op :: op in ops <==> op == ops[0] || op in ops[1..];
    }
  }

  /**
    An import leaves offices, culture and social links of an employer alone exactly if no
    good row of the file is for its slug, or there was nothing in them. Otherwise all three
    are lost.
   */
  lemma ImportKeepsDetailsExactly(header: Row, rows: seq<Row>, idx: map<string, nat>, verdict: Verdict, table: Table,
                                  firstId: nat, x: EmployerId)
    requires EmployerHeader(idx, header) && SlugsUnique(table) && x in table
    requires forall y :: y in table ==> y < firstId
    ensures var after := RowOf(Replay(table, GoodUpserts(header, rows, idx, verdict, firstId, |rows|)), table[x].slug);
            && after.Some?
            && (SameDetails(after.value, table[x])
                <==> !Mentions(header, rows, idx, verdict, |rows|, table[x].slug)
                     || NoDetails(table[x].offices, table[x].culture, table[x].socialLinks))
            && (Mentions(header, rows, idx, verdict, |rows|, table[x].slug) ==>
                  NoDetails(after.value.offices, after.value.culture, after.value.socialLinks))
  {
    var slug := table[x].slug;
    var ops := GoodUpserts(header, rows, idx, verdict, firstId, |rows|);
    var inputs := InputsFor(ops, slug);
    GoodUpsertsAreFresh(header, rows, idx, verdict, firstId, |rows|, table);
    GoodUpsertsCarryNone(header, rows, idx, verdict, firstId, |rows|);
    GoodUpsertsMention(header, rows, idx, verdict, firstId, |rows|, slug);
    InputsAreUpserts(ops, slug);
    ImportBySlug(table, ops, slug);
    RowOfIs(table, slug, x);
    if inputs != [] {
      assert inputs[|inputs| - 1] in inputs;
    }
  }

  /** One employer with offices, one row that repeats its name and industry, and the offices are gone. */
  lemma ImportLosesOffices(e: Employer)
    requires e.offices.Some?
    ensures var idx: map<string, nat> := map[NAME := 0, SLUG := 1, INDUSTRY := 2];
            var verdict: Verdict := (i: nat, row: Row) => None;
            && EmployerHeader(idx, EMPLOYER_COLUMNS)
            && var ops := GoodUpserts(EMPLOYER_COLUMNS, [[e.name, e.slug, e.industry]], idx, verdict, 2, 1);
            && var after := RowOf(Replay(map[1 := e], ops), e.slug);
            && after.Some? && after.value.offices.None?
  {
    var header, rows := EMPLOYER_COLUMNS, [[e.name, e.slug, e.industry]];
    var idx: map<string, nat> := map[NAME := 0, SLUG := 1, INDUSTRY := 2];
    var verdict: Verdict := (i: nat, row: Row) => None;
    assert header[0] == NAME && header[1] == SLUG && header[2] == INDUSTRY;
    assert NAME[0] != SLUG[0] && NAME[0] != INDUSTRY[0] && SLUG[0] != INDUSTRY[0];
    assert EmployerHeader(idx, header);
    assert rows[0][idx[SLUG]] == e.slug && RowFailure(header, rows, 0, verdict).None?;
    var table: Table := map[1 := e];
    ImportKeepsDetailsExactly(header, rows, idx, verdict, table, 2, 1);
    assert Mentions(header, rows, idx, verdict, 1, e.slug);
  }
}
