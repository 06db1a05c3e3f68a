/**
  The employer table and its optimistic lock (internal/data/employers.go).

  An update is two statements: a read of the row, and a write that takes effect only
  if the version is still the one that was read. Other statements write the same rows
  in between: upserts bump the version, rating recalculations do not.
 */
module Employers {
  import opened Common

  type EmployerId = nat
  type ClientId = nat

  datatype Employer = Employer(
    name: string,
    slug: string,
    industry: string,
    size: Option<string>,
    hqLocation: Option<string>,
    offices: Option<string>,
    logoUrl: Option<string>,
    overview: Option<string>,
    culture: Option<string>,
    website: Option<string>,
    socialLinks: Option<string>,
    isVerified: bool,
    avgDifficulty: Option<int>,
    avgExperience: Option<int>,
    reviewCount: int,
    version: int)

  /** A new or imported employer; the raw JSON columns are null when absent. */
  datatype CreateInput = CreateInput(
    name: string,
    slug: string,
    industry: string,
    size: Option<string>,
    hqLocation: Option<string>,
    offices: Option<string>,
    logoUrl: Option<string>,
    overview: Option<string>,
    culture: Option<string>,
    website: Option<string>,
    socialLinks: Option<string>)

  /** A partial update; an empty raw JSON value means the field was not sent. */
  datatype UpdateInput = UpdateInput(
    name: Option<string>,
    slug: Option<string>,
    industry: Option<string>,
    size: Option<string>,
    hqLocation: Option<string>,
    offices: string,
    logoUrl: Option<string>,
    overview: Option<string>,
    culture: Option<string>,
    website: Option<string>,
    socialLinks: string,
    isVerified: Option<bool>)

  datatype Outcome = Ok | NotFound | EditConflict | DuplicateSlug

  type Table = map<EmployerId, Employer>

  // ---------------------------------------------------------------------
  // Rows.
  // ---------------------------------------------------------------------

  function NormalizeJsonArray(raw: Option<string>): Option<string> {
    if raw.None? || raw.value == "" || raw.value == "null" then Some("[]") else raw
  }

  /** The row as reads return it. */
  function Normalized(e: Employer): Employer {
    e.(offices := NormalizeJsonArray(e.offices), socialLinks := NormalizeJsonArray(e.socialLinks))
  }

  function OrKeepRaw(sent: string, kept: Option<string>): Option<string> {
    if |sent| > 0 then Some(sent) else kept
  }

  /** The fields that were sent replace those of the row. */
  function Merged(e: Employer, u: UpdateInput): Employer {
    e.(name := Or(u.name, e.name),
       slug := Or(u.slug, e.slug),
       industry := Or(u.industry, e.industry),
       size := OrKeep(u.size, e.size),
       hqLocation := OrKeep(u.hqLocation, e.hqLocation),
       offices := OrKeepRaw(u.offices, e.offices),
       logoUrl := OrKeep(u.logoUrl, e.logoUrl),
       overview := OrKeep(u.overview, e.overview),
       culture := OrKeep(u.culture, e.culture),
       website := OrKeep(u.website, e.website),
       socialLinks := OrKeepRaw(u.socialLinks, e.socialLinks),
       isVerified := Or(u.isVerified, e.isVerified))
  }

  /** The write of an update: the editable columns come from `current`, the ratings stay. */
  function Written(row: Employer, current: Employer): Employer {
    current.(avgDifficulty := row.avgDifficulty, avgExperience := row.avgExperience,
             reviewCount := row.reviewCount, version := row.version + 1)
  }

  function Fresh(c: CreateInput): Employer {
    Employer(c.name, c.slug, c.industry, c.size, c.hqLocation, c.offices, c.logoUrl, c.overview, c.culture,
             c.website, c.socialLinks, false, None, None, 0, 1)
  }

  /** An import over an existing row spares the verification flag and the ratings. */
  function Overwritten(e: Employer, c: CreateInput): Employer {
    Fresh(c).(isVerified := e.isVerified, avgDifficulty := e.avgDifficulty, avgExperience := e.avgExperience,
              reviewCount := e.reviewCount, version := e.version + 1)
  }

  ghost predicate SlugsUnique(rows: Table) {
    forall a, b :: a in rows && b in rows && rows[a].slug == rows[b].slug ==> a == b
  }

  predicate SlugTaken(rows: Table, slug: string, except: EmployerId) {
    exists x :: x in rows && x != except && rows[x].slug == slug
  }

  predicate HasSlug(rows: Table, slug: string, id: EmployerId) {
    id in rows && rows[id].slug == slug
  }

  // ---------------------------------------------------------------------
  // The operations, each as one indivisible change of the table.
  // ---------------------------------------------------------------------

  datatype Op =
    | Patch(id: EmployerId, input: UpdateInput)
    | Create(newId: EmployerId, create: CreateInput)
    | Upsert(newId: EmployerId, create: CreateInput)
    | Remove(id: EmployerId)
    | SetRatings(id: EmployerId, avgDifficulty: Option<int>, avgExperience: Option<int>, reviewCount: int)

  ghost function Apply(rows: Table, op: Op): Table {
    match op
    case Patch(id, input) =>
      if id !in rows then rows
      else
        var merged := Merged(Normalized(rows[id]), input);
        if SlugTaken(rows, merged.slug, id) then rows else rows[id := Written(rows[id], merged)]
    case Create(newId, c) =>
      if exists x :: HasSlug(rows, c.slug, x) then rows else rows[newId := Fresh(c)]
    case Upsert(newId, c) =>
      if exists x :: HasSlug(rows, c.slug, x)
      then (var x :| HasSlug(rows, c.slug, x); rows[x := Overwritten(rows[x], c)])
      else rows[newId := Fresh(c)]
    case Remove(id) => rows - {id}
    case SetRatings(id, d, x, n) =>
      if id !in rows then rows
      else rows[id := rows[id].(avgDifficulty := d, avgExperience := x, reviewCount := n)]
  }

  lemma ApplyKeepsSlugsUnique(rows: Table, op: Op)
    requires SlugsUnique(rows)
    ensures SlugsUnique(Apply(rows, op))
  {
    if op.Create? || op.Upsert? {
      assert forall x :: HasSlug(rows, op.create.slug, x) <==> x in rows && rows[x].slug == op.create.slug;
    }
  }

  // ---------------------------------------------------------------------
  // Many clients, each with a read and a later compare-and-set.
  // ---------------------------------------------------------------------

  /** An update between its read and its write. */
  datatype Edit = Edit(id: EmployerId, current: Employer, input: UpdateInput)

  datatype System = System(rows: Table, edits: map<ClientId, Edit>, used: set<EmployerId>, committed: seq<Op>)

  datatype Step =
    | Read(c: ClientId, id: EmployerId, input: UpdateInput)
    | Commit(c: ClientId)
    | Direct(op: Op)

  predicate Enabled(s: System, step: Step) {
    match step
    case Read(c, id, _) => c !in s.edits && id in s.rows
    case Commit(c) => c in s.edits
    case Direct(op) => !op.Patch? && (op.Create? || op.Upsert? ==> op.newId !in s.used)
  }

  /** The verdict of `UPDATE ... WHERE id = $13 AND version = $14`. */
  function CasOutcome(rows: Table, id: EmployerId, current: Employer): Outcome {
    if id !in rows || rows[id].version != current.version then EditConflict
    else if SlugTaken(rows, current.slug, id) then DuplicateSlug
    else Ok
  }

  function CasTable(rows: Table, id: EmployerId, current: Employer): Table {
    if CasOutcome(rows, id, current) == Ok then rows[id := Written(rows[id], current)] else rows
  }

  ghost function Next(s: System, step: Step): System
    requires Enabled(s, step)
  {
    match step
    case Read(c, id, input) => s.(edits := s.edits[c := Edit(id, Normalized(s.rows[id]), input)])
    case Commit(c) =>
      var e := s.edits[c];
      var current := Merged(e.current, e.input);
      s.(rows := CasTable(s.rows, e.id, current),
         edits := s.edits - {c},
         committed := if CasOutcome(s.rows, e.id, current) == Ok then s.committed + [Patch(e.id, e.input)]
                      else s.committed)
    case Direct(op) =>
      s.(rows := Apply(s.rows, op),
         used := if op.Create? || op.Upsert? then s.used + {op.newId} else s.used,
         committed := s.committed + [op])
  }

  ghost predicate ValidRun(s: System, steps: seq<Step>)
    decreases |steps|
  {
    steps == [] || (Enabled(s, steps[0]) && ValidRun(Next(s, steps[0]), steps[1..]))
  }

  ghost function Final(s: System, steps: seq<Step>): System
    requires ValidRun(s, steps)
    decreases |steps|
  {
    if steps == [] then s else Final(Next(s, steps[0]), steps[1..])
  }

  /** The committed operations one at a time, in commit order. */
  ghost function Replay(rows: Table, ops: seq<Op>): Table
    decreases |ops|
  {
    if ops == [] then rows else Replay(Apply(rows, ops[0]), ops[1..])
  }

  lemma {:induction false} ReplayLast(rows: Table, ops: seq<Op>, op: Op)
    ensures Replay(rows, ops + [op]) == Apply(Replay(rows, ops), op)
    decreases |ops|
  {
    if ops == [] {
      assert (ops + [op])[1..] == [];
    } else {
      ReplayLast(Apply(rows, ops[0]), ops[1..], op);
      assert (ops + [op])[1..] == ops[1..] + [op];
    }
  }

  /** Equal in every column an update writes. */
  predicate SameEditable(a: Employer, b: Employer) {
    a == b.(avgDifficulty := a.avgDifficulty, avgExperience := a.avgExperience,
            reviewCount := a.reviewCount, version := a.version)
  }

  /** A read whose version is still current is still right in every editable column. */
  ghost predicate EditInv(rows: Table, used: set<EmployerId>, e: Edit) {
    && e.id in used
    && (e.id in rows ==>
          && e.current.version <= rows[e.id].version
          && (e.current.version == rows[e.id].version ==> SameEditable(e.current, Normalized(rows[e.id]))))
  }

  ghost predicate Inv(s: System) {
    && s.rows.Keys <= s.used
    && SlugsUnique(s.rows)
    && forall c :: c in s.edits ==> EditInv(s.rows, s.used, s.edits[c])
  }

  lemma ApplyKeepsEdit(rows: Table, used: set<EmployerId>, e: Edit, op: Op)
    requires EditInv(rows, used, e) && rows.Keys <= used
    requires op.Create? || op.Upsert? ==> op.newId !in used
    ensures EditInv(Apply(rows, op), used, e)
  {
  }

  /** A compare-and-set that succeeds is the patch applied to the row of that moment. */
  lemma CommitIsPatch(rows: Table, used: set<EmployerId>, e: Edit)
    requires EditInv(rows, used, e)
    ensures CasOutcome(rows, e.id, Merged(e.current, e.input)) == Ok ==>
      CasTable(rows, e.id, Merged(e.current, e.input)) == Apply(rows, Patch(e.id, e.input))
  {
  }

  lemma StepKeepsInv(s: System, step: Step)
    requires Inv(s) && Enabled(s, step)
    ensures Inv(Next(s, step))
    ensures || (Next(s, step).committed == s.committed && Next(s, step).rows == s.rows)
            || exists op :: Next(s, step).committed == s.committed + [op] && Next(s, step).rows == Apply(s.rows, op)
  {
    var s' := Next(s, step);
    var op: Option<Op> := match step
      case Read(_, _, _) => None
      case Direct(d) => Some(d)
      case Commit(c) =>
        if CasOutcome(s.rows, s.edits[c].id, Merged(s.edits[c].current, s.edits[c].input)) == Ok
        then Some(Patch(s.edits[c].id, s.edits[c].input)) else None;
    if op.Some? {
      if step.Commit? {
        CommitIsPatch(s.rows, s.used, s.edits[step.c]);
      }
      assert s'.rows == Apply(s.rows, op.value);
      ApplyKeepsSlugsUnique(s.rows, op.value);
      forall c | c in s'.edits ensures EditInv(s'.rows, s'.used, s'.edits[c]) {
        if c in s.edits {
          ApplyKeepsEdit(s.rows, s.used, s.edits[c], op.value);
        }
      }
    }
  }

  /**
    Serializability: whatever the interleaving of reads, compare-and-sets and direct
    writes of any number of clients, the table is the one that the committed operations
    give when each runs alone, in commit order.
   */
  lemma {:induction false} Serializable(init: Table, s: System, steps: seq<Step>)
    requires Inv(s) && ValidRun(s, steps)
    requires s.rows == Replay(init, s.committed)
    ensures Inv(Final(s, steps))
    ensures Final(s, steps).rows == Replay(init, Final(s, steps).committed)
    decreases |steps|
  {
    if steps != [] {
      var s' := Next(s, steps[0]);
      StepKeepsInv(s, steps[0]);
      if s'.committed != s.committed {
        var op :| s'.committed == s.committed + [op] && s'.rows == Apply(s.rows, op);
        ReplayLast(init, s.committed, op);
      }
      Serializable(init, s', steps[1..]);
    }
  }

  /** A stale update commits nothing, and a successful one lost no concurrent change. */
  lemma CommitExactly(s: System, c: ClientId)
    requires Inv(s) && c in s.edits
    ensures var e := s.edits[c];
            var s' := Next(s, Commit(c));
            var merged := Merged(e.current, e.input);
            var stale := e.id !in s.rows || e.current.version != s.rows[e.id].version;
            && (stale || SlugTaken(s.rows, merged.slug, e.id) ==> s'.rows == s.rows && s'.committed == s.committed)
            && (!stale && !SlugTaken(s.rows, merged.slug, e.id) ==>
                  && SameEditable(e.current, Normalized(s.rows[e.id]))
                  && s'.rows[e.id].version == s.rows[e.id].version + 1
                  && s'.rows - {e.id} == s.rows - {e.id})
  {
  }

  // ---------------------------------------------------------------------
  // Column by column.
  // ---------------------------------------------------------------------

  datatype Column =
    | Name | Slug | Industry | Size | HqLocation | Offices | LogoUrl | Overview | Culture | Website | SocialLinks
    | IsVerified

  datatype Cell = Text(text: Option<string>) | Flag(flag: bool)

  /** A column as reads return it. */
  function ReadCell(e: Employer, k: Column): Cell {
    match k
    case Name => Text(Some(e.name))
    case Slug => Text(Some(e.slug))
    case Industry => Text(Some(e.industry))
    case Size => Text(e.size)
    case HqLocation => Text(e.hqLocation)
    case Offices => Text(NormalizeJsonArray(e.offices))
    case LogoUrl => Text(e.logoUrl)
    case Overview => Text(e.overview)
    case Culture => Text(e.culture)
    case Website => Text(e.website)
    case SocialLinks => Text(NormalizeJsonArray(e.socialLinks))
    case IsVerified => Flag(e.isVerified)
  }

  /** What a request sends for a column, if it sends anything. */
  function SentCell(u: UpdateInput, k: Column): Option<Cell> {
    match k
    case Name => if u.name.Some? then Some(Text(u.name)) else None
    case Slug => if u.slug.Some? then Some(Text(u.slug)) else None
    case Industry => if u.industry.Some? then Some(Text(u.industry)) else None
    case Size => if u.size.Some? then Some(Text(u.size)) else None
    case HqLocation => if u.hqLocation.Some? then Some(Text(u.hqLocation)) else None
    case Offices => if u.offices != "" then Some(Text(NormalizeJsonArray(Some(u.offices)))) else None
    case LogoUrl => if u.logoUrl.Some? then Some(Text(u.logoUrl)) else None
    case Overview => if u.overview.Some? then Some(Text(u.overview)) else None
    case Culture => if u.culture.Some? then Some(Text(u.culture)) else None
    case Website => if u.website.Some? then Some(Text(u.website)) else None
    case SocialLinks => if u.socialLinks != "" then Some(Text(NormalizeJsonArray(Some(u.socialLinks)))) else None
    case IsVerified => if u.isVerified.Some? then Some(Flag(u.isVerified.value)) else None
  }

  /** What a creation or an import gives a new row; only the verification flag is not its own. */
  function GivenCell(c: CreateInput, k: Column): Cell {
    match k
    case Name => Text(Some(c.name))
    case Slug => Text(Some(c.slug))
    case Industry => Text(Some(c.industry))
    case Size => Text(c.size)
    case HqLocation => Text(c.hqLocation)
    case Offices => Text(NormalizeJsonArray(c.offices))
    case LogoUrl => Text(c.logoUrl)
    case Overview => Text(c.overview)
    case Culture => Text(c.culture)
    case Website => Text(c.website)
    case SocialLinks => Text(NormalizeJsonArray(c.socialLinks))
    case IsVerified => Flag(false)
  }

  /** The value an operation gives a column of a row, if it does. */
  ghost function SetTo(rows: Table, op: Op, id: EmployerId, k: Column): Option<Cell> {
    match op
    case Patch(i, u) =>
      if i == id && i in rows && !SlugTaken(rows, if u.slug.Some? then u.slug.value else rows[i].slug, i)
      then SentCell(u, k) else None
    case Create(i, c) => if i == id && !exists x :: HasSlug(rows, c.slug, x) then Some(GivenCell(c, k)) else None
    case Upsert(i, c) =>
      if HasSlug(rows, c.slug, id) then (if k == IsVerified then None else Some(GivenCell(c, k)))
      else if i == id && !exists x :: HasSlug(rows, c.slug, x) then Some(GivenCell(c, k))
      else None
    case Remove(_) => None
    case SetRatings(_, _, _, _) => None
  }

  lemma PatchSetsCell(rows: Table, i: EmployerId, u: UpdateInput, id: EmployerId, k: Column)
    requires id in Apply(rows, Patch(i, u))
    ensures var cell := SetTo(rows, Patch(i, u), id, k);
            && id in rows
            && ReadCell(Apply(rows, Patch(i, u))[id], k) == if cell.Some? then cell.value else ReadCell(rows[id], k)
  {
  }

  lemma UpsertSetsCell(rows: Table, i: EmployerId, c: CreateInput, id: EmployerId, k: Column)
    requires SlugsUnique(rows) && id in Apply(rows, Op.Upsert(i, c))
    ensures var cell := SetTo(rows, Op.Upsert(i, c), id, k);
            && (cell.None? ==> id in rows)
            && ReadCell(Apply(rows, Op.Upsert(i, c))[id], k) == if cell.Some? then cell.value else ReadCell(rows[id], k)
  {
  }

  /** Ratings are written past the lock: the version and all other columns stay. */
  lemma RatingsPassTheLock(rows: Table, id: EmployerId, d: Option<int>, x: Option<int>, n: int)
    requires id in rows
    ensures var rows' := Apply(rows, SetRatings(id, d, x, n));
            && id in rows' && rows' == rows[id := rows'[id]]
            && rows'[id].avgDifficulty == d && rows'[id].avgExperience == x && rows'[id].reviewCount == n
            && SameEditable(rows'[id], rows[id]) && rows'[id].version == rows[id].version
  {
  }

  lemma OpSetsCell(rows: Table, op: Op, id: EmployerId, k: Column)
    requires SlugsUnique(rows) && id in Apply(rows, op)
    ensures SetTo(rows, op, id, k).None? ==> id in rows
    ensures ReadCell(Apply(rows, op)[id], k)
         == if SetTo(rows, op, id, k).Some? then SetTo(rows, op, id, k).value else ReadCell(rows[id], k)
  {
    match op
    case Patch(i, u) => PatchSetsCell(rows, i, u, id, k);
    case Upsert(i, c) => UpsertSetsCell(rows, i, c, id, k);
    case _ =>
  }

  /** The value of the last operation that set the column, if one did. */
  ghost function LastSet(rows: Table, ops: seq<Op>, id: EmployerId, k: Column): Option<Cell>
    decreases |ops|
  {
    if ops == [] then None
    else
      var later := LastSet(Apply(rows, ops[0]), ops[1..], id, k);
      if later.Some? then later
      else if id !in Apply(rows, ops[0]) then None
      else SetTo(rows, ops[0], id, k)
  }

  lemma {:induction false} ReplayLastSet(rows: Table, ops: seq<Op>, id: EmployerId, k: Column)
    requires SlugsUnique(rows) && id in Replay(rows, ops)
    ensures LastSet(rows, ops, id, k).None? ==> id in rows
    ensures ReadCell(Replay(rows, ops)[id], k)
         == if LastSet(rows, ops, id, k).Some? then LastSet(rows, ops, id, k).value else ReadCell(rows[id], k)
    decreases |ops|
  {
    if ops != [] {
      ApplyKeepsSlugsUnique(rows, ops[0]);
      ReplayLastSet(Apply(rows, ops[0]), ops[1..], id, k);
      if id in Apply(rows, ops[0]) {
        OpSetsCell(rows, ops[0], id, k);
      }
    }
  }

  /**
    Over every run each column of each row reads as the last committed operation that set
    it left it: no update undoes what another one sent.
   */
  lemma ColumnsOverRuns(init: Table, s: System, steps: seq<Step>, id: EmployerId, k: Column)
    requires Inv(s) && ValidRun(s, steps) && SlugsUnique(init) && s.rows == Replay(init, s.committed)
    requires id in Final(s, steps).rows
    ensures var last := LastSet(init, Final(s, steps).committed, id, k);
            && (last.None? ==> id in init)
            && ReadCell(Final(s, steps).rows[id], k) == if last.Some? then last.value else ReadCell(init[id], k)
  {
    Serializable(init, s, steps);
    ReplayLastSet(init, Final(s, steps).committed, id, k);
  }

  // ---------------------------------------------------------------------
  // The model's methods, on the table itself.
  // ---------------------------------------------------------------------

  class EmployerModel {
    var rows: Table

    constructor ()
      ensures rows == map[]
    {
      rows := map[];
    }

    method GetById(id: EmployerId) returns (e: Option<Employer>)
      ensures e == if id in rows then Some(Normalized(rows[id])) else None
      ensures e.Some? ==>
        && e.value == rows[id].(offices := e.value.offices, socialLinks := e.value.socialLinks)
        && e.value.offices ==
             (if rows[id].offices in {None, Some(""), Some("null")} then Some("[]") else rows[id].offices)
        && e.value.socialLinks ==
             (if rows[id].socialLinks in {None, Some(""), Some("null")} then Some("[]") else rows[id].socialLinks)
    {
      if id in rows {
        var row := rows[id];
        return Some(row.(offices := NormalizeJsonArray(row.offices),
                         socialLinks := NormalizeJsonArray(row.socialLinks)));
      }
      return None;
    }

    method CompareAndSet(id: EmployerId, current: Employer) returns (outcome: Outcome)
      modifies this
      ensures outcome == CasOutcome(old(rows), id, current)
      ensures rows == CasTable(old(rows), id, current)
      ensures outcome == EditConflict <==> id !in old(rows) || old(rows)[id].version != current.version
      ensures outcome == Ok <==>
        && id in old(rows) && old(rows)[id].version == current.version
        && forall x :: x in old(rows) && x != id ==> old(rows)[x].slug != current.slug
      ensures outcome == Ok ==>
        && id in rows && rows == old(rows)[id := rows[id]]
        && rows[id].name == current.name && rows[id].slug == current.slug && rows[id].industry == current.industry
        && rows[id].size == current.size && rows[id].hqLocation == current.hqLocation
        && rows[id].offices == current.offices && rows[id].logoUrl == current.logoUrl
        && rows[id].overview == current.overview && rows[id].culture == current.culture
        && rows[id].website == current.website && rows[id].socialLinks == current.socialLinks
        && rows[id].isVerified == current.isVerified
        && rows[id].avgDifficulty == old(rows)[id].avgDifficulty
        && rows[id].avgExperience == old(rows)[id].avgExperience
        && rows[id].reviewCount == old(rows)[id].reviewCount && rows[id].version == old(rows)[id].version + 1
      ensures outcome != Ok ==> rows == old(rows)
    {
      if id !in rows || rows[id].version != current.version {
        return EditConflict;
      }
      if SlugTaken(rows, current.slug, id) {
        return DuplicateSlug;
      }
      var row := rows[id];
      rows := rows[id := Employer(current.name, current.slug, current.industry, current.size, current.hqLocation,
                                  current.offices, current.logoUrl, current.overview, current.culture,
                                  current.website, current.socialLinks, current.isVerified,
                                  row.avgDifficulty, row.avgExperience, row.reviewCount, row.version + 1)];
      return Ok;
    }

    /** The fields that were sent, written over the row that was read one by one. */
    static method Overwrite(read: Employer, input: UpdateInput) returns (current: Employer)
      ensures current == Merged(read, input)
      ensures current.name == (if input.name.Some? then input.name.value else read.name)
      ensures current.slug == (if input.slug.Some? then input.slug.value else read.slug)
      ensures current.industry == (if input.industry.Some? then input.industry.value else read.industry)
      ensures current.size == (if input.size.Some? then input.size else read.size)
      ensures current.hqLocation == (if input.hqLocation.Some? then input.hqLocation else read.hqLocation)
      ensures current.offices == (if input.offices != "" then Some(input.offices) else read.offices)
      ensures current.logoUrl == (if input.logoUrl.Some? then input.logoUrl else read.logoUrl)
      ensures current.overview == (if input.overview.Some? then input.overview else read.overview)
      ensures current.culture == (if input.culture.Some? then input.culture else read.culture)
      ensures current.website == (if input.website.Some? then input.website else read.website)
      ensures current.socialLinks == (if input.socialLinks != "" then Some(input.socialLinks) else read.socialLinks)
      ensures current.isVerified == (if input.isVerified.Some? then input.isVerified.value else read.isVerified)
      ensures current.avgDifficulty == read.avgDifficulty && current.avgExperience == read.avgExperience
      ensures current.reviewCount == read.reviewCount && current.version == read.version
    {
      var name, slug, industry := read.name, read.slug, read.industry;
      var size, hqLocation, offices, logoUrl := read.size, read.hqLocation, read.offices, read.logoUrl;
      var overview, culture, website, socialLinks := read.overview, read.culture, read.website, read.socialLinks;
      var isVerified := read.isVerified;
      if input.name.Some? { name := input.name.value; }
      assert name == Or(input.name, read.name);
      if input.slug.Some? { slug := input.slug.value; }
      assert slug == Or(input.slug, read.slug);
      if input.industry.Some? { industry := input.industry.value; }
      assert industry == Or(input.industry, read.industry);
      if input.size.Some? { size := input.size; }
      assert size == OrKeep(input.size, read.size);
      if input.hqLocation.Some? { hqLocation := input.hqLocation; }
      assert hqLocation == OrKeep(input.hqLocation, read.hqLocation);
      if |input.offices| > 0 { offices := Some(input.offices); }
      assert offices == OrKeepRaw(input.offices, read.offices);
      if input.logoUrl.Some? { logoUrl := input.logoUrl; }
      assert logoUrl == OrKeep(input.logoUrl, read.logoUrl);
      if input.overview.Some? { overview := input.overview; }
      assert overview == OrKeep(input.overview, read.overview);
      if input.culture.Some? { culture := input.culture; }
      assert culture == OrKeep(input.culture, read.culture);
      if input.website.Some? { website := input.website; }
      assert website == OrKeep(input.website, read.website);
      if |input.socialLinks| > 0 { socialLinks := Some(input.socialLinks); }
      assert socialLinks == OrKeepRaw(input.socialLinks, read.socialLinks);
      if input.isVerified.Some? { isVerified := input.isVerified.value; }
      assert isVerified == Or(input.isVerified, read.isVerified);
      current := read.(name := name, slug := slug, industry := industry, size := size, hqLocation := hqLocation,
                       offices := offices, logoUrl := logoUrl, overview := overview, culture := culture,
                       website := website, socialLinks := socialLinks, isVerified := isVerified);
    }

    /** Read, overwrite field by field, compare-and-set: undisturbed, it is the patch. */
    method Update(id: EmployerId, input: UpdateInput) returns (outcome: Outcome, result: Option<Employer>)
      modifies this
      ensures rows == Apply(old(rows), Patch(id, input))
      ensures outcome == (if id !in old(rows) then NotFound
                          else if SlugTaken(old(rows), Merged(Normalized(old(rows)[id]), input).slug, id)
                               then DuplicateSlug
                          else Ok)
      ensures outcome != Ok ==> rows == old(rows)
      ensures outcome == Ok <==> result.Some?
      ensures result.Some? ==> id in rows && result.value == rows[id]
      ensures outcome == Ok <==>
        && id in old(rows)
        && forall x :: x in old(rows) && x != id ==>
             old(rows)[x].slug != (if input.slug.Some? then input.slug.value else old(rows)[id].slug)
      ensures outcome == Ok ==> forall x :: x != id ==>
        (x in rows <==> x in old(rows)) && (x in rows ==> rows[x] == old(rows)[x])
      ensures outcome == Ok ==>
        && rows[id].name == (if input.name.Some? then input.name.value else old(rows)[id].name)
        && rows[id].slug == (if input.slug.Some? then input.slug.value else old(rows)[id].slug)
        && rows[id].industry == (if input.industry.Some? then input.industry.value else old(rows)[id].industry)
        && rows[id].size == (if input.size.Some? then input.size else old(rows)[id].size)
        && rows[id].hqLocation == (if input.hqLocation.Some? then input.hqLocation else old(rows)[id].hqLocation)
        && rows[id].logoUrl == (if input.logoUrl.Some? then input.logoUrl else old(rows)[id].logoUrl)
        && rows[id].overview == (if input.overview.Some? then input.overview else old(rows)[id].overview)
        && rows[id].culture == (if input.culture.Some? then input.culture else old(rows)[id].culture)
        && rows[id].website == (if input.website.Some? then input.website else old(rows)[id].website)
        && rows[id].isVerified == (if input.isVerified.Some? then input.isVerified.value else old(rows)[id].isVerified)
      ensures outcome == Ok ==>
        && rows[id].offices == (if input.offices != "" then Some(input.offices)
                                else if old(rows)[id].offices in {None, Some(""), Some("null")} then Some("[]")
                                else old(rows)[id].offices)
        && rows[id].socialLinks == (if input.socialLinks != "" then Some(input.socialLinks)
                                    else if old(rows)[id].socialLinks in {None, Some(""), Some("null")} then Some("[]")
                                    else old(rows)[id].socialLinks)
      ensures outcome == Ok ==>
        && rows[id].avgDifficulty == old(rows)[id].avgDifficulty
        && rows[id].avgExperience == old(rows)[id].avgExperience
        && rows[id].reviewCount == old(rows)[id].reviewCount && rows[id].version == old(rows)[id].version + 1
    {
      var read := GetById(id);
      if read.None? {
        return NotFound, None;
      }
      var current := Overwrite(read.value, input);
      outcome := CompareAndSet(id, current);
      if outcome != Ok {
        return outcome, None;
      }
      result := Some(current.(version := current.version + 1));
    }

    method Insert(newId: EmployerId, c: CreateInput) returns (outcome: Outcome)
      requires newId !in rows
      modifies this
      ensures rows == Apply(old(rows), Create(newId, c))
      ensures outcome == Ok <==> forall x :: x in old(rows) ==> old(rows)[x].slug != c.slug
      ensures outcome != Ok ==> outcome == DuplicateSlug && rows == old(rows)
      ensures outcome == Ok ==> newId in rows && rows == old(rows)[newId := rows[newId]]
      ensures outcome == Ok ==>
        rows[newId] == Employer(c.name, c.slug, c.industry, c.size, c.hqLocation, c.offices, c.logoUrl, c.overview,
                                c.culture, c.website, c.socialLinks, false, None, None, 0, 1)
    {
      if x :| x in rows && rows[x].slug == c.slug {
        assert HasSlug(rows, c.slug, x);
        return DuplicateSlug;
      }
      assert forall x :: HasSlug(rows, c.slug, x) ==> x in rows;
      rows := rows[newId := Employer(c.name, c.slug, c.industry, c.size, c.hqLocation, c.offices, c.logoUrl,
                                     c.overview, c.culture, c.website, c.socialLinks, false, None, None, 0, 1)];
      return Ok;
    }

    method Delete(id: EmployerId) returns (outcome: Outcome)
      modifies this
      ensures rows == Apply(old(rows), Remove(id))
      ensures outcome == if id in old(rows) then Ok else NotFound
      ensures id !in rows && forall x :: x != id ==>
        (x in rows <==> x in old(rows)) && (x in rows ==> rows[x] == old(rows)[x])
    {
      outcome := if id in rows then Ok else NotFound;
      rows := rows - {id};
    }

    /** Insert, or overwrite the row that has the slug; the id of the row comes back. */
    method Upsert(newId: EmployerId, c: CreateInput) returns (id: EmployerId)
      requires newId !in rows && SlugsUnique(rows)
      modifies this
      ensures rows == Apply(old(rows), Op.Upsert(newId, c)) && SlugsUnique(rows)
      ensures id in rows && rows == old(rows)[id := rows[id]]
      ensures if exists x :: x in old(rows) && old(rows)[x].slug == c.slug
              then id in old(rows) && old(rows)[id].slug == c.slug
              else id == newId
      ensures id in old(rows) ==>
        rows[id] == Employer(c.name, c.slug, c.industry, c.size, c.hqLocation, c.offices, c.logoUrl, c.overview,
                             c.culture,
                             c.website, c.socialLinks, old(rows)[id].isVerified, old(rows)[id].avgDifficulty,
                             old(rows)[id].avgExperience, old(rows)[id].reviewCount, old(rows)[id].version + 1)
      ensures id !in old(rows) ==>
        rows[id] == Employer(c.name, c.slug, c.industry, c.size, c.hqLocation, c.offices, c.logoUrl, c.overview,
                             c.culture,
                             c.website, c.socialLinks, false, None, None, 0, 1)
    {
      ApplyKeepsSlugsUnique(rows, Op.Upsert(newId, c));
      if x :| x in rows && rows[x].slug == c.slug {
        assert HasSlug(rows, c.slug, x);
        var e := rows[x];
        id := x;
        rows := rows[x := Employer(c.name, c.slug, c.industry, c.size, c.hqLocation, c.offices, c.logoUrl,
                                   c.overview, c.culture, c.website, c.socialLinks, e.isVerified,
                                   e.avgDifficulty, e.avgExperience, e.reviewCount, e.version + 1)];
      } else {
        assert forall x :: HasSlug(rows, c.slug, x) ==> x in rows;
        id := newId;
        rows := rows[newId := Fresh(c)];
      }
    }
  }
}
