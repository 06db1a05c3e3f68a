/**
  Page parameters and result metadata (internal/data/filters.go) over a totally ordered
  result (internal/data/opportunities.go, internal/data/reviews.go).
 */
module Paging {
  import opened Common

  datatype Filters = Filters(page: int, pageSize: int, sort: string, sortSafeList: seq<string>)

  datatype Metadata = Metadata(currentPage: int, pageSize: int, firstPage: int, lastPage: int, totalRecords: int)

  const NO_METADATA := Metadata(0, 0, 0, 0, 0)

  // ---------------------------------------------------------------------
  // Parameters.
  // ---------------------------------------------------------------------

  predicate Acceptable(f: Filters) {
    0 < f.page <= 10_000_000 && 0 < f.pageSize <= 100 && f.sort in f.sortSafeList
  }

  /** The first message for a key stays. */
  function Check(errors: map<string, string>, ok: bool, key: string, message: string): map<string, string> {
    if ok || key in errors then errors else errors[key := message]
  }

  method ValidateFilters(f: Filters) returns (errors: map<string, string>)
    ensures errors == map[] <==> Acceptable(f)
    ensures "page" in errors <==> !(0 < f.page <= 10_000_000)
    ensures "page_size" in errors <==> !(0 < f.pageSize <= 100)
    ensures "sort" in errors <==> f.sort !in f.sortSafeList
  {
    errors := map[];
    errors := Check(errors, f.page > 0, "page", "must be greater than zero");
    errors := Check(errors, f.page <= 10_000_000, "page", "must be a maximum of 10 million");
    errors := Check(errors, f.pageSize > 0, "page_size", "must be greater than zero");
    errors := Check(errors, f.pageSize <= 100, "page_size", "must be a maximum of 100");
    errors := Check(errors, f.sort in f.sortSafeList, "sort", "invalid sort value");
  }

  function TrimDash(s: string): string {
    if s != "" && s[0] == '-' then s[1..] else s
  }

  function SortDirection(f: Filters): string {
    if f.sort != "" && f.sort[0] == '-' then "DESC" else "ASC"
  }

  /** None stands for the panic; validated filters never reach it. */
  method SortColumn(f: Filters) returns (column: Option<string>)
    ensures column.Some? <==> f.sort in f.sortSafeList
    ensures column.Some? ==> f.sort == (if SortDirection(f) == "DESC" then "-" else "") + column.value
    ensures Acceptable(f) ==> column.Some?
    ensures column.Some? && f.sort != "" && f.sort[0] == '-' ==>
      column.value == f.sort[1..] && SortDirection(f) == "DESC"
    ensures column.Some? && (f.sort == "" || f.sort[0] != '-') ==> column.value == f.sort && SortDirection(f) == "ASC"
  {
    for i := 0 to |f.sortSafeList|
      invariant f.sort !in f.sortSafeList[..i]
    {
      if f.sort == f.sortSafeList[i] {
        return Some(TrimDash(f.sort));
      }
    }
    return None;
  }

  function Limit(f: Filters): int { f.pageSize }

  function Offset(f: Filters): int { (f.page - 1) * f.pageSize }

  lemma OffsetIsSmall(f: Filters)
    requires Acceptable(f)
    ensures 0 <= Offset(f) && Offset(f) + Limit(f) <= 1_000_000_000
  {
    OffsetIsTimes(f);
    TimesMonotone(f.page - 1, 9_999_999, f.pageSize);
  }

  // ---------------------------------------------------------------------
  // Pages.
  // ---------------------------------------------------------------------

  function CalculateMetadata(totalRecords: int, page: int, pageSize: int): Metadata
    requires pageSize > 0
  {
    if totalRecords == 0 then NO_METADATA
    else Metadata(page, pageSize, 1, (totalRecords + pageSize - 1) / pageSize, totalRecords)
  }

  function Min(a: int, b: int): int { if a < b then a else b }

  /** LIMIT and OFFSET on the ordered result. */
  function Slice<T>(rows: seq<T>, limit: int, offset: int): seq<T>
    requires limit >= 0 && offset >= 0
  {
    rows[Min(offset, |rows|)..Min(offset + limit, |rows|)]
  }

  /** The total comes with the rows, so a page without rows reports no total. */
  function List<T>(rows: seq<T>, f: Filters): (seq<T>, Metadata)
    requires Acceptable(f)
  {
    OffsetIsSmall(f);
    var page := Slice(rows, Limit(f), Offset(f));
    (page, CalculateMetadata(if page == [] then 0 else |rows|, f.page, f.pageSize))
  }

  function LastPage(total: nat, pageSize: int): int
    requires pageSize > 0
  {
    (total + pageSize - 1) / pageSize
  }

  /** Pages 1 to n, one after the other. */
  function Pages<T>(rows: seq<T>, pageSize: int, n: nat): seq<T>
    requires pageSize > 0
  {
    if n == 0 then []
    else Pages(rows, pageSize, n - 1) + Slice(rows, pageSize, Times(n - 1, pageSize))
  }

  function Times(n: nat, k: int): (r: int)
    requires k > 0
    ensures r == n * k && r >= 0
  {
    n * k
  }

  lemma {:induction false} PagesArePrefixes<T>(rows: seq<T>, pageSize: int, n: nat)
    requires pageSize > 0
    ensures Pages(rows, pageSize, n) == rows[..Min(Times(n, pageSize), |rows|)]
    decreases n
  {
    if n > 0 {
      PagesArePrefixes(rows, pageSize, n - 1);
      assert Times(n, pageSize) == Times(n - 1, pageSize) + pageSize;
    }
  }

  lemma PositiveFactor(k: int, q: int)
    requires k > 0 && k * q > 0
    ensures q > 0
  {
  }

  lemma LastPageEnds(total: nat, pageSize: int)
    requires pageSize > 0
    ensures LastPage(total, pageSize) >= 0
    ensures Times(LastPage(total, pageSize), pageSize) >= total
    ensures total > 0 ==> LastPage(total, pageSize) >= 1 && Times(LastPage(total, pageSize) - 1, pageSize) < total
  {
    var x := total + pageSize - 1;
    assert x == pageSize * (x / pageSize) + x % pageSize;
    if total > 0 {
      PositiveFactor(pageSize, x / pageSize);
      assert pageSize * (x / pageSize) == pageSize * (x / pageSize - 1) + pageSize;
    }
  }

  /** Pages 1 to the last, put together, are the whole result: nothing lost, nothing twice. */
  lemma PagesAreComplete<T>(rows: seq<T>, pageSize: int)
    requires pageSize > 0
    ensures LastPage(|rows|, pageSize) >= 0 && Pages(rows, pageSize, LastPage(|rows|, pageSize)) == rows
  {
    LastPageEnds(|rows|, pageSize);
    PagesArePrefixes(rows, pageSize, LastPage(|rows|, pageSize));
    assert rows[..|rows|] == rows;
  }

  lemma OffsetIsTimes(f: Filters)
    requires Acceptable(f)
    ensures Offset(f) == Times(f.page - 1, f.pageSize) && Offset(f) + f.pageSize == Times(f.page, f.pageSize)
  {
  }

  /** Which pages have a first row, and which are full. */
  lemma PagesWithRows(total: nat, f: Filters)
    requires Acceptable(f)
    ensures Offset(f) < total <==> f.page <= LastPage(total, f.pageSize)
    ensures f.page < LastPage(total, f.pageSize) ==> Offset(f) + f.pageSize <= total
  {
    var last := LastPage(total, f.pageSize);
    LastPageEnds(total, f.pageSize);
    OffsetIsTimes(f);
    if f.page < last {
      TimesMonotone(f.page, last - 1, f.pageSize);
    } else if f.page > last {
      TimesMonotone(last, f.page - 1, f.pageSize);
    }
  }

  /** A request has rows exactly up to the last page; beyond it the metadata is all zero. */
  lemma MetadataMatchesPage<T>(rows: seq<T>, f: Filters)
    requires Acceptable(f)
    ensures var (page, m) := List(rows, f);
            && |page| <= f.pageSize
            && (page != [] <==> f.page <= LastPage(|rows|, f.pageSize))
            && (page == [] <==> m == NO_METADATA)
            && (page != [] ==> m == Metadata(f.page, f.pageSize, 1, LastPage(|rows|, f.pageSize), |rows|))
            && (f.page < LastPage(|rows|, f.pageSize) ==> |page| == f.pageSize)
  {
    OffsetIsSmall(f);
    PagesWithRows(|rows|, f);
  }

  /** Row by row: the rows of page p are those from position (p - 1) * size on, as many as there are up to size. */
  lemma PageIsItsRows<T>(rows: seq<T>, f: Filters, i: nat)
    requires Acceptable(f)
    ensures i < |List(rows, f).0| <==> i < f.pageSize && (f.page - 1) * f.pageSize + i < |rows|
    ensures i < |List(rows, f).0| ==>
      0 <= (f.page - 1) * f.pageSize + i < |rows| && List(rows, f).0[i] == rows[(f.page - 1) * f.pageSize + i]
  {
    OffsetIsSmall(f);
  }

  lemma TimesMonotone(a: nat, b: nat, k: int)
    requires a <= b && k > 0
    ensures Times(a, k) <= Times(b, k)
  {
  }
}
