/** The retailer-global version sequence and the list pages built on it (`versioning.py`). */
module Versions {
  import opened Wrappers

  const FIRST_VERSION := 1_000_000
  const MAX_PAGE_SIZE := 1000

  class LightspeedVersions {
    var next: int

    constructor ()
      ensures next == 1_000_000
    {
      next := FIRST_VERSION;
    }

    method Reset()
      modifies this
      ensures next == 1_000_000
    {
      next := FIRST_VERSION;
    }

    /** The last number handed out, or one less than the first. */
    function Current(): int
      reads this
    {
      next - 1
    }

    method Bump() returns (value: int)
      modifies this
      ensures value == old(next) == Current() && next == value + 1
    {
      value := next;
      next := next + 1;
    }
  }

  // A stored entity of one resource; an unstamped one has version 0.
  datatype Row = Row(id: string, version: int, deleted: bool, data: string)

  datatype ListQuery = ListQuery(after: int, before: Option<int>, pageSize: Option<int>, deleted: bool)

  /**
   `read_list_query`, its parameters parsed: `after` defaults to 0, a page size below 1 is refused, a large one
   clamped.
   */
  function ReadListQuery(after: Option<int>, before: Option<int>, pageSize: Option<int>,
                         deleted: bool): (r: Result<ListQuery, int>)
    ensures r.Ok? <==> (pageSize.Some? ==> pageSize.value >= 1)
    ensures r.Ok? && pageSize.Some? ==> r.value.pageSize.Some? && 1 <= r.value.pageSize.value <= 1000
    ensures r.Ok? && pageSize.Some? && pageSize.value <= 1000 ==> r.value.pageSize == pageSize
    ensures r.Ok? && pageSize.Some? && pageSize.value > 1000 ==> r.value.pageSize == Some(1000)
    ensures r.Ok? ==>
        r.value.before == before && r.value.deleted == deleted && (pageSize.None? ==> r.value.pageSize.None?)
    ensures r.Ok? ==> r.value.after == if after.Some? then after.value else 0
    ensures r.Err? ==> pageSize == Some(r.error)
  {
    var start := if after.Some? then after.value else 0;
    match pageSize
    case None => Ok(ListQuery(start, before, None, deleted))
    case Some(n) =>
      if n < 1 then Err(n)
      else Ok(ListQuery(start, before, Some(if n < MAX_PAGE_SIZE then n else MAX_PAGE_SIZE), deleted))
  }

  predicate Selects(q: ListQuery, row: Row) {
    && row.version > q.after
    && (q.before.Some? ==> row.version <= q.before.value)
    && (q.deleted || !row.deleted)
  }

  function Chosen(rows: seq<Row>, q: ListQuery): seq<Row> {
    if rows == [] then []
    else
      var front, last := Chosen(rows[..|rows| - 1], q), rows[|rows| - 1];
      if Selects(q, last) then front + [last] else front
  }

  // `list.sort(key=version_of)`: ascending, equal keys in the order they had.
  function SortByVersion(rows: seq<Row>): seq<Row> {
    if rows == [] then [] else InsertByVersion(SortByVersion(rows[..|rows| - 1]), rows[|rows| - 1])
  }

  function InsertByVersion(rows: seq<Row>, row: Row): seq<Row> {
    if rows == [] || rows[|rows| - 1].version <= row.version then rows + [row]
    else InsertByVersion(rows[..|rows| - 1], row) + [rows[|rows| - 1]]
  }

  function Capped(rows: seq<Row>, q: ListQuery): seq<Row> {
    if q.pageSize.Some? && 0 <= q.pageSize.value < |rows| then rows[..q.pageSize.value] else rows
  }

  function Selected(rows: seq<Row>, q: ListQuery): seq<Row> {
    Capped(SortByVersion(Chosen(rows, q)), q)
  }

  /** `select` */
  method Select(rows: seq<Row>, q: ListQuery) returns (page: seq<Row>)
    ensures page == Selected(rows, q)
  {
    var chosen := [];
    for i := 0 to |rows|
      invariant chosen == Chosen(rows[..i], q)
    {
      assert rows[..i + 1][..i] == rows[..i];
      if Selects(q, rows[i]) { chosen := chosen + [rows[i]]; }
    }
    assert rows[..|rows|] == rows;
    page := Capped(SortByVersion(chosen), q);
  }

  /** The envelope's `version.max`, or none for an empty page. */
  function MaxVersion(page: seq<Row>): Option<int> {
    if page == [] then None
    else
      var front, last := MaxVersion(page[..|page| - 1]), page[|page| - 1].version;
      if front.Some? && front.value > last then front else Some(last)
  }

  // ----- what a page is

  // Rows with one version each, as every mutation draws its own.
  ghost predicate Distinct(rows: set<Row>) {
    forall a, b :: a in rows && b in rows && a != b ==> a.version != b.version
  }

  ghost predicate Ascending(page: seq<Row>) {
    forall i, j :: 0 <= i < j < |page| ==> page[i].version < page[j].version
  }

  // The selected rows in ascending order, none left out but those above a full page.
  ghost predicate IsPage(page: seq<Row>, rows: set<Row>, q: ListQuery) {
    && Ascending(page)
    && (forall row :: row in page ==> row in rows && Selects(q, row))
    && (q.pageSize.Some? ==> |page| <= q.pageSize.value)
    && (forall row :: row in rows && Selects(q, row) && row !in page ==>
          && q.pageSize.Some? && |page| == q.pageSize.value
          && forall i :: 0 <= i < |page| ==> page[i].version < row.version)
  }

  // A listing in which no two rows have one version.
  ghost predicate Apart(rows: seq<Row>) {
    forall i, j :: 0 <= i < j < |rows| ==> rows[i].version != rows[j].version
  }

  lemma {:induction false} ChosenRows(rows: seq<Row>, q: ListQuery)
    requires Apart(rows)
    ensures Apart(Chosen(rows, q)) && forall row :: row in Chosen(rows, q) <==> row in rows && Selects(q, row)
  {
    if rows != [] {
      var front, last := rows[..|rows| - 1], rows[|rows| - 1];
      assert rows == front + [last];
      ChosenRows(front, q);
      hide Selects;
      forall row | row in Chosen(front, q) ensures row.version != last.version {
        assert row in front;
        var i :| 0 <= i < |front| && front[i] == row;
        assert rows[i].version != rows[|rows| - 1].version;
      }
    }
  }

  lemma {:induction false} Inserted(rows: seq<Row>, row: Row)
    requires Ascending(rows) && forall r :: r in rows ==> r.version != row.version
    ensures Ascending(InsertByVersion(rows, row))
    ensures forall r :: r in InsertByVersion(rows, row) <==> r in rows || r == row
  {
    if rows == [] {
    } else {
      var front, last := rows[..|rows| - 1], rows[|rows| - 1];
      assert rows == front + [last];
      if last.version > row.version {
        Inserted(front, row);
        AscendingMore(InsertByVersion(front, row), last);
      } else {
        AscendingMore(rows, row);
      }
    }
  }

  lemma AscendingMore(rows: seq<Row>, last: Row)
    requires Ascending(rows)
        && (rows == [] || rows[|rows| - 1].version < last.version || forall r :: r in rows ==> r.version < last.version)
    ensures Ascending(rows + [last])
  {
  }

  // Sorting keeps the rows and puts them in order.
  lemma {:induction false} SortedRows(rows: seq<Row>)
    requires Apart(rows)
    ensures Ascending(SortByVersion(rows)) && forall r :: r in SortByVersion(rows) <==> r in rows
  {
    if rows != [] {
      var front, last := rows[..|rows| - 1], rows[|rows| - 1];
      assert rows == front + [last];
      SortedRows(front);
      hide InsertByVersion;
      forall r | r in SortByVersion(front) ensures r.version != last.version {
        assert r in front;
        var i :| 0 <= i < |front| && front[i] == r;
        assert rows[i].version != rows[|rows| - 1].version;
      }
      Inserted(SortByVersion(front), last);
    }
  }

  // The rows of one version, as they are listed.
  ghost function OfVersion(rows: seq<Row>, version: int): seq<Row> {
    if rows == [] then []
    else
      var front, last := OfVersion(rows[..|rows| - 1], version), rows[|rows| - 1];
      if last.version == version then front + [last] else front
  }

  ghost predicate NonDecreasing(rows: seq<Row>) {
    forall i, j :: 0 <= i < j < |rows| ==> rows[i].version <= rows[j].version
  }

  lemma OfVersionMore(rows: seq<Row>, row: Row, version: int)
    ensures OfVersion(rows + [row], version)
         == OfVersion(rows, version) + if row.version == version then [row] else []
  {
    assert (rows + [row])[..|rows|] == rows;
  }

  lemma {:induction false} InsertedStably(rows: seq<Row>, row: Row, version: int)
    ensures OfVersion(InsertByVersion(rows, row), version)
         == OfVersion(rows, version) + if row.version == version then [row] else []
  {
    hide OfVersion;
    if rows == [] || rows[|rows| - 1].version <= row.version {
      OfVersionMore(rows, row, version);
    } else {
      var front, last := rows[..|rows| - 1], rows[|rows| - 1];
      assert rows == front + [last];
      InsertedStably(front, row, version);
      OfVersionMore(front, last, version);
      OfVersionMore(InsertByVersion(front, row), last, version);
      if row.version == version { assert OfVersion(front, version) + [row] + [] == OfVersion(front, version) + [row]; }
    }
  }

  lemma {:induction false} InsertedInOrder(rows: seq<Row>, row: Row)
    requires NonDecreasing(rows)
    ensures NonDecreasing(InsertByVersion(rows, row))
    ensures multiset(InsertByVersion(rows, row)) == multiset(rows) + multiset{row}
  {
    hide NonDecreasing;
    if rows == [] || rows[|rows| - 1].version <= row.version {
      LastInOrder(rows, row);
    } else {
      var front, last := rows[..|rows| - 1], rows[|rows| - 1];
      assert rows == front + [last];
      FrontInOrder(front, last);
      InsertedInOrder(front, row);
      var inserted := InsertByVersion(front, row);
      forall r | r in inserted ensures r.version <= last.version {
        assert r in multiset(inserted);
        assert r in front || r == row;
      }
      AppendedInOrder(inserted, last);
    }
  }

  lemma FrontInOrder(front: seq<Row>, last: Row)
    requires NonDecreasing(front + [last])
    ensures NonDecreasing(front) && forall r :: r in front ==> r.version <= last.version
  {
    var all := front + [last];
    assert forall i :: 0 <= i < |front| ==> all[i] == front[i];
    assert all[|front|] == last;
  }

  lemma AppendedInOrder(front: seq<Row>, last: Row)
    requires NonDecreasing(front) && forall r :: r in front ==> r.version <= last.version
    ensures NonDecreasing(front + [last])
  {
  }

  lemma LastInOrder(rows: seq<Row>, row: Row)
    requires NonDecreasing(rows) && (rows == [] || rows[|rows| - 1].version <= row.version)
    ensures NonDecreasing(rows + [row])
  {
  }

  /** Rows of different versions are put in order, and rows of one version stay as they were listed. */
  lemma {:induction false} SortedStably(rows: seq<Row>, version: int)
    ensures NonDecreasing(SortByVersion(rows))
    ensures OfVersion(SortByVersion(rows), version) == OfVersion(rows, version)
    ensures multiset(SortByVersion(rows)) == multiset(rows)
  {
    if rows != [] {
      var front, last := rows[..|rows| - 1], rows[|rows| - 1];
      assert rows == front + [last];
      SortedStably(front, version);
      InsertedStably(SortByVersion(front), last, version);
      InsertedInOrder(SortByVersion(front), last);
      OfVersionMore(front, last, version);
    }
  }

  /**
   `after` is exclusive and `before` inclusive, so the pages on either side of a version have no row in common and miss
   none.
   */
  lemma PagesPartition(after: int, middle: int, deleted: bool, row: Row)
    requires after <= middle
    ensures Selects(ListQuery(after, None, None, deleted), row)
       <==> (Selects(ListQuery(after, Some(middle), None, deleted), row)
           || Selects(ListQuery(middle, None, None, deleted), row))
    ensures !(Selects(ListQuery(after, Some(middle), None, deleted), row)
        && Selects(ListQuery(middle, None, None, deleted), row))
  {
  }

  // No row is listed twice.
  ghost predicate Lists(listing: seq<Row>, rows: set<Row>) {
    && (forall row :: row in listing <==> row in rows)
    && (forall i, j :: 0 <= i < j < |listing| ==> listing[i] != listing[j])
  }

  /** However the store lists its rows, `select` gives the page. */
  lemma SelectIsPage(listing: seq<Row>, rows: set<Row>, q: ListQuery)
    requires Lists(listing, rows) && Distinct(rows) && (q.pageSize.Some? ==> q.pageSize.value >= 1)
    ensures IsPage(Selected(listing, q), rows, q)
  {
    hide Chosen, SortByVersion, Selects;
    forall i, j | 0 <= i < j < |listing| ensures listing[i].version != listing[j].version {
      assert listing[i] in rows && listing[j] in rows;
    }
    ChosenRows(listing, q);
    SortedRows(Chosen(listing, q));
    CapIsPage(SortByVersion(Chosen(listing, q)), rows, q);
  }

  /**
   Row by row: a page has no row from before its start, after its end or, unasked, a deleted one; and any other row is
   left out only above a full page.
   */
  lemma PageExactly(listing: seq<Row>, rows: set<Row>, q: ListQuery, row: Row)
    requires Lists(listing, rows) && Distinct(rows) && (q.pageSize.Some? ==> q.pageSize.value >= 1) && row in rows
    ensures var page := Selected(listing, q);
            var asked := && q.after < row.version && (q.before == None || row.version <= q.before.value)
                         && (row.deleted ==> q.deleted);
            && (row in page ==> asked)
            && (asked && row !in page ==>
                  && q.pageSize.Some? && |page| == q.pageSize.value
                  && forall i :: 0 <= i < |page| ==> page[i].version < row.version)
  {
    hide Selected;
    SelectIsPage(listing, rows, q);
  }

  lemma CapIsPage(sorted: seq<Row>, rows: set<Row>, q: ListQuery)
    requires Ascending(sorted) && (forall row :: row in sorted <==> row in rows && Selects(q, row))
    requires q.pageSize.Some? ==> q.pageSize.value >= 1
    ensures IsPage(Capped(sorted, q), rows, q)
  {
    hide Selects;
    var page := Capped(sorted, q);
    forall row | row in page ensures row in sorted {}
    forall row | row in rows && Selects(q, row) && row !in page
      ensures q.pageSize.Some? && |page| == q.pageSize.value
      ensures forall i :: 0 <= i < |page| ==> page[i].version < row.version
    {
      assert row in sorted;
      var n :| 0 <= n < |sorted| && sorted[n] == row;
      assert forall i :: 0 <= i < |page| ==> page[i] == sorted[i] && page[i] != row;
    }
  }

  // An ascending page's maximum is its last row's version.
  lemma {:induction false} MaxIsLast(page: seq<Row>)
    requires Ascending(page)
    ensures MaxVersion(page) == if page == [] then None else Some(page[|page| - 1].version)
  {
    if |page| > 1 { MaxIsLast(page[..|page| - 1]); }
  }
}
