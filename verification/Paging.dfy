/** Bounded report pages: crates/runtime/src/reports/paging.rs and read_csv_page of csv_file.rs.
    A row is its content and the size of its JSON text; page sizes follow the JSON text of a page. */
module Paging {
  import opened Common

  const PAGE_RESPONSE_LIMIT := 1024 * 1024
  const ROW_LIMIT := 256 * 1024
  const MAX_LIMIT := 100

  datatype Row = Row(content: nat, size: nat)

  datatype Error = PageSize | MetadataTooLarge | RowTooLarge

  datatype Page = Page(rows: seq<Row>, offset: nat, limit: nat, nextOffset: nat, total: nat, hasMore: bool)

  // ---------------------------------------------------------------------------------------
  // Sizes
  // ---------------------------------------------------------------------------------------

  function Digits(n: nat): (d: nat)
    ensures d >= 1
  {
    if n < 10 then 1 else 1 + Digits(n / 10)
  }

  function Total(rows: seq<Row>): nat {
    if rows == [] then 0 else Total(rows[..|rows| - 1]) + rows[|rows| - 1].size
  }

  /** Rows and the commas between them. */
  function RowsSize(rows: seq<Row>): nat {
    Total(rows) + if rows == [] then 0 else |rows| - 1
  }

  const KEYS := 78

  function PageText(metadata: nat, p: Page): nat {
    KEYS + metadata + RowsSize(p.rows) + Digits(p.offset) + Digits(p.limit) + Digits(p.nextOffset) + Digits(p.total)
    + if p.hasMore then 4 else 5
  }

  // ---------------------------------------------------------------------------------------
  // bounded_page
  // ---------------------------------------------------------------------------------------

  /** The page with the first k of the rows. */
  function PageOf(rows: seq<Row>, offset: nat, limit: nat, total: nat, k: nat): Page
    requires k <= |rows|
  {
    var next := Min(offset + k, total);
    Page(rows[..k], offset, limit, next, total, next < total)
  }

  predicate Fits(metadata: nat, rows: seq<Row>, offset: nat, limit: nat, total: nat, k: nat)
    requires k <= |rows|
  {
    PageText(metadata, PageOf(rows, offset, limit, total, k)) <= 1024 * 1024
  }

  /** The page shows the first rows, it fits, and no page with more of them does. */
  ghost predicate Largest(metadata: nat, rows: seq<Row>, page: Page, offset: nat, limit: nat, total: nat) {
    var kept := |page.rows|;
    && kept <= |rows|
    && page == PageOf(rows, offset, limit, total, kept)
    && Fits(metadata, rows, offset, limit, total, kept)
    && forall j :: kept < j <= |rows| ==> !Fits(metadata, rows, offset, limit, total, j)
  }

  ghost predicate NothingFits(metadata: nat, rows: seq<Row>, offset: nat, limit: nat, total: nat) {
    forall k :: 0 <= k <= |rows| ==> !Fits(metadata, rows, offset, limit, total, k)
  }

  /** The loop of bounded_page: the page with the most rows that fits, or an error when not even the
      page without rows does. */
  method BoundedPage(metadata: nat, rows: seq<Row>, offset: nat, limit: nat, total: nat)
    returns (r: Result<Page, Error>)
    ensures r.Ok? ==> Largest(metadata, rows, r.value, offset, limit, total)
    ensures r.Err? <==> NothingFits(metadata, rows, offset, limit, total)
  {
    var kept := rows;
    var page := PageOf(rows, offset, limit, total, |rows|);
    while true
      invariant |kept| <= |rows| && kept == rows[..|kept|] && page == PageOf(rows, offset, limit, total, |kept|)
      invariant forall j :: |kept| < j <= |rows| ==> !Fits(metadata, rows, offset, limit, total, j)
      decreases |kept|
    {
      if PageText(metadata, page) <= PAGE_RESPONSE_LIMIT {
        assert Fits(metadata, rows, offset, limit, total, |kept|);
        return Ok(page);
      }
      assert !Fits(metadata, rows, offset, limit, total, |kept|);
      if kept == [] {
        return Err(MetadataTooLarge);
      }
      kept := kept[..|kept| - 1];
      var next := Min(offset + |kept|, total);
      page := page.(rows := kept, nextOffset := next, hasMore := next < total);
    }
  }

  lemma {:induction false} DigitsMonotone(a: nat, b: nat)
    requires a <= b
    ensures Digits(a) <= Digits(b)
  {
    if b >= 10 && a >= 10 {
      DigitsMonotone(a / 10, b / 10);
    }
  }

  lemma {:induction false} TotalMonotone(rows: seq<Row>, j: nat, k: nat)
    requires j <= k <= |rows|
    ensures Total(rows[..j]) <= Total(rows[..k])
    decreases k
  {
    if j < k {
      TotalMonotone(rows, j, k - 1);
      assert rows[..k][..k - 1] == rows[..k - 1];
    }
  }

  /** If the page with k rows fits, so does every shorter one. */
  lemma FitsShorter(metadata: nat, rows: seq<Row>, offset: nat, limit: nat, total: nat, j: nat, k: nat)
    requires j <= k <= |rows| && offset + k <= total && Fits(metadata, rows, offset, limit, total, k)
    ensures Fits(metadata, rows, offset, limit, total, j)
  {
    TotalMonotone(rows, j, k);
    DigitsMonotone(offset + j, offset + k);
  }

  // ---------------------------------------------------------------------------------------
  // JSON reports
  // ---------------------------------------------------------------------------------------

  const TOO_LARGE := 0

  /** A record larger than the row limit is shown as an error row that names it. */
  function Shown(record: Row, index: nat): Row {
    if record.size > ROW_LIMIT then Row(TOO_LARGE, 90 + Digits(index + 1)) else record
  }

  function ShownAll(records: seq<Row>): (rows: seq<Row>)
    ensures |rows| == |records|
    ensures forall i :: 0 <= i < |records| ==> rows[i] == Shown(records[i], i)
  {
    seq(|records|, i requires 0 <= i < |records| => Shown(records[i], i))
  }

  /** What a page shows: exactly the rows from its offset to its next offset. */
  ghost predicate Exact(page: Page, rows: seq<Row>, offset: nat, limit: nat) {
    && page.offset == offset && page.limit == limit && page.total == |rows|
    && |page.rows| <= limit
    && page.nextOffset == Min(offset + |page.rows|, |rows|)
    && (page.hasMore <==> page.nextOffset < |rows|)
    && (if offset <= |rows| then offset <= page.nextOffset && page.rows == rows[offset..page.nextOffset]
        else page.rows == [])
  }

  /** One row of the page would fit beside the metadata. */
  ghost predicate RoomForOne(metadata: nat, rows: seq<Row>, offset: nat, limit: nat) {
    offset < |rows| && Fits(metadata, rows[offset..offset + 1], offset, limit, |rows|, 1)
  }

  /** What a scan retains: rows from the offset on, at most `limit`, and the first one if there is any. */
  ghost predicate Retained(rows: seq<Row>, shown: seq<Row>, offset: nat, limit: nat) {
    && |rows| <= limit
    && (if offset <= |shown| then offset + |rows| <= |shown| && rows == shown[offset..offset + |rows|] else rows == [])
    && (offset < |shown| && limit > 0 ==> rows != [])
  }

  lemma RetainOne(rows: seq<Row>, shown: seq<Row>, offset: nat, row: Row)
    requires offset + |rows| < |shown| && rows == shown[offset..offset + |rows|] && row == shown[offset + |rows|]
    ensures rows + [row] == shown[offset..offset + |rows| + 1]
  {
  }

  /** The row loop of read_page. */
  method CollectRows(records: seq<Row>, offset: nat, limit: nat) returns (rows: seq<Row>)
    requires limit > 0
    ensures Retained(rows, ShownAll(records), offset, limit)
  {
    ghost var shown := ShownAll(records);
    rows := [];
    var bytes: nat := 0;
    var index := offset;
    var end := Min(offset + limit, |records|);
    while index < end
      invariant offset <= index && (index <= end || index == offset)
      invariant |rows| == index - offset && (rows == [] ==> bytes == 0)
      invariant rows == if index <= |records| then shown[offset..index] else []
      decreases end - index
    {
      var value := records[index];
      RetainOne(rows, shown, offset, shown[index]);
      if value.size > ROW_LIMIT {
        rows := rows + [Row(TOO_LARGE, 90 + Digits(index + 1))];
      } else if bytes + value.size > PAGE_RESPONSE_LIMIT {
        return;
      } else {
        bytes := bytes + value.size;
        rows := rows + [value];
      }
      index := index + 1;
    }
  }

  method ReadPage(records: seq<Row>, metadata: nat, offset: nat, limit: nat) returns (r: Result<Page, Error>)
    ensures r.Ok? ==> 1 <= limit <= 100 && Exact(r.value, ShownAll(records), offset, limit)
    ensures r.Ok? && offset < |records| ==>
              (r.value.nextOffset > offset <==> RoomForOne(metadata, ShownAll(records), offset, limit))
    ensures r.Ok? <==> 1 <= limit <= 100 && Fits(metadata, [], offset, limit, |records|, 0)
    ensures 1 <= limit <= 100 && RoomForOne(metadata, ShownAll(records), offset, limit) ==> r.Ok?
  {
    if limit == 0 || limit > MAX_LIMIT {
      return Err(PageSize);
    }
    ghost var shown := ShownAll(records);
    var rows := CollectRows(records, offset, limit);
    r := BoundedPage(metadata, rows, offset, limit, |records|);
    if r.Ok? {
      PageIsExact(rows, shown, offset, limit, |r.value.rows|);
    }
    EmptyPageFirst(metadata, rows, offset, limit, |records|);
    if offset < |records| {
      FirstRow(rows, shown, offset, limit);
      PageProgress(metadata, rows, offset, limit, |records|, r);
    }
  }

  /** If any page of these rows fits, the page without rows does. */
  lemma EmptyPageFirst(metadata: nat, rows: seq<Row>, offset: nat, limit: nat, total: nat)
    requires rows == [] || offset + |rows| <= total
    ensures NothingFits(metadata, rows, offset, limit, total) <==> !Fits(metadata, [], offset, limit, total, 0)
  {
    assert rows[..0] == [][..0];
    assert Fits(metadata, rows, offset, limit, total, 0) == Fits(metadata, [], offset, limit, total, 0);
    forall k | 0 <= k <= |rows| && Fits(metadata, rows, offset, limit, total, k)
      ensures Fits(metadata, rows, offset, limit, total, 0)
    {
      if k > 0 {
        FitsShorter(metadata, rows, offset, limit, total, 0, k);
      }
    }
  }

  /** A report that cannot be paged through: its metadata leaves room for the page, and for no row. The
      page is empty, and the next one starts where it did. */
  method ReadStuckReport(record: Row) returns (page: Page)
    ensures page == Page([], 0, 1, 0, 1, true)
  {
    var metadata := PAGE_RESPONSE_LIMIT - KEYS - 8;
    StuckReport(metadata, ShownAll([record]));
    var r := ReadPage([record], metadata, 0, 1);
    page := r.value;
  }

  lemma StuckReport(metadata: nat, shown: seq<Row>)
    requires metadata == PAGE_RESPONSE_LIMIT - KEYS - 8 && |shown| == 1
    ensures Fits(metadata, [], 0, 1, 1, 0) && !RoomForOne(metadata, shown, 0, 1)
  {
    assert Digits(0) == 1 && Digits(1) == 1;
  }

  lemma FirstRow(rows: seq<Row>, shown: seq<Row>, offset: nat, limit: nat)
    requires Retained(rows, shown, offset, limit) && offset < |shown| && limit > 0
    ensures rows != [] && rows[..1] == shown[offset..offset + 1]
  {
  }

  /** Every prefix of the retained rows makes an exact page. */
  lemma PageIsExact(rows: seq<Row>, shown: seq<Row>, offset: nat, limit: nat, kept: nat)
    requires Retained(rows, shown, offset, limit) && kept <= |rows|
    ensures Exact(PageOf(rows, offset, limit, |shown|, kept), shown, offset, limit)
  {
    if offset <= |shown| {
      assert rows[..kept] == shown[offset..offset + kept];
    }
  }

  lemma FitsAlone(metadata: nat, rows: seq<Row>, offset: nat, limit: nat, total: nat)
    requires rows != []
    ensures Fits(metadata, rows[..1], offset, limit, total, 1) == Fits(metadata, rows, offset, limit, total, 1)
  {
    assert rows[..1][..1] == rows[..1];
  }

  /** A page of a nonempty list of rows advances exactly when one row fits beside the metadata. */
  lemma PageProgress(metadata: nat, rows: seq<Row>, offset: nat, limit: nat, total: nat, r: Result<Page, Error>)
    requires rows != [] && offset + |rows| <= total
    requires r.Ok? ==> Largest(metadata, rows, r.value, offset, limit, total)
    requires r.Err? <==> NothingFits(metadata, rows, offset, limit, total)
    ensures Fits(metadata, rows[..1], offset, limit, total, 1) ==> r.Ok?
    ensures r.Ok? ==> (r.value.nextOffset > offset <==> Fits(metadata, rows[..1], offset, limit, total, 1))
  {
    FitsAlone(metadata, rows, offset, limit, total);
    if r.Ok? && r.value.rows != [] {
      FitsShorter(metadata, rows, offset, limit, total, 1, |r.value.rows|);
    }
  }

  // ---------------------------------------------------------------------------------------
  // CSV reports
  // ---------------------------------------------------------------------------------------

  /** A CSV record: the length of its raw cells, and the row it becomes. */
  datatype Record = Record(raw: nat, row: Row)

  /** The JSON text of a CSV report's metadata is always the same. */
  const CSV_METADATA := 181

  function RowsOf(records: seq<Record>): (rows: seq<Row>)
    ensures |rows| == |records|
    ensures forall i :: 0 <= i < |records| ==> rows[i] == records[i].row
  {
    seq(|records|, i requires 0 <= i < |records| => records[i].row)
  }

  function CsvRecordValue(record: Record): Result<Row, Error> {
    if record.raw > ROW_LIMIT || record.row.size > ROW_LIMIT then Err(RowTooLarge) else Ok(record.row)
  }

  predicate AllWithinLimits(records: seq<Record>) {
    forall i :: 0 <= i < |records| ==> records[i].raw <= 256 * 1024 && records[i].row.size <= 256 * 1024
  }

  predicate SmallRows(rows: seq<Row>) {
    forall i :: 0 <= i < |rows| ==> rows[i].size <= ROW_LIMIT
  }

  /** The single pass over the whole file, which also counts its records. */
  method ScanCsv(records: seq<Record>, offset: nat, limit: nat) returns (r: Result<seq<Row>, Error>)
    ensures r.Ok? ==> Retained(r.value, RowsOf(records), offset, limit) && SmallRows(r.value)
    ensures AllWithinLimits(records) ==> r.Ok?
    ensures r.Ok? ==> forall i :: 0 <= i < |records| ==> records[i].raw <= 256 * 1024
  {
    ghost var shown := RowsOf(records);
    var rows: seq<Row> := [];
    var responseBytes: nat := 0;
    var total: nat := 0;
    var full := false;
    while total < |records|
      invariant total <= |records|
      invariant rows == [] ==> responseBytes == 0 && !full
      invariant |rows| <= limit && SmallRows(rows)
      invariant forall i :: 0 <= i < total ==> records[i].raw <= ROW_LIMIT
      invariant offset < total && limit > 0 ==> rows != []
      invariant if total <= offset then rows == []
                else offset + |rows| <= total && rows == shown[offset..offset + |rows|]
      invariant offset < total ==> |rows| == limit || full || offset + |rows| == total
    {
      var record := records[total];
      if total >= offset && |rows| < limit && !full {
        var value := CsvRecordValue(record);
        if value.Err? {
          return Err(value.error);
        }
        if responseBytes + value.value.size > PAGE_RESPONSE_LIMIT {
          full := true;
        } else {
          responseBytes := responseBytes + value.value.size;
          RetainOne(rows, shown, offset, value.value);
          rows := rows + [value.value];
        }
      } else if record.raw > ROW_LIMIT {
        return Err(RowTooLarge);
      }
      total := total + 1;
    }
    r := Ok(rows);
  }

  method ReadCsvPage(records: seq<Record>, offset: nat, limit: nat) returns (r: Result<Page, Error>)
    ensures r.Ok? ==> Exact(r.value, RowsOf(records), offset, limit)
    ensures r.Ok? && offset < |records| <= U64_MAX && 1 <= limit <= 100 ==> r.value.nextOffset > offset
    ensures AllWithinLimits(records) && offset <= |records| <= U64_MAX && 1 <= limit <= 100 ==> r.Ok?
  {
    var scanned := ScanCsv(records, offset, limit);
    if scanned.Err? {
      return Err(scanned.error);
    }
    var rows, total := scanned.value, |records|;
    r := BoundedPage(CSV_METADATA, rows, offset, limit, total);
    if r.Ok? {
      PageIsExact(rows, RowsOf(records), offset, limit, |r.value.rows|);
    }
    if 1 <= limit <= MAX_LIMIT && offset <= |records| <= U64_MAX {
      SmallPageFits(CSV_METADATA, rows, offset, limit, total);
      if offset < |records| {
        PageProgress(CSV_METADATA, rows, offset, limit, total, r);
      }
    }
  }

  lemma {:induction false} DigitsBound(n: nat, d: nat)
    requires n < Power10(d) && d >= 1
    ensures Digits(n) <= d
    decreases d
  {
    if n >= 10 {
      assert d > 1 by { assert Power10(1) == 10 * Power10(0); }
      DigitsBound(n / 10, d - 1);
    }
  }

  function Power10(d: nat): nat {
    if d == 0 then 1 else 10 * Power10(d - 1)
  }

  lemma U64Digits(n: nat)
    requires n <= U64_MAX
    ensures Digits(n) <= 20
  {
    assert Power10(20) == 100_000_000_000_000_000_000 by {
      assert Power10(4) == 10_000;
      assert Power10(8) == 10_000 * Power10(4);
      assert Power10(12) == 10_000 * Power10(8);
      assert Power10(16) == 10_000 * Power10(12);
      assert Power10(20) == 10_000 * Power10(16);
    }
    DigitsBound(n, 20);
  }

  /** With small metadata the page without rows fits, and so does the page with one row. */
  lemma SmallPageFits(metadata: nat, rows: seq<Row>, offset: nat, limit: nat, total: nat)
    requires metadata + KEYS + 85 + ROW_LIMIT <= PAGE_RESPONSE_LIMIT
    requires offset <= total <= U64_MAX && limit <= MAX_LIMIT
    requires SmallRows(rows)
    ensures Fits(metadata, rows, offset, limit, total, 0)
    ensures rows != [] ==> Fits(metadata, rows[..1], offset, limit, total, 1)
  {
    U64Digits(offset);
    U64Digits(limit);
    U64Digits(total);
    U64Digits(Min(offset, total));
    U64Digits(Min(offset + 1, total));
    if rows != [] {
      assert rows[..1][..1] == rows[..1] == [rows[0]];
      assert Total([rows[0]]) == rows[0].size;
    }
  }

  // ---------------------------------------------------------------------------------------
  // Following next_offset
  // ---------------------------------------------------------------------------------------

  /** Reading page after page from offset 0 terminates and yields every row of a JSON report once and in
      order, provided one row always fits beside the metadata. */
  method FollowJson(records: seq<Row>, metadata: nat, limit: nat) returns (rows: seq<Row>)
    requires 1 <= limit <= MAX_LIMIT
    requires forall offset :: 0 <= offset < |records| ==> RoomForOne(metadata, ShownAll(records), offset, limit)
    ensures rows == ShownAll(records)
    ensures forall i :: 0 <= i < |records| ==>
              if records[i].size <= 256 * 1024 then rows[i] == records[i] else rows[i].content == TOO_LARGE
  {
    rows := [];
    var offset := 0;
    while offset < |records|
      invariant 0 <= offset <= |records| && rows == ShownAll(records)[..offset]
      decreases |records| - offset
    {
      var page := ReadPage(records, metadata, offset, limit);
      rows := rows + page.value.rows;
      offset := page.value.nextOffset;
    }
  }

  /** For CSV reports whose rows are within their limits this always works. */
  method FollowCsv(records: seq<Record>, limit: nat) returns (rows: seq<Row>)
    requires 1 <= limit <= MAX_LIMIT && |records| <= U64_MAX && AllWithinLimits(records)
    ensures rows == RowsOf(records)
  {
    rows := [];
    var offset := 0;
    var more := true;
    while more
      invariant 0 <= offset <= |records| && rows == RowsOf(records)[..offset]
      invariant !more ==> offset == |records|
      decreases more, |records| - offset
    {
      var page := ReadCsvPage(records, offset, limit);
      rows := rows + page.value.rows;
      offset := page.value.nextOffset;
      more := page.value.hasMore;
    }
  }

  /** The room a JSON report needs is there whenever its metadata leaves the space of one largest row. */
  lemma SmallMetadataLeavesRoom(metadata: nat, records: seq<Row>, offset: nat, limit: nat)
    requires metadata + KEYS + 85 + ROW_LIMIT <= PAGE_RESPONSE_LIMIT
    requires offset < |records| <= U64_MAX && limit <= MAX_LIMIT
    ensures RoomForOne(metadata, ShownAll(records), offset, limit)
  {
    var shown := ShownAll(records);
    var one := shown[offset..offset + 1];
    U64Digits(offset + 1);
    SmallPageFits(metadata, one, offset, limit, |records|);
    assert one[..1] == one;
  }
}
