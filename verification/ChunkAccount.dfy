/** What acceptance by the chunk decoder means: every byte accounted for, and the size it reports. */
module ChunkAccount {
  import opened Bytes
  import opened Results
  import opened ChunkFormat
  import opened ChunkWriter

  // ----- how many declared ranges cover a byte

  function Covers(r: Range, k: nat): nat { if r.lo <= k < r.hi then 1 else 0 }

  function Cover(ranges: seq<Range>, k: nat): nat {
    if ranges == [] then 0 else Covers(ranges[0], k) + Cover(ranges[1..], k)
  }

  lemma {:induction false} CoverAppend(a: seq<Range>, b: seq<Range>, k: nat)
    ensures Cover(a + b, k) == Cover(a, k) + Cover(b, k)
  {
    if a == [] {
      assert a + b == b;
    } else {
      CoverAppend(a[1..], b, k);
      assert (a + b)[1..] == a[1..] + b;
    }
  }

  /** The order of the ranges does not matter. */
  lemma {:induction false} CoverOfSameRanges(a: seq<Range>, b: seq<Range>, k: nat)
    requires multiset(a) == multiset(b)
    ensures Cover(a, k) == Cover(b, k)
  {
    if a == [] {
      assert |multiset(b)| == 0;
    } else {
      assert a[0] in multiset(b);
      var i :| 0 <= i < |b| && b[i] == a[0];
      assert a == [a[0]] + a[1..];
      assert b == b[..i] + ([b[i]] + b[i + 1..]);
      assert multiset(a[1..]) == multiset(a) - multiset{a[0]};
      assert multiset(b) == multiset(b[..i]) + multiset([b[i]] + b[i + 1..]);
      assert multiset(b[..i] + b[i + 1..]) == multiset(b) - multiset{b[i]};
      CoverOfSameRanges(a[1..], b[..i] + b[i + 1..], k);
      CoverAppend(b[..i], b[i + 1..], k);
      CoverAppend(b[..i], [b[i]] + b[i + 1..], k);
      assert ([b[i]] + b[i + 1..])[1..] == b[i + 1..];
    }
  }

  /** A passed sweep covers no byte before its start, no byte twice, and leaves only zeros uncovered. */
  lemma {:induction false} SweptOnce(b: seq<Byte>, ranges: seq<Range>, end: nat, k: nat)
    requires WithinBuffer(ranges, |b|) && Sweep(b, ranges, end)
    ensures k < end ==> Cover(ranges, k) == 0
    ensures end <= k < |b| ==> Cover(ranges, k) == 1 || (Cover(ranges, k) == 0 && b[k] == 0)
    ensures k >= |b| ==> Cover(ranges, k) == 0
  {
    if ranges != [] {
      SweptOnce(b, ranges[1..], ranges[0].hi, k);
      assert ranges[0] in ranges;
    }
  }

  // ----- the ranges declared by the column table

  /** Parameters, bitmap and payload of each of the first `i` entries. */
  function Declared(b: seq<Byte>, f: Frame, i: nat): seq<Range>
    requires f.Fits(b) && i <= f.c
  {
    if i == 0 then []
    else
      var e := EntryAt(b, f.ColumnAt(i - 1));
      Declared(b, f, i - 1) + (RangeOf(e.paramsAt, e.paramsLen) + RangeOf(e.bitmapAt, e.bitmapLen))
        + RangeOf(e.payloadAt, e.payloadLen)
  }

  lemma EntryRanges(pf: Platform, b: seq<Byte>, f: Frame, e: Entry, scan: Scan, decode: bool)
    requires f.Fits(b) && e.semantic < 0x1_0000 && e.logical < 256
    requires ReadEntry(pf, b, f, e, scan, decode).Ok?
    ensures ReadEntry(pf, b, f, e, scan, decode).value.ranges
         == scan.ranges + (RangeOf(e.paramsAt, e.paramsLen) + RangeOf(e.bitmapAt, e.bitmapLen))
            + RangeOf(e.payloadAt, e.payloadLen)
  {
    hide CheckEntry, CheckLengths, ReadValidity, ReadValues, ValuesOk, DTypeOf, Slice;
  }

  lemma {:induction false} ScannedRanges(pf: Platform, b: seq<Byte>, f: Frame, i: nat, scan: Scan, decode: bool)
    requires f.Fits(b) && i <= f.c && scan.ranges == Declared(b, f, i)
    requires ReadColumns(pf, b, f, i, scan, decode).Ok?
    ensures ReadColumns(pf, b, f, i, scan, decode).value.ranges == Declared(b, f, f.c)
    decreases f.c - i
  {
    hide ReadEntry, EntryAt;
    if i < f.c {
      EntryFits(b, f.ColumnAt(i));
      EntryRanges(pf, b, f, EntryAt(b, f.ColumnAt(i)), scan, decode);
      ScannedRanges(pf, b, f, i + 1, ReadColumn(pf, b, f, i, scan, decode).value, decode);
    }
  }

  /** Every byte of an accepted chunk is accounted for: past the tables it lies in exactly one declared
      range, or in none and is zero; no range reaches into the tables or past the end. */
  lemma EveryByteAccounted(pf: Platform, b: seq<Byte>, decode: bool, k: nat)
    requires ReadLayout(pf, b, decode).Ok?
    ensures var f := ReadHeader(pf, b).value;
            var ranges := Declared(b, f, f.c);
            && WithinBuffer(ranges, |b|)
            && (k < f.tableEnd ==> Cover(ranges, k) == 0)
            && (f.tableEnd <= k < |b| ==> Cover(ranges, k) == 1 || (Cover(ranges, k) == 0 && b[k] == 0))
  {
    hide ReadHeader, ReadSegments, ReadColumns, SortRanges, Sweep, Cover, Declared, HasAxis;
    var f := ReadHeader(pf, b).value;
    var scan := ReadColumns(pf, b, f, 0, EMPTY_SCAN, decode).value;
    NothingDeclared(b, f);
    ScannedRanges(pf, b, f, 0, EMPTY_SCAN, decode);
    ColumnsStayWithin(pf, b, f, 0, EMPTY_SCAN, decode);
    SortStaysWithin(scan.ranges, |b|);
    SweptOnce(b, SortRanges(scan.ranges), f.tableEnd, k);
    CoverOfSameRanges(SortRanges(scan.ranges), scan.ranges, k);
  }

  lemma NothingDeclared(b: seq<Byte>, f: Frame)
    requires f.Fits(b)
    ensures Declared(b, f, 0) == []
  {
  }

  // ----- the decoded size

  /** The scan that decodes and the scan that only measures, side by side. */
  predicate SameScan(full: Scan, lean: Scan) {
    && full.previous == lean.previous && full.decoded == lean.decoded && full.ranges == lean.ranges
    && |full.columns| == |lean.columns|
    && (forall i :: 0 <= i < |full.columns| ==> full.columns[i].semantic == lean.columns[i].semantic)
    && full.decoded == TotalValues(full.columns)
  }

  lemma EntryMeasured(pf: Platform, b: seq<Byte>, f: Frame, e: Entry, full: Scan, lean: Scan)
    requires f.Fits(b) && e.semantic < 0x1_0000 && e.logical < 256 && SameScan(full, lean)
    requires ReadEntry(pf, b, f, e, full, true).Ok?
    ensures ReadEntry(pf, b, f, e, lean, false).Ok?
    ensures SameScan(ReadEntry(pf, b, f, e, full, true).value, ReadEntry(pf, b, f, e, lean, false).value)
  {
    hide CheckLengths, ReadDirectory, ValuesOk, DTypeOf, Decompress, Claim, TotalValues, CheckEntry;
    var one := ReadEntry(pf, b, f, e, full, true).value;
    var dtype := DTypeOf(e.logical).value;
    var dir := ReadDirectory(b, f, e, EncodingOf(e.codec)).value;
    var values := one.columns[|full.columns|].values;
    PayloadMeasured(pf, b, f, e, dtype, EncodingOf(e.codec), dir.valid);
    assert one.columns[..|one.columns| - 1] == full.columns;
    TotalOfOneMore(full.columns, one.columns[|full.columns|]);
  }

  lemma TotalOfOneMore(columns: seq<Column>, col: Column)
    ensures TotalValues(columns + [col]) == TotalValues(columns) + |col.values|
  {
    assert (columns + [col])[..|columns|] == columns;
  }

  lemma PayloadMeasured(pf: Platform, b: seq<Byte>, f: Frame, e: Entry, dtype: DType, encoding: Encoding, valid: nat)
    requires f.Fits(b) && ReadPayload(pf, b, f, e, dtype, encoding, valid, true).Ok?
    ensures ReadPayload(pf, b, f, e, dtype, encoding, valid, false).Ok?
    ensures var (values, body) := ReadPayload(pf, b, f, e, dtype, encoding, valid, true).value;
            |values| == valid * dtype.Width()
            && ReadPayload(pf, b, f, e, dtype, encoding, valid, false).value.1 == body
  {
    hide Decompress;
  }

  lemma {:induction false} ColumnsMeasured(pf: Platform, b: seq<Byte>, f: Frame, i: nat, full: Scan, lean: Scan)
    requires f.Fits(b) && i <= f.c && SameScan(full, lean)
    requires ReadColumns(pf, b, f, i, full, true).Ok?
    ensures ReadColumns(pf, b, f, i, lean, false).Ok?
    ensures SameScan(ReadColumns(pf, b, f, i, full, true).value, ReadColumns(pf, b, f, i, lean, false).value)
    decreases f.c - i
  {
    hide ReadEntry, EntryAt, SameScan;
    if i < f.c {
      EntryFits(b, f.ColumnAt(i));
      EntryMeasured(pf, b, f, EntryAt(b, f.ColumnAt(i)), full, lean);
      ColumnsMeasured(pf, b, f, i + 1, ReadColumn(pf, b, f, i, full, true).value, ReadColumn(pf, b, f, i, lean, false).value);
    }
  }

  lemma SameAxis(a: seq<Column>, b: seq<Column>, axis: nat)
    requires |a| == |b| && (forall i :: 0 <= i < |a| ==> a[i].semantic == b[i].semantic)
    ensures HasAxis(a, axis) <==> HasAxis(b, axis)
  {
    if HasAxis(a, axis) {
      var i :| 0 <= i < |a| && a[i].semantic == axis;
      assert b[i].semantic == axis;
    }
    if HasAxis(b, axis) {
      var i :| 0 <= i < |b| && b[i].semantic == axis;
      assert a[i].semantic == axis;
    }
  }

  /** `decoded_value_bytes` is the total length of the values `decode` returns. */
  lemma MeasuredSizeIsDecodedSize(pf: Platform, b: seq<Byte>)
    requires Decode(pf, b).Ok?
    ensures DecodedValueBytes(pf, b) == Ok(TotalValues(Decode(pf, b).value.columns))
  {
    hide ReadHeader, ReadSegments, ReadColumns, SortRanges, Sweep, HasAxis, TotalValues;
    var f := ReadHeader(pf, b).value;
    EmptyScansAgree();
    ColumnsMeasured(pf, b, f, 0, EMPTY_SCAN, EMPTY_SCAN);
    var full := ReadColumns(pf, b, f, 0, EMPTY_SCAN, true).value;
    var lean := ReadColumns(pf, b, f, 0, EMPTY_SCAN, false).value;
    SameAxis(full.columns, lean.columns, 1);
    SameAxis(full.columns, lean.columns, 2);
    SameAxis(full.columns, lean.columns, 12);
  }

  lemma EmptyScansAgree()
    ensures SameScan(EMPTY_SCAN, EMPTY_SCAN)
  {
  }
}
