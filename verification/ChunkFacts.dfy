/** What a decoded chunk guarantees to its readers: row counts, column order and full columns. */
module ChunkFacts {
  import opened Bytes
  import opened Results
  import opened ChunkFormat
  import opened ChunkWriter
  import opened ChunkAccount
  import R = ChunkRoundTrip

  /** A column with no missing rows holds one value for each of the `n` rows. */
  predicate Full(col: Column, n: nat) { col.validity == None && |col.values| == n * col.dtype.Width() }

  predicate ColumnsFit(columns: seq<Column>, n: nat, last: nat) {
    && (forall i :: 0 <= i < |columns| ==> 0 < columns[i].semantic <= last)
    && (forall i, j :: 0 <= i < j < |columns| ==> columns[i].semantic < columns[j].semantic)
    && (forall i :: 0 <= i < |columns| && MustBeFull(columns[i].semantic) ==> Full(columns[i], n))
  }

  lemma FullDirectory(b: seq<Byte>, f: Frame, e: Entry, encoding: Encoding)
    requires f.Fits(b) && e.flags == 16 && ReadDirectory(b, f, e, encoding).Ok?
    ensures ReadDirectory(b, f, e, encoding).value.validity == None
    ensures ReadDirectory(b, f, e, encoding).value.valid == f.n
  {
    hide Claim, Slice;
  }

  lemma EntryFull(pf: Platform, b: seq<Byte>, f: Frame, e: Entry, scan: Scan)
    requires f.Fits(b) && e.semantic < 0x1_0000 && e.logical < 256
    requires ReadEntry(pf, b, f, e, scan, true).Ok?
    ensures var next := ReadEntry(pf, b, f, e, scan, true).value;
            && next.previous == e.semantic > scan.previous && |next.columns| == |scan.columns| + 1
            && next.columns[..|scan.columns|] == scan.columns && next.columns[|scan.columns|].semantic == e.semantic
            && (MustBeFull(e.semantic) ==> Full(next.columns[|scan.columns|], f.n))
  {
    hide CheckLengths, ReadDirectory, ReadPayload, ValuesOk, DTypeOf;
    var dtype := DTypeOf(e.logical).value;
    var dir := ReadDirectory(b, f, e, EncodingOf(e.codec)).value;
    PayloadMeasured(pf, b, f, e, dtype, EncodingOf(e.codec), dir.valid);
    if MustBeFull(e.semantic) {
      FullDirectory(b, f, e, EncodingOf(e.codec));
    }
  }

  lemma FitsOneMore(columns: seq<Column>, more: seq<Column>, n: nat, last: nat, semantic: nat)
    requires ColumnsFit(columns, n, last) && |more| == |columns| + 1 && more[..|columns|] == columns
    requires more[|columns|].semantic == semantic > last && (MustBeFull(semantic) ==> Full(more[|columns|], n))
    ensures ColumnsFit(more, n, semantic)
  {
    assert forall i :: 0 <= i < |columns| ==> more[i] == columns[i];
  }

  lemma {:induction false} ScannedFit(pf: Platform, b: seq<Byte>, f: Frame, i: nat, scan: Scan)
    requires f.Fits(b) && i <= f.c && ColumnsFit(scan.columns, f.n, scan.previous)
    requires ReadColumns(pf, b, f, i, scan, true).Ok?
    ensures var all := ReadColumns(pf, b, f, i, scan, true).value; ColumnsFit(all.columns, f.n, all.previous)
    decreases f.c - i
  {
    hide ReadEntry, EntryAt, ColumnsFit;
    if i < f.c {
      EntryFits(b, f.ColumnAt(i));
      EntryFull(pf, b, f, EntryAt(b, f.ColumnAt(i)), scan);
      var next := ReadColumn(pf, b, f, i, scan, true).value;
      FitsOneMore(scan.columns, next.columns, f.n, scan.previous, next.previous);
      ScannedFit(pf, b, f, i + 1, next);
    }
  }

  /** In a decoded chunk the columns ascend without repetition, and every axis that must be complete,
      elapsed time among them, has no missing row and one value for each of the chunk's points. */
  lemma DecodedFits(pf: Platform, b: seq<Byte>)
    requires Decode(pf, b).Ok?
    ensures var c := Decode(pf, b).value;
            c.columns != [] && ColumnsFit(c.columns, TotalCount(c.segments), c.columns[|c.columns| - 1].semantic)
  {
    hide ReadHeader, ReadSegments, ReadColumns, SortRanges, Sweep, ColumnsFit, TotalCount;
    var f := ReadHeader(pf, b).value;
    EmptyFits(f.n);
    ScannedFit(pf, b, f, 0, EMPTY_SCAN);
    R.SegmentsExactly(b, f, ReadSegments(b, f, 0, [], 0).value);
    var all := ReadColumns(pf, b, f, 0, EMPTY_SCAN, true).value;
    LastIsLargest(all.columns, f.n, all.previous);
  }

  lemma EmptyFits(n: nat)
    ensures ColumnsFit([], n, 0)
  {
  }

  lemma LastIsLargest(columns: seq<Column>, n: nat, last: nat)
    requires ColumnsFit(columns, n, last) && columns != []
    ensures ColumnsFit(columns, n, columns[|columns| - 1].semantic)
  {
  }
}
