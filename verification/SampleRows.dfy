/** Which rows of a chunk belong to a geometry part, and what they say of its time stamps, as `Snapshot::validate` of
    `crates/ink-format/src/snapshot.rs` takes them. */
module SampleRows {
  import opened Fields
  import opened Records
  import opened Geometries
  import opened Profiles
  import opened SnapshotSpec
  import opened SnapshotTicks
  import opened Snapshots
  import C = ChunkFormat
  import D = ChunkDecode
  import W = ChunkWriter

  // ----- rows

  /** The rows of the first `i` segments. */
  function RowsBefore(segments: seq<C.Segment>, i: nat): nat
    requires i <= |segments|
  {
    if i == 0 then 0 else segments[0].count + RowsBefore(segments[1..], i - 1)
  }

  lemma {:induction false} RowsMore(segments: seq<C.Segment>, i: nat)
    requires i < |segments|
    ensures RowsBefore(segments, i + 1) == RowsBefore(segments, i) + segments[i].count
  {
    if i > 0 {
      RowsMore(segments[1..], i - 1);
    }
  }

  lemma {:induction false} CountsAreRows(segments: seq<C.Segment>, i: nat)
    requires i <= |segments|
    ensures W.TotalCount(segments[..i]) == RowsBefore(segments, i)
  {
    if i > 0 {
      CountsAreRows(segments, i - 1);
      RowsMore(segments, i - 1);
      assert segments[..i][..i - 1] == segments[..i - 1];
    }
  }

  lemma {:induction false} RowsRise(segments: seq<C.Segment>, i: nat, j: nat)
    requires i <= j <= |segments|
    ensures RowsBefore(segments, i) <= RowsBefore(segments, j)
  {
    if i < j {
      RowsRise(segments, i, j - 1);
      RowsMore(segments, j - 1);
    }
  }

  /** The first row of a part and the row behind its last. */
  function RowsOf(st: Store, g: Geometry, part: Part): (r: (nat, nat))
    requires st.Places(g, part)
    ensures r.0 + part.count == r.1
  {
    (st.StartOf(g, part), st.StartOf(g, part) + part.count)
  }

  /** Parts in one chunk, of whatever geometries, take its rows in the order of its segments: the first from row 0 on,
      each next one right behind, the last up to the end. */
  lemma PartsTileRows(st: Store, g: Geometry, part: Part, h: Geometry, other: Part)
    requires st.Places(g, part) && st.Places(h, other) && st.segments[part.segment].chunk == st.segments[other.segment].chunk
    ensures var segments := st.ChunkOf(g, part).segments;
            var i, k := st.segments[part.segment].index, st.segments[other.segment].index;
            var mine, next := RowsOf(st, g, part), RowsOf(st, h, other);
      && (i == 0 ==> mine.0 == 0) && (i == |segments| - 1 ==> mine.1 == RowsBefore(segments, |segments|))
      && (i < k ==> mine.1 <= next.0) && (i + 1 == k ==> mine.1 == next.0) && (i == k ==> mine == next)
  {
    var segments := st.ChunkOf(g, part).segments;
    var i, k := st.segments[part.segment].index, st.segments[other.segment].index;
    CountsAreRows(segments, i);
    CountsAreRows(segments, k);
    RowsMore(segments, i);
    if i < k {
      RowsRise(segments, i + 1, k);
    }
  }

  // ----- time stamps

  /** The elapsed time stored in a row. */
  function Elapsed(dt: C.Column, row: nat): nat
    requires (dt.dtype.U32? && 4 * row + 4 <= |dt.values|) || (dt.dtype.U64? && 8 * row + 8 <= |dt.values|)
  {
    if dt.dtype.U32? then D.N4(dt.values, 4 * row) else D.N8(dt.values, 8 * row)
  }

  /** The column has these rows, of one of the types elapsed time may have. */
  predicate Timed(dt: C.Column, rows: nat) {
    (dt.dtype.U32? && 4 * rows <= |dt.values|) || (dt.dtype.U64? && 8 * rows <= |dt.values|)
  }

  /** The time that passes in rows `lo` up to `hi`. */
  function Passed(dt: C.Column, lo: nat, hi: nat): nat
    requires lo <= hi && Timed(dt, hi)
    decreases hi - lo
  {
    if lo == hi then 0 else Elapsed(dt, lo) + Passed(dt, lo + 1, hi)
  }

  lemma {:induction false} PassedMore(dt: C.Column, lo: nat, hi: nat)
    requires lo <= hi && Timed(dt, hi + 1)
    ensures Passed(dt, lo, hi + 1) == Passed(dt, lo, hi) + Elapsed(dt, hi)
    decreases hi - lo
  {
    hide Elapsed;
    if lo < hi {
      PassedMore(dt, lo + 1, hi);
    }
  }

  lemma DeltaIsElapsed(dt: C.Column, row: nat)
    requires Timed(dt, row + 1)
    ensures row * dt.dtype.Width() + dt.dtype.Width() <= |dt.values| && Delta(dt, row) == Elapsed(dt, row)
  {
    if dt.dtype.U32? {
      D.Uint4(dt.values, 4 * row);
    } else {
      D.Uint8(dt.values, 8 * row);
    }
  }

  lemma {:induction false} TickIsSum(dt: C.Column, start: nat, count: nat, first: nat, j: nat)
    requires Within(dt, start, count) && j < count && Timed(dt, start + count)
    ensures TickAt(dt, start, count, first, j) == first + Passed(dt, start + 1, start + 1 + j)
  {
    hide Elapsed, Delta;
    if j > 0 {
      TickIsSum(dt, start, count, first, j - 1);
      DeltaIsElapsed(dt, start + j);
      PassedMore(dt, start + 1, start + j);
    }
  }

  /** The elapsed-time column of a chunk, its only one. */
  predicate ElapsedColumn(c: C.Chunk, dt: C.Column) { dt in c.columns && dt.semantic == 4 && forall d :: d in c.columns && d.semantic == 4 ==> d == dt }

  /** The time stamp of sample `j` of a part that is segment `index` of a chunk, from the rows of that segment. */
  function Stamp(c: C.Chunk, dt: C.Column, index: nat, part: Part, j: nat): nat
    requires index < |c.segments| && Timed(dt, RowsBefore(c.segments, index) + j + 1)
  {
    var start := RowsBefore(c.segments, index);
    part.firstTick + Passed(dt, start + 1, start + 1 + j)
  }

  lemma OneElapsed(c: C.Chunk, dt: C.Column)
    requires DecodedChunk(c) && dt in c.columns && dt.semantic == 4
    ensures ElapsedColumn(c, dt)
  {
  }

  lemma RowsTimed(c: C.Chunk, dt: C.Column, profile: SourceProfile, start: nat, count: nat)
    requires ChannelsFit(c.columns, profile.axes) && dt in c.columns && dt.semantic == 4 && Within(dt, start, count)
    ensures Timed(dt, start + count)
  {
    assert Allowed(dt);
  }

  /** What the checks on a part of a timed geometry say of the rows of its segment. */
  ghost predicate PartTimed(st: Store, g: Geometry, profile: SourceProfile, part: Part, c: C.Chunk, index: nat, dt: C.Column)
    requires st.Fits(g, profile, part) && g.timing.Some?
  {
    && index < |c.segments| && ElapsedColumn(c, dt) && part.count > 0
    && Timed(dt, RowsBefore(c.segments, index) + part.count) && Elapsed(dt, RowsBefore(c.segments, index)) == 0
    && forall j :: 0 <= j < part.count ==> st.SampleTick(g, profile, part, j) == Stamp(c, dt, index, part, j)
  }

  lemma PartStamps(st: Store, g: Geometry, profile: SourceProfile, part: Part)
    requires st.Sound() && st.Fits(g, profile, part) && g.timing.Some?
    ensures var c := st.ChunkOf(g, part);
      FindColumn(c.columns, 4).Some? && PartTimed(st, g, profile, part, c, st.segments[part.segment].index, FindColumn(c.columns, 4).value)
  {
    hide RowsBefore, TickAt, Passed, Elapsed, Delta, Within, DecodedChunk, ChannelsFit;
    var c, index := st.ChunkOf(g, part), st.segments[part.segment].index;
    var dt := FindColumn(c.columns, 4).value;
    OneElapsed(c, dt);
    CountsAreRows(c.segments, index);
    var start := st.StartOf(g, part);
    RowsTimed(c, dt, profile, start, part.count);
    DeltaIsElapsed(dt, start);
    forall j | 0 <= j < part.count
      ensures st.SampleTick(g, profile, part, j) == Stamp(c, dt, index, part, j)
    {
      TickIsSum(dt, start, part.count, part.firstTick, j);
    }
  }

  // ----- in an exact snapshot

  /** The part is segment `index` of this chunk: by the document's catalog, and by the stored bytes. */
  ghost predicate StoredAt(w: World, s: Snapshot, g: Geometry, part: Part, c: C.Chunk, index: nat) {
    ReadDocument(w, s.root).Ok? && part.segment in Entries(ReadDocument(w, s.root).value.segments) &&
    var at := Entries(ReadDocument(w, s.root).value.segments)[part.segment];
    && at.chunk in s.chunks && C.Decode(w.pf, s.chunks[at.chunk]) == Results.Ok(c) && index == at.index
    && c.profile == g.profile && index < |c.segments| && c.segments[index] == C.Segment(part.segment, part.count)
  }

  /** Sample `j` of the part has this time stamp. */
  ghost predicate HasStamp(w: World, s: Snapshot, g: Geometry, part: Part, j: nat, t: nat) {
    exists c, index, dt {:trigger StoredAt(w, s, g, part, c, index), ElapsedColumn(c, dt)} ::
      StoredAt(w, s, g, part, c, index) && ElapsedColumn(c, dt) && Timed(dt, RowsBefore(c.segments, index) + j + 1)
      && Elapsed(dt, RowsBefore(c.segments, index)) == 0 && t == Stamp(c, dt, index, part, j)
  }

  lemma PlacedIsStored(w: World, s: Snapshot, g: Geometry, part: Part)
    requires ReadDocument(w, s.root).Ok? && StoreOf(w, s, ReadDocument(w, s.root).value).Places(g, part)
    ensures var st := StoreOf(w, s, ReadDocument(w, s.root).value); StoredAt(w, s, g, part, st.ChunkOf(g, part), st.segments[part.segment].index)
  {
    hide ReadDocument, Entries, C.Decode;
  }

  /** Within its segment a sample has exactly the time stamp the validator works with. */
  lemma StampIs(w: World, s: Snapshot, g: Geometry, profile: SourceProfile, part: Part, j: nat, t: nat)
    requires ReadDocument(w, s.root).Ok? && g.timing.Some? && j < part.count
    requires StoreOf(w, s, ReadDocument(w, s.root).value).Fits(g, profile, part)
    ensures HasStamp(w, s, g, part, j, t) <==> t == StoreOf(w, s, ReadDocument(w, s.root).value).SampleTick(g, profile, part, j)
  {
    hide ReadDocument, Entries, C.Decode, Store.Fits, Store.SampleTick, DecodedChunks, Elapsed, Stamp, Timed, RowsBefore, DecodedChunk;
    var st := StoreOf(w, s, ReadDocument(w, s.root).value);
    StoreSound(w, s, ReadDocument(w, s.root).value);
    PartStamps(st, g, profile, part);
    FitsPlaced(st, g, profile, part);
    PlacedIsStored(w, s, g, part);
    var c, index := st.ChunkOf(g, part), st.segments[part.segment].index;
    var dt := FindColumn(c.columns, 4).value;
    assert StoredAt(w, s, g, part, c, index) && ElapsedColumn(c, dt);
    TimedLess(dt, RowsBefore(c.segments, index) + j + 1, RowsBefore(c.segments, index) + part.count);
  }

  lemma FitsPlaced(st: Store, g: Geometry, profile: SourceProfile, part: Part)
    requires st.Fits(g, profile, part)
    ensures st.Places(g, part)
  {
  }

  lemma TimedLess(dt: C.Column, a: nat, b: nat)
    requires Timed(dt, b) && a <= b
    ensures Timed(dt, a)
  {
  }

  /** In an exact snapshot every sample of a timed geometry has one time stamp: the part's first tick and the time that
      passes in the rows of its segment after the first, whose own elapsed time is zero. Time stamps never fall, across
      all parts, and none leaves its session's clock. */
  lemma AcceptedStamps(w: World, s: Snapshot, supported: seq<U64>, x: Id, k: nat, i: nat, m: nat, j: nat) returns (t: nat, u: nat)
    requires Exact(w, s, supported) && x in s.records && s.records[x].kind == GEOMETRY
    requires ReadGeometry(w, s.records[x]).Ok? && ReadGeometry(w, s.records[x]).value.timing.Some?
    requires var parts := ReadGeometry(w, s.records[x]).value.parts;
      k <= m < |parts| && i < parts[k].count && j < parts[m].count && (k == m ==> i <= j)
    ensures var g := ReadGeometry(w, s.records[x]).value;
      && (forall v :: HasStamp(w, s, g, g.parts[k], i, v) <==> v == t) && (forall v :: HasStamp(w, s, g, g.parts[m], j, v) <==> v == u)
      && t <= u < 0x1_0000_0000_0000_0000 - g.timing.value.startTick
  {
    hide ReadGeometry, ReadDocument, ProfileAt, CatalogsExact, MetadataExact, SegmentsExact, StoreOf, EncodeRecord, Supported,
         Store.SampleTick, Store.Fits, HasStamp;
    var g := ReadGeometry(w, s.records[x]).value;
    var st := StoreOf(w, s, ReadDocument(w, s.root).value);
    assert GeometrySound(w, s, st, s.records[x]);
    var profile := ProfileAt(w, s, g.profile).value;
    assert st.Fits(g, profile, g.parts[k]) && st.Fits(g, profile, g.parts[m]);
    t, u := st.SampleTick(g, profile, g.parts[k], i), st.SampleTick(g, profile, g.parts[m], j);
    AcceptedTicks(w, s, supported, x, k, i, m, j);
    forall v: nat
      ensures HasStamp(w, s, g, g.parts[k], i, v) <==> v == t
      ensures HasStamp(w, s, g, g.parts[m], j, v) <==> v == u
    {
      StampIs(w, s, g, profile, g.parts[k], i, v);
      StampIs(w, s, g, profile, g.parts[m], j, v);
    }
  }
}
