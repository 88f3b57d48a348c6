/** Geometry parts against their chunk segments: channels, sample ranges and session ticks, as checked by
    `Snapshot::validate`. */
module SnapshotTicks {
  import opened Bytes
  import opened Results
  import opened Fields
  import opened Lists
  import opened Geometries
  import opened Profiles
  import opened Documents
  import opened SnapshotSpec
  import C = ChunkFormat
  import W = ChunkWriter
  import F = ChunkFacts

  const TICKS: nat := 0x1_0000_0000_0000_0000

  // ----- channels

  /** The types a channel may have on disk, by meaning; unknown channels must not be required. */
  predicate Allowed(col: C.Column) {
    match col.semantic
    case 1 | 2 | 8 | 9 | 10 => col.dtype.F32? || col.dtype.F64?
    case 3 => col.dtype.U16? || col.dtype.U32? || col.dtype.F32? || col.dtype.F64?
    case 4 => col.dtype.U32? || col.dtype.U64?
    case 5 | 6 => col.dtype.I8? || col.dtype.I16? || col.dtype.F32? || col.dtype.F64?
    case 7 => col.dtype.U16? || col.dtype.F32? || col.dtype.F64?
    case 11 => col.dtype.I64? || col.dtype.F64?
    case 12 => col.dtype.U8?
    case _ => !col.required
  }

  predicate ChannelsFit(columns: seq<C.Column>, axes: seq<Pair<U16, Axis>>) {
    && |columns| == |axes|
    && (forall c :: c in columns ==> HasAxis(axes, c.semantic))
    && (forall c :: c in columns ==> Allowed(c))
  }

  /** Distinct channels, as many as the axes and each an axis, are all the axes. */
  lemma ChannelsAreAxes(columns: seq<C.Column>, axes: seq<Pair<U16, Axis>>)
    requires ChannelsFit(columns, axes) && Catalog(axes, AxisKeys())
    requires forall i, j :: 0 <= i < j < |columns| ==> columns[i].semantic < columns[j].semantic
    ensures forall e :: e in axes ==> exists c :: c in columns && c.semantic == e.key
  {
    hide Catalog, Allowed;
    var have := SemanticSet(columns);
    var want := Entries(axes).Keys;
    CatalogSize(axes, AxisKeys());
    EntryKeys(axes);
    Semantics(columns, 0x1_0000);
    SameCount(want);
    assert have <= set k | k in want :: k as nat;
    SameSize(have, set k | k in want :: k as nat);
    forall e | e in axes
      ensures exists c :: c in columns && c.semantic == e.key
    {
      assert e.key in want;
      assert e.key as nat in have;
    }
  }

  lemma {:induction false} SameCount(s: set<U16>)
    ensures |set k | k in s :: k as nat| == |s|
  {
    var t := set k | k in s :: k as nat;
    if s != {} {
      var x :| x in s;
      SameCount(s - {x});
      var rest := set k | k in s - {x} :: k as nat;
      forall k: nat
        ensures k in t <==> k in rest || k == x
      {
        if k in t && k != x {
          var y: U16 :| y in s && y as nat == k;
          assert y in s - {x};
        }
      }
      assert t == rest + {x as nat};
    }
  }

  function SemanticSet(columns: seq<C.Column>): set<nat> {
    if columns == [] then {} else SemanticSet(columns[..|columns| - 1]) + {columns[|columns| - 1].semantic as nat}
  }

  lemma {:induction false} Semantics(columns: seq<C.Column>, bound: nat)
    requires forall i, j :: 0 <= i < j < |columns| ==> columns[i].semantic < columns[j].semantic
    requires forall i :: 0 <= i < |columns| ==> columns[i].semantic < bound
    ensures |SemanticSet(columns)| == |columns|
    ensures forall k :: k in SemanticSet(columns) ==> k < bound && exists c :: c in columns && c.semantic == k
  {
    if columns != [] {
      var n := |columns| - 1;
      Semantics(columns[..n], columns[n].semantic);
      assert forall c :: c in columns[..n] ==> c in columns;
      assert columns[n] in columns;
    }
  }

  // ----- where a segment lies in its columns

  function FindColumn(columns: seq<C.Column>, semantic: nat): (r: Option<C.Column>)
    ensures r.Some? ==> r.value in columns && r.value.semantic == semantic
    ensures r.None? ==> forall c :: c in columns ==> c.semantic != semantic
  {
    if columns == [] then None
    else if columns[0].semantic == semantic then Some(columns[0])
    else FindColumn(columns[1..], semantic)
  }

  /** Rows `start` up to `start + count` of a column lie within its values. */
  predicate Within(dt: C.Column, start: nat, count: nat) { (start + count) * dt.dtype.Width() <= |dt.values| }

  lemma {:induction false} CountsAdd(segments: seq<C.Segment>, i: nat)
    requires i < |segments|
    ensures W.TotalCount(segments[..i]) + segments[i].count <= W.TotalCount(segments)
  {
    var n := |segments| - 1;
    if i == n {
      assert segments[..n] == segments[..i];
    } else {
      CountsAdd(segments[..n], i);
      assert segments[..n][..i] == segments[..i];
    }
  }

  /** What every decoded chunk guarantees. */
  predicate DecodedChunk(c: C.Chunk) {
    c.columns != [] && F.ColumnsFit(c.columns, W.TotalCount(c.segments), c.columns[|c.columns| - 1].semantic)
  }

  /** The decoder has already made every slice of the elapsed-time column safe. */
  lemma SlicesWithin(c: C.Chunk, dt: C.Column, i: nat)
    requires DecodedChunk(c)
    requires dt in c.columns && dt.semantic == 4 && i < |c.segments|
    ensures Within(dt, W.TotalCount(c.segments[..i]), c.segments[i].count)
  {
    hide W.TotalCount;
    CountsAdd(c.segments, i);
    Scale(W.TotalCount(c.segments[..i]) + c.segments[i].count, W.TotalCount(c.segments), dt.dtype.Width());
  }

  lemma RowWithin(dt: C.Column, start: nat, count: nat, i: nat)
    requires Within(dt, start, count) && i < start + count
    ensures i * dt.dtype.Width() + dt.dtype.Width() <= |dt.values|
  {
    Scale(i + 1, start + count, dt.dtype.Width());
  }

  // ----- ticks

  function Delta(dt: C.Column, i: nat): nat
    requires i * dt.dtype.Width() + dt.dtype.Width() <= |dt.values|
  {
    FromLE(dt.values[i * dt.dtype.Width()..i * dt.dtype.Width() + dt.dtype.Width()])
  }

  /** The tick of sample `j` of a part that starts at row `start` of its chunk. */
  function TickAt(dt: C.Column, start: nat, count: nat, first: nat, j: nat): nat
    requires Within(dt, start, count) && j < count
  {
    if j == 0 then first
    else
      RowWithin(dt, start, count, start + j);
      TickAt(dt, start, count, first, j - 1) + Delta(dt, start + j)
  }

  /** The first delta is zero and no tick leaves 64 bits, alone or added to the session start. */
  predicate TicksFit(dt: C.Column, start: nat, count: nat, first: nat, origin: nat)
    requires Within(dt, start, count) && count > 0
  {
    RowWithin(dt, start, count, start);
    Delta(dt, start) == 0 && forall j :: 0 <= j < count ==> origin + TickAt(dt, start, count, first, j) < TICKS
  }

  lemma {:induction false} TicksRise(dt: C.Column, start: nat, count: nat, first: nat, i: nat, j: nat)
    requires Within(dt, start, count) && i <= j < count
    ensures TickAt(dt, start, count, first, i) <= TickAt(dt, start, count, first, j)
  {
    if i < j {
      TicksRise(dt, start, count, first, i, j - 1);
    }
  }

  /** The sample loop: the last tick, or nothing when a check fails. */
  method CheckTicks(dt: C.Column, start: nat, count: nat, first: U64, origin: U64, prior: Option<nat>)
    returns (last: Option<nat>)
    requires Within(dt, start, count) && count > 0
    ensures last.Some? <==> TicksFit(dt, start, count, first, origin) && (prior.Some? ==> prior.value <= first)
    ensures last.Some? ==> last.value == TickAt(dt, start, count, first, count - 1)
  {
    hide FromLE;
    last := prior;
    var tick: nat := first;
    for i := start to start + count
      invariant i > start ==> tick == TickAt(dt, start, count, first, i - start - 1) && last == Some(tick)
      invariant i == start ==> tick == first && last == prior
      invariant i > start ==> (RowWithin(dt, start, count, start); Delta(dt, start) == 0) && (prior.Some? ==> prior.value <= first)
      invariant forall j :: 0 <= j < i - start ==> origin + TickAt(dt, start, count, first, j) < TICKS
    {
      RowWithin(dt, start, count, i);
      var delta := Delta(dt, i);
      if i == start {
        if delta != 0 {
          return None;
        }
      } else {
        tick := tick + delta;
        assert tick == TickAt(dt, start, count, first, i - start);
        if tick >= TICKS {
          return None;
        }
      }
      if last.Some? && tick < last.value {
        return None;
      }
      last := Some(tick);
      if origin + tick >= TICKS {
        assert tick == TickAt(dt, start, count, first, i - start);
        return None;
      }
    }
  }

  // ----- parts of one geometry

  /** Where segments are stored, and the decoded chunks. */
  datatype Store = Store(segments: map<Id, SegmentRef>, decoded: map<Id, C.Chunk>)
  {
    predicate Sound() { forall id :: id in decoded ==> DecodedChunk(decoded[id]) }

    /** The part names a stored segment of the right profile, identity and length. */
    predicate Places(g: Geometry, part: Part) {
      part.segment in segments &&
      var at := segments[part.segment];
      at.chunk in decoded &&
      var chunk := decoded[at.chunk];
      && chunk.profile == g.profile && at.index < |chunk.segments|
      && chunk.segments[at.index] == C.Segment(part.segment, part.count)
    }

    function ChunkOf(g: Geometry, part: Part): C.Chunk
      requires Places(g, part)
    {
      decoded[segments[part.segment].chunk]
    }

    /** The first row of the part in the columns of its chunk. */
    function StartOf(g: Geometry, part: Part): nat
      requires Places(g, part)
    {
      W.TotalCount(ChunkOf(g, part).segments[..segments[part.segment].index])
    }

    predicate Fits(g: Geometry, profile: SourceProfile, part: Part) {
      Places(g, part) &&
      var columns := ChunkOf(g, part).columns;
      ChannelsFit(columns, profile.axes) &&
      (FindColumn(columns, 4).Some? <==> g.timing.Some?) &&
      if g.timing.Some? then
        && part.count > 0 && Within(FindColumn(columns, 4).value, StartOf(g, part), part.count)
        && TicksFit(FindColumn(columns, 4).value, StartOf(g, part), part.count, part.firstTick, g.timing.value.startTick)
      else part.firstTick == 0
    }

    /** The reconstructed tick of sample `j` of a part. */
    function SampleTick(g: Geometry, profile: SourceProfile, part: Part, j: nat): nat
      requires Fits(g, profile, part) && g.timing.Some? && j < part.count
    {
      TickAt(FindColumn(ChunkOf(g, part).columns, 4).value, StartOf(g, part), part.count, part.firstTick, j)
    }

    /** The first `n` parts fit, and each starts no earlier than the one before it ended. */
    predicate Chained(g: Geometry, profile: SourceProfile, n: nat)
      requires n <= |g.parts|
    {
      && (forall k :: 0 <= k < n ==> Fits(g, profile, g.parts[k]))
      && (forall k :: 0 < k < n && g.timing.Some? ==>
            SampleTick(g, profile, g.parts[k - 1], g.parts[k - 1].count - 1) <= g.parts[k].firstTick)
    }

    predicate Samples(g: Geometry, profile: SourceProfile) { Chained(g, profile, |g.parts|) }
  }

  /** Sample ticks never fall along a geometry, across all its parts. */
  lemma {:induction false} TicksNeverFall(st: Store, g: Geometry, profile: SourceProfile, k: nat, i: nat, m: nat, j: nat)
    requires st.Samples(g, profile) && g.timing.Some? && k <= m < |g.parts|
    requires i < g.parts[k].count && j < g.parts[m].count && (k == m ==> i <= j)
    ensures st.SampleTick(g, profile, g.parts[k], i) <= st.SampleTick(g, profile, g.parts[m], j)
    decreases m
  {
    hide TickAt, ChannelsFit, TicksFit;
    var part := g.parts[m];
    var dt, start := FindColumn(st.ChunkOf(g, part).columns, 4).value, st.StartOf(g, part);
    if k == m {
      TicksRise(dt, start, part.count, part.firstTick, i, j);
    } else {
      TicksNeverFall(st, g, profile, k, i, m - 1, g.parts[m - 1].count - 1);
      TicksRise(dt, start, part.count, part.firstTick, 0, j);
      FirstTick(dt, start, part.count, part.firstTick);
    }
  }

  lemma FirstTick(dt: C.Column, start: nat, count: nat, first: nat)
    requires Within(dt, start, count) && count > 0
    ensures TickAt(dt, start, count, first, 0) == first
  {
  }

  /** No sample of a timed geometry leaves the 64 bits of its session clock. */
  lemma TicksInSession(st: Store, g: Geometry, profile: SourceProfile, k: nat, i: nat)
    requires st.Samples(g, profile) && g.timing.Some? && k < |g.parts| && i < g.parts[k].count
    ensures g.timing.value.startTick + st.SampleTick(g, profile, g.parts[k], i) < TICKS
  {
    hide TickAt, ChannelsFit;
  }

  /** One part: whether it fits, and its last tick when it is timed. */
  method CheckPart(st: Store, g: Geometry, profile: SourceProfile, part: Part, prior: Option<nat>)
    returns (ok: bool, last: Option<nat>)
    requires st.Sound() && part.count > 0 && (prior.Some? ==> g.timing.Some?)
    ensures ok <==> st.Fits(g, profile, part) && (prior.Some? ==> prior.value <= part.firstTick)
    ensures ok ==> last == if g.timing.Some? then Some(st.SampleTick(g, profile, part, part.count - 1)) else None
  {
    hide DecodedChunk, ChannelsFit, TickAt, TicksFit;
    last := None;
    if !st.Places(g, part) {
      return false, last;
    }
    var chunk := st.ChunkOf(g, part);
    var dt := FindColumn(chunk.columns, 4);
    if !ChannelsFit(chunk.columns, profile.axes) || dt.Some? != g.timing.Some? {
      return false, last;
    }
    if dt.None? {
      return part.firstTick == 0, last;
    }
    SlicesWithin(chunk, dt.value, st.segments[part.segment].index);
    last := CheckTicks(dt.value, st.StartOf(g, part), part.count, part.firstTick, g.timing.value.startTick, prior);
    ok := last.Some?;
  }

  /** The last tick of the first `n` parts, when there is one. */
  function Prior(st: Store, g: Geometry, profile: SourceProfile, n: nat): Option<nat>
    requires n <= |g.parts| && st.Chained(g, profile, n)
  {
    if n == 0 || g.timing.None? then None
    else Some(st.SampleTick(g, profile, g.parts[n - 1], g.parts[n - 1].count - 1))
  }

  lemma ChainStep(st: Store, g: Geometry, profile: SourceProfile, n: nat)
    requires n < |g.parts| && st.Chained(g, profile, n)
    ensures st.Chained(g, profile, n + 1) <==>
            st.Fits(g, profile, g.parts[n])
            && (Prior(st, g, profile, n).Some? ==> Prior(st, g, profile, n).value <= g.parts[n].firstTick)
  {
    hide Store.Fits, Store.SampleTick;
  }

  lemma ChainPrefix(st: Store, g: Geometry, profile: SourceProfile, n: nat)
    requires n <= |g.parts| && st.Samples(g, profile)
    ensures st.Chained(g, profile, n)
  {
    hide Store.Fits, Store.SampleTick;
  }

  lemma PriorTick(st: Store, g: Geometry, profile: SourceProfile, n: nat)
    requires n < |g.parts| && st.Chained(g, profile, n + 1) && st.Chained(g, profile, n)
    ensures Prior(st, g, profile, n + 1) ==
            if g.timing.Some? then Some(st.SampleTick(g, profile, g.parts[n], g.parts[n].count - 1)) else None
  {
    hide Store.Fits, Store.SampleTick;
  }

  /** The segments used before, and those of the parts. */
  ghost predicate Uses(st: Store, parts: seq<Part>, before: set<Id>, used: set<Id>) {
    && before <= used && (forall p :: p in parts ==> p.segment in used)
    && (forall x :: x in used - before ==> x in st.segments && exists p :: p in parts && p.segment == x)
  }

  lemma UsesMore(st: Store, parts: seq<Part>, k: nat, before: set<Id>, used: set<Id>)
    requires k < |parts| && Uses(st, parts[..k], before, used) && parts[k].segment in st.segments
    ensures Uses(st, parts[..k + 1], before, used + {parts[k].segment})
  {
    var more, all := parts[..k + 1], used + {parts[k].segment};
    assert more == parts[..k] + [parts[k]];
    assert parts[k] in more && forall p :: p in parts[..k] ==> p in more;
    forall x | x in all - before
      ensures x in st.segments && exists p :: p in more && p.segment == x
    {
      if x in used - before {
        var p :| p in parts[..k] && p.segment == x;
        assert p in more;
      }
    }
  }

  /** The loop over the parts of a geometry, collecting the segments it uses. */
  method CheckParts(st: Store, g: Geometry, profile: SourceProfile, before: set<Id>) returns (ok: bool, used: set<Id>)
    requires st.Sound() && Covered(g.parts, 0).Some?
    ensures ok <==> st.Samples(g, profile)
    ensures ok ==> Uses(st, g.parts, before, used)
  {
    hide Covered, Store.Fits, Store.SampleTick, Store.Sound, Store.Chained, Prior, Uses;
    used := before;
    var prior: Option<nat> := None;
    CoveredFrom(g.parts, 0);
    NothingChained(st, g, profile);
    NothingUsed(st, g.parts, before);
    for k := 0 to |g.parts|
      invariant Uses(st, g.parts[..k], before, used)
      invariant st.Chained(g, profile, k) && prior == Prior(st, g, profile, k)
    {
      var part := g.parts[k];
      assert part in g.parts;
      ChainStep(st, g, profile, k);
      TimedPrior(st, g, profile, k);
      var last;
      ok, last := CheckPart(st, g, profile, part, prior);
      if !ok {
        if st.Samples(g, profile) {
          ChainPrefix(st, g, profile, k + 1);
        }
        return;
      }
      FitsIsPlaced(st, g, profile, part);
      PriorTick(st, g, profile, k);
      UsesMore(st, g.parts, k, before, used);
      used := used + {part.segment};
      prior := last;
    }
    assert g.parts[..|g.parts|] == g.parts;
    ok := true;
  }

  lemma NothingUsed(st: Store, parts: seq<Part>, before: set<Id>)
    ensures Uses(st, parts[..0], before, before)
  {
  }

  lemma NothingChained(st: Store, g: Geometry, profile: SourceProfile)
    ensures st.Chained(g, profile, 0) && Prior(st, g, profile, 0) == None
  {
  }

  lemma TimedPrior(st: Store, g: Geometry, profile: SourceProfile, n: nat)
    requires n <= |g.parts| && st.Chained(g, profile, n)
    ensures Prior(st, g, profile, n).Some? ==> g.timing.Some?
  {
    hide Store.Chained, Store.SampleTick;
  }

  lemma FitsIsPlaced(st: Store, g: Geometry, profile: SourceProfile, part: Part)
    requires st.Fits(g, profile, part)
    ensures part.segment in st.segments && st.segments[part.segment].chunk in st.decoded
  {
  }
}
