/** What `encode` writes, `decode` reads: the round trip of a chunk, and exactly when encoding succeeds. */
module ChunkRoundTrip {
  import opened Bytes
  import opened Results
  import opened ChunkFormat
  import opened ChunkEncode
  import opened ChunkWriter

  // ----- the header

  predicate At(x: seq<Byte>, lo: nat, src: seq<Byte>) {
    lo + |src| <= |x| && x[lo..lo + |src|] == src
  }

  lemma PasteAt(x: seq<Byte>, at: nat, src: seq<Byte>)
    requires at + |src| <= |x|
    ensures At(Paste(x, at, src), at, src)
    ensures forall lo: nat, t: seq<Byte> {:trigger At(Paste(x, at, src), lo, t)} ::
              (lo + |t| <= at || at + |src| <= lo) && At(x, lo, t) ==> At(Paste(x, at, src), lo, t)
  {
    hide Paste;
    PasteFacts(x, at, src);
  }

  lemma ZerosAt(n: nat, lo: nat, k: nat)
    requires lo + k <= n
    ensures At(Zeros(n), lo, LE(0, k))
  {
    ZeroLE(k);
  }

  predicate HeaderFields(x: seq<Byte>, c: Chunk, n: nat, directory: nat, payload: nat, headerCrc: nat, directoryCrc: nat) {
    && At(x, 0, MAGIC) && At(x, 8, LE(1, 2)) && At(x, 10, LE(0, 2)) && At(x, 12, LE(0, 4))
    && At(x, 16, c.id) && At(x, 32, c.profile) && At(x, 48, LE(n, 4)) && At(x, 52, LE(|c.segments|, 4))
    && At(x, 56, LE(|c.columns|, 2)) && At(x, 58, LE(0, 2)) && At(x, 60, LE(directory, 4))
    && At(x, 64, LE(payload, 8)) && At(x, 72, LE(headerCrc, 4)) && At(x, 76, LE(directoryCrc, 4))
  }

  lemma HeaderWritten(c: Chunk, n: nat, directory: nat, payload: nat, headerCrc: nat, directoryCrc: nat)
    ensures HeaderFields(SealedBlock(HeaderBlock(c, n), directory, payload, headerCrc, directoryCrc),
                         c, n, directory, payload, headerCrc, directoryCrc)
  {
    hide At, Paste, Zeros;
    var x := Zeros(HEADER);
    ZerosAt(HEADER, 10, 2);
    ZerosAt(HEADER, 12, 4);
    ZerosAt(HEADER, 58, 2);
    PasteAt(x, 0, MAGIC);
    x := Paste(x, 0, MAGIC);
    PasteAt(x, 8, LE(1, 2));
    x := Paste(x, 8, LE(1, 2));
    PasteAt(x, 16, c.id);
    x := Paste(x, 16, c.id);
    PasteAt(x, 32, c.profile);
    x := Paste(x, 32, c.profile);
    PasteAt(x, 48, LE(n, 4));
    x := Paste(x, 48, LE(n, 4));
    PasteAt(x, 52, LE(|c.segments|, 4));
    x := Paste(x, 52, LE(|c.segments|, 4));
    PasteAt(x, 56, LE(|c.columns|, 2));
    x := Paste(x, 56, LE(|c.columns|, 2));
    assert x == HeaderBlock(c, n);
    PasteAt(x, 60, LE(directory, 4));
    x := Paste(x, 60, LE(directory, 4));
    PasteAt(x, 64, LE(payload, 8));
    x := Paste(x, 64, LE(payload, 8));
    PasteAt(x, 72, LE(headerCrc, 4));
    x := Paste(x, 72, LE(headerCrc, 4));
    PasteAt(x, 76, LE(directoryCrc, 4));
  }

  lemma UintAt(b: seq<Byte>, x: seq<Byte>, at: nat, size: nat, value: nat)
    requires |x| == HEADER <= |b| && b[..HEADER] == x && At(x, at, LE(value, size)) && value < Pow256(size)
    ensures Uint(b, at, size) == value
  {
    FromLEOfLE(value, size);
    assert b[at..at + size] == x[at..at + size];
  }

  lemma {:induction false} FlatBounded(ss: seq<seq<Byte>>, k: nat)
    requires forall s :: s in ss ==> |s| <= k
    ensures |Flat(ss)| <= k * |ss|
  {
    if ss != [] {
      var rest := ss[1..];
      assert ss[0] in ss && forall s :: s in rest ==> s in ss;
      FlatBounded(rest, k);
      OneTimesMore(k, |rest|);
    }
  }

  lemma OneTimesMore(k: nat, n: nat)
    ensures k * (n + 1) == k * n + k
  {
  }

  /** Everything known of a chunk that has been written. */
  ghost predicate Context(pf: Platform, c: Chunk, encoding: Encoding, plans: seq<Plan>, p: Parts, b: seq<Byte>) {
    && Sound(pf) && WithinLimits(c)
    && |plans| == |c.columns| && ArePlans(pf, TotalCount(c.segments), c.columns, encoding, plans)
    && Written(pf, c, TotalCount(c.segments), plans, p, b)
  }

  function FrameOf(c: Chunk, p: Parts): Frame {
    Frame(TotalCount(c.segments), |c.segments|, |c.columns|, p.TableEnd(), p.Start())
  }

  lemma Basics(pf: Platform, c: Chunk, encoding: Encoding, plans: seq<Plan>, p: Parts, b: seq<Byte>)
    requires Context(pf, c, encoding, plans, p, b)
    ensures p.Shaped() && |p.segs| == |c.segments|
    ensures |p.cols| == |plans| == |c.columns| == |p.dirs| == |p.pays|
    ensures b == Whole(p) && HEADER <= p.Start() <= |b|
    ensures p.head == SealedBlock(HeaderBlock(c, TotalCount(c.segments)), p.Start() - HEADER, |b| - p.Start(),
                                  pf.crc(b[..72]), pf.crc(b[HEADER..p.Start()]))
    ensures WithinLimits(c)
  {
    hide Sound, ArePlans, Whole, SegmentBlock, ColumnBlock, EntryFor, Blob, SealedBlock, HeaderBlock, WithinLimits, TotalCount,
         Flat, AllLength;
  }

  lemma SegmentIs(pf: Platform, c: Chunk, encoding: Encoding, plans: seq<Plan>, p: Parts, b: seq<Byte>, i: nat)
    requires Context(pf, c, encoding, plans, p, b) && i < |c.segments|
    ensures |p.segs| == |c.segments| && p.segs[i] == SegmentBlock(c.segments[i])
  {
    hide Sound, ArePlans, Whole, SegmentBlock, ColumnBlock, EntryFor, Blob, SealedBlock, HeaderBlock, WithinLimits;
  }

  lemma ColumnIs(pf: Platform, c: Chunk, encoding: Encoding, plans: seq<Plan>, p: Parts, b: seq<Byte>, i: nat)
    requires Context(pf, c, encoding, plans, p, b) && i < |c.columns|
    ensures |p.dirs| == |p.pays| == |p.cols| == |plans| == |c.columns|
    ensures p.dirs[i] == Blob(c.columns[i], plans[i]) && p.pays[i] == plans[i].payload
    ensures var e := EntryFor(pf, TotalCount(c.segments), c.columns[i], plans[i], p.DirAt(i), p.PayAt(i));
            e.logical < 256 && e.storage < 256 && p.cols[i] == ColumnBlock(e)
    ensures PlanColumn(pf, TotalCount(c.segments), c.columns[i], encoding) == Ok(plans[i])
  {
    hide Sound, Whole, SegmentBlock, ColumnBlock, Blob, SealedBlock, HeaderBlock, WithinLimits, PlanColumn,
      TotalCount, Parts.DirAt, Parts.PayAt;
  }

  lemma BlobSize(pf: Platform, n: nat, col: Column, encoding: Encoding)
    requires PlanColumn(pf, n, col, encoding).Ok? && n <= MAX_POINTS
    ensures |Blob(col, PlanColumn(pf, n, col, encoding).value)| <= 125_003
  {
    hide Compress, Ones, ValuesOk, TailClear;
  }

  lemma DirectoryFits(pf: Platform, c: Chunk, encoding: Encoding, plans: seq<Plan>, p: Parts, b: seq<Byte>)
    requires Context(pf, c, encoding, plans, p, b)
    ensures p.Start() - HEADER <= MAX_DIRECTORY
  {
    hide Context, Whole, Flat, AllLength, SealedBlock, HeaderBlock, Blob, EntryFor, PlanColumn, TotalCount;
    Basics(pf, c, encoding, plans, p, b);
    forall s | s in p.dirs
      ensures |s| <= 125_003
    {
      var i :| 0 <= i < |p.dirs| && p.dirs[i] == s;
      ColumnIs(pf, c, encoding, plans, p, b, i);
      BlobSize(pf, TotalCount(c.segments), c.columns[i], encoding);
    }
    FlatBounded(p.dirs, 125_003);
  }

  lemma HeaderReads(pf: Platform, c: Chunk, encoding: Encoding, plans: seq<Plan>, p: Parts, b: seq<Byte>)
    requires Context(pf, c, encoding, plans, p, b) && |b| <= MAX_CHUNK
    ensures ReadHeader(pf, b) == Ok(FrameOf(c, p))
    ensures b[16..32] == c.id && b[32..48] == c.profile
  {
    hide Context, At, Flat, SealedBlock, HeaderBlock, Uint, Whole, AllLength, TotalCount, TotalValues;
    Basics(pf, c, encoding, plans, p, b);
    DirectoryFits(pf, c, encoding, plans, p, b);
    var n, x := TotalCount(c.segments), p.head;
    var directory, payload := p.Start() - HEADER, |b| - p.Start();
    HeaderWritten(c, n, directory, payload, pf.crc(b[..72]), pf.crc(b[HEADER..p.Start()]));
    HeadOfWhole(p);
    Powers();
    UintAt(b, x, 8, 2, 1);
    UintAt(b, x, 10, 2, 0);
    UintAt(b, x, 12, 4, 0);
    UintAt(b, x, 48, 4, n);
    UintAt(b, x, 52, 4, |c.segments|);
    UintAt(b, x, 56, 2, |c.columns|);
    UintAt(b, x, 58, 2, 0);
    UintAt(b, x, 60, 4, directory);
    UintAt(b, x, 64, 8, payload);
    UintAt(b, x, 72, 4, pf.crc(b[..72]));
    UintAt(b, x, 76, 4, pf.crc(b[HEADER..p.Start()]));
    TextAt(b, x, 0, MAGIC);
    TextAt(b, x, 16, c.id);
    TextAt(b, x, 32, c.profile);
    assert b[..8] == b[0..8];
  }

  lemma HeadOfWhole(p: Parts)
    requires p.Shaped()
    ensures |Whole(p)| >= HEADER && Whole(p)[..HEADER] == p.head
  {
    hide Flat;
  }

  lemma TextAt(b: seq<Byte>, x: seq<Byte>, at: nat, src: seq<Byte>)
    requires |x| == HEADER <= |b| && b[..HEADER] == x && At(x, at, src)
    ensures b[at..at + |src|] == src
  {
    assert b[at..at + |src|] == x[at..at + |src|];
  }

  // ----- where the other parts lie

  lemma SegmentLies(p: Parts, i: nat)
    requires p.Shaped() && i < |p.segs|
    ensures HEADER + 32 * i + 32 <= |Whole(p)|
    ensures Whole(p)[HEADER + 32 * i..HEADER + 32 * i + 32] == p.segs[i]
  {
    hide Flat;
    UniformSlice(p.segs, 32, i);
    Between(p.head, Flat(p.segs), Flat(p.cols) + Flat(p.dirs) + Flat(p.pays), 32 * i, 32 * i + 32);
    assert p.head + Flat(p.segs) + (Flat(p.cols) + Flat(p.dirs) + Flat(p.pays)) == Whole(p);
  }

  lemma Between(pre: seq<Byte>, x: seq<Byte>, post: seq<Byte>, lo: nat, hi: nat)
    requires lo <= hi <= |x|
    ensures (pre + x + post)[|pre| + lo..|pre| + hi] == x[lo..hi]
  {
  }

  lemma ColumnLies(p: Parts, i: nat)
    requires p.Shaped() && i < |p.cols|
    ensures var at := HEADER + 32 * |p.segs| + 64 * i;
            at + 64 <= p.TableEnd() <= |Whole(p)| && Whole(p)[at..at + 64] == p.cols[i]
  {
    hide Flat;
    UniformSlice(p.cols, 64, i);
    FlatLength(p.segs, 32);
    Between(p.head + Flat(p.segs), Flat(p.cols), Flat(p.dirs) + Flat(p.pays), 64 * i, 64 * i + 64);
    assert p.head + Flat(p.segs) + Flat(p.cols) + (Flat(p.dirs) + Flat(p.pays)) == Whole(p);
  }

  lemma DirectoryLies(p: Parts, i: nat)
    requires p.Shaped() && i < |p.dirs|
    ensures p.TableEnd() <= p.DirAt(i) && p.DirAt(i + 1) == p.DirAt(i) + |p.dirs[i]| <= p.Start() <= |Whole(p)|
    ensures Whole(p)[p.DirAt(i)..p.DirAt(i + 1)] == p.dirs[i]
  {
    hide Flat;
    FlatSlice(p.dirs, i);
    FlatLength(p.segs, 32);
    FlatLength(p.cols, 64);
    Between(p.head + Flat(p.segs) + Flat(p.cols), Flat(p.dirs), Flat(p.pays), |Flat(p.dirs[..i])|, |Flat(p.dirs[..i + 1])|);
  }

  lemma PayloadLies(p: Parts, i: nat)
    requires p.Shaped() && i < |p.pays|
    ensures p.Start() <= p.PayAt(i) && p.PayAt(i + 1) == p.PayAt(i) + |p.pays[i]| <= |Whole(p)|
    ensures Whole(p)[p.PayAt(i)..p.PayAt(i + 1)] == p.pays[i]
  {
    hide Flat;
    FlatSlice(p.pays, i);
    FlatLength(p.segs, 32);
    FlatLength(p.cols, 64);
    Between(p.head + Flat(p.segs) + Flat(p.cols) + Flat(p.dirs), Flat(p.pays), [], |Flat(p.pays[..i])|, |Flat(p.pays[..i + 1])|);
    assert p.head + Flat(p.segs) + Flat(p.cols) + Flat(p.dirs) + Flat(p.pays) + [] == Whole(p);
  }

  // ----- segments

  predicate GoodSegment(segments: seq<Segment>, i: nat)
    requires i < |segments|
  {
    segments[i].id != Zeros(16) && segments[i].count > 0 && segments[i].id !in SegmentIds(segments[..i])
  }

  predicate GoodSegments(segments: seq<Segment>, from: nat) {
    forall i :: from <= i < |segments| ==> GoodSegment(segments, i)
  }

  /** Entry `i` of the segment table holds this segment, and its reserved bytes are zero. */
  predicate Stored(b: seq<Byte>, f: Frame, i: nat, s: Segment)
    requires f.Fits(b) && i < f.s
  {
    var at := f.SegmentAt(i);
    && b[at..at + 16] == s.id && Uint(b, at + 16, 4) == s.count
    && Uint(b, at + 20, 4) == 0 && Uint(b, at + 24, 8) == 0
  }

  predicate AllStored(b: seq<Byte>, f: Frame, segments: seq<Segment>)
    requires f.Fits(b) && |segments| <= f.s
  {
    forall i :: 0 <= i < |segments| ==> Stored(b, f, i, segments[i])
  }

  /** What the segment loop makes of a table that holds these segments. */
  lemma {:induction false} SegmentsFrom(b: seq<Byte>, f: Frame, segments: seq<Segment>, i: nat)
    requires f.Fits(b) && i <= f.s == |segments| && AllStored(b, f, segments)
    ensures ReadSegments(b, f, i, segments[..i], TotalCount(segments[..i]))
            == if GoodSegments(segments, i) && TotalCount(segments) == f.n then Ok(segments) else Err(InvalidData)
    decreases f.s - i
  {
    hide Uint, SegmentIds, GoodSegment, ReadSegments, TotalCount, GoodSegments, Stored;
    if i == f.s {
      assert segments[..i] == segments;
      SegmentsEnd(b, f, segments);
    } else {
      SegmentStep(b, f, i, segments);
      SegmentsFrom(b, f, segments, i + 1);
    }
  }

  lemma SegmentsEnd(b: seq<Byte>, f: Frame, segments: seq<Segment>)
    requires f.Fits(b) && f.s == |segments|
    ensures GoodSegments(segments, f.s)
    ensures ReadSegments(b, f, f.s, segments, TotalCount(segments)) == if TotalCount(segments) == f.n then Ok(segments) else Err(InvalidData)
  {
  }

  lemma SegmentStep(b: seq<Byte>, f: Frame, i: nat, segments: seq<Segment>)
    requires f.Fits(b) && i < f.s == |segments| && Stored(b, f, i, segments[i])
    ensures var now, next := segments[..i], segments[..i + 1];
      ReadSegments(b, f, i, now, TotalCount(now))
      == if GoodSegment(segments, i) then ReadSegments(b, f, i + 1, next, TotalCount(next)) else Err(InvalidData)
    ensures GoodSegments(segments, i) <==> GoodSegment(segments, i) && GoodSegments(segments, i + 1)
  {
    hide Uint, SegmentIds;
    var s := segments[i];
    assert Segment(s.id, s.count) == s;
    assert segments[..i + 1][..i] == segments[..i] && segments[..i] + [s] == segments[..i + 1];
  }

  /** What the loop returns is what the table holds. */
  lemma {:induction false} SegmentsStored(b: seq<Byte>, f: Frame, i: nat, done: seq<Segment>, total: nat)
    requires f.Fits(b) && i == |done| <= f.s && AllStored(b, f, done) && ReadSegments(b, f, i, done, total).Ok?
    ensures var segments := ReadSegments(b, f, i, done, total).value; |segments| == f.s && AllStored(b, f, segments)
    decreases f.s - i
  {
    hide Uint, SegmentIds;
    if i < f.s {
      var at := f.SegmentAt(i);
      CountFits(b, at + 16);
      var s := Segment(IdAt(b, at).value, Uint(b, at + 16, 4));
      assert Stored(b, f, i, s);
      SegmentsStored(b, f, i + 1, done + [s], total + s.count);
    }
  }

  lemma CountFits(b: seq<Byte>, at: nat)
    requires at + 4 <= |b|
    ensures Uint(b, at, 4) < 0x1_0000_0000
  {
    FromLEBound(b[at..at + 4]);
    assert Pow256(4) == 0x1_0000_0000;
  }

  /** On any bytes the segment loop returns exactly the segments the table holds, if their identifiers are distinct
      and not zero, their counts are not zero and add up to the header's, and the reserved bytes are zero. */
  lemma SegmentsExactly(b: seq<Byte>, f: Frame, segments: seq<Segment>)
    requires f.Fits(b)
    ensures ReadSegments(b, f, 0, [], 0) == Ok(segments) <==>
              |segments| == f.s && AllStored(b, f, segments) && GoodSegments(segments, 0) && TotalCount(segments) == f.n
  {
    hide Stored, GoodSegments, ReadSegments;
    if ReadSegments(b, f, 0, [], 0) == Ok(segments) {
      SegmentsStored(b, f, 0, [], 0);
    }
    if |segments| == f.s && AllStored(b, f, segments) {
      assert segments[..0] == [];
      SegmentsFrom(b, f, segments, 0);
    }
  }

  lemma SegmentsRead(pf: Platform, c: Chunk, encoding: Encoding, plans: seq<Plan>, p: Parts, b: seq<Byte>)
    requires Context(pf, c, encoding, plans, p, b) && FrameOf(c, p).Fits(b)
    ensures ReadSegments(b, FrameOf(c, p), 0, [], 0) == if GoodSegments(c.segments, 0) then Ok(c.segments) else Err(InvalidData)
  {
    hide Context, Uint, SegmentIds, SegmentBlock, Whole, AllLength, GoodSegment, ReadSegments, TotalCount, GoodSegments;
    var f := FrameOf(c, p);
    Basics(pf, c, encoding, plans, p, b);
    forall i | 0 <= i < |c.segments|
      ensures Stored(b, f, i, c.segments[i])
    {
      SegmentIs(pf, c, encoding, plans, p, b, i);
      SegmentLies(p, i);
      SegmentBlockReads(b, HEADER + 32 * i, c.segments[i]);
    }
    assert c.segments[..0] == [] && TotalCount([]) == 0 by { NothingCounted(); }
    SegmentsFrom(b, f, c.segments, 0);
  }

  lemma NothingCounted()
    ensures TotalCount([]) == 0
  {
  }

  // ----- columns

  /** The directory ranges of column `i`: its parameters and, when the column is mixed, its bitmap. */
  function BlobRanges(c: Chunk, plans: seq<Plan>, p: Parts, i: nat): seq<Range>
    requires i < |c.columns| == |plans| == |p.dirs|
  {
    var params, bits := |plans[i].selected.Params()|, |Bitmap(c.columns[i], plans[i])|;
    RangeOf(p.DirAt(i), params) + RangeOf(p.DirAt(i) + params, bits)
  }

  function PayloadRanges(p: Parts, i: nat): seq<Range>
    requires i < |p.pays|
  {
    RangeOf(p.PayAt(i), |p.pays[i]|)
  }

  /** The facts of one planned column that reading it back depends on. */
  predicate PlanFacts(pf: Platform, n: nat, col: Column, plan: Plan) {
    && plan.state < 3
    && (plan.state == 0 <==> col.validity.None?)
    && (plan.state == 0 ==> plan.valid == n)
    && (plan.state > 0 ==> col.validity.Some? && |col.validity.value| == CeilDiv8(n) && TailClear(col.validity.value, n)
                           && plan.valid == Ones(col.validity.value) < n)
    && (plan.state == 2 <==> col.validity.Some? && plan.valid == 0)
    && |col.values| == plan.valid * col.dtype.Width()
    && ValuesOk(col)
    && (plan.valid == 0 ==> plan.selected.Raw?)
    && (if plan.selected.Raw? then plan.payload == col.values
        else pf.compress(col.dtype, col.values) == Some(plan.payload))
  }

  lemma PlannedFacts(pf: Platform, n: nat, col: Column, encoding: Encoding)
    requires PlanColumn(pf, n, col, encoding).Ok?
    ensures PlanFacts(pf, n, col, PlanColumn(pf, n, col, encoding).value)
  {
    hide ValuesOk, TailClear, Ones;
  }

  lemma {:induction false} NoOnes(bitmap: seq<Byte>)
    requires Ones(bitmap) == 0
    ensures bitmap == Zeros(|bitmap|)
  {
    hide OnesIn;
    if bitmap != [] {
      NoOnes(bitmap[1..]);
      assert OnesIn(bitmap[0]) == 0;
      assert bitmap == [bitmap[0]] + bitmap[1..];
    }
  }

  lemma ValidityReads(pf: Platform, n: nat, col: Column, plan: Plan)
    requires PlanFacts(pf, n, col, plan)
    ensures ReadValidity(plan.state, Bitmap(col, plan), n) == Ok((col.validity, plan.valid))
  {
    hide ValuesOk, TailClear, Ones;
    if plan.state == 1 {
      assert Bitmap(col, plan) == col.validity.value;
    } else if plan.state == 2 {
      NoOnes(col.validity.value);
    }
  }

  lemma ValuesRead(pf: Platform, n: nat, col: Column, plan: Plan)
    requires Sound(pf) && PlanFacts(pf, n, col, plan)
    ensures ReadValues(pf, col.dtype, plan.selected, plan.payload, plan.valid, true) == Ok(col.values)
  {
    hide ValuesOk, TailClear, Ones, Numbers;
    if plan.selected.Pco8? {
      var w := col.dtype.Width();
      assert |col.values| == plan.valid * w;
      assert |col.values| % w == 0 && |col.values| / w == plan.valid;
      assert pf.compress(col.dtype, col.values) == Some(plan.payload);
      var items := pf.open(col.dtype, plan.payload);
    }
  }

  lemma EntryReads(pf: Platform, c: Chunk, encoding: Encoding, plans: seq<Plan>, p: Parts, b: seq<Byte>, i: nat)
    returns (e: Entry)
    requires Context(pf, c, encoding, plans, p, b) && |b| <= MAX_CHUNK && i < |c.columns|
    ensures |p.dirs| == |p.pays| == |plans| == |c.columns|
    ensures e == EntryFor(pf, TotalCount(c.segments), c.columns[i], plans[i], p.DirAt(i), p.PayAt(i))
    ensures FrameOf(c, p).ColumnAt(i) + 64 <= |b| && EntryAt(b, FrameOf(c, p).ColumnAt(i)) == e
    ensures PlanFacts(pf, TotalCount(c.segments), c.columns[i], plans[i])
  {
    hide Context, Whole, AllLength, ColumnBlock, PlanColumn, Blob, EntryAt, TotalCount, PlanFacts, SegmentBlock,
      SealedBlock, HeaderBlock, TotalValues, Parts.DirAt, Parts.PayAt;
    Basics(pf, c, encoding, plans, p, b);
    ColumnIs(pf, c, encoding, plans, p, b, i);
    var n := TotalCount(c.segments);
    PlannedFacts(pf, n, c.columns[i], encoding);
    ColumnLies(p, i);
    DirectoryLies(p, i);
    PayloadLies(p, i);
    e := EntryFor(pf, n, c.columns[i], plans[i], p.DirAt(i), p.PayAt(i));
    ValuesBounded(c, i);
    EntryForInRange(pf, n, c.columns[i], plans[i], p.DirAt(i), p.PayAt(i));
    ColumnBlockReads(b, FrameOf(c, p).ColumnAt(i), e);
  }

  lemma EntryForInRange(pf: Platform, n: nat, col: Column, plan: Plan, dirAt: nat, payAt: nat)
    requires PlanFacts(pf, n, col, plan) && n <= MAX_POINTS && |col.values| <= MAX_CHUNK
    requires dirAt + |Blob(col, plan)| <= MAX_CHUNK && payAt + |plan.payload| <= MAX_CHUNK
    ensures EntryInRange(EntryFor(pf, n, col, plan, dirAt, payAt))
  {
    hide ValuesOk, TailClear, Ones;
  }

  lemma {:induction false} ValuesBounded(c: Chunk, i: nat)
    requires i < |c.columns|
    ensures TotalValues(c.columns[..i + 1]) == TotalValues(c.columns[..i]) + |c.columns[i].values| <= TotalValues(c.columns)
    decreases |c.columns| - i
  {
    assert c.columns[..i + 1][..i] == c.columns[..i];
    if i + 1 < |c.columns| {
      ValuesBounded(c, i + 1);
    } else {
      assert c.columns[..i + 1] == c.columns;
    }
  }

  lemma DirectoryReads(pf: Platform, c: Chunk, encoding: Encoding, plans: seq<Plan>, p: Parts, b: seq<Byte>, i: nat, e: Entry)
    requires Context(pf, c, encoding, plans, p, b) && i < |c.columns| == |plans| == |p.dirs| == |p.pays|
    requires FrameOf(c, p).Fits(b) && PlanFacts(pf, TotalCount(c.segments), c.columns[i], plans[i])
    requires e == EntryFor(pf, TotalCount(c.segments), c.columns[i], plans[i], p.DirAt(i), p.PayAt(i))
    ensures ReadDirectory(b, FrameOf(c, p), e, plans[i].selected)
         == Ok(Directory(BlobRanges(c, plans, p, i), c.columns[i].validity, plans[i].valid))
  {
    hide Context, Whole, AllLength, ColumnBlock, PlanColumn, EntryAt, TotalCount, PlanFacts, SegmentBlock,
      SealedBlock, HeaderBlock, TotalValues, Parts.DirAt, Parts.PayAt, ReadValidity, Bitmap, Parts.TableEnd, Parts.Start;
    var col, plan := c.columns[i], plans[i];
    Basics(pf, c, encoding, plans, p, b);
    ColumnIs(pf, c, encoding, plans, p, b, i);
    DirectoryLies(p, i);
    ValidityReads(pf, TotalCount(c.segments), col, plan);
    FlagsOf(pf, TotalCount(c.segments), col, plan);
    BlobSlices(b, p.DirAt(i), col, plan);
  }

  lemma FlagsOf(pf: Platform, n: nat, col: Column, plan: Plan)
    requires PlanFacts(pf, n, col, plan)
    ensures var flags := plan.state + (if col.required then 16 else 0);
      && KnownFlags(flags) && flags % 4 == plan.state && (flags >= 16 <==> col.required)
      && (flags == 16 <==> col.required && col.validity.None?)
  {
    hide ValuesOk, TailClear, Ones;
  }

  lemma BlobSlices(b: seq<Byte>, at: nat, col: Column, plan: Plan)
    requires at + |Blob(col, plan)| <= |b| && b[at..at + |Blob(col, plan)|] == Blob(col, plan)
    ensures var params, bits := plan.selected.Params(), Bitmap(col, plan);
      && Slice(b, at, |params|) == params
      && Slice(b, if |bits| == 0 then 0 else at + |params|, |bits|) == bits
      && |Blob(col, plan)| == |params| + |bits|
  {
    hide Bitmap;
    var params, bits, blob := plan.selected.Params(), Bitmap(col, plan), Blob(col, plan);
    SliceInBlock(b, at, |blob|, 0, |params|);
    SliceInBlock(b, at, |blob|, |params|, |bits|);
    assert blob[0..|params|] == params && blob[|params|..|params| + |bits|] == bits;
  }

  lemma PayloadReads(pf: Platform, c: Chunk, encoding: Encoding, plans: seq<Plan>, p: Parts, b: seq<Byte>, i: nat, e: Entry)
    requires Context(pf, c, encoding, plans, p, b) && i < |c.columns| == |plans| == |p.dirs| == |p.pays|
    requires FrameOf(c, p).Fits(b) && PlanFacts(pf, TotalCount(c.segments), c.columns[i], plans[i])
    requires e == EntryFor(pf, TotalCount(c.segments), c.columns[i], plans[i], p.DirAt(i), p.PayAt(i))
    ensures ReadPayload(pf, b, FrameOf(c, p), e, c.columns[i].dtype, plans[i].selected, plans[i].valid, true)
         == Ok((c.columns[i].values, PayloadRanges(p, i)))
  {
    hide Context, Whole, AllLength, ColumnBlock, PlanColumn, EntryAt, TotalCount, SegmentBlock, ValuesOk, Ones, TailClear,
      SealedBlock, HeaderBlock, TotalValues, Parts.DirAt, Parts.PayAt, ReadValues, Bitmap, Parts.TableEnd, Parts.Start, Sound;
    var col, plan := c.columns[i], plans[i];
    Basics(pf, c, encoding, plans, p, b);
    ColumnIs(pf, c, encoding, plans, p, b, i);
    PayloadLies(p, i);
    SoundFacts(pf, c, encoding, plans, p, b);
    ValuesRead(pf, TotalCount(c.segments), col, plan);
    assert Slice(b, e.payloadAt, e.payloadLen) == plan.payload;
  }

  lemma SoundFacts(pf: Platform, c: Chunk, encoding: Encoding, plans: seq<Plan>, p: Parts, b: seq<Byte>)
    requires Context(pf, c, encoding, plans, p, b)
    ensures Sound(pf) && pf.crc([]) == 0
  {
    hide Written, ArePlans, WithinLimits;
  }

  /** The rules the decoder adds for a column at its place in the table. */
  predicate GoodColumn(columns: seq<Column>, i: nat)
    requires i < |columns|
  {
    && columns[i].semantic > (if i == 0 then 0 else columns[i - 1].semantic)
    && (MustBeFull(columns[i].semantic) ==> columns[i].required && columns[i].validity.None?)
  }

  /** The scan after `i` columns. */
  function ScanAt(c: Chunk, plans: seq<Plan>, p: Parts, i: nat): Scan
    requires i <= |c.columns| == |plans| == |p.dirs| == |p.pays|
  {
    Scan(c.columns[..i], if i == 0 then 0 else c.columns[i - 1].semantic, TotalValues(c.columns[..i]),
         RangesAt(c, plans, p, i))
  }

  function RangesAt(c: Chunk, plans: seq<Plan>, p: Parts, i: nat): seq<Range>
    requires i <= |c.columns| == |plans| == |p.dirs| == |p.pays|
  {
    if i == 0 then [] else RangesAt(c, plans, p, i - 1) + BlobRanges(c, plans, p, i - 1) + PayloadRanges(p, i - 1)
  }

  lemma ColumnReads(pf: Platform, c: Chunk, encoding: Encoding, plans: seq<Plan>, p: Parts, b: seq<Byte>, i: nat)
    requires Context(pf, c, encoding, plans, p, b) && |b| <= MAX_CHUNK && i < |c.columns| == |plans| == |p.dirs| == |p.pays|
    requires FrameOf(c, p).Fits(b)
    ensures var r := ReadColumn(pf, b, FrameOf(c, p), i, ScanAt(c, plans, p, i), true);
      && (r.Ok? <==> GoodColumn(c.columns, i))
      && (r.Ok? ==> r.value == ScanAt(c, plans, p, i + 1))
  {
    hide Context, Whole, AllLength, ColumnBlock, PlanColumn, EntryAt, TotalCount, SegmentBlock, ValuesOk, Ones, TailClear,
      SealedBlock, HeaderBlock, TotalValues, Parts.DirAt, Parts.PayAt, ReadValues, Bitmap, Parts.TableEnd, Parts.Start,
      ReadDirectory, ReadPayload, BlobRanges, PayloadRanges, PlanFacts, DTypeOf;
    var f, col, plan := FrameOf(c, p), c.columns[i], plans[i];
    var n := TotalCount(c.segments);
    var e := EntryReads(pf, c, encoding, plans, p, b, i);
    DirectoryReads(pf, c, encoding, plans, p, b, i, e);
    PayloadReads(pf, c, encoding, plans, p, b, i, e);
    FlagsOf(pf, n, col, plan);
    ValuesBounded(c, i);
    LengthFacts(pf, n, col, plan);
    Basics(pf, c, encoding, plans, p, b);
    assert c.columns[..i + 1] == c.columns[..i] + [col];
    assert Column(col.semantic, col.dtype, col.required, col.validity, col.values) == col;
  }

  lemma LengthFacts(pf: Platform, n: nat, col: Column, plan: Plan)
    requires PlanFacts(pf, n, col, plan)
    ensures ValuesOk(col) && |col.values| == plan.valid * col.dtype.Width()
    ensures col.semantic == 12 ==> col.dtype.U8?
    ensures EncodingOf(plan.selected.Code()) == plan.selected && plan.selected.Code() in {0, 2}
    ensures DTypeOf(col.dtype.Code()) == Ok(col.dtype)
    ensures plan.valid == 0 ==> plan.selected.Raw? && plan.payload == []
    ensures plan.selected.Raw? ==> |plan.payload| == |col.values|
  {
    hide Ones, TailClear;
  }

  predicate GoodColumns(columns: seq<Column>, from: nat) {
    forall i :: from <= i < |columns| ==> GoodColumn(columns, i)
  }

  lemma {:induction false} ColumnsRead(pf: Platform, c: Chunk, encoding: Encoding, plans: seq<Plan>, p: Parts, b: seq<Byte>, i: nat)
    requires Context(pf, c, encoding, plans, p, b) && |b| <= MAX_CHUNK && i <= |c.columns| == |plans| == |p.dirs| == |p.pays|
    requires FrameOf(c, p).Fits(b)
    ensures var r := ReadColumns(pf, b, FrameOf(c, p), i, ScanAt(c, plans, p, i), true);
      && (r.Ok? <==> GoodColumns(c.columns, i))
      && (r.Ok? ==> r.value == ScanAt(c, plans, p, |c.columns|))
    decreases |c.columns| - i
  {
    hide Context, ReadColumn, ScanAt, GoodColumn, TotalCount, Parts.TableEnd, Parts.Start;
    if i < |c.columns| {
      ColumnReads(pf, c, encoding, plans, p, b, i);
      ColumnsRead(pf, c, encoding, plans, p, b, i + 1);
      assert GoodColumns(c.columns, i) <==> GoodColumn(c.columns, i) && GoodColumns(c.columns, i + 1);
    }
  }

  // ----- the ranges tile everything after the tables

  /** The ranges follow each other without a gap from `lo` to `hi`. */
  predicate Tiles(ranges: seq<Range>, lo: nat, hi: nat) {
    if ranges == [] then lo == hi
    else ranges[0].lo == lo < ranges[0].hi <= hi && Tiles(ranges[1..], ranges[0].hi, hi)
  }

  lemma {:induction false} TilesJoin(x: seq<Range>, y: seq<Range>, lo: nat, mid: nat, hi: nat)
    requires Tiles(x, lo, mid) && Tiles(y, mid, hi) && mid <= hi
    ensures Tiles(x + y, lo, hi)
  {
    if x == [] {
      assert x + y == y;
    } else {
      TilesJoin(x[1..], y, x[0].hi, mid, hi);
      assert (x + y)[1..] == x[1..] + y;
    }
  }

  lemma {:induction false} TilesBounds(ranges: seq<Range>, lo: nat, hi: nat)
    requires Tiles(ranges, lo, hi)
    ensures lo <= hi
    ensures forall r :: r in ranges ==> lo <= r.lo < r.hi <= hi
  {
    if ranges != [] {
      TilesBounds(ranges[1..], ranges[0].hi, hi);
      assert forall r :: r in ranges ==> r == ranges[0] || r in ranges[1..];
    }
  }

  lemma {:induction false} TilesSweep(b: seq<Byte>, ranges: seq<Range>, lo: nat)
    requires Tiles(ranges, lo, |b|) && WithinBuffer(ranges, |b|)
    ensures Sweep(b, ranges, lo)
  {
    if ranges != [] {
      TilesSweep(b, ranges[1..], ranges[0].hi);
    }
  }

  predicate Sorted(ranges: seq<Range>) {
    forall i, j :: 0 <= i < j < |ranges| ==> !Before(ranges[j], ranges[i])
  }

  lemma {:induction false} TilesSorted(ranges: seq<Range>, lo: nat, hi: nat)
    requires Tiles(ranges, lo, hi)
    ensures Sorted(ranges)
  {
    if ranges != [] {
      TilesSorted(ranges[1..], ranges[0].hi, hi);
      TilesBounds(ranges[1..], ranges[0].hi, hi);
      forall i, j | 0 <= i < j < |ranges|
        ensures !Before(ranges[j], ranges[i])
      {
        assert ranges[j] == ranges[1..][j - 1] && ranges[j] in ranges[1..];
        if i > 0 {
          assert ranges[i] == ranges[1..][i - 1];
        }
      }
    }
  }

  lemma {:induction false} InsertSorted(r: Range, sorted: seq<Range>)
    requires Sorted(sorted)
    ensures Sorted(InsertRange(r, sorted))
  {
    var out := InsertRange(r, sorted);
    if sorted != [] && Before(sorted[0], r) {
      var rest := InsertRange(r, sorted[1..]);
      InsertSorted(r, sorted[1..]);
      forall i, j | 0 <= i < j < |out|
        ensures !Before(out[j], out[i])
      {
        if i == 0 {
          assert out[j] == rest[j - 1] && rest[j - 1] in multiset(rest);
          assert rest[j - 1] == r || rest[j - 1] in sorted[1..];
        } else {
          assert out[i] == rest[i - 1] && out[j] == rest[j - 1];
        }
      }
    }
  }

  lemma {:induction false} SortSorted(ranges: seq<Range>)
    ensures Sorted(SortRanges(ranges))
  {
    hide Before, InsertRange;
    if ranges != [] {
      SortSorted(ranges[1..]);
      InsertSorted(ranges[0], SortRanges(ranges[1..]));
    }
  }

  /** Sorted arrangements of the same ranges are equal: ties are between identical pairs. */
  lemma {:induction false} SortedUnique(x: seq<Range>, y: seq<Range>)
    requires Sorted(x) && Sorted(y) && multiset(x) == multiset(y)
    ensures x == y
  {
    assert |x| == |multiset(x)| == |multiset(y)| == |y|;
    if x != [] {
      SortedHead(x, y);
      assert x == [x[0]] + x[1..] && y == [y[0]] + y[1..];
      assert multiset(x[1..]) == multiset(x) - multiset{x[0]};
      assert multiset(y[1..]) == multiset(y) - multiset{y[0]};
      SortedUnique(x[1..], y[1..]);
    }
  }

  lemma SortedHead(x: seq<Range>, y: seq<Range>)
    requires x != [] && y != [] && Sorted(x) && Sorted(y) && multiset(x) == multiset(y)
    ensures x[0] == y[0]
  {
    assert x[0] in multiset(y) && y[0] in multiset(x);
    var i :| 0 <= i < |y| && y[i] == x[0];
    var j :| 0 <= j < |x| && x[j] == y[0];
    assert i == 0 || !Before(y[i], y[0]);
    assert j == 0 || !Before(x[j], x[0]);
  }

  function BlobRangesTo(c: Chunk, plans: seq<Plan>, p: Parts, i: nat): seq<Range>
    requires i <= |c.columns| == |plans| == |p.dirs|
  {
    if i == 0 then [] else BlobRangesTo(c, plans, p, i - 1) + BlobRanges(c, plans, p, i - 1)
  }

  function PayloadRangesTo(p: Parts, i: nat): seq<Range>
    requires i <= |p.pays|
  {
    if i == 0 then [] else PayloadRangesTo(p, i - 1) + PayloadRanges(p, i - 1)
  }

  lemma {:induction false} SameRanges(c: Chunk, plans: seq<Plan>, p: Parts, i: nat)
    requires i <= |c.columns| == |plans| == |p.dirs| == |p.pays|
    ensures multiset(RangesAt(c, plans, p, i)) == multiset(BlobRangesTo(c, plans, p, i) + PayloadRangesTo(p, i))
  {
    hide BlobRanges, PayloadRanges;
    if i > 0 {
      SameRanges(c, plans, p, i - 1);
    }
  }

  lemma {:induction false} BlobsTile(pf: Platform, c: Chunk, encoding: Encoding, plans: seq<Plan>, p: Parts, b: seq<Byte>, i: nat)
    requires Context(pf, c, encoding, plans, p, b) && i <= |c.columns| == |plans| == |p.dirs| == |p.pays|
    ensures Tiles(BlobRangesTo(c, plans, p, i), p.TableEnd(), p.DirAt(i))
  {
    hide *;
    if i == 0 {
      NoBlobs(p);
      FirstBlobs(c, plans, p);
    } else {
      BlobsTile(pf, c, encoding, plans, p, b, i - 1);
      Basics(pf, c, encoding, plans, p, b);
      ColumnIs(pf, c, encoding, plans, p, b, i - 1);
      DirectoryLies(p, i - 1);
      BlobTiles(c.columns[i - 1], plans[i - 1], p.DirAt(i - 1));
      MoreBlobs(c, plans, p, i);
      TilesJoin(BlobRangesTo(c, plans, p, i - 1), BlobRanges(c, plans, p, i - 1), p.TableEnd(), p.DirAt(i - 1), p.DirAt(i));
    }
  }

  lemma FirstBlobs(c: Chunk, plans: seq<Plan>, p: Parts)
    requires |c.columns| == |plans| == |p.dirs|
    ensures BlobRangesTo(c, plans, p, 0) == []
  {
  }

  lemma MoreBlobs(c: Chunk, plans: seq<Plan>, p: Parts, i: nat)
    requires 0 < i <= |c.columns| == |plans| == |p.dirs|
    ensures BlobRangesTo(c, plans, p, i) == BlobRangesTo(c, plans, p, i - 1) + BlobRanges(c, plans, p, i - 1)
    ensures var col, plan, at := c.columns[i - 1], plans[i - 1], p.DirAt(i - 1);
      BlobRanges(c, plans, p, i - 1)
      == RangeOf(at, |plan.selected.Params()|) + RangeOf(at + |plan.selected.Params()|, |Bitmap(col, plan)|)
  {
  }

  lemma NoBlobs(p: Parts)
    ensures p.DirAt(0) == p.TableEnd() && Tiles([], p.TableEnd(), p.TableEnd())
  {
    EmptyFlat();
  }

  lemma BlobTiles(col: Column, plan: Plan, at: nat)
    ensures var params, bits := |plan.selected.Params()|, |Bitmap(col, plan)|;
      Tiles(RangeOf(at, params) + RangeOf(at + params, bits), at, at + |Blob(col, plan)|)
  {
    hide Bitmap;
    var params, bits := |plan.selected.Params()|, |Bitmap(col, plan)|;
    assert Tiles(RangeOf(at, params), at, at + params);
    assert Tiles(RangeOf(at + params, bits), at + params, at + params + bits);
    TilesJoin(RangeOf(at, params), RangeOf(at + params, bits), at, at + params, at + params + bits);
  }

  lemma {:induction false} PayloadsTile(p: Parts, i: nat)
    requires p.Shaped() && i <= |p.pays|
    ensures Tiles(PayloadRangesTo(p, i), p.Start(), p.PayAt(i))
  {
    hide Flat;
    if i > 0 {
      PayloadsTile(p, i - 1);
      PayloadLies(p, i - 1);
      assert Tiles(PayloadRanges(p, i - 1), p.PayAt(i - 1), p.PayAt(i));
      TilesJoin(PayloadRangesTo(p, i - 1), PayloadRanges(p, i - 1), p.Start(), p.PayAt(i - 1), p.PayAt(i));
    } else {
      assert p.pays[..0] == [];
      EmptyFlat();
    }
  }

  lemma SweepPasses(pf: Platform, c: Chunk, encoding: Encoding, plans: seq<Plan>, p: Parts, b: seq<Byte>)
    requires Context(pf, c, encoding, plans, p, b) && |c.columns| == |plans| == |p.dirs| == |p.pays|
    ensures var ranges := RangesAt(c, plans, p, |c.columns|);
      WithinBuffer(SortRanges(ranges), |b|) && Sweep(b, SortRanges(ranges), p.TableEnd())
  {
    hide Context, Tiles, Sorted, Sweep, SortRanges, Flat;
    var k := |c.columns|;
    var ranges := RangesAt(c, plans, p, k);
    var x, y := BlobRangesTo(c, plans, p, k), PayloadRangesTo(p, k);
    Basics(pf, c, encoding, plans, p, b);
    BlobsTile(pf, c, encoding, plans, p, b, k);
    PayloadsTile(p, k);
    EndsMeet(p);
    TilesJoin(x, y, p.TableEnd(), p.Start(), |b|);
    SameRanges(c, plans, p, k);
    TilesSorted(x + y, p.TableEnd(), |b|);
    SortSorted(ranges);
    SortedUnique(SortRanges(ranges), x + y);
    TilesBounds(x + y, p.TableEnd(), |b|);
    TilesSweep(b, x + y, p.TableEnd());
  }

  lemma EndsMeet(p: Parts)
    requires p.Shaped()
    ensures p.DirAt(|p.dirs|) == p.Start() && p.PayAt(|p.pays|) == |Whole(p)| && p.Start() <= |Whole(p)|
  {
    hide Flat;
    WholeLength(p);
    assert p.dirs[..|p.dirs|] == p.dirs && p.pays[..|p.pays|] == p.pays;
  }

  // ----- the theorems

  /** The rules `encode` leaves to the decoder: identities, segments, column order, mandatory columns. */
  predicate Acceptable(c: Chunk) {
    && c.id != Zeros(16) && c.profile != Zeros(16)
    && GoodSegments(c.segments, 0) && GoodColumns(c.columns, 0)
    && HasAxis(c.columns, 1) && HasAxis(c.columns, 2) && HasAxis(c.columns, 12)
  }

  /** Written bytes decode exactly when the chunk is acceptable and fits, and then to that chunk. */
  lemma WrittenReads(pf: Platform, c: Chunk, encoding: Encoding, plans: seq<Plan>, p: Parts, b: seq<Byte>)
    requires Context(pf, c, encoding, plans, p, b)
    ensures ReadLayout(pf, b, true).Ok? <==> Acceptable(c) && |b| <= MAX_CHUNK
    ensures ReadLayout(pf, b, true).Ok? ==> ReadLayout(pf, b, true).value == (c, TotalValues(c.columns))
  {
    hide Context, ReadSegments, ReadColumns, SortRanges, Sweep, Zeros, GoodSegments, GoodColumns, HasAxis,
      TotalCount, TotalValues, RangesAt, Whole, SealedBlock, HeaderBlock, Parts.Start, Parts.TableEnd;
    Basics(pf, c, encoding, plans, p, b);
    if |b| > MAX_CHUNK {
      TooLong(pf, b);
    } else {
      HeaderReads(pf, c, encoding, plans, p, b);
      hide ReadHeader;
      SegmentsRead(pf, c, encoding, plans, p, b);
      NothingScanned(c, plans, p);
      ColumnsRead(pf, c, encoding, plans, p, b, 0);
      SweepPasses(pf, c, encoding, plans, p, b);
      assert c.columns[..|c.columns|] == c.columns;
      IdReads(b, 16, c.id);
      IdReads(b, 32, c.profile);
      assert Chunk(c.id, c.profile, c.segments, c.columns) == c;
    }
  }

  lemma TooLong(pf: Platform, b: seq<Byte>)
    requires |b| > MAX_CHUNK
    ensures ReadHeader(pf, b).Err?
  {
  }

  lemma NothingScanned(c: Chunk, plans: seq<Plan>, p: Parts)
    requires |c.columns| == |plans| == |p.dirs| == |p.pays|
    ensures ScanAt(c, plans, p, 0) == EMPTY_SCAN
    ensures c.segments[..0] == [] && TotalCount(c.segments[..0]) == 0
  {
  }

  lemma IdReads(b: seq<Byte>, at: nat, id: Id)
    requires at + 16 <= |b| && b[at..at + 16] == id
    ensures IdAt(b, at) == if id == Zeros(16) then Err(InvalidData) else Ok(id)
  {
  }

  /** Column `i` is stored as asked, and uncompressed when it has no values. */
  predicate CodecStored(b: seq<Byte>, c: Chunk, encoding: Encoding, i: nat)
    requires i < |c.columns|
  {
    var p := 80 + 32 * |c.segments| + 64 * i;
    p + 64 <= |b| && Uint(b, p + 4, 2) == if encoding.Raw? || c.columns[i].values == [] then 0 else 2
  }

  lemma CodecsStored(pf: Platform, c: Chunk, encoding: Encoding, plans: seq<Plan>, p: Parts, b: seq<Byte>, i: nat)
    requires Context(pf, c, encoding, plans, p, b) && |b| <= MAX_CHUNK && i < |c.columns|
    ensures CodecStored(b, c, encoding, i)
  {
    hide *;
    var e := EntryReads(pf, c, encoding, plans, p, b, i);
    assert FrameOf(c, p).ColumnAt(i) == 80 + 32 * |c.segments| + 64 * i by { ColumnPlace(c, p, i); }
    ColumnIs(pf, c, encoding, plans, p, b, i);
    EntryCodec(b, FrameOf(c, p).ColumnAt(i));
    PlanSelected(pf, TotalCount(c.segments), c.columns[i], encoding, plans[i], p.DirAt(i), p.PayAt(i));
    StoredAs(b, c, encoding, i);
  }

  lemma ColumnPlace(c: Chunk, p: Parts, i: nat)
    ensures FrameOf(c, p).ColumnAt(i) == 80 + 32 * |c.segments| + 64 * i
  {
  }

  lemma StoredAs(b: seq<Byte>, c: Chunk, encoding: Encoding, i: nat)
    requires i < |c.columns| && 80 + 32 * |c.segments| + 64 * i + 64 <= |b|
    requires Uint(b, 80 + 32 * |c.segments| + 64 * i + 4, 2) == if encoding.Raw? || c.columns[i].values == [] then 0 else 2
    ensures CodecStored(b, c, encoding, i)
  {
  }

  lemma EntryCodec(b: seq<Byte>, at: nat)
    requires at + 64 <= |b|
    ensures EntryAt(b, at).codec == Uint(b, at + 4, 2)
  {
    hide Uint;
  }

  lemma PlanSelected(pf: Platform, n: nat, col: Column, encoding: Encoding, plan: Plan, dirAt: nat, payAt: nat)
    requires PlanColumn(pf, n, col, encoding) == Ok(plan)
    ensures EntryFor(pf, n, col, plan, dirAt, payAt).codec == if encoding.Raw? || col.values == [] then 0 else 2
  {
    hide Compress, TailClear, Ones, ValuesOk, Bitmap;
    NoValues(plan.valid, col.dtype.Width());
  }

  lemma NoValues(valid: nat, width: nat)
    requires width > 0
    ensures valid * width == 0 <==> valid == 0
  {
  }

  /** `Chunk::encode`: build, then decode what was built. */
  method Encode(pf: Platform, c: Chunk, encoding: Encoding) returns (r: Result<seq<Byte>>)
    requires Sound(pf)
    ensures r.Ok? ==> Decode(pf, r.value) == Ok(c)
    ensures r.Ok? ==> |r.value| == EncodedSize(pf, c, encoding) && forall i :: 0 <= i < |c.columns| ==> CodecStored(r.value, c, encoding, i)
    ensures r.Ok? <==>
      && WithinLimits(c) && AllPlanned(pf, TotalCount(c.segments), c.columns, encoding)
      && Acceptable(c) && EncodedSize(pf, c, encoding) <= MAX_CHUNK
  {
    hide Written, AllPlanned, ArePlans, Acceptable, ReadLayout, WithinLimits, EncodedSize, Sound, CodecStored;
    var built, plans, p := Build(pf, c, encoding);
    if built.Err? {
      return built;
    }
    WrittenReads(pf, c, encoding, plans, p, built.value);
    SizeOf(pf, c, encoding, plans, p, built.value);
    var check := RunLayout(pf, built.value, true);
    if check.Ok? {
      forall i | 0 <= i < |c.columns|
        ensures CodecStored(built.value, c, encoding, i)
      {
        CodecsStored(pf, c, encoding, plans, p, built.value, i);
      }
    }
    return if check.Err? then Err(check.error) else built;
  }

  // ----- the size of the encoding

  /** Bytes a planned column adds after the tables. */
  function ColumnSize(pf: Platform, n: nat, col: Column, encoding: Encoding): nat {
    match PlanColumn(pf, n, col, encoding)
    case Ok(plan) => |Blob(col, plan)| + |plan.payload|
    case Err(_) => 0
  }

  function ColumnsSize(pf: Platform, n: nat, columns: seq<Column>, encoding: Encoding): nat {
    if columns == [] then 0
    else ColumnsSize(pf, n, columns[..|columns| - 1], encoding) + ColumnSize(pf, n, columns[|columns| - 1], encoding)
  }

  function EncodedSize(pf: Platform, c: Chunk, encoding: Encoding): nat {
    HEADER + 32 * |c.segments| + 64 * |c.columns| + ColumnsSize(pf, TotalCount(c.segments), c.columns, encoding)
  }

  lemma {:induction false} SizeTo(pf: Platform, c: Chunk, encoding: Encoding, plans: seq<Plan>, p: Parts, b: seq<Byte>, i: nat)
    requires Context(pf, c, encoding, plans, p, b) && i <= |c.columns| == |p.dirs| == |p.pays|
    ensures |Flat(p.dirs[..i])| + |Flat(p.pays[..i])| == ColumnsSize(pf, TotalCount(c.segments), c.columns[..i], encoding)
  {
    hide Context, Flat, PlanColumn, Blob, ColumnBlock, EntryFor, TotalCount;
    if i == 0 {
      EmptyFlat();
    } else {
      SizeTo(pf, c, encoding, plans, p, b, i - 1);
      ColumnIs(pf, c, encoding, plans, p, b, i - 1);
      FlatSlice(p.dirs, i - 1);
      FlatSlice(p.pays, i - 1);
      assert c.columns[..i][..i - 1] == c.columns[..i - 1];
    }
  }

  lemma SizeOf(pf: Platform, c: Chunk, encoding: Encoding, plans: seq<Plan>, p: Parts, b: seq<Byte>)
    requires Context(pf, c, encoding, plans, p, b)
    ensures |b| == EncodedSize(pf, c, encoding)
  {
    hide Context, Flat, ColumnsSize, TotalCount, SealedBlock, HeaderBlock;
    Basics(pf, c, encoding, plans, p, b);
    SizeTo(pf, c, encoding, plans, p, b, |c.columns|);
    assert p.dirs[..|p.dirs|] == p.dirs && p.pays[..|p.pays|] == p.pays && c.columns[..|c.columns|] == c.columns;
    WholeLength(p);
  }

  // ----- uncompressed chunks

  /** Shape of a column of `n` rows: its bitmap, its value bytes and the values themselves. */
  predicate ColumnShape(n: nat, col: Column) {
    && (col.validity.Some? ==> && |col.validity.value| == CeilDiv8(n) && TailClear(col.validity.value, n)
                               && Ones(col.validity.value) < n)
    && |col.values| == (if col.validity.Some? then Ones(col.validity.value) else n) * col.dtype.Width()
    && ValuesOk(col)
  }

  function RawColumnSize(col: Column): nat {
    3 + (if col.validity.Some? && Ones(col.validity.value) > 0 then |col.validity.value| else 0) + |col.values|
  }

  function RawColumnsSize(columns: seq<Column>): nat {
    if columns == [] then 0 else RawColumnsSize(columns[..|columns| - 1]) + RawColumnSize(columns[|columns| - 1])
  }

  lemma RawPlan(pf: Platform, n: nat, col: Column)
    ensures PlanColumn(pf, n, col, Raw).Ok? <==> ColumnShape(n, col)
    ensures ColumnShape(n, col) ==> ColumnSize(pf, n, col, Raw) == RawColumnSize(col)
  {
    hide ValuesOk, TailClear, Ones;
    var w := col.dtype.Width();
    var valid := if col.validity.Some? then Ones(col.validity.value) else n;
    assert |col.values| == valid * w ==> |col.values| % w == 0;
  }

  /** Which columns can be planned: those of the right shape that the compressor, if asked for and needed, accepts. */
  lemma PlansExactly(pf: Platform, n: nat, col: Column, encoding: Encoding)
    requires n > 0
    ensures PlanColumn(pf, n, col, encoding).Ok? <==>
              ColumnShape(n, col) && (encoding.Pco8? && col.values != [] ==> pf.compress(col.dtype, col.values).Some?)
  {
    hide ValuesOk, TailClear, Ones, Compress;
    var w := col.dtype.Width();
    var valid := if col.validity.Some? then Ones(col.validity.value) else n;
    NoValues(valid, w);
    if |col.values| == valid * w {
      WholeScalars(valid, w);
      CompressExactly(pf, col.dtype, col.values, if valid == 0 then Raw else encoding);
    }
  }

  lemma WholeScalars(valid: nat, w: nat)
    requires w == 1 || w == 2 || w == 4 || w == 8
    ensures valid * w % w == 0
  {
    if w == 1 {
      assert valid * 1 % 1 == 0;
    } else if w == 2 {
      assert valid * 2 % 2 == 0;
    } else if w == 4 {
      assert valid * 4 % 4 == 0;
    } else {
      assert valid * 8 % 8 == 0;
    }
  }

  lemma CompressExactly(pf: Platform, d: DType, values: seq<Byte>, encoding: Encoding)
    requires |values| % d.Width() == 0
    ensures Compress(pf, d, values, encoding).Ok? <==> (encoding.Pco8? ==> pf.compress(d, values).Some?)
  {
  }

  lemma {:induction false} RawSizes(pf: Platform, n: nat, columns: seq<Column>)
    requires forall i :: 0 <= i < |columns| ==> ColumnShape(n, columns[i])
    ensures ColumnsSize(pf, n, columns, Raw) == RawColumnsSize(columns)
  {
    hide ColumnShape, ColumnSize, RawColumnSize;
    if columns != [] {
      RawSizes(pf, n, columns[..|columns| - 1]);
      RawPlan(pf, n, columns[|columns| - 1]);
    }
  }

  /** Exactly which chunks have an uncompressed encoding: those that obey the decoder's rules and whose
      parts add up to at most 64 MiB. The directory limit never stands in the way. */
  lemma RawEncodesExactly(pf: Platform, c: Chunk)
    ensures (&& WithinLimits(c) && AllPlanned(pf, TotalCount(c.segments), c.columns, Raw)
             && Acceptable(c) && EncodedSize(pf, c, Raw) <= MAX_CHUNK)
       <==> (&& WithinLimits(c) && (forall i :: 0 <= i < |c.columns| ==> ColumnShape(TotalCount(c.segments), c.columns[i]))
             && Acceptable(c)
             && HEADER + 32 * |c.segments| + 64 * |c.columns| + RawColumnsSize(c.columns) <= MAX_CHUNK)
  {
    hide ColumnShape, PlanColumn, WithinLimits, Acceptable, ColumnsSize, RawColumnsSize, TotalCount;
    var n := TotalCount(c.segments);
    forall i | 0 <= i < |c.columns|
      ensures PlanColumn(pf, n, c.columns[i], Raw).Ok? <==> ColumnShape(n, c.columns[i])
    {
      RawPlan(pf, n, c.columns[i]);
    }
    if forall i :: 0 <= i < |c.columns| ==> ColumnShape(n, c.columns[i]) {
      RawSizes(pf, n, c.columns);
    }
  }
}
