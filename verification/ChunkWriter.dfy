/** `Chunk::encode` as it runs: a byte vector patched in place and extended, ending with its own decode. */
module ChunkWriter {
  import opened Bytes
  import opened Results
  import opened ChunkFormat
  import opened ChunkEncode

  function TotalValues(columns: seq<Column>): nat {
    if columns == [] then 0 else TotalValues(columns[..|columns| - 1]) + |columns[|columns| - 1].values|
  }

  function TotalCount(segments: seq<Segment>): nat {
    if segments == [] then 0 else TotalCount(segments[..|segments| - 1]) + segments[|segments| - 1].count
  }

  /** `count`: the number of rows, when it is within the point limit. */
  method Count(c: Chunk) returns (r: Result<nat>)
    ensures r == if 0 < TotalCount(c.segments) <= MAX_POINTS then Ok(TotalCount(c.segments)) else Err(InvalidData)
  {
    var n: nat := 0;
    for i := 0 to |c.segments|
      invariant n == TotalCount(c.segments[..i])
    {
      assert c.segments[..i + 1][..i] == c.segments[..i];
      n := n + c.segments[i].count;
    }
    assert c.segments[..|c.segments|] == c.segments;
    return if 0 < n <= MAX_POINTS then Ok(n) else Err(InvalidData);
  }

  lemma PasteHead(p: Parts, at: nat, src: seq<Byte>)
    requires p.Shaped() && at + |src| <= HEADER
    ensures |Whole(p)| >= HEADER
    ensures Paste(Whole(p), at, src) == Whole(p.(head := Paste(p.head, at, src)))
  {
    hide Whole, Paste;
    PasteHeader(p, [], at, src);
    assert Whole(p) + [] == Whole(p);
    var q := p.(head := Paste(p.head, at, src));
    assert Whole(q) + [] == Whole(q);
  }

  /** The zeroed tables with the first header fields in place. */
  method WriteHeader(c: Chunk, n: nat) returns (bytes: seq<Byte>, ghost p: Parts)
    ensures p == Parts(HeaderBlock(c, n), seq(|c.segments|, _ => Zeros(32)), seq(|c.columns|, _ => Zeros(64)), [], [])
    ensures p.Shaped() && bytes == Whole(p)
  {
    hide Paste, Flat;
    var s, k := |c.segments|, |c.columns|;
    bytes := Zeros(HEADER + s * 32 + k * 64);
    p := Parts(Zeros(HEADER), seq(s, _ => Zeros(32)), seq(k, _ => Zeros(64)), [], []);
    FlatZeros(s, 32);
    FlatZeros(k, 64);
    EmptyFlat();
    assert bytes == Whole(p);
    hide Whole;
    PasteHead(p, 0, MAGIC);
    bytes, p := Paste(bytes, 0, MAGIC), p.(head := Paste(p.head, 0, MAGIC));
    PasteHead(p, 8, LE(1, 2));
    bytes, p := Put(bytes, 8, 2, 1), p.(head := Put(p.head, 8, 2, 1));
    PasteHead(p, 16, c.id);
    bytes, p := Paste(bytes, 16, c.id), p.(head := Paste(p.head, 16, c.id));
    PasteHead(p, 32, c.profile);
    bytes, p := Paste(bytes, 32, c.profile), p.(head := Paste(p.head, 32, c.profile));
    PasteHead(p, 48, LE(n, 4));
    bytes, p := Put(bytes, 48, 4, n), p.(head := Put(p.head, 48, 4, n));
    PasteHead(p, 52, LE(s, 4));
    bytes, p := Put(bytes, 52, 4, s), p.(head := Put(p.head, 52, 4, s));
    PasteHead(p, 56, LE(k, 2));
    bytes, p := Put(bytes, 56, 2, k), p.(head := Put(p.head, 56, 2, k));
  }

  lemma EmptyFlat()
    ensures Flat([]) == []
  {
  }

  /** The segment table. */
  method WriteSegments(c: Chunk, start: seq<Byte>, ghost p0: Parts) returns (bytes: seq<Byte>, ghost p: Parts)
    requires p0.Shaped() && p0.segs == seq(|c.segments|, _ => Zeros(32)) && start == Whole(p0)
    ensures p == p0.(segs := p.segs) && p.Shaped() && |p.segs| == |c.segments| && bytes == Whole(p)
    ensures forall j :: 0 <= j < |p.segs| ==> p.segs[j] == SegmentBlock(c.segments[j])
  {
    hide Whole, Paste;
    bytes, p := start, p0;
    for i := 0 to |c.segments|
      invariant p == p0.(segs := p.segs) && p.Shaped() && |p.segs| == |c.segments| && bytes == Whole(p)
      invariant forall j :: 0 <= j < i ==> p.segs[j] == SegmentBlock(c.segments[j])
      invariant forall j :: i <= j < |p.segs| ==> p.segs[j] == Zeros(32)
    {
      var at := HEADER + 32 * i;
      ghost var x := Zeros(32);
      assert p == p.(segs := p.segs[i := x]);
      PasteSegment(p, i, x, [], 0, c.segments[i].id);
      assert Whole(p) + [] == Whole(p);
      bytes, x := Paste(bytes, at, c.segments[i].id), Paste(x, 0, c.segments[i].id);
      ghost var q := p.(segs := p.segs[i := x]);
      assert Whole(q) + [] == Whole(q);
      PasteSegment(p, i, x, [], 16, LE(c.segments[i].count, 4));
      bytes, x := Put(bytes, at + 16, 4, c.segments[i].count), Put(x, 16, 4, c.segments[i].count);
      q := p.(segs := p.segs[i := x]);
      assert Whole(q) + [] == Whole(q);
      p := q;
    }
  }

  /** The entry of a column before its payload is placed, when its blob starts at `dirAt`. */
  function EntryBefore(n: nat, col: Column, plan: Plan, dirAt: nat): Entry {
    var params, bits := |plan.selected.Params()|, |Bitmap(col, plan)|;
    Entry(col.semantic, col.dtype.Code(), col.dtype.Code(), plan.selected.Code(), 1, 0,
          plan.state + (if col.required then 16 else 0), n, 0, 0, |col.values|, dirAt, params,
          if bits == 0 then 0 else dirAt + params, bits, 0, 0, 0)
  }

  /** Patches the fields of entry `i` that do not depend on where its blobs go. */
  method PatchFixed(c: Chunk, i: nat, e: Entry, start: seq<Byte>, ghost p: Parts) returns (bytes: seq<Byte>)
    requires i < |c.columns| && e.logical < 256 && e.storage < 256
    requires p.Shaped() && |p.segs| == |c.segments| && |p.cols| == |c.columns|
    requires p.cols[i] == Zeros(64) && start == Whole(p)
    ensures bytes == Whole(p.(cols := p.cols[i := FixedBlock(e)]))
  {
    hide Whole, Put;
    var at := HEADER + 32 * |c.segments| + 64 * i;
    ghost var x := Zeros(64);
    bytes := start;
    assert p.(cols := p.cols[i := x]) == p;
    assert Whole(p) == Whole(p) + [];
    PutColumn(p, i, x, [], 0, 2, e.semantic);
    bytes, x := Put(bytes, at, 2, e.semantic), Put(x, 0, 2, e.semantic);
    PutColumn(p, i, x, [], 2, 1, e.logical);
    bytes, x := Put(bytes, at + 2, 1, e.logical), Put(x, 2, 1, e.logical);
    PutColumn(p, i, x, [], 3, 1, e.storage);
    bytes, x := Put(bytes, at + 3, 1, e.storage), Put(x, 3, 1, e.storage);
    PutColumn(p, i, x, [], 4, 2, e.codec);
    bytes, x := Put(bytes, at + 4, 2, e.codec), Put(x, 4, 2, e.codec);
    PutColumn(p, i, x, [], 6, 2, e.wire);
    bytes, x := Put(bytes, at + 6, 2, e.wire), Put(x, 6, 2, e.wire);
    PutColumn(p, i, x, [], 10, 2, e.flags);
    bytes, x := Put(bytes, at + 10, 2, e.flags), Put(x, 10, 2, e.flags);
    PutColumn(p, i, x, [], 12, 4, e.count);
    bytes, x := Put(bytes, at + 12, 4, e.count), Put(x, 12, 4, e.count);
    PutColumn(p, i, x, [], 28, 4, e.decodedLen);
    bytes, x := Put(bytes, at + 28, 4, e.decodedLen), Put(x, 28, 4, e.decodedLen);
    ghost var w := Whole(p.(cols := p.cols[i := x]));
    assert w + [] == w;
  }

  /** One turn of the first column loop: patch entry `i`, append its parameters and its bitmap. */
  method WriteColumn(c: Chunk, i: nat, n: nat, plan: Plan, start: seq<Byte>, ghost p: Parts)
    returns (bytes: seq<Byte>)
    requires i < |c.columns| && (plan.state == 1 ==> c.columns[i].validity.Some? && c.columns[i].validity.value != [])
    requires p.Shaped() && |p.segs| == |c.segments| && |p.cols| == |c.columns|
    requires p.cols[i] == Zeros(64) && start == Whole(p) && p.pays == []
    ensures var e := EntryBefore(n, c.columns[i], plan, |start|);
      bytes == Whole(p.(cols := p.cols[i := DirectoryBlock(e)])) + Blob(c.columns[i], plan)
  {
    hide Whole, Put, FixedBlock;
    var col := c.columns[i];
    var at := HEADER + 32 * |c.segments| + 64 * i;
    var e := EntryBefore(n, col, plan, |start|);
    bytes := PatchFixed(c, i, e, start, p);
    ghost var x := FixedBlock(e);
    SameLength(p, i, x);
    var offset := |bytes|;
    var params := plan.selected.Params();
    bytes := bytes + params;
    PutColumn(p, i, x, params, 32, 4, offset);
    bytes, x := Put(bytes, at + 32, 4, offset), Put(x, 32, 4, offset);
    PutColumn(p, i, x, params, 36, 4, |params|);
    bytes, x := Put(bytes, at + 36, 4, |params|), Put(x, 36, 4, |params|);
    SameLength(p, i, x);
    if plan.state == 1 {
      var bitmap := col.validity.value;
      var bitsAt := |bytes|;
      ghost var w := Whole(p.(cols := p.cols[i := x]));
      assert (w + params) + bitmap == w + (params + bitmap);
      bytes := bytes + bitmap;
      PutColumn(p, i, x, params + bitmap, 40, 4, bitsAt);
      bytes, x := Put(bytes, at + 40, 4, bitsAt), Put(x, 40, 4, bitsAt);
      PutColumn(p, i, x, params + bitmap, 44, 4, |bitmap|);
      bytes, x := Put(bytes, at + 44, 4, |bitmap|), Put(x, 44, 4, |bitmap|);
    } else {
      assert params + Bitmap(col, plan) == params;
    }
    assert x == DirectoryBlock(e);
  }

  lemma SameLength(p: Parts, i: nat, x: seq<Byte>)
    requires p.Shaped() && i < |p.cols| && |x| == 64
    ensures |Whole(p.(cols := p.cols[i := x]))| == |Whole(p)|
  {
    var q := p.(cols := p.cols[i := x]);
    assert forall y :: y in q.cols ==> y == x || y in p.cols;
    WholeLength(p);
    WholeLength(q);
  }

  /** Every column passes the writer's own checks. */
  predicate AllPlanned(pf: Platform, n: nat, columns: seq<Column>, encoding: Encoding) {
    forall i :: 0 <= i < |columns| ==> PlanColumn(pf, n, columns[i], encoding).Ok?
  }

  predicate ArePlans(pf: Platform, n: nat, columns: seq<Column>, encoding: Encoding, plans: seq<Plan>) {
    |plans| <= |columns| &&
    forall i :: 0 <= i < |plans| ==> PlanColumn(pf, n, columns[i], encoding) == Ok(plans[i])
  }

  /** The first `|plans|` column entries and blobs are in place, without payloads. */
  predicate DirectoryDone(c: Chunk, n: nat, plans: seq<Plan>, p: Parts) {
    && p.Shaped() && |p.segs| == |c.segments| && |p.cols| == |c.columns|
    && |p.dirs| == |plans| <= |c.columns| && p.pays == []
    && (forall i :: 0 <= i < |plans| ==> p.dirs[i] == Blob(c.columns[i], plans[i]))
    && (forall i :: 0 <= i < |plans| ==>
          p.cols[i] == DirectoryBlock(EntryBefore(n, c.columns[i], plans[i], p.DirAt(i))))
    && (forall i :: |plans| <= i < |p.cols| ==> p.cols[i] == Zeros(64))
  }

  lemma AppendDirectory(p: Parts, blob: seq<Byte>)
    requires p.Shaped() && p.pays == []
    ensures Whole(p) + blob == Whole(p.(dirs := p.dirs + [blob]))
    ensures |Whole(p)| == p.Start()
  {
    hide Flat;
    WholeLength(p);
    FlatSnoc(p.dirs, blob);
    EmptyFlat();
  }

  lemma FlatSnoc(ss: seq<seq<Byte>>, x: seq<Byte>)
    ensures Flat(ss + [x]) == Flat(ss) + x
  {
    var one := [x];
    FlatAppend(ss, one);
    assert one[1..] == [] && Flat(one) == x + [];
  }

  lemma DirectoryStep(c: Chunk, n: nat, plans: seq<Plan>, p: Parts, plan: Plan)
    requires DirectoryDone(c, n, plans, p) && |plans| < |c.columns|
    ensures var i := |plans|;
      var e := EntryBefore(n, c.columns[i], plan, p.Start());
      DirectoryDone(c, n, plans + [plan],
                    p.(cols := p.cols[i := DirectoryBlock(e)], dirs := p.dirs + [Blob(c.columns[i], plan)]))
  {
    hide Flat, DirectoryBlock, Blob, EntryBefore, Parts.DirAt, AllLength;
    var i := |plans|;
    var blob := Blob(c.columns[i], plan);
    var e := EntryBefore(n, c.columns[i], plan, p.Start());
    EntryBeforeIsBytes(n, c.columns[i], plan, p.Start());
    var q := p.(cols := p.cols[i := DirectoryBlock(e)], dirs := p.dirs + [blob]);
    UpdateLength(p.cols, i, DirectoryBlock(e), 64);
    DirAtAppended(p, q, blob);
  }

  lemma UpdateLength(ss: seq<seq<Byte>>, i: nat, x: seq<Byte>, k: nat)
    requires AllLength(ss, k) && i < |ss| && |x| == k
    ensures AllLength(ss[i := x], k)
  {
    assert forall y :: y in ss[i := x] ==> y == x || y in ss;
  }

  lemma DirAtAppended(p: Parts, q: Parts, blob: seq<Byte>)
    requires q.dirs == p.dirs + [blob] && |q.segs| == |p.segs| && |q.cols| == |p.cols|
    ensures forall j :: 0 <= j < |p.dirs| ==> q.DirAt(j) == p.DirAt(j)
    ensures q.DirAt(|p.dirs|) == p.Start()
  {
    hide Flat;
    forall j | 0 <= j <= |p.dirs|
      ensures q.dirs[..j] == p.dirs[..j]
    {
    }
    assert p.dirs[..|p.dirs|] == p.dirs;
  }

  lemma EntryBeforeIsBytes(n: nat, col: Column, plan: Plan, dirAt: nat)
    ensures var e := EntryBefore(n, col, plan, dirAt); e.logical < 256 && e.storage < 256
  {
  }

  /** The first column loop. */
  method WriteColumns(pf: Platform, c: Chunk, n: nat, encoding: Encoding, start: seq<Byte>, ghost p0: Parts)
    returns (r: Result<(seq<Byte>, seq<Plan>)>, ghost p: Parts)
    requires 0 < n && DirectoryDone(c, n, [], p0) && start == Whole(p0)
    ensures r.Ok? <==> AllPlanned(pf, n, c.columns, encoding)
    ensures r.Ok? ==> var (bytes, plans) := r.value;
      && |plans| == |c.columns| && ArePlans(pf, n, c.columns, encoding, plans)
      && DirectoryDone(c, n, plans, p) && bytes == Whole(p)
      && p.head == p0.head && p.segs == p0.segs
  {
    hide Whole, PlanColumn, DirectoryDone, DirectoryBlock, Blob, EntryBefore;
    var bytes, plans: seq<Plan> := start, [];
    p := p0;
    for i := 0 to |c.columns|
      invariant |plans| == i && ArePlans(pf, n, c.columns, encoding, plans)
      invariant DirectoryDone(c, n, plans, p) && bytes == Whole(p) && p.head == p0.head && p.segs == p0.segs
    {
      var plan := PlanColumn(pf, n, c.columns[i], encoding);
      if plan.Err? {
        return Err(plan.error), p;
      }
      MixedHasBits(pf, n, c.columns[i], encoding);
      DirectoryStep(c, n, plans, p, plan.value);
      ghost var e := EntryBefore(n, c.columns[i], plan.value, p.Start());
      EntryBeforeIsBytes(n, c.columns[i], plan.value, p.Start());
      DirectoryFacts(c, n, plans, p);
      AppendDirectory(p, []);
      bytes := WriteColumn(c, i, n, plan.value, bytes, p);
      ghost var q := p.(cols := p.cols[i := DirectoryBlock(e)]);
      assert forall y :: y in q.cols ==> y == DirectoryBlock(e) || y in p.cols;
      AppendDirectory(q, Blob(c.columns[i], plan.value));
      p := q.(dirs := q.dirs + [Blob(c.columns[i], plan.value)]);
      plans := plans + [plan.value];
    }
    return Ok((bytes, plans)), p;
  }

  lemma DirectoryFacts(c: Chunk, n: nat, plans: seq<Plan>, p: Parts)
    requires DirectoryDone(c, n, plans, p)
    ensures p.Shaped() && |p.segs| == |c.segments| && |p.cols| == |c.columns| && p.pays == []
    ensures |plans| < |p.cols| ==> p.cols[|plans|] == Zeros(64)
  {
  }

  lemma MixedHasBits(pf: Platform, n: nat, col: Column, encoding: Encoding)
    requires PlanColumn(pf, n, col, encoding).Ok?
    ensures PlanColumn(pf, n, col, encoding).value.state == 1 ==> col.validity.Some? && col.validity.value != []
  {
  }

  /** The first `k` payloads are in place. */
  predicate PayloadsDone(pf: Platform, c: Chunk, n: nat, plans: seq<Plan>, p: Parts, k: nat) {
    && p.Shaped() && |p.segs| == |c.segments| && |p.cols| == |c.columns|
    && |p.dirs| == |plans| == |c.columns| && |p.pays| == k <= |plans|
    && (forall i :: 0 <= i < |plans| ==> p.dirs[i] == Blob(c.columns[i], plans[i]))
    && (forall i :: 0 <= i < k ==> p.pays[i] == plans[i].payload)
    && (forall i :: 0 <= i < k ==>
          p.cols[i] == ColumnBlock(EntryFor(pf, n, c.columns[i], plans[i], p.DirAt(i), p.PayAt(i))))
    && (forall i :: k <= i < |plans| ==>
          p.cols[i] == DirectoryBlock(EntryBefore(n, c.columns[i], plans[i], p.DirAt(i))))
  }

  lemma EntryForIsBytes(pf: Platform, n: nat, col: Column, plan: Plan, dirAt: nat, payAt: nat)
    ensures var e := EntryFor(pf, n, col, plan, dirAt, payAt); e.logical < 256 && e.storage < 256
    ensures DirectoryBlock(EntryFor(pf, n, col, plan, dirAt, payAt)) == DirectoryBlock(EntryBefore(n, col, plan, dirAt))
  {
    hide Put;
  }

  lemma PayAtAppended(p: Parts, q: Parts, payload: seq<Byte>)
    requires q.pays == p.pays + [payload] && q.dirs == p.dirs && |q.segs| == |p.segs| && |q.cols| == |p.cols|
    ensures forall j :: 0 <= j < |p.pays| ==> q.PayAt(j) == p.PayAt(j)
    ensures q.PayAt(|p.pays|) == p.Start() + |Flat(p.pays)|
    ensures forall j :: 0 <= j <= |p.dirs| ==> q.DirAt(j) == p.DirAt(j)
  {
    hide Flat;
    forall j | 0 <= j <= |p.pays|
      ensures q.pays[..j] == p.pays[..j]
    {
    }
    assert p.pays[..|p.pays|] == p.pays;
  }

  lemma PayloadStep(pf: Platform, c: Chunk, n: nat, plans: seq<Plan>, p: Parts, k: nat)
    requires PayloadsDone(pf, c, n, plans, p, k) && k < |plans|
    ensures var e := EntryFor(pf, n, c.columns[k], plans[k], p.DirAt(k), p.Start() + |Flat(p.pays)|);
      && e.logical < 256 && e.storage < 256 && p.cols[k] == DirectoryBlock(e)
      && PayloadsDone(pf, c, n, plans,
                      p.(cols := p.cols[k := ColumnBlock(e)], pays := p.pays + [plans[k].payload]), k + 1)
  {
    hide Flat, DirectoryBlock, ColumnBlock, Blob, EntryBefore, EntryFor, Parts.DirAt, Parts.PayAt, AllLength;
    var payAt := p.Start() + |Flat(p.pays)|;
    EntryForIsBytes(pf, n, c.columns[k], plans[k], p.DirAt(k), payAt);
    var e := EntryFor(pf, n, c.columns[k], plans[k], p.DirAt(k), payAt);
    var q := p.(cols := p.cols[k := ColumnBlock(e)], pays := p.pays + [plans[k].payload]);
    UpdateLength(p.cols, k, ColumnBlock(e), 64);
    PayAtAppended(p, q, plans[k].payload);
  }

  lemma AppendPayload(p: Parts, payload: seq<Byte>)
    requires p.Shaped()
    ensures Whole(p) + payload == Whole(p.(pays := p.pays + [payload]))
    ensures |Whole(p)| == p.Start() + |Flat(p.pays)|
  {
    hide Flat;
    WholeLength(p);
    FlatSnoc(p.pays, payload);
  }

  /** One turn of the second column loop: patch entry `k` and append its payload. */
  method WritePayload(pf: Platform, c: Chunk, k: nat, payload: seq<Byte>, start: seq<Byte>, ghost p: Parts, ghost e: Entry)
    returns (bytes: seq<Byte>)
    requires k < |c.columns| && e.logical < 256 && e.storage < 256
    requires p.Shaped() && |p.segs| == |c.segments| && |p.cols| == |c.columns|
    requires p.cols[k] == DirectoryBlock(e) && start == Whole(p)
    requires e.payloadLen == e.codecLen == |payload|
    requires payload != [] ==> e.payloadAt == |start| && e.crc == pf.crc(payload)
    ensures bytes == Whole(p.(cols := p.cols[k := ColumnBlock(e)])) + payload
  {
    hide Whole, Put, DirectoryBlock;
    bytes := start;
    ghost var x := DirectoryBlock(e);
    assert p.(cols := p.cols[k := x]) == p;
    assert Whole(p) + [] == Whole(p);
    if payload != [] {
      var at := HEADER + 32 * |c.segments| + 64 * k;
      var offset := |bytes|;
      PutColumn(p, k, x, [], 16, 8, offset);
      bytes, x := Put(bytes, at + 16, 8, offset), Put(x, 16, 8, offset);
      PutColumn(p, k, x, [], 24, 4, |payload|);
      bytes, x := Put(bytes, at + 24, 4, |payload|), Put(x, 24, 4, |payload|);
      PutColumn(p, k, x, [], 48, 4, pf.crc(payload));
      bytes, x := Put(bytes, at + 48, 4, pf.crc(payload)), Put(x, 48, 4, pf.crc(payload));
      PutColumn(p, k, x, [], 52, 4, |payload|);
      bytes, x := Put(bytes, at + 52, 4, |payload|), Put(x, 52, 4, |payload|);
      ghost var w := Whole(p.(cols := p.cols[k := x]));
      assert w + [] == w;
      bytes := bytes + payload;
    }
  }

  lemma NoPayloadsYet(pf: Platform, c: Chunk, n: nat, plans: seq<Plan>, p: Parts)
    requires |plans| == |c.columns| && DirectoryDone(c, n, plans, p)
    ensures PayloadsDone(pf, c, n, plans, p, 0)
  {
    hide DirectoryBlock, Blob, EntryBefore, Parts.DirAt, AllLength;
  }

  lemma PayloadFacts(pf: Platform, c: Chunk, n: nat, plans: seq<Plan>, p: Parts, k: nat)
    requires PayloadsDone(pf, c, n, plans, p, k)
    ensures p.Shaped() && |p.segs| == |c.segments| && |p.cols| == |c.columns|
    ensures |p.dirs| == |c.columns| && |p.pays| == k <= |plans| == |c.columns|
  {
    hide DirectoryBlock, ColumnBlock, Blob, EntryBefore, EntryFor, Parts.DirAt, Parts.PayAt;
  }

  /** The second column loop. */
  method WritePayloads(pf: Platform, c: Chunk, n: nat, plans: seq<Plan>, start: seq<Byte>, ghost p0: Parts)
    returns (bytes: seq<Byte>, ghost p: Parts)
    requires |plans| == |c.columns| && DirectoryDone(c, n, plans, p0) && start == Whole(p0)
    ensures PayloadsDone(pf, c, n, plans, p, |plans|) && bytes == Whole(p)
    ensures p.head == p0.head && p.segs == p0.segs && p.dirs == p0.dirs
  {
    hide Whole, DirectoryBlock, ColumnBlock, Blob, EntryBefore, PayloadsDone, AllLength;
    bytes, p := start, p0;
    NoPayloadsYet(pf, c, n, plans, p);
    for k := 0 to |plans|
      invariant PayloadsDone(pf, c, n, plans, p, k) && bytes == Whole(p)
      invariant p.head == p0.head && p.segs == p0.segs && p.dirs == p0.dirs
    {
      PayloadFacts(pf, c, n, plans, p, k);
      PayloadStep(pf, c, n, plans, p, k);
      ghost var e := EntryFor(pf, n, c.columns[k], plans[k], p.DirAt(k), p.Start() + |Flat(p.pays)|);
      AppendPayload(p, []);
      bytes := WritePayload(pf, c, k, plans[k].payload, bytes, p, e);
      ghost var q := p.(cols := p.cols[k := ColumnBlock(e)]);
      UpdateLength(p.cols, k, ColumnBlock(e), 64);
      AppendPayload(q, plans[k].payload);
      p := q.(pays := q.pays + [plans[k].payload]);
    }
  }

  /** Lengths and checksums, patched into the header once everything else is in place. */
  method Seal(pf: Platform, start: seq<Byte>, payloadStart: nat, ghost p: Parts) returns (bytes: seq<Byte>)
    requires p.Shaped() && start == Whole(p) && HEADER <= payloadStart <= |start|
    ensures |bytes| == |start|
    ensures bytes == Whole(p.(head := SealedBlock(p.head, payloadStart - HEADER, |bytes| - payloadStart,
                                                   pf.crc(bytes[..72]), pf.crc(bytes[HEADER..payloadStart]))))
  {
    hide Whole, Paste;
    var payloadLen := |start| - payloadStart;
    ghost var q := p;
    bytes := start;
    PasteHead(q, 60, LE(payloadStart - HEADER, 4));
    bytes, q := Put(bytes, 60, 4, payloadStart - HEADER), q.(head := Put(q.head, 60, 4, payloadStart - HEADER));
    PasteHead(q, 64, LE(payloadLen, 8));
    bytes, q := Put(bytes, 64, 8, payloadLen), q.(head := Put(q.head, 64, 8, payloadLen));
    var headerCrc := pf.crc(bytes[..72]);
    var directoryCrc := pf.crc(bytes[HEADER..payloadStart]);
    var b2 := bytes;
    PasteHead(q, 72, LE(headerCrc, 4));
    PutFacts(bytes, 72, 4, headerCrc);
    bytes, q := Put(bytes, 72, 4, headerCrc), q.(head := Put(q.head, 72, 4, headerCrc));
    assert bytes[0..72] == b2[0..72] && bytes[HEADER..payloadStart] == b2[HEADER..payloadStart];
    var b3 := bytes;
    PasteHead(q, 76, LE(directoryCrc, 4));
    PutFacts(bytes, 76, 4, directoryCrc);
    bytes, q := Put(bytes, 76, 4, directoryCrc), q.(head := Put(q.head, 76, 4, directoryCrc));
    assert bytes[0..72] == b3[0..72] && bytes[HEADER..payloadStart] == b3[HEADER..payloadStart];
    assert bytes[..72] == bytes[0..72] && b2[..72] == b2[0..72];
  }

  /** The bytes of `c`: every part in place and the header sealed. */
  ghost predicate Written(pf: Platform, c: Chunk, n: nat, plans: seq<Plan>, p: Parts, b: seq<Byte>) {
    && LaidOut(pf, c, n, plans, p)
    && b == Whole(p) && HEADER <= p.Start() <= |b|
    && p.head == SealedBlock(HeaderBlock(c, n), p.Start() - HEADER, |b| - p.Start(),
                             pf.crc(b[..72]), pf.crc(b[HEADER..p.Start()]))
  }

  /** The limits `encode` checks before it writes anything. */
  predicate WithinLimits(c: Chunk) {
    && TotalValues(c.columns) <= MAX_CHUNK
    && 0 < TotalCount(c.segments) <= MAX_POINTS
    && 0 < |c.segments| <= MAX_SEGMENTS && 0 < |c.columns| <= MAX_COLUMNS
  }

  method CountValues(columns: seq<Column>) returns (decoded: nat)
    ensures decoded == TotalValues(columns)
  {
    decoded := 0;
    for i := 0 to |columns|
      invariant decoded == TotalValues(columns[..i])
    {
      assert columns[..i + 1][..i] == columns[..i];
      decoded := decoded + |columns[i].values|;
    }
    assert columns[..|columns|] == columns;
  }

  /** The tables and blobs, once the limits are known to hold. */
  method WriteParts(pf: Platform, c: Chunk, n: nat, encoding: Encoding)
    returns (r: Result<(seq<Byte>, nat)>, ghost plans: seq<Plan>, ghost p: Parts)
    requires 0 < n
    ensures r.Ok? <==> AllPlanned(pf, n, c.columns, encoding)
    ensures r.Ok? ==> var (bytes, payloadStart) := r.value;
      && ArePlans(pf, n, c.columns, encoding, plans)
      && PayloadsDone(pf, c, n, plans, p, |plans|) && |plans| == |c.columns|
      && p.Shaped() && p.head == HeaderBlock(c, n) && |p.segs| == |c.segments|
      && (forall j :: 0 <= j < |p.segs| ==> p.segs[j] == SegmentBlock(c.segments[j]))
      && bytes == Whole(p) && payloadStart == p.Start() && HEADER <= payloadStart <= |bytes|
  {
    hide *;
    var bytes;
    bytes, p := WriteHeader(c, n);
    bytes, p := WriteSegments(c, bytes, p);
    NothingDone(c, n, p);
    ghost var segs := p.segs;
    var directory;
    directory, p := WriteColumns(pf, c, n, encoding, bytes, p);
    if directory.Err? {
      plans := [];
      return Err(directory.error), plans, p;
    }
    var chosen := directory.value.1;
    plans := chosen;
    bytes := directory.value.0;
    DirectoryFacts(c, n, plans, p);
    AppendDirectory(p, []);
    var payloadStart := |bytes|;
    ghost var before := p;
    bytes, p := WritePayloads(pf, c, n, chosen, bytes, p);
    PayloadFacts(pf, c, n, plans, p, |plans|);
    AppendPayload(p, []);
    SameStart(before, p);
    return Ok((bytes, payloadStart)), plans, p;
  }

  lemma SameStart(p: Parts, q: Parts)
    requires p.segs == q.segs && |p.cols| == |q.cols| && p.dirs == q.dirs
    ensures p.Start() == q.Start() >= HEADER
  {
  }

  /** Everything `encode` does before it decodes its own output. */
  method Build(pf: Platform, c: Chunk, encoding: Encoding)
    returns (r: Result<seq<Byte>>, ghost plans: seq<Plan>, ghost p: Parts)
    ensures r.Ok? <==> WithinLimits(c) && AllPlanned(pf, TotalCount(c.segments), c.columns, encoding)
    ensures r.Ok? ==> |plans| == |c.columns| && ArePlans(pf, TotalCount(c.segments), c.columns, encoding, plans)
                      && Written(pf, c, TotalCount(c.segments), plans, p, r.value)
  {
    hide Whole, HeaderBlock, SealedBlock, SegmentBlock, AllPlanned, ArePlans, PayloadsDone, Parts.Start, LaidOut;
    plans, p := [], Parts([], [], [], [], []);
    var decoded := CountValues(c.columns);
    if decoded > MAX_CHUNK {
      return Err(ResourceLimit), plans, p;
    }
    var count := Count(c);
    if count.Err? {
      return Err(count.error), plans, p;
    }
    var n := count.value;
    if !(0 < |c.segments| <= MAX_SEGMENTS) || !(0 < |c.columns| <= MAX_COLUMNS) {
      return Err(InvalidData), plans, p;
    }
    var parts;
    parts, plans, p := WriteParts(pf, c, n, encoding);
    if parts.Err? {
      return Err(parts.error), plans, p;
    }
    var (unsealed, payloadStart) := parts.value;
    var bytes := Seal(pf, unsealed, payloadStart, p);
    ghost var q := p.(head := SealedBlock(p.head, payloadStart - HEADER, |bytes| - payloadStart,
                                          pf.crc(bytes[..72]), pf.crc(bytes[HEADER..payloadStart])));
    AllDone(pf, c, n, plans, p, q);
    SameStart(p, q);
    p := q;
    return Ok(bytes), plans, p;
  }

  lemma NothingDone(c: Chunk, n: nat, p: Parts)
    requires p.Shaped() && |p.segs| == |c.segments| && p.dirs == p.pays == []
    requires p.cols == seq(|c.columns|, _ => Zeros(64))
    ensures DirectoryDone(c, n, [], p)
  {
  }

  lemma AllDone(pf: Platform, c: Chunk, n: nat, plans: seq<Plan>, p: Parts, q: Parts)
    requires PayloadsDone(pf, c, n, plans, p, |plans|) && |q.head| == HEADER && q == p.(head := q.head)
    requires forall i :: 0 <= i < |p.segs| ==> p.segs[i] == SegmentBlock(c.segments[i])
    ensures LaidOut(pf, c, n, plans, q)
  {
    hide SegmentBlock, DirectoryBlock, ColumnBlock, Blob, EntryBefore, EntryFor, Flat;
    assert forall i :: 0 <= i <= |p.dirs| ==> p.DirAt(i) == q.DirAt(i);
    assert forall i :: 0 <= i <= |p.pays| ==> p.PayAt(i) == q.PayAt(i);
  }
}
