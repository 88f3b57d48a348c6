/** The columnar chunk container of `crates/ink-format/src/chunk.rs` as the decoder reads it, with the
    scalar types and value codecs of `codec.rs`. */
module ChunkFormat {
  import opened Bytes
  import opened Results

  type U16 = n: nat | n < 0x1_0000
  type U32 = n: nat | n < 0x1_0000_0000
  type Id = s: seq<Byte> | |s| == 16 witness seq(16, _ => 0)

  const MAX_CHUNK: nat := 64 * 1024 * 1024
  const MAX_DIRECTORY: nat := 16 * 1024 * 1024
  const MAX_POINTS: nat := 1_000_000
  const MAX_SEGMENTS: nat := 65536
  const MAX_COLUMNS: nat := 64
  const HEADER: nat := 80
  const MAGIC: seq<Byte> := [0x49, 0x4E, 0x4B, 0x43, 0x48, 0x4E, 0x4B, 0x00]

  datatype DType = U8 | I8 | U16 | I16 | U32 | I32 | U64 | I64 | F32 | F64
  {
    function Width(): (w: nat)
      ensures w in {1, 2, 4, 8}
    {
      if U8? || I8? then 1 else if U16? || I16? then 2 else if U32? || I32? || F32? then 4 else 8
    }

    /** The discriminant written to the wire. */
    function Code(): (c: Byte)
      ensures 1 <= c <= 10
    {
      match this
      case U8 => 1 case I8 => 2 case U16 => 3 case I16 => 4 case U32 => 5
      case I32 => 6 case U64 => 7 case I64 => 8 case F32 => 9 case F64 => 10
    }
  }

  function DTypeOf(code: Byte): (r: Result<DType>)
    ensures r.Ok? ==> r.value.Code() == code
  {
    match code
    case 1 => Ok(U8) case 2 => Ok(I8) case 3 => Ok(U16) case 4 => Ok(I16) case 5 => Ok(U32)
    case 6 => Ok(I32) case 7 => Ok(U64) case 8 => Ok(I64) case 9 => Ok(F32) case 10 => Ok(F64)
    case _ => Err(Unsupported(code))
  }

  datatype Encoding = Raw | Pco8
  {
    function Code(): nat { if Raw? then 0 else 2 }

    function Params(): (s: seq<Byte>)
      ensures 1 <= |s| <= 3
    {
      if Raw? then [0xA1, 0x00, 0xF4] else [0xA0]
    }
  }

  datatype Segment = Segment(id: Id, count: U32)

  datatype Column = Column(
    semantic: U16, dtype: DType, required: bool,
    validity: Option<seq<Byte>>, values: seq<Byte>)

  datatype Chunk = Chunk(id: Id, profile: Id, segments: seq<Segment>, columns: seq<Column>)

  // ----- what is outside the repository: CRC-32 and the PCO codec

  /** One step of a PCO stream: a chunk that announces `n` numbers and delivers `data`, the terminator
      with the bytes after it, or a point where the stream cannot be read. */
  datatype PcoItem = PcoChunk(n: nat, data: seq<Byte>) | PcoEnd(rest: seq<Byte>) | PcoBroken

  datatype Platform = Platform(
    crc: seq<Byte> -> U32,
    compress: (DType, seq<Byte>) -> Option<seq<Byte>>,
    open: (DType, seq<Byte>) -> seq<PcoItem>)

  /** CRC-32 of nothing is zero, and a compressed column reads back as its values. */
  ghost predicate Sound(pf: Platform) {
    && pf.crc([]) == 0
    && forall d: DType, v: seq<Byte>, p: seq<Byte> {:trigger pf.compress(d, v), pf.open(d, p)} ::
         |v| % d.Width() == 0 && pf.compress(d, v) == Some(p)
         ==> Numbers(pf.open(d, p), d.Width(), |v| / d.Width(), []) == Ok(v)
  }

  // ----- codec.rs

  function Compress(pf: Platform, d: DType, values: seq<Byte>, encoding: Encoding): Result<seq<Byte>> {
    if |values| % d.Width() != 0 then Err(InvalidData)
    else if encoding.Raw? then Ok(values)
    else
      match pf.compress(d, values)
      case Some(p) => Ok(p)
      case None => Err(Compression)
  }

  /** `decode_numbers` after some items: `got` holds the numbers read so far, as bytes. */
  function Numbers(items: seq<PcoItem>, width: nat, count: nat, got: seq<Byte>): (r: Result<seq<Byte>>)
    requires width > 0
    ensures r.Ok? ==> |r.value| == count * width
  {
    if items == [] || items[0].PcoBroken? then Err(Compression)
    else
      match items[0]
      case PcoEnd(rest) => if rest == [] && |got| == count * width then Ok(got) else Err(InvalidData)
      case PcoChunk(n, data) =>
        if |got| + n * width > count * width || |data| != n * width then Err(InvalidData)
        else Numbers(items[1..], width, count, got + data)
  }

  /** The decompression loop. The values never outgrow the declared count, whatever the stream says. */
  method DecodeNumbers(items: seq<PcoItem>, width: nat, count: nat) returns (r: Result<seq<Byte>>)
    requires width > 0
    ensures r == Numbers(items, width, count, [])
  {
    var values: seq<Byte> := [];
    var i := 0;
    while true
      invariant 0 <= i <= |items|
      invariant |values| <= count * width
      invariant Numbers(items, width, count, []) == Numbers(items[i..], width, count, values)
      decreases |items| - i
    {
      if i == |items| {
        return Err(Compression);
      }
      match items[i] {
        case PcoBroken =>
          return Err(Compression);
        case PcoEnd(rest) =>
          return if rest == [] && |values| == count * width then Ok(values) else Err(InvalidData);
        case PcoChunk(n, data) =>
          if |values| + n * width > count * width || |data| != n * width {
            return Err(InvalidData);
          }
          values := values + data;
      }
      i := i + 1;
    }
  }

  function Decompress(pf: Platform, d: DType, payload: seq<Byte>, count: nat): (r: Result<seq<Byte>>)
    ensures r.Ok? ==> |r.value| == count * d.Width()
  {
    Numbers(pf.open(d, payload), d.Width(), count, [])
  }

  // ----- values and bitmaps

  predicate Finite32(b: seq<Byte>)
    requires |b| == 4
  {
    var high: nat := b[3];
    high % 128 * 2 + b[2] / 128 != 255
  }

  predicate Finite64(b: seq<Byte>)
    requires |b| == 8
  {
    var high: nat := b[7];
    high % 128 * 16 + b[6] / 16 != 2047
  }

  /** Every whole scalar of `width` bytes is finite; a short tail is not looked at. */
  predicate AllFinite(values: seq<Byte>, width: nat)
    requires width == 4 || width == 8
  {
    |values| < width ||
    (&& (if width == 4 then Finite32(values[..4]) else Finite64(values[..8]))
     && AllFinite(values[width..], width))
  }

  predicate ValuesOk(col: Column) {
    && (col.semantic == 12 ==> col.dtype == U8 && forall v :: v in col.values ==> v <= 2)
    && (col.dtype == F32 ==> AllFinite(col.values, 4))
    && (col.dtype == F64 ==> AllFinite(col.values, 8))
  }

  function CeilDiv8(n: nat): nat { (n + 7) / 8 }

  function OnesIn(b: Byte): (k: nat)
    ensures k <= 8
    ensures k == 0 <==> b == 0
  {
    b % 2 + b / 2 % 2 + b / 4 % 2 + b / 8 % 2 + b / 16 % 2 + b / 32 % 2 + b / 64 % 2 + b / 128
  }

  /** `count_ones` over the bitmap. */
  function Ones(bitmap: seq<Byte>): (k: nat) {
    if bitmap == [] then 0 else OnesIn(bitmap[0]) + Ones(bitmap[1..])
  }

  /** Bits past the last row are clear. */
  predicate TailClear(bitmap: seq<Byte>, n: nat)
    requires |bitmap| == CeilDiv8(n)
  {
    n % 8 != 0 ==> bitmap[n / 8] < Pow2(n % 8)
  }

  // ----- reading the layout

  function Uint(b: seq<Byte>, at: nat, size: nat): nat
    requires at + size <= |b|
  {
    FromLE(b[at..at + size])
  }

  /** The fixed fields of a column entry, in wire order. */
  datatype Entry = Entry(
    semantic: nat, logical: nat, storage: nat, codec: nat, wire: nat, outer: nat, flags: nat, count: nat,
    payloadAt: nat, payloadLen: nat, decodedLen: nat, paramsAt: nat, paramsLen: nat,
    bitmapAt: nat, bitmapLen: nat, crc: nat, codecLen: nat, reserved: nat)

  function EntryAt(b: seq<Byte>, p: nat): Entry
    requires p + 64 <= |b|
  {
    Entry(Uint(b, p, 2), b[p + 2], b[p + 3], Uint(b, p + 4, 2), Uint(b, p + 6, 2), Uint(b, p + 8, 2),
          Uint(b, p + 10, 2), Uint(b, p + 12, 4), Uint(b, p + 16, 8), Uint(b, p + 24, 4), Uint(b, p + 28, 4),
          Uint(b, p + 32, 4), Uint(b, p + 36, 4), Uint(b, p + 40, 4), Uint(b, p + 44, 4), Uint(b, p + 48, 4),
          Uint(b, p + 52, 4), Uint(b, p + 56, 8))
  }

  /** Sizes taken from the header: points, segments, columns, end of the tables, end of the directory. */
  datatype Frame = Frame(n: nat, s: nat, c: nat, tableEnd: nat, start: nat)
  {
    predicate Fits(b: seq<Byte>) {
      && 0 < n <= MAX_POINTS && 0 < s <= MAX_SEGMENTS && 0 < c <= MAX_COLUMNS
      && tableEnd == HEADER + 32 * s + 64 * c <= start <= |b| <= MAX_CHUNK
    }

    function SegmentAt(i: nat): nat { HEADER + 32 * i }
    function ColumnAt(i: nat): nat { HEADER + 32 * s + 64 * i }
  }

  function ReadHeader(pf: Platform, b: seq<Byte>): (r: Result<Frame>)
    ensures r.Ok? ==> r.value.Fits(b)
  {
    if !(HEADER <= |b| <= MAX_CHUNK) then Err(InvalidData)
    else if b[..8] != MAGIC then Err(InvalidData)
    else if !(Uint(b, 8, 2) == 1 && Uint(b, 10, 2) == 0) then Err(InvalidData)
    else if !(Uint(b, 12, 4) == 0 && Uint(b, 58, 2) == 0) then Err(InvalidData)
    else if Uint(b, 72, 4) != pf.crc(b[..72]) then Err(InvalidData)
    else
      var n, s, c := Uint(b, 48, 4), Uint(b, 52, 4), Uint(b, 56, 2);
      if !(0 < n <= MAX_POINTS && 0 < s <= MAX_SEGMENTS && 0 < c <= MAX_COLUMNS) then Err(InvalidData)
      else
        var directory := Uint(b, 60, 4);
        if directory > MAX_DIRECTORY then Err(InvalidData)
        else
          var start := HEADER + directory;
          if start + Uint(b, 64, 8) != |b| then Err(InvalidData)
          else
            var tableEnd := HEADER + s * 32 + c * 64;
            if tableEnd > start then Err(InvalidData)
            else if Uint(b, 76, 4) != pf.crc(b[HEADER..start]) then Err(InvalidData)
            else Ok(Frame(n, s, c, tableEnd, start))
  }

  function IdAt(b: seq<Byte>, at: nat): (r: Result<Id>)
    requires at + 16 <= |b|
    ensures r.Ok? ==> r.value == b[at..at + 16]
  {
    if b[at..at + 16] == seq(16, _ => 0) then Err(InvalidData) else Ok(b[at..at + 16])
  }

  function SegmentIds(segments: seq<Segment>): set<Id> {
    set s | s in segments :: s.id
  }

  /** The segment table from entry `i` on, after `done` entries that hold `total` points. */
  function ReadSegments(b: seq<Byte>, f: Frame, i: nat, done: seq<Segment>, total: nat): Result<seq<Segment>>
    requires f.Fits(b) && i <= f.s
    decreases f.s - i
  {
    if i == f.s then if total == f.n then Ok(done) else Err(InvalidData)
    else
      var p := f.SegmentAt(i);
      var id :- IdAt(b, p);
      FromLEBound(b[p + 16..p + 20]);
      assert Pow256(4) == 0x1_0000_0000;
      var count: U32 := Uint(b, p + 16, 4);
      if count == 0 || id in SegmentIds(done) then Err(InvalidData)
      else if !(Uint(b, p + 20, 4) == 0 && Uint(b, p + 24, 8) == 0) then Err(InvalidData)
      else ReadSegments(b, f, i + 1, done + [Segment(id, count)], total + count)
  }

  datatype Range = Range(lo: nat, hi: nat)

  /** The range an offset and a length denote; an empty one denotes none. */
  function RangeOf(at: nat, length: nat): seq<Range> {
    if length == 0 then [] else [Range(at, at + length)]
  }

  /** The `range` closure: an absent range has offset zero, any other lies within its area. */
  function Claim(at: nat, length: nat, low: nat, high: nat): (r: Result<seq<Range>>)
    ensures r.Ok? ==> if length == 0 then r.value == []
                      else r.value == [Range(at, at + length)] && low <= at && at + length <= high
  {
    if length == 0 then if at == 0 then Ok([]) else Err(InvalidData)
    else if at >= low && at + length <= high then Ok([Range(at, at + length)])
    else Err(InvalidData)
  }

  function Slice(b: seq<Byte>, at: nat, length: nat): seq<Byte>
    requires length > 0 ==> at + length <= |b|
  {
    if length == 0 then [] else b[at..at + length]
  }

  /** Loop state over the column table. */
  datatype Scan = Scan(columns: seq<Column>, previous: nat, decoded: nat, ranges: seq<Range>)

  /** Flags with no unknown bit and no reserved validity state. */
  predicate KnownFlags(flags: nat) { flags in {0, 1, 2, 16, 17, 18} }

  predicate MustBeFull(semantic: nat) { semantic in {1, 2, 4, 12} }

  /** Validity of a column from its state bits and bitmap: the stored form and the number of valid rows. */
  function ReadValidity(state: nat, bitmap: seq<Byte>, n: nat): Result<(Option<seq<Byte>>, nat)>
    requires state < 3
  {
    if state == 0 then if bitmap == [] then Ok((None, n)) else Err(InvalidData)
    else if state == 1 then
      if |bitmap| != CeilDiv8(n) then Err(InvalidData)
      else if !TailClear(bitmap, n) then Err(InvalidData)
      else if 0 < Ones(bitmap) < n then Ok((Some(bitmap), Ones(bitmap)))
      else Err(InvalidData)
    else if bitmap == [] then Ok((Some(seq(CeilDiv8(n), _ => 0)), 0))
    else Err(InvalidData)
  }

  /** The checks on the fixed fields of one entry, before any range is looked at. */
  function CheckEntry(e: Entry, previous: nat, n: nat): Check
    requires e.logical < 256
  {
    if e.semantic <= previous then Fail(InvalidData)
    else if DTypeOf(e.logical).Err? then Fail(DTypeOf(e.logical).error)
    else if e.storage != e.logical then Fail(InvalidData)
    else if e.codec != 0 && e.codec != 2 then Fail(Unsupported(e.codec))
    else if e.wire != 1 then Fail(Unsupported(e.wire))
    else if e.outer != 0 || !KnownFlags(e.flags) then Fail(InvalidData)
    else Ensure(e.count == n && e.reserved == 0)
  }

  /** The checks that tie the lengths of an entry to its number of valid rows. */
  function CheckLengths(e: Entry, encoding: Encoding, valid: nat, expected: nat, decoded: nat): Check {
    if decoded + expected > MAX_CHUNK || e.decodedLen != expected || e.codecLen != e.payloadLen then
      Fail(InvalidData)
    else Ensure(valid == 0 ==> encoding.Raw? && e.payloadLen == 0)
  }

  function ReadValues(pf: Platform, dtype: DType, encoding: Encoding, payload: seq<Byte>, valid: nat, decode: bool)
    : (r: Result<seq<Byte>>)
    ensures r.Ok? && decode && encoding.Pco8? ==> |r.value| == valid * dtype.Width()
  {
    if !decode then Ok([]) else if encoding.Raw? then Ok(payload)
    else Decompress(pf, dtype, payload, valid)
  }

  /** What the directory says of a column: its claimed ranges and its validity. */
  datatype Directory = Directory(ranges: seq<Range>, validity: Option<seq<Byte>>, valid: nat)

  function ReadDirectory(b: seq<Byte>, f: Frame, e: Entry, encoding: Encoding): (r: Result<Directory>)
    requires f.Fits(b)
    ensures r.Ok? ==> WithinBuffer(r.value.ranges, |b|)
  {
    var params :- Claim(e.paramsAt, e.paramsLen, f.tableEnd, f.start);
    if Slice(b, e.paramsAt, e.paramsLen) != encoding.Params() then Err(InvalidData)
    else
      var bits :- Claim(e.bitmapAt, e.bitmapLen, f.tableEnd, f.start);
      if e.flags % 4 == 3 then Err(InvalidData)
      else
        var (validity, valid) :- ReadValidity(e.flags % 4, Slice(b, e.bitmapAt, e.bitmapLen), f.n);
        Ok(Directory(params + bits, validity, valid))
  }

  /** The values of a column and the range that holds them. */
  function ReadPayload(pf: Platform, b: seq<Byte>, f: Frame, e: Entry, dtype: DType, encoding: Encoding,
                       valid: nat, decode: bool): (r: Result<(seq<Byte>, seq<Range>)>)
    requires f.Fits(b)
    ensures r.Ok? ==> WithinBuffer(r.value.1, |b|)
  {
    var body :- Claim(e.payloadAt, e.payloadLen, f.start, |b|);
    var payload := Slice(b, e.payloadAt, e.payloadLen);
    if e.crc != pf.crc(payload) then Err(InvalidData)
    else if encoding.Raw? && e.payloadLen != valid * dtype.Width() then Err(InvalidData)
    else
      var values :- ReadValues(pf, dtype, encoding, payload, valid, decode);
      Ok((values, body))
  }

  function EncodingOf(codec: nat): Encoding { if codec == 0 then Raw else Pco8 }

  /** One turn of the column loop, given the fixed fields of the entry. */
  function ReadEntry(pf: Platform, b: seq<Byte>, f: Frame, e: Entry, scan: Scan, decode: bool): Result<Scan>
    requires f.Fits(b) && e.semantic < 0x1_0000 && e.logical < 256
  {
    if CheckEntry(e, scan.previous, f.n).Fail? then Err(CheckEntry(e, scan.previous, f.n).error)
    else
      var dtype :- DTypeOf(e.logical);
      var encoding := EncodingOf(e.codec);
      var dir :- ReadDirectory(b, f, e, encoding);
      if MustBeFull(e.semantic) && e.flags != 16 then Err(InvalidData)
      else
        var expected := dir.valid * dtype.Width();
        if CheckLengths(e, encoding, dir.valid, expected, scan.decoded).Fail? then Err(InvalidData)
        else
          var (values, body) :- ReadPayload(pf, b, f, e, dtype, encoding, dir.valid, decode);
          var column := Column(e.semantic, dtype, e.flags >= 16, dir.validity, values);
          if e.semantic == 12 && !dtype.U8? then Err(InvalidData)
          else if decode && !ValuesOk(column) then Err(InvalidData)
          else Ok(Scan(scan.columns + [column], e.semantic, scan.decoded + expected,
                       scan.ranges + dir.ranges + body))
  }

  function ReadColumn(pf: Platform, b: seq<Byte>, f: Frame, i: nat, scan: Scan, decode: bool): Result<Scan>
    requires f.Fits(b) && i < f.c
  {
    EntryFits(b, f.ColumnAt(i));
    ReadEntry(pf, b, f, EntryAt(b, f.ColumnAt(i)), scan, decode)
  }

  lemma EntryFits(b: seq<Byte>, p: nat)
    requires p + 64 <= |b|
    ensures EntryAt(b, p).semantic < 0x1_0000 && EntryAt(b, p).logical < 256
  {
    FromLEBound(b[p..p + 2]);
    assert Pow256(2) == 0x1_0000;
  }

  function ReadColumns(pf: Platform, b: seq<Byte>, f: Frame, i: nat, scan: Scan, decode: bool): (r: Result<Scan>)
    requires f.Fits(b) && i <= f.c
    decreases f.c - i
  {
    if i == f.c then Ok(scan)
    else
      var next :- ReadColumn(pf, b, f, i, scan, decode);
      ReadColumns(pf, b, f, i + 1, next, decode)
  }

  lemma {:induction false} ColumnsStayWithin(pf: Platform, b: seq<Byte>, f: Frame, i: nat, scan: Scan, decode: bool)
    requires f.Fits(b) && i <= f.c && WithinBuffer(scan.ranges, |b|)
    requires ReadColumns(pf, b, f, i, scan, decode).Ok?
    ensures WithinBuffer(ReadColumns(pf, b, f, i, scan, decode).value.ranges, |b|)
    decreases f.c - i
  {
    hide ReadDirectory, ReadPayload, EntryAt, CheckEntry, CheckLengths, ValuesOk, DTypeOf;
    if i < f.c {
      EntryFits(b, f.ColumnAt(i));
      ColumnsStayWithin(pf, b, f, i + 1, ReadColumn(pf, b, f, i, scan, decode).value, decode);
    }
  }

  predicate HasAxis(columns: seq<Column>, axis: nat) {
    exists i :: 0 <= i < |columns| && columns[i].semantic == axis
  }

  // ----- the sweep over the declared ranges

  predicate WithinBuffer(ranges: seq<Range>, high: nat) {
    forall r :: r in ranges ==> r.lo < r.hi <= high
  }

  predicate Before(a: Range, b: Range) { a.lo < b.lo || (a.lo == b.lo && a.hi < b.hi) }

  function InsertRange(r: Range, sorted: seq<Range>): (out: seq<Range>)
    ensures multiset(out) == multiset(sorted) + multiset{r}
  {
    if sorted == [] || !Before(sorted[0], r) then [r] + sorted
    else
      assert sorted == [sorted[0]] + sorted[1..];
      [sorted[0]] + InsertRange(r, sorted[1..])
  }

  /** `sort_unstable` on the pairs. */
  function SortRanges(ranges: seq<Range>): (out: seq<Range>)
    ensures multiset(out) == multiset(ranges)
  {
    if ranges == [] then []
    else
      assert ranges == [ranges[0]] + ranges[1..];
      InsertRange(ranges[0], SortRanges(ranges[1..]))
  }

  lemma SortStaysWithin(ranges: seq<Range>, high: nat)
    requires WithinBuffer(ranges, high)
    ensures WithinBuffer(SortRanges(ranges), high)
  {
    forall r | r in SortRanges(ranges)
      ensures r.lo < r.hi <= high
    {
      assert r in multiset(SortRanges(ranges));
      assert r in multiset(ranges);
    }
  }

  predicate Zero(b: seq<Byte>, lo: nat, hi: nat)
    requires hi <= |b|
  {
    forall k :: lo <= k < hi ==> b[k] == 0
  }

  /** No range starts before the previous one ended, what lies between is zero, and the last range
      ends the buffer. */
  predicate Sweep(b: seq<Byte>, ranges: seq<Range>, end: nat)
    requires WithinBuffer(ranges, |b|)
  {
    if ranges == [] then end == |b|
    else ranges[0].lo >= end && Zero(b, end, ranges[0].lo) && Sweep(b, ranges[1..], ranges[0].hi)
  }

  // ----- the whole decoder

  const EMPTY_SCAN := Scan([], 0, 0, [])

  function ReadLayout(pf: Platform, b: seq<Byte>, decode: bool): Result<(Chunk, nat)> {
    var f :- ReadHeader(pf, b);
    var segments :- ReadSegments(b, f, 0, [], 0);
    var scan :- ReadColumns(pf, b, f, 0, EMPTY_SCAN, decode);
    if !(HasAxis(scan.columns, 1) && HasAxis(scan.columns, 2) && HasAxis(scan.columns, 12)) then Err(InvalidData)
    else
      ColumnsStayWithin(pf, b, f, 0, EMPTY_SCAN, decode);
      SortStaysWithin(scan.ranges, |b|);
      if !Sweep(b, SortRanges(scan.ranges), f.tableEnd) then Err(InvalidData)
      else
        var id :- IdAt(b, 16);
        var profile :- IdAt(b, 32);
        Ok((Chunk(id, profile, segments, scan.columns), scan.decoded))
  }

  function Decode(pf: Platform, b: seq<Byte>): Result<Chunk> {
    var (chunk, _) :- ReadLayout(pf, b, true);
    Ok(chunk)
  }

  function DecodedValueBytes(pf: Platform, b: seq<Byte>): Result<nat> {
    var (_, n) :- ReadLayout(pf, b, false);
    Ok(n)
  }

  // ----- the decoder as it runs

  method RunSegments(b: seq<Byte>, f: Frame) returns (r: Result<seq<Segment>>)
    requires f.Fits(b)
    ensures r == ReadSegments(b, f, 0, [], 0)
  {
    hide SegmentIds, IdAt;
    var segments: seq<Segment>, total: nat := [], 0;
    for i := 0 to f.s
      invariant ReadSegments(b, f, 0, [], 0) == ReadSegments(b, f, i, segments, total)
    {
      var p := f.SegmentAt(i);
      var id := IdAt(b, p);
      if id.Err? {
        return Err(id.error);
      }
      FromLEBound(b[p + 16..p + 20]);
      assert Pow256(4) == 0x1_0000_0000;
      var count: U32 := Uint(b, p + 16, 4);
      if count == 0 || id.value in SegmentIds(segments) || Uint(b, p + 20, 4) != 0 || Uint(b, p + 24, 8) != 0 {
        return Err(InvalidData);
      }
      total := total + count;
      segments := segments + [Segment(id.value, count)];
    }
    return if total == f.n then Ok(segments) else Err(InvalidData);
  }

  method RunColumns(pf: Platform, b: seq<Byte>, f: Frame, decode: bool) returns (r: Result<Scan>)
    requires f.Fits(b)
    ensures r == ReadColumns(pf, b, f, 0, EMPTY_SCAN, decode)
  {
    hide ReadColumn;
    var scan := EMPTY_SCAN;
    for i := 0 to f.c
      invariant ReadColumns(pf, b, f, 0, EMPTY_SCAN, decode) == ReadColumns(pf, b, f, i, scan, decode)
    {
      var next := ReadColumn(pf, b, f, i, scan, decode);
      if next.Err? {
        return Err(next.error);
      }
      scan := next.value;
    }
    return Ok(scan);
  }

  method RunSweep(b: seq<Byte>, ranges: seq<Range>, start: nat) returns (pass: bool)
    requires WithinBuffer(ranges, |b|) && start <= |b|
    ensures pass <==> Sweep(b, ranges, start)
  {
    hide Zero;
    var end: nat := start;
    for i := 0 to |ranges|
      invariant WithinBuffer(ranges[i..], |b|) && end <= |b|
      invariant Sweep(b, ranges, start) <==> Sweep(b, ranges[i..], end)
    {
      assert ranges[i..][0] == ranges[i] && ranges[i..][1..] == ranges[i + 1..];
      if ranges[i].lo < end || !Zero(b, end, ranges[i].lo) {
        return false;
      }
      end := ranges[i].hi;
    }
    return end == |b|;
  }

  /** `read_layout`: the loops over segments, columns and sorted ranges. */
  method RunLayout(pf: Platform, b: seq<Byte>, decode: bool) returns (r: Result<(Chunk, nat)>)
    ensures r == ReadLayout(pf, b, decode)
  {
    hide ReadHeader, ReadSegments, ReadColumns, SortRanges, Sweep, HasAxis;
    var header := ReadHeader(pf, b);
    if header.Err? {
      return Err(header.error);
    }
    var segments := RunSegments(b, header.value);
    if segments.Err? {
      return Err(segments.error);
    }
    var scan := RunColumns(pf, b, header.value, decode);
    if scan.Err? {
      return Err(scan.error);
    }
    var columns := scan.value.columns;
    if !(HasAxis(columns, 1) && HasAxis(columns, 2) && HasAxis(columns, 12)) {
      return Err(InvalidData);
    }
    ColumnsStayWithin(pf, b, header.value, 0, EMPTY_SCAN, decode);
    SortStaysWithin(scan.value.ranges, |b|);
    var tidy := RunSweep(b, SortRanges(scan.value.ranges), header.value.tableEnd);
    var id, profile := IdAt(b, 16), IdAt(b, 32);
    if !tidy || id.Err? || profile.Err? {
      return Err(InvalidData);
    }
    return Ok((Chunk(id.value, profile.value, segments.value, columns), scan.value.decoded));
  }
}
