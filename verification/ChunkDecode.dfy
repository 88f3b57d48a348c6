/** Exactly which bytes `Chunk::decode` of `crates/ink-format/src/chunk.rs` accepts, field by field and offset by
    offset, and what it makes of them. */
module ChunkDecode {
  import opened Bytes
  import opened Results
  import opened ChunkFormat
  import opened ChunkEncode
  import opened ChunkWriter
  import opened ChunkAccount
  import R = ChunkRoundTrip

  // ----- little-endian fields

  function N2(b: seq<Byte>, at: nat): nat
    requires at + 2 <= |b|
  {
    var low: nat, high: nat := b[at], b[at + 1];
    low + 0x100 * high
  }

  function N4(b: seq<Byte>, at: nat): nat
    requires at + 4 <= |b|
  {
    N2(b, at) + 0x1_0000 * N2(b, at + 2)
  }

  function N8(b: seq<Byte>, at: nat): nat
    requires at + 8 <= |b|
  {
    N4(b, at) + 0x1_0000_0000 * N4(b, at + 4)
  }

  lemma {:induction false} JoinLE(x: seq<Byte>, y: seq<Byte>)
    ensures FromLE(x + y) == FromLE(x) + Pow256(|x|) * FromLE(y)
  {
    if x == [] {
      assert x + y == y;
    } else {
      assert (x + y)[1..] == x[1..] + y;
      JoinLE(x[1..], y);
      Regroup(Pow256(|x| - 1), FromLE(y));
    }
  }

  lemma Regroup(p: nat, n: nat)
    ensures 256 * (p * n) == (256 * p) * n
  {
  }

  lemma Uint2(b: seq<Byte>, at: nat)
    requires at + 2 <= |b|
    ensures Uint(b, at, 2) == N2(b, at)
  {
    var s := b[at..at + 2];
    assert s[1..][1..] == [] && FromLE([]) == 0;
    assert FromLE(s[1..]) == s[1];
  }

  lemma Uint4(b: seq<Byte>, at: nat)
    requires at + 4 <= |b|
    ensures Uint(b, at, 4) == N4(b, at)
  {
    assert b[at..at + 4] == b[at..at + 2] + b[at + 2..at + 4];
    JoinLE(b[at..at + 2], b[at + 2..at + 4]);
    Uint2(b, at);
    Uint2(b, at + 2);
    assert Pow256(2) == 0x1_0000;
  }

  lemma Uint8(b: seq<Byte>, at: nat)
    requires at + 8 <= |b|
    ensures Uint(b, at, 8) == N8(b, at)
  {
    assert b[at..at + 8] == b[at..at + 4] + b[at + 4..at + 8];
    JoinLE(b[at..at + 4], b[at + 4..at + 8]);
    Uint4(b, at);
    Uint4(b, at + 4);
    assert Pow256(4) == 0x1_0000_0000;
  }

  lemma FieldsAt(b: seq<Byte>, p: nat)
    requires p + 64 <= |b|
    ensures EntryAt(b, p) == Entry(
              N2(b, p), b[p + 2], b[p + 3], N2(b, p + 4), N2(b, p + 6), N2(b, p + 8), N2(b, p + 10), N4(b, p + 12),
              N8(b, p + 16), N4(b, p + 24), N4(b, p + 28), N4(b, p + 32), N4(b, p + 36), N4(b, p + 40), N4(b, p + 44),
              N4(b, p + 48), N4(b, p + 52), N8(b, p + 56))
    ensures N2(b, p) < 0x1_0000
  {
    hide Uint, N2, N4, N8;
    Uint2(b, p); Uint2(b, p + 4); Uint2(b, p + 6); Uint2(b, p + 8); Uint2(b, p + 10);
    Uint4(b, p + 12); Uint4(b, p + 24); Uint4(b, p + 28); Uint4(b, p + 32); Uint4(b, p + 36); Uint4(b, p + 40);
    Uint4(b, p + 44); Uint4(b, p + 48); Uint4(b, p + 52);
    Uint8(b, p + 16); Uint8(b, p + 56);
    EntryFits(b, p);
  }

  // ----- the header

  predicate Zeroed(b: seq<Byte>, lo: nat, hi: nat)
    requires hi <= |b|
  {
    forall k :: lo <= k < hi ==> b[k] == 0
  }

  predicate HeaderHolds(pf: Platform, b: seq<Byte>) {
    && 80 <= |b| <= 0x400_0000
    && b[..8] == [0x49, 0x4E, 0x4B, 0x43, 0x48, 0x4E, 0x4B, 0x00]
    && N2(b, 8) == 1 && N2(b, 10) == 0 && N4(b, 12) == 0 && N2(b, 58) == 0
    && 0 < N4(b, 48) <= 1_000_000 && 0 < N4(b, 52) <= 65_536 && 0 < N2(b, 56) <= 64
    && 32 * N4(b, 52) + 64 * N2(b, 56) <= N4(b, 60) <= 0x100_0000
    && 80 + N4(b, 60) + N8(b, 64) == |b|
    && N4(b, 72) == pf.crc(b[..72]) && N4(b, 76) == pf.crc(b[80..80 + N4(b, 60)])
  }

  /** The sizes in the header: points, segments, columns, the end of the tables and of the directory. */
  function FrameAt(b: seq<Byte>): Frame
    requires |b| >= 80
  {
    Frame(N4(b, 48), N4(b, 52), N2(b, 56), 80 + 32 * N4(b, 52) + 64 * N2(b, 56), 80 + N4(b, 60))
  }

  lemma HeaderExactly(pf: Platform, b: seq<Byte>)
    ensures ReadHeader(pf, b).Ok? <==> HeaderHolds(pf, b)
    ensures ReadHeader(pf, b).Ok? ==> ReadHeader(pf, b).value == FrameAt(b) && FrameAt(b).Fits(b)
  {
    hide Uint, N2, N4, N8;
    if |b| >= 80 {
      Uint2(b, 8); Uint2(b, 10); Uint2(b, 58); Uint2(b, 56);
      Uint4(b, 12); Uint4(b, 72); Uint4(b, 48); Uint4(b, 52); Uint4(b, 60); Uint4(b, 76);
      Uint8(b, 64);
    }
  }

  // ----- the segment table

  predicate SegmentHolds(b: seq<Byte>, at: nat, s: Segment)
    requires at + 32 <= |b|
  {
    b[at..at + 16] == s.id && N4(b, at + 16) == s.count && N4(b, at + 20) == 0 && N8(b, at + 24) == 0
  }

  /** Not empty, with an identifier that is not all zeros. */
  predicate Proper(s: Segment) { s.count > 0 && exists k :: 0 <= k < 16 && s.id[k] != 0 }

  predicate SegmentsHold(b: seq<Byte>, f: Frame, segments: seq<Segment>)
    requires f.Fits(b)
  {
    && |segments| == f.s && TotalCount(segments) == f.n
    && (forall i :: 0 <= i < f.s ==> SegmentHolds(b, 80 + 32 * i, segments[i]))
    && (forall i :: 0 <= i < f.s ==> Proper(segments[i]))
    && (forall i, j :: 0 <= i < j < f.s ==> segments[i].id != segments[j].id)
  }

  lemma SegmentsHoldExactly(b: seq<Byte>, f: Frame, segments: seq<Segment>)
    requires f.Fits(b)
    ensures ReadSegments(b, f, 0, [], 0) == Ok(segments) <==> SegmentsHold(b, f, segments)
  {
    hide ReadSegments, TotalCount, R.Stored, SegmentHolds, Proper, R.GoodSegments;
    R.SegmentsExactly(b, f, segments);
    if |segments| == f.s {
      forall i | 0 <= i < f.s
        ensures R.Stored(b, f, i, segments[i]) <==> SegmentHolds(b, 80 + 32 * i, segments[i])
      {
        StoredHolds(b, f, i, segments[i]);
      }
      DistinctExactly(segments);
    }
  }

  lemma StoredHolds(b: seq<Byte>, f: Frame, i: nat, s: Segment)
    requires f.Fits(b) && i < f.s
    ensures R.Stored(b, f, i, s) <==> SegmentHolds(b, 80 + 32 * i, s)
  {
    hide Uint, N4, N8;
    var at := 80 + 32 * i;
    Uint4(b, at + 16);
    Uint4(b, at + 20);
    Uint8(b, at + 24);
  }

  lemma NotZero(id: Id)
    ensures id != Zeros(16) <==> exists k :: 0 <= k < 16 && id[k] != 0
  {
  }

  lemma DistinctExactly(segments: seq<Segment>)
    ensures R.GoodSegments(segments, 0) <==>
              (forall i :: 0 <= i < |segments| ==> Proper(segments[i]))
              && (forall i, j :: 0 <= i < j < |segments| ==> segments[i].id != segments[j].id)
  {
    hide SegmentIds;
    forall i | 0 <= i < |segments|
      ensures R.GoodSegment(segments, i) <==>
                Proper(segments[i])
                && forall j :: 0 <= j < i ==> segments[j].id != segments[i].id
    {
      NotZero(segments[i].id);
      IdsBefore(segments, i);
    }
    if R.GoodSegments(segments, 0) {
      forall i, j | 0 <= i < j < |segments|
        ensures segments[i].id != segments[j].id
      {
        assert R.GoodSegment(segments, j);
      }
    }
  }

  lemma IdsBefore(segments: seq<Segment>, i: nat)
    requires i < |segments|
    ensures segments[i].id !in SegmentIds(segments[..i]) <==> forall j :: 0 <= j < i ==> segments[j].id != segments[i].id
  {
    forall j | 0 <= j < i
      ensures segments[j].id in SegmentIds(segments[..i])
    {
      assert segments[..i][j] in segments[..i];
    }
  }

  // ----- bitmaps

  /** Row `r` of a bitmap, lowest bit first. */
  predicate RowSet(bitmap: seq<Byte>, r: nat)
    requires r < 8 * |bitmap|
  {
    Bit(bitmap[r / 8], r % 8)
  }

  predicate Bit(v: nat, i: nat) { v / Pow2(i) % 2 == 1 }

  /** How many of the first `n` rows are set. */
  function RowsSet(bitmap: seq<Byte>, n: nat): nat
    requires n <= 8 * |bitmap|
  {
    if n == 0 then 0 else RowsSet(bitmap, n - 1) + if RowSet(bitmap, n - 1) then 1 else 0
  }

  lemma {:induction false} RowsAppend(x: seq<Byte>, y: seq<Byte>, n: nat)
    requires n <= 8 * |y|
    ensures RowsSet(x + y, 8 * |x| + n) == RowsSet(x, 8 * |x|) + RowsSet(y, n)
  {
    if n == 0 {
      SameRows(x, x + y, 8 * |x|);
    } else {
      RowsAppend(x, y, n - 1);
      var r := 8 * |x| + n - 1;
      assert r / 8 == |x| + (n - 1) / 8 && r % 8 == (n - 1) % 8;
      assert (x + y)[r / 8] == y[(n - 1) / 8];
    }
  }

  lemma {:induction false} SameRows(x: seq<Byte>, z: seq<Byte>, n: nat)
    requires n <= 8 * |x| && x <= z
    ensures RowsSet(z, n) == RowsSet(x, n)
  {
    if n > 0 {
      SameRows(x, z, n - 1);
      assert z[(n - 1) / 8] == x[(n - 1) / 8];
    }
  }

  lemma OneByte(v: Byte)
    ensures RowsSet([v], 8) == OnesIn(v)
  {
    assert Pow2(0) == 1 && Pow2(1) == 2 && Pow2(2) == 4 && Pow2(3) == 8;
    assert Pow2(4) == 16 && Pow2(5) == 32 && Pow2(6) == 64 && Pow2(7) == 128;
    assert RowsSet([v], 0) == 0;
    assert RowsSet([v], 1) == v % 2;
    assert RowsSet([v], 2) == v % 2 + v / 2 % 2;
    assert RowsSet([v], 3) == v % 2 + v / 2 % 2 + v / 4 % 2;
    assert RowsSet([v], 4) == v % 2 + v / 2 % 2 + v / 4 % 2 + v / 8 % 2;
    assert RowsSet([v], 5) == v % 2 + v / 2 % 2 + v / 4 % 2 + v / 8 % 2 + v / 16 % 2;
    assert RowsSet([v], 6) == v % 2 + v / 2 % 2 + v / 4 % 2 + v / 8 % 2 + v / 16 % 2 + v / 32 % 2;
    assert RowsSet([v], 7) == v % 2 + v / 2 % 2 + v / 4 % 2 + v / 8 % 2 + v / 16 % 2 + v / 32 % 2 + v / 64 % 2;
  }

  lemma {:induction false} OnesAreRows(bitmap: seq<Byte>)
    ensures RowsSet(bitmap, 8 * |bitmap|) == Ones(bitmap)
  {
    if bitmap != [] {
      var rest := bitmap[1..];
      OnesAreRows(rest);
      OneByte(bitmap[0]);
      assert bitmap == [bitmap[0]] + rest;
      RowsAppend([bitmap[0]], rest, 8 * |rest|);
    }
  }

  /** No row past the last is set. */
  predicate NoRowsPast(bitmap: seq<Byte>, n: nat) { forall r :: n <= r < 8 * |bitmap| ==> !RowSet(bitmap, r) }

  lemma {:induction false} RowsEnd(bitmap: seq<Byte>, n: nat, m: nat)
    requires n <= m <= 8 * |bitmap| && NoRowsPast(bitmap, n)
    ensures RowsSet(bitmap, m) == RowsSet(bitmap, n)
  {
    if n < m {
      RowsEnd(bitmap, n, m - 1);
    }
  }

  lemma {:induction false} HighBits(v: nat, lo: nat, hi: nat)
    requires lo <= hi && v < Pow2(hi)
    ensures v < Pow2(lo) <==> forall i :: lo <= i < hi ==> !Bit(v, i)
    decreases hi - lo
  {
    hide Bit;
    if lo < hi {
      TopBit(v, hi - 1);
      if v < Pow2(hi - 1) {
        HighBits(v, lo, hi - 1);
      } else {
        PowRises(lo, hi - 1);
      }
    }
  }

  lemma TopBit(v: nat, k: nat)
    requires v < Pow2(k + 1)
    ensures Bit(v, k) <==> v >= Pow2(k)
  {
    var p := Pow2(k);
    assert v < 2 * p;
    OneOrNone(v, p);
  }

  lemma OneOrNone(v: nat, p: nat)
    requires v < 2 * p
    ensures v / p == if v < p then 0 else 1
  {
    if v < p {
      assert v == p * 0 + v;
    } else {
      assert v - p < p;
      assert v / p == (v - p) / p + 1;
    }
  }

  lemma {:induction false} PowRises(a: nat, b: nat)
    requires a <= b
    ensures Pow2(a) <= Pow2(b)
  {
    if a < b {
      PowRises(a, b - 1);
    }
  }

  lemma TailExactly(bitmap: seq<Byte>, n: nat)
    requires |bitmap| == CeilDiv8(n)
    ensures TailClear(bitmap, n) <==> NoRowsPast(bitmap, n)
  {
    var q, k := n / 8, n % 8;
    if k != 0 {
      assert |bitmap| == q + 1;
      assert Pow2(8) == 256;
      HighBits(bitmap[q], k, 8);
      if TailClear(bitmap, n) {
        forall r | n <= r < 8 * |bitmap|
          ensures !RowSet(bitmap, r)
        {
          assert r / 8 == q && k <= r % 8 < 8;
        }
      }
      if NoRowsPast(bitmap, n) {
        forall i | k <= i < 8
          ensures !Bit(bitmap[q], i)
        {
          var r := 8 * q + i;
          assert r / 8 == q && r % 8 == i && !RowSet(bitmap, r);
        }
      }
    } else {
      assert 8 * |bitmap| == n;
    }
  }

  // ----- values

  /** The exponent bits of a 32-bit or 64-bit scalar are not all ones. */
  predicate FiniteAt(values: seq<Byte>, at: nat, width: nat)
    requires (width == 4 || width == 8) && at + width <= |values|
  {
    if width == 4 then N4(values, at) / 0x80_0000 % 0x100 != 0xFF
    else N8(values, at) / 0x10_0000_0000_0000 % 0x800 != 0x7FF
  }

  ghost predicate FiniteScalars(values: seq<Byte>, width: nat)
    requires width == 4 || width == 8
  {
    forall i :: 0 <= i && i * width + width <= |values| ==> FiniteAt(values, i * width, width)
  }

  lemma FiniteExactly(values: seq<Byte>, width: nat)
    requires (width == 4 || width == 8) && |values| >= width
    ensures FiniteAt(values, 0, width) <==> if width == 4 then Finite32(values[..4]) else Finite64(values[..8])
  {
    if width == 4 {
      Exponent4(values[0], values[1], values[2], values[3]);
    } else {
      Exponent8(N4(values, 0), values[4], values[5], values[6], values[7]);
    }
  }

  lemma Exponent4(a: nat, b: nat, c: nat, d: nat)
    requires a < 256 && b < 256 && c < 256 && d < 256
    ensures (a + 0x100 * b + 0x1_0000 * (c + 0x100 * d)) / 0x80_0000 % 0x100 == d % 128 * 2 + c / 128
  {
    Halves(c, 128);
    Halves(d, 128);
    Exponent4Of(a + 0x100 * b + 0x1_0000 * (c % 128), c / 128, d % 128, d / 128);
  }

  lemma Halves(n: nat, k: nat)
    requires n < 256 && (k == 16 || k == 128)
    ensures n == n % k + k * (n / k) && n % k < k && n / k < 256 / k
  {
  }

  lemma Exponent4Of(low: nat, c: nat, d: nat, e: nat)
    requires low < 0x80_0000 && c < 2 && d < 128
    ensures (low + 0x80_0000 * (c + 2 * (d + 128 * e))) / 0x80_0000 % 0x100 == d * 2 + c
  {
    assert (low + 0x80_0000 * (c + 2 * (d + 128 * e))) / 0x80_0000 == c + 2 * d + 0x100 * e;
  }

  lemma Exponent8(low: nat, a: nat, b: nat, c: nat, d: nat)
    requires low < 0x1_0000_0000 && a < 256 && b < 256 && c < 256 && d < 256
    ensures (low + 0x1_0000_0000 * (a + 0x100 * b + 0x1_0000 * (c + 0x100 * d))) / 0x10_0000_0000_0000 % 0x800
            == d % 128 * 16 + c / 16
  {
    Halves(c, 16);
    Halves(d, 128);
    Exponent8Of(low + 0x1_0000_0000 * (a + 0x100 * b + 0x1_0000 * (c % 16)), c / 16, d % 128, d / 128);
  }

  lemma Exponent8Of(low: nat, c: nat, d: nat, e: nat)
    requires low < 0x10_0000_0000_0000 && c < 16 && d < 128
    ensures (low + 0x10_0000_0000_0000 * (c + 16 * (d + 128 * e))) / 0x10_0000_0000_0000 % 0x800 == d * 16 + c
  {
    assert (low + 0x10_0000_0000_0000 * (c + 16 * (d + 128 * e))) / 0x10_0000_0000_0000 == c + 16 * d + 0x800 * e;
  }

  lemma {:induction false} AllFiniteExactly(values: seq<Byte>, width: nat)
    requires width == 4 || width == 8
    ensures AllFinite(values, width) <==> FiniteScalars(values, width)
    decreases |values|
  {
    hide N4, N8, Finite32, Finite64;
    if |values| >= width {
      var rest := values[width..];
      FiniteExactly(values, width);
      AllFiniteExactly(rest, width);
      forall i | 0 <= i && i * width + width <= |rest|
        ensures FiniteAt(rest, i * width, width) <==> FiniteAt(values, (i + 1) * width, width)
      {
        SameScalar(values, width, i);
      }
      Shifted(values, width);
    }
  }

  lemma SameScalar(values: seq<Byte>, width: nat, i: nat)
    requires (width == 4 || width == 8) && |values| >= width && i * width + width <= |values[width..]|
    ensures (i + 1) * width + width <= |values|
    ensures FiniteAt(values[width..], i * width, width) <==> FiniteAt(values, (i + 1) * width, width)
  {
    assert (i + 1) * width == i * width + width;
  }

  lemma Shifted(values: seq<Byte>, width: nat)
    requires (width == 4 || width == 8) && |values| >= width
    requires forall i :: 0 <= i && i * width + width <= |values[width..]| ==>
      (i + 1) * width + width <= |values| && (FiniteAt(values[width..], i * width, width) <==> FiniteAt(values, (i + 1) * width, width))
    ensures FiniteScalars(values, width) <==> FiniteAt(values, 0, width) && FiniteScalars(values[width..], width)
  {
    hide FiniteAt;
    if FiniteScalars(values, width) {
      assert FiniteAt(values, 0 * width, width);
      forall i | 0 <= i && i * width + width <= |values[width..]|
        ensures FiniteAt(values[width..], i * width, width)
      {
        assert (i + 1) * width + width <= |values|;
      }
    }
    if FiniteAt(values, 0, width) && FiniteScalars(values[width..], width) {
      forall i | 0 <= i && i * width + width <= |values|
        ensures FiniteAt(values, i * width, width)
      {
        if i > 0 {
          assert (i - 1) * width + width == i * width;
          assert FiniteAt(values[width..], (i - 1) * width, width);
          assert ((i - 1) + 1) * width == i * width;
        } else {
          assert i * width == 0;
        }
      }
    }
  }

  /** Sample kinds are 0, 1 or 2, and floating-point values are finite. */
  ghost predicate ValuesHold(col: Column) {
    && (col.semantic == 12 ==> col.dtype.U8? && forall v :: v in col.values ==> v == 0 || v == 1 || v == 2)
    && (col.dtype.F32? ==> FiniteScalars(col.values, 4))
    && (col.dtype.F64? ==> FiniteScalars(col.values, 8))
  }

  lemma ValuesExactly(col: Column)
    ensures ValuesOk(col) <==> ValuesHold(col)
  {
    hide AllFinite, FiniteScalars;
    AllFiniteExactly(col.values, 4);
    AllFiniteExactly(col.values, 8);
  }

  // ----- one entry of the column table

  const DTYPES: seq<DType> := [U8, I8, U16, I16, U32, I32, U64, I64, F32, F64]
  const WIDTHS: seq<nat> := [1, 1, 2, 2, 4, 4, 8, 8, 4, 8]

  lemma TypesExactly(code: Byte, d: DType)
    ensures DTypeOf(code) == Ok(d) <==> 1 <= code <= 10 && DTYPES[code - 1] == d
    ensures 1 <= code <= 10 ==> DTYPES[code - 1].Width() == WIDTHS[code - 1]
  {
  }

  /** An area of the file: empty at offset zero, or within its bounds. */
  predicate Area(at: nat, length: nat, lo: nat, hi: nat) { if length == 0 then at == 0 else lo <= at && at + length <= hi }

  lemma ClaimExactly(at: nat, length: nat, lo: nat, hi: nat)
    ensures Claim(at, length, lo, hi).Ok? <==> Area(at, length, lo, hi)
    ensures Claim(at, length, lo, hi).Ok? ==> Claim(at, length, lo, hi).value == RangeOf(at, length)
  {
  }

  /** The codec parameters, a CBOR map. */
  predicate ParamsHold(b: seq<Byte>, f: Frame, p: nat)
    requires f.Fits(b) && p + 64 <= |b|
  {
    var at, length := N4(b, p + 32), N4(b, p + 36);
    Area(at, length, f.tableEnd, f.start) && Slice(b, at, length) == if N2(b, p + 4) == 0 then [0xA1, 0x00, 0xF4] else [0xA0]
  }

  /** The two low bits of the flags say whether all, some or none of the rows have a value. */
  predicate ValidityHolds(b: seq<Byte>, f: Frame, p: nat, validity: Option<seq<Byte>>, valid: nat)
    requires f.Fits(b) && p + 64 <= |b|
  {
    var at, length, state := N4(b, p + 40), N4(b, p + 44), N2(b, p + 10) % 4;
    Area(at, length, f.tableEnd, f.start) &&
    if state == 0 then length == 0 && validity == None && valid == f.n
    else if state == 1 then
      length == (f.n + 7) / 8 &&
      var bitmap := Slice(b, at, length);
      validity == Some(bitmap) && NoRowsPast(bitmap, f.n) && valid == RowsSet(bitmap, f.n) && 0 < valid < f.n
    else length == 0 && validity == Some(Zeros((f.n + 7) / 8)) && valid == 0
  }

  /** The stored form of the values of `valid` rows, its lengths and its checksum. */
  predicate PayloadHolds(pf: Platform, b: seq<Byte>, f: Frame, p: nat, col: Column, valid: nat, decode: bool)
    requires f.Fits(b) && p + 64 <= |b|
  {
    var at, length := N8(b, p + 16), N4(b, p + 24);
    Area(at, length, f.start, |b|) &&
    var payload := Slice(b, at, length);
    && N4(b, p + 48) == pf.crc(payload) && N4(b, p + 52) == length
    && (valid == 0 ==> N2(b, p + 4) == 0 && length == 0)
    && (N2(b, p + 4) == 0 ==> length == valid * col.dtype.Width())
    && if !decode then col.values == []
       else if N2(b, p + 4) == 0 then col.values == payload
       else Decompress(pf, col.dtype, payload, valid) == Ok(col.values)
  }

  /** The fixed fields of a column entry. */
  predicate FixedHold(b: seq<Byte>, f: Frame, p: nat, col: Column)
    requires p + 64 <= |b|
  {
    var flags := N2(b, p + 10);
    && N2(b, p) == col.semantic
    && 1 <= b[p + 2] <= 10 && DTYPES[b[p + 2] - 1] == col.dtype && b[p + 3] == b[p + 2]
    && (N2(b, p + 4) == 0 || N2(b, p + 4) == 2) && N2(b, p + 6) == 1 && N2(b, p + 8) == 0
    && flags % 16 < 3 && flags / 16 < 2 && col.required == (flags / 16 == 1)
    && N4(b, p + 12) == f.n && N8(b, p + 56) == 0
    && (col.semantic in {1, 2, 4, 12} ==> flags == 16) && (col.semantic == 12 ==> col.dtype == U8)
  }

  /** The entry at `p` is this column, with values in `valid` rows. */
  ghost predicate ColumnHolds(pf: Platform, b: seq<Byte>, f: Frame, p: nat, col: Column, valid: nat, decode: bool)
    requires f.Fits(b) && p + 64 <= |b|
  {
    && FixedHold(b, f, p, col) && ParamsHold(b, f, p) && ValidityHolds(b, f, p, col.validity, valid)
    && N4(b, p + 28) == valid * col.dtype.Width() && PayloadHolds(pf, b, f, p, col, valid, decode)
    && (decode ==> ValuesHold(col))
  }

  /** The areas an entry declares. */
  function AreasOf(b: seq<Byte>, p: nat): seq<Range>
    requires p + 64 <= |b|
  {
    RangeOf(N4(b, p + 32), N4(b, p + 36)) + RangeOf(N4(b, p + 40), N4(b, p + 44)) + RangeOf(N8(b, p + 16), N4(b, p + 24))
  }

  lemma FlagsExactly(flags: nat)
    ensures KnownFlags(flags) <==> flags % 16 < 3 && flags / 16 < 2
    ensures KnownFlags(flags) ==> flags % 4 == flags % 16 && (flags >= 16 <==> flags / 16 == 1)
  {
  }

  lemma FixedExactly(b: seq<Byte>, f: Frame, p: nat, previous: nat, col: Column)
    requires p + 64 <= |b|
    ensures var e := EntryAt(b, p);
      e.logical < 256 && e.semantic < 0x1_0000 &&
      (FixedHold(b, f, p, col) && col.semantic > previous <==>
         && CheckEntry(e, previous, f.n).Pass? && DTypeOf(e.logical) == Ok(col.dtype)
         && e.semantic == col.semantic && col.required == (e.flags >= 16)
         && (MustBeFull(e.semantic) ==> e.flags == 16) && (e.semantic == 12 ==> col.dtype == U8))
  {
    hide N2, N4, N8, EntryAt, DTypeOf;
    FieldsAt(b, p);
    TypesExactly(b[p + 2], col.dtype);
    FlagsExactly(N2(b, p + 10));
    if 1 <= b[p + 2] <= 10 {
      TypesExactly(b[p + 2], DTYPES[b[p + 2] - 1]);
    }
    if DTypeOf(b[p + 2]).Ok? {
      TypesExactly(b[p + 2], DTypeOf(b[p + 2]).value);
    }
  }

  lemma BitmapExactly(state: nat, bitmap: seq<Byte>, n: nat, validity: Option<seq<Byte>>, valid: nat)
    requires state == 1 && n > 0
    ensures ReadValidity(state, bitmap, n) == Ok((validity, valid)) <==>
              && |bitmap| == CeilDiv8(n) && validity == Some(bitmap) && NoRowsPast(bitmap, n)
              && valid == RowsSet(bitmap, n) && 0 < valid < n
  {
    hide NoRowsPast, RowsSet, TailClear, Ones;
    if |bitmap| == CeilDiv8(n) {
      TailExactly(bitmap, n);
      if NoRowsPast(bitmap, n) {
        RowsEnd(bitmap, n, 8 * |bitmap|);
        OnesAreRows(bitmap);
      }
    }
  }

  lemma DirectoryExactly(b: seq<Byte>, f: Frame, p: nat, validity: Option<seq<Byte>>, valid: nat)
    requires f.Fits(b) && p + 64 <= |b| && KnownFlags(N2(b, p + 10)) && N2(b, p + 4) in {0, 2}
    ensures var e := EntryAt(b, p);
      var ranges := RangeOf(N4(b, p + 32), N4(b, p + 36)) + RangeOf(N4(b, p + 40), N4(b, p + 44));
      var r := ReadDirectory(b, f, e, EncodingOf(e.codec));
      && (ParamsHold(b, f, p) && ValidityHolds(b, f, p, validity, valid) ==> r == Ok(Directory(ranges, validity, valid)))
      && (r.Ok? && r.value.validity == validity && r.value.valid == valid ==> ParamsHold(b, f, p) && ValidityHolds(b, f, p, validity, valid))
      && (r.Ok? ==> r.value.ranges == ranges)
  {
    hide N2, N4, N8, EntryAt, Claim, ReadValidity, NoRowsPast, RowsSet;
    FieldsAt(b, p);
    FlagsExactly(N2(b, p + 10));
    ClaimExactly(N4(b, p + 32), N4(b, p + 36), f.tableEnd, f.start);
    ClaimExactly(N4(b, p + 40), N4(b, p + 44), f.tableEnd, f.start);
    var e := EntryAt(b, p);
    if Area(e.bitmapAt, e.bitmapLen, f.tableEnd, f.start) {
      var bitmap := Slice(b, e.bitmapAt, e.bitmapLen);
      assert |bitmap| == e.bitmapLen && (bitmap == [] <==> e.bitmapLen == 0);
      ValidityExactly(e.flags % 4, bitmap, f.n, validity, valid);
      var r := ReadDirectory(b, f, e, EncodingOf(e.codec));
      var v := ReadValidity(e.flags % 4, bitmap, f.n);
      assert v.Ok? ==> v == Ok((v.value.0, v.value.1));
    }
  }

  lemma ValidityExactly(state: nat, bitmap: seq<Byte>, n: nat, validity: Option<seq<Byte>>, valid: nat)
    requires state < 3 && n > 0
    ensures ReadValidity(state, bitmap, n) == Ok((validity, valid)) <==>
              if state == 0 then bitmap == [] && validity == None && valid == n
              else if state == 1 then
                && |bitmap| == (n + 7) / 8 && validity == Some(bitmap) && NoRowsPast(bitmap, n)
                && valid == RowsSet(bitmap, n) && 0 < valid < n
              else bitmap == [] && validity == Some(Zeros((n + 7) / 8)) && valid == 0
  {
    hide NoRowsPast, RowsSet, TailClear, Ones;
    if state == 1 {
      BitmapExactly(state, bitmap, n, validity, valid);
    }
  }

  lemma PayloadExactly(pf: Platform, b: seq<Byte>, f: Frame, p: nat, col: Column, valid: nat, decode: bool)
    requires f.Fits(b) && p + 64 <= |b| && N2(b, p + 4) in {0, 2}
    ensures var e := EntryAt(b, p);
      var encoding := EncodingOf(e.codec);
      var r := ReadPayload(pf, b, f, e, col.dtype, encoding, valid, decode);
      && (PayloadHolds(pf, b, f, p, col, valid, decode) <==>
            && r.Ok? && r.value.0 == col.values && e.codecLen == e.payloadLen
            && (valid == 0 ==> encoding.Raw? && e.payloadLen == 0))
      && (r.Ok? ==> r.value.1 == RangeOf(N8(b, p + 16), N4(b, p + 24)))
  {
    hide N2, N4, N8, EntryAt, Claim, Decompress;
    FieldsAt(b, p);
    ClaimExactly(N8(b, p + 16), N4(b, p + 24), f.start, |b|);
  }

  lemma EntryTaken(pf: Platform, b: seq<Byte>, f: Frame, p: nat, scan: Scan, decode: bool) returns (col: Column, valid: nat)
    requires f.Fits(b) && p + 64 <= |b|
    requires EntryAt(b, p).semantic < 0x1_0000 && EntryAt(b, p).logical < 256 && ReadEntry(pf, b, f, EntryAt(b, p), scan, decode).Ok?
    ensures ColumnHolds(pf, b, f, p, col, valid, decode) && col.semantic > scan.previous
    ensures var next := ReadEntry(pf, b, f, EntryAt(b, p), scan, decode).value;
      && next.columns == scan.columns + [col] && next.previous == col.semantic
      && next.decoded == scan.decoded + N4(b, p + 28) <= MAX_CHUNK && next.ranges == scan.ranges + AreasOf(b, p)
  {
    hide N2, N4, N8, EntryAt, ReadDirectory, ReadPayload, ParamsHold, ValidityHolds, PayloadHolds, FixedHold, ValuesHold, ValuesOk, DTypeOf;
    var e := EntryAt(b, p);
    var next := ReadEntry(pf, b, f, e, scan, decode).value;
    FieldsAt(b, p);
    col := next.columns[|scan.columns|];
    FixedExactly(b, f, p, scan.previous, col);
    var dir := ReadDirectory(b, f, e, EncodingOf(e.codec)).value;
    valid := dir.valid;
    DirectoryExactly(b, f, p, col.validity, valid);
    PayloadExactly(pf, b, f, p, col, valid, decode);
    ValuesExactly(col);
  }

  lemma EntryPasses(pf: Platform, b: seq<Byte>, f: Frame, p: nat, scan: Scan, decode: bool, col: Column, valid: nat)
    requires f.Fits(b) && p + 64 <= |b| && ColumnHolds(pf, b, f, p, col, valid, decode)
    requires col.semantic > scan.previous && scan.decoded + N4(b, p + 28) <= MAX_CHUNK
    ensures EntryAt(b, p).semantic < 0x1_0000 && EntryAt(b, p).logical < 256
    ensures ReadEntry(pf, b, f, EntryAt(b, p), scan, decode)
         == Ok(Scan(scan.columns + [col], col.semantic, scan.decoded + N4(b, p + 28), scan.ranges + AreasOf(b, p)))
  {
    hide N2, N4, N8, EntryAt, ReadDirectory, ReadPayload, ParamsHold, ValidityHolds, PayloadHolds, FixedHold, ValuesHold, ValuesOk, DTypeOf;
    FieldsAt(b, p);
    FixedExactly(b, f, p, scan.previous, col);
    FlagsKnown(b, f, p, col);
    DirectoryExactly(b, f, p, col.validity, valid);
    PayloadExactly(pf, b, f, p, col, valid, decode);
    ValuesExactly(col);
    var e := EntryAt(b, p);
    var dir, body := ReadDirectory(b, f, e, EncodingOf(e.codec)).value, RangeOf(N8(b, p + 16), N4(b, p + 24));
    assert ReadPayload(pf, b, f, e, col.dtype, EncodingOf(e.codec), valid, decode) == Ok((col.values, body));
    assert Column(e.semantic, col.dtype, e.flags >= 16, col.validity, col.values) == col;
    assert CheckLengths(e, EncodingOf(e.codec), valid, valid * col.dtype.Width(), scan.decoded).Pass?;
    assert scan.ranges + dir.ranges + body == scan.ranges + AreasOf(b, p);
  }

  lemma FlagsKnown(b: seq<Byte>, f: Frame, p: nat, col: Column)
    requires p + 64 <= |b| && FixedHold(b, f, p, col)
    ensures KnownFlags(N2(b, p + 10)) && N2(b, p + 4) in {0, 2}
  {
    hide N2, N4, N8;
    FlagsExactly(N2(b, p + 10));
  }

  // ----- the column table

  /** Where entry `i` of the column table starts. */
  function Place(f: Frame, i: nat): nat { 80 + 32 * f.s + 64 * i }

  function AreasTo(b: seq<Byte>, f: Frame, i: nat): seq<Range>
    requires f.Fits(b) && i <= f.c
  {
    if i == 0 then [] else AreasTo(b, f, i - 1) + AreasOf(b, Place(f, i - 1))
  }

  /** The decoded lengths the first `i` entries announce. */
  function SizesTo(b: seq<Byte>, f: Frame, i: nat): nat
    requires f.Fits(b) && i <= f.c
  {
    if i == 0 then 0 else SizesTo(b, f, i - 1) + N4(b, Place(f, i - 1) + 28)
  }

  ghost predicate HasColumn(pf: Platform, b: seq<Byte>, f: Frame, p: nat, col: Column, decode: bool)
    requires f.Fits(b) && p + 64 <= |b|
  {
    exists valid :: ColumnHolds(pf, b, f, p, col, valid, decode)
  }

  predicate Rising(columns: seq<Column>) {
    (columns != [] ==> columns[0].semantic > 0)
    && forall i :: 0 < i < |columns| ==> columns[i - 1].semantic < columns[i].semantic
  }

  /** The first entries of the table are these columns. */
  ghost predicate ColumnsHold(pf: Platform, b: seq<Byte>, f: Frame, columns: seq<Column>, decode: bool)
    requires f.Fits(b)
  {
    && |columns| <= f.c && Rising(columns) && SizesTo(b, f, |columns|) <= 0x400_0000
    && forall i :: 0 <= i < |columns| ==> HasColumn(pf, b, f, Place(f, i), columns[i], decode)
  }

  function LastSemantic(columns: seq<Column>): nat { if columns == [] then 0 else columns[|columns| - 1].semantic }

  /** The state of the column loop after these columns. */
  function ScanOf(b: seq<Byte>, f: Frame, columns: seq<Column>): Scan
    requires f.Fits(b) && |columns| <= f.c
  {
    Scan(columns, LastSemantic(columns), SizesTo(b, f, |columns|), AreasTo(b, f, |columns|))
  }

  lemma OneMore(pf: Platform, b: seq<Byte>, f: Frame, columns: seq<Column>, col: Column, valid: nat, decode: bool)
    requires f.Fits(b) && |columns| < f.c && ColumnsHold(pf, b, f, columns, decode)
    requires ColumnHolds(pf, b, f, Place(f, |columns|), col, valid, decode) && col.semantic > LastSemantic(columns)
    requires SizesTo(b, f, |columns| + 1) <= 0x400_0000
    ensures ColumnsHold(pf, b, f, columns + [col], decode)
  {
    hide ColumnHolds;
    var more := columns + [col];
    forall i | 0 <= i < |more|
      ensures HasColumn(pf, b, f, Place(f, i), more[i], decode)
    {
      if i < |columns| {
        assert HasColumn(pf, b, f, Place(f, i), columns[i], decode);
      }
    }
  }

  lemma {:induction false} ColumnsTaken(pf: Platform, b: seq<Byte>, f: Frame, columns: seq<Column>, decode: bool)
    requires f.Fits(b) && ColumnsHold(pf, b, f, columns, decode) && ReadColumns(pf, b, f, |columns|, ScanOf(b, f, columns), decode).Ok?
    ensures var all := ReadColumns(pf, b, f, |columns|, ScanOf(b, f, columns), decode).value;
      |all.columns| == f.c && ColumnsHold(pf, b, f, all.columns, decode) && all == ScanOf(b, f, all.columns)
    decreases f.c - |columns|
  {
    hide ColumnsHold, ColumnHolds, ReadEntry, EntryAt, N2, N4, N8, AreasOf;
    WithinTable(pf, b, f, columns, decode);
    var i, scan := |columns|, ScanOf(b, f, columns);
    if i < f.c {
      EntryFits(b, f.ColumnAt(i));
      var col, valid := EntryTaken(pf, b, f, Place(f, i), scan, decode);
      OneMore(pf, b, f, columns, col, valid, decode);
      ColumnsTaken(pf, b, f, columns + [col], decode);
    }
  }

  lemma WithinTable(pf: Platform, b: seq<Byte>, f: Frame, columns: seq<Column>, decode: bool)
    requires f.Fits(b) && ColumnsHold(pf, b, f, columns, decode)
    ensures |columns| <= f.c && SizesTo(b, f, |columns|) <= 0x400_0000
  {
  }

  lemma {:induction false} SizesRise(b: seq<Byte>, f: Frame, i: nat, j: nat)
    requires f.Fits(b) && i <= j <= f.c
    ensures SizesTo(b, f, i) <= SizesTo(b, f, j)
  {
    if i < j {
      SizesRise(b, f, i, j - 1);
    }
  }

  lemma {:induction false} ColumnsPass(pf: Platform, b: seq<Byte>, f: Frame, columns: seq<Column>, decode: bool, i: nat)
    requires f.Fits(b) && |columns| == f.c && i <= f.c && ColumnsHold(pf, b, f, columns, decode)
    ensures ReadColumns(pf, b, f, i, ScanOf(b, f, columns[..i]), decode) == Ok(ScanOf(b, f, columns))
    decreases f.c - i
  {
    hide ColumnHolds, ReadEntry, EntryAt, N2, N4, N8, AreasOf;
    if i == f.c {
      assert columns[..i] == columns;
    } else {
      var scan := ScanOf(b, f, columns[..i]);
      assert HasColumn(pf, b, f, Place(f, i), columns[i], decode);
      var valid :| ColumnHolds(pf, b, f, Place(f, i), columns[i], valid, decode);
      SizesRise(b, f, i + 1, f.c);
      EntryPasses(pf, b, f, Place(f, i), scan, decode, columns[i], valid);
      assert columns[..i] + [columns[i]] == columns[..i + 1];
      ColumnsPass(pf, b, f, columns, decode, i + 1);
    }
  }

  lemma ColumnsExactly(pf: Platform, b: seq<Byte>, f: Frame, columns: seq<Column>, decode: bool)
    requires f.Fits(b)
    ensures var r := ReadColumns(pf, b, f, 0, EMPTY_SCAN, decode);
      && (r.Ok? && r.value.columns == columns <==> |columns| == f.c && ColumnsHold(pf, b, f, columns, decode))
      && (r.Ok? && r.value.columns == columns ==> r.value == ScanOf(b, f, columns))
  {
    hide ReadColumns, ColumnsHold;
    NoColumns(pf, b, f, decode);
    var r := ReadColumns(pf, b, f, 0, EMPTY_SCAN, decode);
    if r.Ok? {
      ColumnsTaken(pf, b, f, [], decode);
    }
    if |columns| == f.c && ColumnsHold(pf, b, f, columns, decode) {
      assert columns[..0] == [];
      ColumnsPass(pf, b, f, columns, decode, 0);
    }
  }

  lemma NoColumns(pf: Platform, b: seq<Byte>, f: Frame, decode: bool)
    requires f.Fits(b)
    ensures ColumnsHold(pf, b, f, [], decode) && ScanOf(b, f, []) == EMPTY_SCAN
  {
  }

  // ----- the areas

  lemma {:induction false} Covered(ranges: seq<Range>, r: Range, k: nat)
    requires r in ranges && r.lo <= k < r.hi
    ensures Cover(ranges, k) >= 1
  {
    if ranges[0] != r {
      Covered(ranges[1..], r, k);
    }
  }

  lemma {:induction false} Uncovered(ranges: seq<Range>, k: nat)
    requires forall r :: r in ranges ==> !(r.lo <= k < r.hi)
    ensures Cover(ranges, k) == 0
  {
    if ranges != [] {
      assert ranges[0] in ranges && forall r :: r in ranges[1..] ==> r in ranges;
      Uncovered(ranges[1..], k);
    }
  }

  /** Each byte from `end` on lies in at most one range, in none only if it is zero, and the last lies in one. */
  ghost predicate Tidy(b: seq<Byte>, ranges: seq<Range>, end: nat) {
    && (forall k :: end <= k < |b| ==> Cover(ranges, k) == 1 || (Cover(ranges, k) == 0 && b[k] == 0))
    && |b| > 0 && Cover(ranges, |b| - 1) == 1
  }

  lemma {:induction false} SweepEnds(b: seq<Byte>, ranges: seq<Range>, end: nat)
    requires WithinBuffer(ranges, |b|) && Sweep(b, ranges, end) && ranges != []
    ensures |b| > 0 && Cover(ranges, |b| - 1) >= 1
  {
    if |ranges| > 1 {
      SweepEnds(b, ranges[1..], ranges[0].hi);
    } else {
      assert ranges[0] in ranges;
      Covered(ranges, ranges[0], |b| - 1);
    }
  }

  lemma {:induction false} SweepExactly(b: seq<Byte>, ranges: seq<Range>, end: nat)
    requires WithinBuffer(ranges, |b|) && R.Sorted(ranges) && ranges != [] && forall r :: r in ranges ==> end <= r.lo
    ensures Sweep(b, ranges, end) <==> Tidy(b, ranges, end)
  {
    hide R.Sorted, Tidy;
    if Sweep(b, ranges, end) {
      SweepEnds(b, ranges, end);
      forall k | end <= k < |b|
        ensures Cover(ranges, k) == 1 || (Cover(ranges, k) == 0 && b[k] == 0)
      {
        SweptOnce(b, ranges, end, k);
      }
      SweepTidy(b, ranges, end);
    }
    if Tidy(b, ranges, end) {
      TidySweeps(b, ranges, end);
    }
  }

  lemma SweepTidy(b: seq<Byte>, ranges: seq<Range>, end: nat)
    requires |b| > 0 && Cover(ranges, |b| - 1) >= 1 && ranges != [] && WithinBuffer(ranges, |b|)
    requires forall r :: r in ranges ==> end <= r.lo
    requires forall k :: end <= k < |b| ==> Cover(ranges, k) == 1 || (Cover(ranges, k) == 0 && b[k] == 0)
    ensures Tidy(b, ranges, end)
  {
    assert ranges[0] in ranges;
    assert end <= |b| - 1;
  }

  lemma {:induction false} TidySweeps(b: seq<Byte>, ranges: seq<Range>, end: nat)
    requires WithinBuffer(ranges, |b|) && R.Sorted(ranges) && ranges != [] && forall r :: r in ranges ==> end <= r.lo
    requires Tidy(b, ranges, end)
    ensures Sweep(b, ranges, end)
  {
    hide R.Sorted, Cover;
    var first, rest := ranges[0], ranges[1..];
    assert first in ranges && forall r :: r in rest ==> r in ranges;
    FirstIsLowest(ranges);
    forall k | end <= k < first.lo
      ensures b[k] == 0
    {
      Uncovered(ranges, k);
    }
    CoverSplit(ranges);
    forall r | r in rest
      ensures first.hi <= r.lo
    {
      Covered(rest, r, r.lo);
    }
    if rest == [] {
      assert Cover(rest, |b| - 1) == 0 by { Uncovered(rest, |b| - 1); }
    } else {
      RestTidy(b, ranges, end);
      TidySweeps(b, rest, first.hi);
    }
  }

  lemma CoverSplit(ranges: seq<Range>)
    requires ranges != []
    ensures forall k :: Cover(ranges, k) == Covers(ranges[0], k) + Cover(ranges[1..], k)
  {
  }

  lemma FirstIsLowest(ranges: seq<Range>)
    requires R.Sorted(ranges) && ranges != []
    ensures R.Sorted(ranges[1..]) && forall r :: r in ranges ==> ranges[0].lo <= r.lo
  {
    assert forall i :: 0 <= i < |ranges| - 1 ==> ranges[1..][i] == ranges[i + 1];
  }

  lemma RestTidy(b: seq<Byte>, ranges: seq<Range>, end: nat)
    requires WithinBuffer(ranges, |b|) && |ranges| > 1 && end <= ranges[0].lo && Tidy(b, ranges, end)
    requires forall r :: r in ranges[1..] ==> ranges[0].hi <= r.lo
    ensures Tidy(b, ranges[1..], ranges[0].hi)
  {
    hide Cover;
    CoverSplit(ranges);
    assert ranges[0] in ranges && ranges[1] in ranges && ranges[1..][0] == ranges[1] && ranges[1] in ranges[1..];
  }

  // ----- the whole chunk

  /** The areas the entries declare, and the bytes between them. */
  ghost predicate AreasHold(b: seq<Byte>, f: Frame)
    requires f.Fits(b)
  {
    Tidy(b, AreasTo(b, f, f.c), f.tableEnd)
  }

  predicate HasSemantic(columns: seq<Column>, semantic: nat) { exists c :: c in columns && c.semantic == semantic }

  predicate IdHolds(b: seq<Byte>, at: nat, id: Id)
    requires at + 16 <= |b|
  {
    b[at..at + 16] == id && exists k :: 0 <= k < 16 && id[k] != 0
  }

  /** These bytes are this chunk; without its values when they are not asked for. */
  ghost predicate Holds(pf: Platform, b: seq<Byte>, c: Chunk, decode: bool) {
    HeaderHolds(pf, b) && FrameAt(b).Fits(b) &&
    var f := FrameAt(b);
    && IdHolds(b, 16, c.id) && IdHolds(b, 32, c.profile) && SegmentsHold(b, f, c.segments)
    && |c.columns| == f.c && ColumnsHold(pf, b, f, c.columns, decode)
    && HasSemantic(c.columns, 1) && HasSemantic(c.columns, 2) && HasSemantic(c.columns, 12)
    && AreasHold(b, f)
  }

  /** The areas of accepted entries lie behind the tables, and there are some. */
  lemma {:induction false} AreasPlaced(pf: Platform, b: seq<Byte>, f: Frame, columns: seq<Column>, decode: bool, i: nat)
    requires f.Fits(b) && i <= |columns| == f.c && ColumnsHold(pf, b, f, columns, decode)
    ensures WithinBuffer(AreasTo(b, f, i), |b|) && forall r :: r in AreasTo(b, f, i) ==> f.tableEnd <= r.lo
    ensures i > 0 ==> AreasTo(b, f, i) != []
  {
    hide AreasOf, ColumnsHold;
    if i > 0 {
      AreasPlaced(pf, b, f, columns, decode, i - 1);
      EntryAreas(pf, b, f, columns, decode, i - 1);
    }
  }

  lemma EntryAreas(pf: Platform, b: seq<Byte>, f: Frame, columns: seq<Column>, decode: bool, i: nat)
    requires f.Fits(b) && i < |columns| == f.c && ColumnsHold(pf, b, f, columns, decode)
    ensures WithinBuffer(AreasOf(b, Place(f, i)), |b|) && AreasOf(b, Place(f, i)) != []
    ensures forall r :: r in AreasOf(b, Place(f, i)) ==> f.tableEnd <= r.lo
  {
    hide N2, N4, N8, FixedHold, ValuesHold, NoRowsPast, RowsSet, Decompress, SizesTo;
    var p := Place(f, i);
    assert HasColumn(pf, b, f, p, columns[i], decode);
    var valid :| ColumnHolds(pf, b, f, p, columns[i], valid, decode);
    assert ParamsHold(b, f, p) && ValidityHolds(b, f, p, columns[i].validity, valid) && PayloadHolds(pf, b, f, p, columns[i], valid, decode);
    assert N4(b, p + 36) > 0;
  }

  lemma AxesExactly(columns: seq<Column>, axis: nat)
    ensures HasAxis(columns, axis) <==> HasSemantic(columns, axis)
  {
    if HasAxis(columns, axis) {
      var i :| 0 <= i < |columns| && columns[i].semantic == axis;
      assert columns[i] in columns;
    }
  }

  lemma IdsExactly(b: seq<Byte>, at: nat, id: Id)
    requires at + 16 <= |b|
    ensures IdAt(b, at) == Ok(id) <==> IdHolds(b, at, id)
  {
    NotZero(id);
  }

  lemma AreasExactly(pf: Platform, b: seq<Byte>, f: Frame, columns: seq<Column>, decode: bool)
    requires f.Fits(b) && |columns| == f.c && ColumnsHold(pf, b, f, columns, decode)
    ensures var ranges := AreasTo(b, f, f.c);
      WithinBuffer(ranges, |b|) && WithinBuffer(SortRanges(ranges), |b|) && (Sweep(b, SortRanges(ranges), f.tableEnd) <==> AreasHold(b, f))
  {
    hide ColumnsHold, SortRanges, Sweep, R.Sorted, AreasTo, Cover;
    var ranges := AreasTo(b, f, f.c);
    var sorted := SortRanges(ranges);
    AreasPlaced(pf, b, f, columns, decode, f.c);
    SortStaysWithin(ranges, |b|);
    R.SortSorted(ranges);
    assert multiset(sorted) == multiset(ranges);
    assert |sorted| == |multiset(sorted)| == |ranges|;
    forall r | r in sorted
      ensures f.tableEnd <= r.lo
    {
      assert r in multiset(sorted);
      assert r in multiset(ranges);
    }
    SweepExactly(b, sorted, f.tableEnd);
    forall k
      ensures Cover(sorted, k) == Cover(ranges, k)
    {
      CoverOfSameRanges(sorted, ranges, k);
    }
  }

  /** The decoder accepts exactly the bytes that are a chunk, and returns that chunk with the total length its entries
      announce; without decoding the values it accepts exactly the same but for the values. */
  lemma LayoutExactly(pf: Platform, b: seq<Byte>, decode: bool, c: Chunk)
    ensures (ReadLayout(pf, b, decode).Ok? && ReadLayout(pf, b, decode).value.0 == c) <==> Holds(pf, b, c, decode)
    ensures Holds(pf, b, c, decode) ==> ReadLayout(pf, b, decode) == Ok((c, SizesTo(b, FrameAt(b), FrameAt(b).c)))
  {
    hide ReadHeader, ReadSegments, ReadColumns, SortRanges, Sweep, HasAxis, HasSemantic, ColumnsHold, SegmentsHold, AreasHold, AreasTo, SizesTo,
         HeaderHolds, FrameAt, IdHolds, IdAt;
    HeaderExactly(pf, b);
    if HeaderHolds(pf, b) {
      LayoutOf(pf, b, decode, c);
    }
  }

  lemma LayoutOf(pf: Platform, b: seq<Byte>, decode: bool, c: Chunk)
    requires HeaderHolds(pf, b) && FrameAt(b).Fits(b) && ReadHeader(pf, b) == Ok(FrameAt(b))
    ensures (ReadLayout(pf, b, decode).Ok? && ReadLayout(pf, b, decode).value.0 == c) <==> Holds(pf, b, c, decode)
    ensures Holds(pf, b, c, decode) ==> ReadLayout(pf, b, decode) == Ok((c, SizesTo(b, FrameAt(b), FrameAt(b).c)))
  {
    hide ReadHeader, ReadSegments, ReadColumns, SortRanges, Sweep, HasAxis, HasSemantic, ColumnsHold, SegmentsHold, AreasHold, AreasTo, SizesTo,
         HeaderHolds, FrameAt, IdHolds, IdAt;
    var f := FrameAt(b);
    SegmentsHoldExactly(b, f, c.segments);
    ColumnsExactly(pf, b, f, c.columns, decode);
    IdsExactly(b, 16, c.id);
    IdsExactly(b, 32, c.profile);
    AxesExactly(c.columns, 1);
    AxesExactly(c.columns, 2);
    AxesExactly(c.columns, 12);
    if |c.columns| == f.c && ColumnsHold(pf, b, f, c.columns, decode) {
      AreasExactly(pf, b, f, c.columns, decode);
    }
  }

  /** `decode` accepts exactly the bytes that are a chunk. */
  lemma DecodesExactly(pf: Platform, b: seq<Byte>, c: Chunk)
    ensures Decode(pf, b) == Ok(c) <==> Holds(pf, b, c, true)
  {
    hide ReadLayout, Holds;
    LayoutExactly(pf, b, true, c);
  }

  // ----- checksums

  /** The payload entry `i` declares. */
  function PayloadOf(b: seq<Byte>, i: nat): seq<Byte>
    requires |b| >= 80 && Place(FrameAt(b), i) + 64 <= |b|
  {
    var p := Place(FrameAt(b), i);
    if N4(b, p + 24) > 0 && N8(b, p + 16) + N4(b, p + 24) <= |b| then b[N8(b, p + 16)..N8(b, p + 16) + N4(b, p + 24)] else []
  }

  /** In accepted bytes, decoded or only measured, the header, the directory and every payload match their checksums. */
  lemma ChecksumsHold(pf: Platform, b: seq<Byte>, decode: bool)
    requires ReadLayout(pf, b, decode).Ok?
    ensures |b| >= 80 && 80 + N4(b, 60) <= |b| && 0 < N2(b, 56) && Place(FrameAt(b), N2(b, 56)) <= |b|
    ensures N4(b, 72) == pf.crc(b[..72]) && N4(b, 76) == pf.crc(b[80..80 + N4(b, 60)])
    ensures forall i :: 0 <= i < N2(b, 56) ==> N4(b, Place(FrameAt(b), i) + 48) == pf.crc(PayloadOf(b, i))
  {
    hide ReadLayout, N2, N4, N8, SegmentsHold, ColumnsHold, AreasHold, HasSemantic, IdHolds;
    var c := ReadLayout(pf, b, decode).value.0;
    LayoutExactly(pf, b, decode, c);
    forall i | 0 <= i < N2(b, 56)
      ensures N4(b, Place(FrameAt(b), i) + 48) == pf.crc(PayloadOf(b, i))
    {
      PayloadChecked(pf, b, c.columns, decode, i);
    }
  }

  lemma PayloadChecked(pf: Platform, b: seq<Byte>, columns: seq<Column>, decode: bool, i: nat)
    requires |b| >= 80 && FrameAt(b).Fits(b) && i < |columns| == FrameAt(b).c && ColumnsHold(pf, b, FrameAt(b), columns, decode)
    ensures N4(b, Place(FrameAt(b), i) + 48) == pf.crc(PayloadOf(b, i))
  {
    hide N2, N4, N8, FixedHold, ValuesHold, ParamsHold, ValidityHolds, SizesTo;
    var f := FrameAt(b);
    assert HasColumn(pf, b, f, Place(f, i), columns[i], decode);
    var valid :| ColumnHolds(pf, b, f, Place(f, i), columns[i], valid, decode);
  }

  lemma PayloadPlaced(pf: Platform, b: seq<Byte>, decode: bool, i: nat)
    requires ReadLayout(pf, b, decode).Ok? && |b| >= 80 && i < N2(b, 56)
    ensures Place(FrameAt(b), i + 1) <= Place(FrameAt(b), N2(b, 56)) <= |b|
    ensures var p := Place(FrameAt(b), i);
      if N4(b, p + 24) == 0 then PayloadOf(b, i) == []
      else Place(FrameAt(b), N2(b, 56)) <= N8(b, p + 16) && N8(b, p + 16) + N4(b, p + 24) <= |b|
           && PayloadOf(b, i) == b[N8(b, p + 16)..N8(b, p + 16) + N4(b, p + 24)]
  {
    hide ReadLayout, N2, N4, N8, SegmentsHold, AreasHold, HasSemantic, IdHolds, FixedHold, ValuesHold, ParamsHold, ValidityHolds, SizesTo;
    var c := ReadLayout(pf, b, decode).value.0;
    LayoutExactly(pf, b, decode, c);
    var f := FrameAt(b);
    assert HasColumn(pf, b, f, Place(f, i), c.columns[i], decode);
    var valid :| ColumnHolds(pf, b, f, Place(f, i), c.columns[i], valid, decode);
  }

  /** Two files with the same tables. */
  predicate SameTables(x: seq<Byte>, y: seq<Byte>) {
    |x| == |y| >= 80 && Place(FrameAt(x), N2(x, 56)) <= |x| && x[..Place(FrameAt(x), N2(x, 56))] == y[..Place(FrameAt(x), N2(x, 56))]
  }

  lemma SameFields(x: seq<Byte>, y: seq<Byte>, i: nat)
    requires SameTables(x, y) && i < N2(x, 56)
    ensures FrameAt(x) == FrameAt(y) && N2(x, 56) == N2(y, 56) && Place(FrameAt(x), i) + 64 <= |x|
    ensures var p := Place(FrameAt(x), i); N4(x, p + 48) == N4(y, p + 48) && N8(x, p + 16) == N8(y, p + 16) && N4(x, p + 24) == N4(y, p + 24)
  {
    var end := Place(FrameAt(x), N2(x, 56));
    forall k | 0 <= k < end
      ensures x[k] == y[k]
    {
      assert x[..end][k] == y[..end][k];
    }
  }

  /** Of two files with the same tables and checksums that tell one of their payloads apart, at most one is accepted. */
  lemma CorruptPayloadRefused(pf: Platform, x: seq<Byte>, y: seq<Byte>, decode: bool, i: nat)
    requires SameTables(x, y) && i < N2(x, 56) && Place(FrameAt(x), i) + 64 <= |x| && Place(FrameAt(y), i) + 64 <= |y|
    requires pf.crc(PayloadOf(x, i)) != pf.crc(PayloadOf(y, i))
    ensures ReadLayout(pf, x, decode).Err? || ReadLayout(pf, y, decode).Err?
  {
    hide ReadLayout, N2, N4, N8, PayloadOf, FrameAt;
    SameFields(x, y, i);
    if ReadLayout(pf, x, decode).Ok? && ReadLayout(pf, y, decode).Ok? {
      ChecksumsHold(pf, x, decode);
      ChecksumsHold(pf, y, decode);
      assert false;
    }
  }
}
