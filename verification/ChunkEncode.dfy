/** `Chunk::encode` of `crates/ink-format/src/chunk.rs`: tables patched in place, blobs appended, and a
    description of the bytes that result. */
module ChunkEncode {
  import opened Bytes
  import opened Results
  import opened ChunkFormat

  // ----- patching a byte vector

  /** `copy_from_slice` into `b[at..]`. */
  function Paste(b: seq<Byte>, at: nat, src: seq<Byte>): (r: seq<Byte>)
    requires at + |src| <= |b|
    ensures |r| == |b|
  {
    b[..at] + src + b[at + |src|..]
  }

  /** `put`: the low `size` bytes of a number, little-endian. */
  function Put(b: seq<Byte>, at: nat, size: nat, value: nat): (r: seq<Byte>)
    requires at + size <= |b|
    ensures |r| == |b|
  {
    Paste(b, at, LE(value, size))
  }

  lemma PasteFacts(b: seq<Byte>, at: nat, src: seq<Byte>)
    requires at + |src| <= |b|
    ensures Paste(b, at, src)[at..at + |src|] == src
    ensures forall lo, hi {:trigger Paste(b, at, src)[lo..hi]} ::
              0 <= lo <= hi <= |b| && (hi <= at || at + |src| <= lo) ==> Paste(b, at, src)[lo..hi] == b[lo..hi]
  {
  }

  lemma PutFacts(b: seq<Byte>, at: nat, size: nat, value: nat)
    requires at + size <= |b|
    ensures Put(b, at, size, value)[at..at + size] == LE(value, size)
    ensures forall lo, hi {:trigger Put(b, at, size, value)[lo..hi]} ::
              0 <= lo <= hi <= |b| && (hi <= at || at + size <= lo) ==> Put(b, at, size, value)[lo..hi] == b[lo..hi]
  {
    PasteFacts(b, at, LE(value, size));
  }

  function Zeros(k: nat): (z: seq<Byte>)
    ensures |z| == k
  {
    seq(k, _ => 0)
  }

  lemma {:induction false} ZeroLE(k: nat)
    ensures LE(0, k) == Zeros(k)
  {
    if k > 0 {
      ZeroLE(k - 1);
    }
  }

  // ----- blocks of the tables

  /** A segment entry: identifier, count, and zeros. */
  function SegmentBlock(s: Segment): (x: seq<Byte>)
    ensures |x| == 32
  {
    Put(Paste(Zeros(32), 0, s.id), 16, 4, s.count)
  }

  /** A column entry with the fields that do not depend on where its blobs go. */
  function FixedBlock(e: Entry): (x: seq<Byte>)
    requires e.logical < 256 && e.storage < 256
    ensures |x| == 64
  {
    var x := Put(Zeros(64), 0, 2, e.semantic);
    var x := Put(x, 2, 1, e.logical);
    var x := Put(x, 3, 1, e.storage);
    var x := Put(x, 4, 2, e.codec);
    var x := Put(x, 6, 2, e.wire);
    var x := Put(x, 10, 2, e.flags);
    var x := Put(x, 12, 4, e.count);
    Put(x, 28, 4, e.decodedLen)
  }

  /** A column entry as the first loop leaves it: everything but the payload fields. */
  function DirectoryBlock(e: Entry): (x: seq<Byte>)
    requires e.logical < 256 && e.storage < 256
    ensures |x| == 64
  {
    var x := Put(Put(FixedBlock(e), 32, 4, e.paramsAt), 36, 4, e.paramsLen);
    if e.bitmapLen == 0 then x else Put(Put(x, 40, 4, e.bitmapAt), 44, 4, e.bitmapLen)
  }

  /** The payload fields on top of it; an empty payload leaves them zero. */
  function ColumnBlock(e: Entry): (x: seq<Byte>)
    requires e.logical < 256 && e.storage < 256
    ensures |x| == 64
  {
    if e.payloadLen == 0 then DirectoryBlock(e)
    else
      var x := Put(DirectoryBlock(e), 16, 8, e.payloadAt);
      var x := Put(x, 24, 4, e.payloadLen);
      var x := Put(x, 48, 4, e.crc);
      Put(x, 52, 4, e.codecLen)
  }

  /** The entry fits its fields, and absent ranges are zero throughout. */
  predicate EntryInRange(e: Entry) {
    && e.semantic < 0x1_0000 && e.logical < 256 && e.storage < 256 && e.codec < 0x1_0000 && e.wire < 0x1_0000
    && e.outer == 0 && e.flags < 0x1_0000 && e.reserved == 0
    && e.count < 0x1_0000_0000 && e.payloadAt < 0x1_0000_0000 && e.payloadLen < 0x1_0000_0000
    && e.decodedLen < 0x1_0000_0000 && e.paramsAt < 0x1_0000_0000 && e.paramsLen < 0x1_0000_0000
    && e.bitmapAt < 0x1_0000_0000 && e.bitmapLen < 0x1_0000_0000 && e.crc < 0x1_0000_0000
    && e.codecLen < 0x1_0000_0000
    && (e.bitmapLen == 0 ==> e.bitmapAt == 0)
    && (e.payloadLen == 0 ==> e.payloadAt == 0 && e.crc == 0 && e.codecLen == 0)
  }

  lemma Powers()
    ensures Pow256(2) == 0x1_0000 && Pow256(4) == 0x1_0000_0000 && Pow256(8) == 0x1_0000_0000_0000_0000
  {
    assert Pow256(3) == 0x100_0000;
    assert Pow256(5) == 0x100_0000_0000 && Pow256(6) == 0x1_0000_0000_0000;
  }

  predicate Slot(x: seq<Byte>, at: nat, size: nat, value: nat) {
    at + size <= |x| && x[at..at + size] == LE(value, size)
  }

  lemma SlotPut(x: seq<Byte>, at: nat, size: nat, value: nat)
    requires at + size <= |x|
    ensures Slot(Put(x, at, size, value), at, size, value)
    ensures forall lo: nat, k: nat, v: nat {:trigger Slot(Put(x, at, size, value), lo, k, v)} ::
              (lo + k <= at || at + size <= lo) && Slot(x, lo, k, v) ==> Slot(Put(x, at, size, value), lo, k, v)
  {
    hide Put;
    PutFacts(x, at, size, value);
  }

  lemma SlotZeros(n: nat)
    ensures forall lo: nat, k: nat {:trigger Slot(Zeros(n), lo, k, 0)} :: lo + k <= n ==> Slot(Zeros(n), lo, k, 0)
  {
    forall lo: nat, k: nat | lo + k <= n
      ensures Slot(Zeros(n), lo, k, 0)
    {
      ZeroLE(k);
      assert Zeros(n)[lo..lo + k] == Zeros(k);
    }
  }

  lemma DirectorySlots(e: Entry)
    requires EntryInRange(e)
    ensures var x := DirectoryBlock(e);
      && Slot(x, 0, 2, e.semantic) && Slot(x, 2, 1, e.logical) && Slot(x, 3, 1, e.storage)
      && Slot(x, 4, 2, e.codec) && Slot(x, 6, 2, e.wire) && Slot(x, 8, 2, 0) && Slot(x, 10, 2, e.flags)
      && Slot(x, 12, 4, e.count) && Slot(x, 16, 8, 0) && Slot(x, 24, 4, 0) && Slot(x, 28, 4, e.decodedLen)
      && Slot(x, 32, 4, e.paramsAt) && Slot(x, 36, 4, e.paramsLen) && Slot(x, 40, 4, e.bitmapAt)
      && Slot(x, 44, 4, e.bitmapLen) && Slot(x, 48, 4, 0) && Slot(x, 52, 4, 0) && Slot(x, 56, 8, 0)
  {
    hide Slot, Put, Zeros;
    SlotZeros(64);
    var x := Zeros(64);
    SlotPut(x, 0, 2, e.semantic);
    x := Put(x, 0, 2, e.semantic);
    SlotPut(x, 2, 1, e.logical);
    x := Put(x, 2, 1, e.logical);
    SlotPut(x, 3, 1, e.storage);
    x := Put(x, 3, 1, e.storage);
    SlotPut(x, 4, 2, e.codec);
    x := Put(x, 4, 2, e.codec);
    SlotPut(x, 6, 2, e.wire);
    x := Put(x, 6, 2, e.wire);
    SlotPut(x, 10, 2, e.flags);
    x := Put(x, 10, 2, e.flags);
    SlotPut(x, 12, 4, e.count);
    x := Put(x, 12, 4, e.count);
    SlotPut(x, 28, 4, e.decodedLen);
    x := Put(x, 28, 4, e.decodedLen);
    SlotPut(x, 32, 4, e.paramsAt);
    x := Put(x, 32, 4, e.paramsAt);
    SlotPut(x, 36, 4, e.paramsLen);
    x := Put(x, 36, 4, e.paramsLen);
    if e.bitmapLen != 0 {
      SlotPut(x, 40, 4, e.bitmapAt);
      x := Put(x, 40, 4, e.bitmapAt);
      SlotPut(x, 44, 4, e.bitmapLen);
    }
  }

  predicate Holds(x: seq<Byte>, e: Entry) {
    && Slot(x, 0, 2, e.semantic) && Slot(x, 2, 1, e.logical) && Slot(x, 3, 1, e.storage)
    && Slot(x, 4, 2, e.codec) && Slot(x, 6, 2, e.wire) && Slot(x, 8, 2, e.outer) && Slot(x, 10, 2, e.flags)
    && Slot(x, 12, 4, e.count) && Slot(x, 16, 8, e.payloadAt) && Slot(x, 24, 4, e.payloadLen)
    && Slot(x, 28, 4, e.decodedLen) && Slot(x, 32, 4, e.paramsAt) && Slot(x, 36, 4, e.paramsLen)
    && Slot(x, 40, 4, e.bitmapAt) && Slot(x, 44, 4, e.bitmapLen) && Slot(x, 48, 4, e.crc)
    && Slot(x, 52, 4, e.codecLen) && Slot(x, 56, 8, e.reserved)
  }

  lemma ColumnSlots(e: Entry)
    requires EntryInRange(e)
    ensures Holds(ColumnBlock(e), e)
  {
    hide Slot, Put, DirectoryBlock;
    DirectorySlots(e);
    if e.payloadLen != 0 {
      var x := DirectoryBlock(e);
      SlotPut(x, 16, 8, e.payloadAt);
      x := Put(x, 16, 8, e.payloadAt);
      SlotPut(x, 24, 4, e.payloadLen);
      x := Put(x, 24, 4, e.payloadLen);
      SlotPut(x, 48, 4, e.crc);
      x := Put(x, 48, 4, e.crc);
      SlotPut(x, 52, 4, e.codecLen);
    }
  }

  lemma SlotReads(x: seq<Byte>, at: nat, size: nat, value: nat)
    requires Slot(x, at, size, value) && value < Pow256(size)
    ensures Uint(x, at, size) == value
  {
    FromLEOfLE(value, size);
  }

  lemma SlotByte(x: seq<Byte>, at: nat, value: nat)
    requires Slot(x, at, 1, value) && value < 256
    ensures x[at] == value
  {
    assert x[at] == x[at..at + 1][0];
    assert LE(value, 1)[0] == value % 256;
  }

  /** A block that holds an entry reads back as that entry. */
  lemma BlockReads(x: seq<Byte>, e: Entry)
    requires |x| == 64 && EntryInRange(e) && Holds(x, e)
    ensures EntryAt(x, 0) == e
  {
    hide Slot, Uint;
    Powers();
    SlotReads(x, 0, 2, e.semantic);
    SlotByte(x, 2, e.logical);
    SlotByte(x, 3, e.storage);
    SlotReads(x, 4, 2, e.codec);
    SlotReads(x, 6, 2, e.wire);
    SlotReads(x, 8, 2, e.outer);
    SlotReads(x, 10, 2, e.flags);
    SlotReads(x, 12, 4, e.count);
    SlotReads(x, 16, 8, e.payloadAt);
    SlotReads(x, 24, 4, e.payloadLen);
    SlotReads(x, 28, 4, e.decodedLen);
    SlotReads(x, 32, 4, e.paramsAt);
    SlotReads(x, 36, 4, e.paramsLen);
    SlotReads(x, 40, 4, e.bitmapAt);
    SlotReads(x, 44, 4, e.bitmapLen);
    SlotReads(x, 48, 4, e.crc);
    SlotReads(x, 52, 4, e.codecLen);
    SlotReads(x, 56, 8, e.reserved);
  }

  lemma SliceInBlock(b: seq<Byte>, p: nat, len: nat, o: nat, size: nat)
    requires p + len <= |b| && o + size <= len
    ensures b[p..p + len][o..o + size] == b[p + o..p + o + size]
  {
    var x, y := b[p..p + len][o..o + size], b[p + o..p + o + size];
    forall k | 0 <= k < size
      ensures x[k] == y[k]
    {
      assert x[k] == b[p..p + len][o + k];
    }
  }

  lemma UintInBlock(b: seq<Byte>, p: nat, len: nat, o: nat, size: nat)
    requires p + len <= |b| && o + size <= len
    ensures Uint(b, p + o, size) == Uint(b[p..p + len], o, size)
  {
    SliceInBlock(b, p, len, o, size);
  }

  lemma EntryInBlock(b: seq<Byte>, p: nat)
    requires p + 64 <= |b|
    ensures EntryAt(b, p) == EntryAt(b[p..p + 64], 0)
  {
    hide Uint;
    var x := b[p..p + 64];
    UintInBlock(b, p, 64, 0, 2);
    assert x[2] == b[p + 2] && x[3] == b[p + 3];
    UintInBlock(b, p, 64, 4, 2);
    UintInBlock(b, p, 64, 6, 2);
    UintInBlock(b, p, 64, 8, 2);
    UintInBlock(b, p, 64, 10, 2);
    UintInBlock(b, p, 64, 12, 4);
    UintInBlock(b, p, 64, 16, 8);
    UintInBlock(b, p, 64, 24, 4);
    UintInBlock(b, p, 64, 28, 4);
    UintInBlock(b, p, 64, 32, 4);
    UintInBlock(b, p, 64, 36, 4);
    UintInBlock(b, p, 64, 40, 4);
    UintInBlock(b, p, 64, 44, 4);
    UintInBlock(b, p, 64, 48, 4);
    UintInBlock(b, p, 64, 52, 4);
    UintInBlock(b, p, 64, 56, 8);
  }

  /** Where a column block stands, the decoder reads the entry it was built from. */
  lemma ColumnBlockReads(b: seq<Byte>, p: nat, e: Entry)
    requires p + 64 <= |b| && EntryInRange(e) && b[p..p + 64] == ColumnBlock(e)
    ensures EntryAt(b, p) == e
  {
    hide EntryAt, Holds, ColumnBlock;
    EntryInBlock(b, p);
    ColumnSlots(e);
    BlockReads(ColumnBlock(e), e);
  }

  lemma SegmentBlockReads(b: seq<Byte>, p: nat, s: Segment)
    requires p + 32 <= |b| && b[p..p + 32] == SegmentBlock(s)
    ensures b[p..p + 16] == s.id && Uint(b, p + 16, 4) == s.count
    ensures Uint(b, p + 20, 4) == 0 && Uint(b, p + 24, 8) == 0
  {
    hide Uint, Put, Slot;
    Powers();
    var x0 := Zeros(32);
    var x1 := Paste(x0, 0, s.id);
    var x := SegmentBlock(s);
    UintInBlock(b, p, 32, 16, 4);
    UintInBlock(b, p, 32, 20, 4);
    UintInBlock(b, p, 32, 24, 8);
    SlotZeros(32);
    PasteFacts(x0, 0, s.id);
    PutFacts(x1, 16, 4, s.count);
    SlotPut(x1, 16, 4, s.count);
    assert x[0..16] == x1[0..16] == s.id;
    assert b[p..p + 16] == b[p..p + 32][0..16];
    assert x1[20..24] == x0[20..24] && x1[24..32] == x0[24..32];
    assert Slot(x0, 20, 4, 0) && Slot(x0, 24, 8, 0);
    SlotOfSlice(x0, x1, 20, 4, 0);
    SlotOfSlice(x0, x1, 24, 8, 0);
    SlotReads(x, 16, 4, s.count);
    SlotReads(x, 20, 4, 0);
    SlotReads(x, 24, 8, 0);
  }

  lemma SlotOfSlice(x: seq<Byte>, y: seq<Byte>, at: nat, size: nat, value: nat)
    requires Slot(x, at, size, value) && at + size <= |y| && y[at..at + size] == x[at..at + size]
    ensures Slot(y, at, size, value)
  {
  }

  // ----- concatenated blocks

  function Flat(ss: seq<seq<Byte>>): seq<Byte> {
    if ss == [] then [] else ss[0] + Flat(ss[1..])
  }

  lemma Associates(a: seq<Byte>, b: seq<Byte>, c: seq<Byte>)
    ensures a + (b + c) == a + b + c
  {
  }

  lemma {:induction false} FlatAppend(a: seq<seq<Byte>>, b: seq<seq<Byte>>)
    ensures Flat(a + b) == Flat(a) + Flat(b)
  {
    if a == [] {
      assert a + b == b;
    } else {
      FlatAppend(a[1..], b);
      assert (a + b)[0] == a[0] && (a + b)[1..] == a[1..] + b;
      Associates(a[0], Flat(a[1..]), Flat(b));
    }
  }

  lemma FlatSplit(ss: seq<seq<Byte>>, i: nat)
    requires i < |ss|
    ensures Flat(ss) == Flat(ss[..i]) + ss[i] + Flat(ss[i + 1..])
  {
    FlatAppend(ss[..i], ss[i..]);
    assert ss == ss[..i] + ss[i..];
    assert ss[i..][0] == ss[i] && ss[i..][1..] == ss[i + 1..];
  }

  /** Where block `i` lies in the concatenation. */
  lemma FlatSlice(ss: seq<seq<Byte>>, i: nat)
    requires i < |ss|
    ensures |Flat(ss[..i + 1])| == |Flat(ss[..i])| + |ss[i]| <= |Flat(ss)|
    ensures Flat(ss)[|Flat(ss[..i])|..|Flat(ss[..i + 1])|] == ss[i]
  {
    FlatSplit(ss, i);
    FlatAppend(ss[..i], [ss[i]]);
    assert ss[..i + 1] == ss[..i] + [ss[i]];
    var one := [ss[i]];
    assert one[1..] == [] && one[0] + [] == ss[i];
    assert Flat([ss[i]]) == ss[i];
  }

  predicate AllLength(ss: seq<seq<Byte>>, k: nat) {
    forall s :: s in ss ==> |s| == k
  }

  lemma {:induction false} FlatLength(ss: seq<seq<Byte>>, k: nat)
    requires AllLength(ss, k)
    ensures |Flat(ss)| == k * |ss|
  {
    if ss != [] {
      assert AllLength(ss[1..], k) && |ss[0]| == k;
      FlatLength(ss[1..], k);
      assert k * |ss| == k + k * (|ss| - 1);
    }
  }

  lemma UniformSlice(ss: seq<seq<Byte>>, k: nat, i: nat)
    requires AllLength(ss, k) && i < |ss|
    ensures |Flat(ss)| == k * |ss| && k * i + k <= k * |ss|
    ensures Flat(ss)[k * i..k * i + k] == ss[i]
  {
    FlatLength(ss, k);
    FlatLength(ss[..i], k);
    FlatLength(ss[..i + 1], k);
    FlatSlice(ss, i);
    assert k * (i + 1) == k * i + k;
  }

  lemma {:induction false} FlatZeros(m: nat, k: nat)
    ensures Flat(seq(m, _ => Zeros(k))) == Zeros(k * m)
  {
    var ss := seq(m, _ => Zeros(k));
    if m > 0 {
      FlatZeros(m - 1, k);
      assert ss[1..] == seq(m - 1, _ => Zeros(k));
      assert k * m == k + k * (m - 1);
    }
  }

  // ----- the parts of an encoded chunk

  /** Header, segment entries, column entries, directory blobs, payloads. */
  datatype Parts = Parts(head: seq<Byte>, segs: seq<seq<Byte>>, cols: seq<seq<Byte>>,
                         dirs: seq<seq<Byte>>, pays: seq<seq<Byte>>)
  {
    predicate Shaped() {
      |head| == HEADER && AllLength(segs, 32) && AllLength(cols, 64)
    }
    function TableEnd(): nat { HEADER + 32 * |segs| + 64 * |cols| }
    function DirAt(i: nat): nat requires i <= |dirs| { TableEnd() + |Flat(dirs[..i])| }
    function Start(): nat { TableEnd() + |Flat(dirs)| }
    function PayAt(i: nat): nat requires i <= |pays| { Start() + |Flat(pays[..i])| }
  }

  function Whole(p: Parts): seq<Byte> {
    p.head + Flat(p.segs) + Flat(p.cols) + Flat(p.dirs) + Flat(p.pays)
  }

  lemma WholeLength(p: Parts)
    requires p.Shaped()
    ensures |Whole(p)| == p.Start() + |Flat(p.pays)|
  {
    FlatLength(p.segs, 32);
    FlatLength(p.cols, 64);
  }

  lemma PasteBetween(pre: seq<Byte>, x: seq<Byte>, post: seq<Byte>, at: nat, src: seq<Byte>)
    requires at + |src| <= |x|
    ensures Paste(pre + x + post, |pre| + at, src) == pre + Paste(x, at, src) + post
  {
    var b := pre + x + post;
    assert b[..|pre| + at] == pre + x[..at];
    assert b[|pre| + at + |src|..] == x[at + |src|..] + post;
  }

  lemma FlatUpdate(ss: seq<seq<Byte>>, i: nat, x: seq<Byte>)
    requires i < |ss|
    ensures Flat(ss[i := x]) == Flat(ss[..i]) + x + Flat(ss[i + 1..])
  {
    FlatSplit(ss[i := x], i);
    assert ss[i := x][..i] == ss[..i] && ss[i := x][i + 1..] == ss[i + 1..];
  }

  lemma PasteHeader(p: Parts, tail: seq<Byte>, at: nat, src: seq<Byte>)
    requires p.Shaped() && at + |src| <= HEADER
    ensures |Whole(p)| >= HEADER
    ensures Paste(Whole(p) + tail, at, src) == Whole(p.(head := Paste(p.head, at, src))) + tail
  {
    hide Flat, Paste;
    var rest := Flat(p.segs) + Flat(p.cols) + Flat(p.dirs) + Flat(p.pays) + tail;
    PasteBetween([], p.head, rest, at, src);
    assert [] + p.head + rest == Whole(p) + tail;
    assert [] + Paste(p.head, at, src) + rest == Whole(p.(head := Paste(p.head, at, src))) + tail;
  }

  lemma AroundSegment(p: Parts, i: nat, x: seq<Byte>, tail: seq<Byte>) returns (pre: seq<Byte>, post: seq<Byte>)
    requires p.Shaped() && i < |p.segs|
    ensures |pre| == HEADER + 32 * i
    ensures pre == p.head + Flat(p.segs[..i])
    ensures post == Flat(p.segs[i + 1..]) + Flat(p.cols) + Flat(p.dirs) + Flat(p.pays) + tail
    ensures Whole(p.(segs := p.segs[i := x])) + tail == pre + x + post
  {
    hide Flat;
    FlatLength(p.segs[..i], 32);
    FlatUpdate(p.segs, i, x);
    pre := p.head + Flat(p.segs[..i]);
    post := Flat(p.segs[i + 1..]) + Flat(p.cols) + Flat(p.dirs) + Flat(p.pays) + tail;
  }

  /** Patching segment entry `i`, whose block is currently `x`. */
  lemma PasteSegment(p: Parts, i: nat, x: seq<Byte>, tail: seq<Byte>, at: nat, src: seq<Byte>)
    requires p.Shaped() && i < |p.segs| && |x| == 32 && at + |src| <= 32
    ensures var b := Whole(p.(segs := p.segs[i := x])) + tail;
      && |b| >= HEADER + 32 * i + 32
      && Paste(b, HEADER + 32 * i + at, src) == Whole(p.(segs := p.segs[i := Paste(x, at, src)])) + tail
  {
    hide Flat, Paste, Whole, AllLength;
    var pre, post := AroundSegment(p, i, x, tail);
    var _, _ := AroundSegment(p, i, Paste(x, at, src), tail);
    PasteBetween(pre, x, post, at, src);
  }

  lemma AroundColumn(p: Parts, i: nat, x: seq<Byte>, tail: seq<Byte>) returns (pre: seq<Byte>, post: seq<Byte>)
    requires p.Shaped() && i < |p.cols|
    ensures |pre| == HEADER + 32 * |p.segs| + 64 * i
    ensures pre == p.head + Flat(p.segs) + Flat(p.cols[..i])
    ensures post == Flat(p.cols[i + 1..]) + Flat(p.dirs) + Flat(p.pays) + tail
    ensures Whole(p.(cols := p.cols[i := x])) + tail == pre + x + post
  {
    hide Flat;
    FlatLength(p.segs, 32);
    FlatLength(p.cols[..i], 64);
    FlatUpdate(p.cols, i, x);
    pre := p.head + Flat(p.segs) + Flat(p.cols[..i]);
    post := Flat(p.cols[i + 1..]) + Flat(p.dirs) + Flat(p.pays) + tail;
  }

  /** Patching column entry `i`, whose block is currently `x`. */
  lemma PasteColumn(p: Parts, i: nat, x: seq<Byte>, tail: seq<Byte>, at: nat, src: seq<Byte>)
    requires p.Shaped() && i < |p.cols| && |x| == 64 && at + |src| <= 64
    ensures var b := Whole(p.(cols := p.cols[i := x])) + tail;
      && |b| >= HEADER + 32 * |p.segs| + 64 * i + 64
      && Paste(b, HEADER + 32 * |p.segs| + 64 * i + at, src)
         == Whole(p.(cols := p.cols[i := Paste(x, at, src)])) + tail
  {
    hide Flat, Paste, Whole, AllLength;
    var pre, post := AroundColumn(p, i, x, tail);
    var _, _ := AroundColumn(p, i, Paste(x, at, src), tail);
    PasteBetween(pre, x, post, at, src);
  }

  lemma PutColumn(p: Parts, i: nat, x: seq<Byte>, tail: seq<Byte>, at: nat, size: nat, value: nat)
    requires p.Shaped() && i < |p.cols| && |x| == 64 && at + size <= 64
    ensures var b := Whole(p.(cols := p.cols[i := x])) + tail;
      && |b| >= HEADER + 32 * |p.segs| + 64 * i + 64
      && Put(b, HEADER + 32 * |p.segs| + 64 * i + at, size, value)
         == Whole(p.(cols := p.cols[i := Put(x, at, size, value)])) + tail
  {
    hide Flat, Paste, Whole;
    PasteColumn(p, i, x, tail, at, LE(value, size));
  }

  // ----- what is written for each column

  datatype Plan = Plan(state: nat, valid: nat, selected: Encoding, payload: seq<Byte>)

  /** The checks and choices `encode` makes for one column of `n` rows. */
  function PlanColumn(pf: Platform, n: nat, col: Column, encoding: Encoding): (r: Result<Plan>)
    ensures r.Ok? ==> r.value.state < 3 && (r.value.state == 1 ==> col.validity.Some?)
  {
    if col.validity.Some? && |col.validity.value| != CeilDiv8(n) then Err(InvalidData)
    else if col.validity.Some? && !TailClear(col.validity.value, n) then Err(InvalidData)
    else if col.validity.Some? && Ones(col.validity.value) >= n then Err(InvalidData)
    else
      var valid := if col.validity.Some? then Ones(col.validity.value) else n;
      var state := if col.validity.None? then 0 else if valid == 0 then 2 else 1;
      if |col.values| != valid * col.dtype.Width() || !ValuesOk(col) then Err(InvalidData)
      else
        var selected := if valid == 0 then Raw else encoding;
        var payload :- Compress(pf, col.dtype, col.values, selected);
        Ok(Plan(state, valid, selected, payload))
  }

  function Bitmap(col: Column, plan: Plan): seq<Byte> {
    if plan.state == 1 && col.validity.Some? then col.validity.value else []
  }

  function Blob(col: Column, plan: Plan): seq<Byte> {
    plan.selected.Params() + Bitmap(col, plan)
  }

  /** The entry of a column whose blob starts at `dirAt` and whose payload starts at `payAt`. */
  function EntryFor(pf: Platform, n: nat, col: Column, plan: Plan, dirAt: nat, payAt: nat): Entry {
    var params, bits, size := |plan.selected.Params()|, |Bitmap(col, plan)|, |plan.payload|;
    Entry(col.semantic, col.dtype.Code(), col.dtype.Code(), plan.selected.Code(), 1, 0,
          plan.state + (if col.required then 16 else 0), n,
          if size == 0 then 0 else payAt, size, |col.values|, dirAt, params,
          if bits == 0 then 0 else dirAt + params, bits,
          if size == 0 then 0 else pf.crc(plan.payload), size, 0)
  }

  /** `p` is chunk `c` laid out, up to the header. */
  predicate LaidOut(pf: Platform, c: Chunk, n: nat, plans: seq<Plan>, p: Parts) {
    && p.Shaped()
    && |p.segs| == |c.segments| && |p.cols| == |plans| == |c.columns| == |p.dirs| == |p.pays|
    && (forall i :: 0 <= i < |p.segs| ==> p.segs[i] == SegmentBlock(c.segments[i]))
    && (forall i :: 0 <= i < |plans| ==> p.dirs[i] == Blob(c.columns[i], plans[i]))
    && (forall i :: 0 <= i < |plans| ==> p.pays[i] == plans[i].payload)
    && (forall i :: 0 <= i < |plans| ==>
          p.cols[i] == ColumnBlock(EntryFor(pf, n, c.columns[i], plans[i], p.DirAt(i), p.PayAt(i))))
  }

  /** Header fields known before the tables are filled in. */
  function HeaderBlock(c: Chunk, n: nat): (x: seq<Byte>)
    ensures |x| == HEADER
  {
    var x := Paste(Zeros(HEADER), 0, MAGIC);
    var x := Put(x, 8, 2, 1);
    var x := Paste(x, 16, c.id);
    var x := Paste(x, 32, c.profile);
    var x := Put(x, 48, 4, n);
    var x := Put(x, 52, 4, |c.segments|);
    Put(x, 56, 2, |c.columns|)
  }

  /** Lengths and checksums patched in last. */
  function SealedBlock(x: seq<Byte>, directory: nat, payload: nat, headerCrc: nat, directoryCrc: nat): (y: seq<Byte>)
    requires |x| == HEADER
    ensures |y| == HEADER
  {
    Put(Put(Put(Put(x, 60, 4, directory), 64, 8, payload), 72, 4, headerCrc), 76, 4, directoryCrc)
  }
}
