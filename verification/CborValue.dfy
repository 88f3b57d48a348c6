/** The CBOR data model and wire syntax used by `crates/ink-format/src/cbor.rs`: the value tree, the
    deterministic writer and the reader (RFC 8949, sections 3 and 4.2.1). */
module CborValue {
  import opened Bytes
  import opened Results

  /** A binary64 number, named by the shortest of the three wire widths that holds it exactly. */
  datatype Float = Half(bits: nat) | Single(bits: nat) | Double(bits: nat)
  {
    predicate Finite() {
      match this
      case Half(h) => (h / 0x400) % 0x20 != 0x1F
      case Single(s) => (s / 0x80_0000) % 0x100 != 0xFF
      case Double(d) => (d / 0x10_0000_0000_0000) % 0x800 != 0x7FF
    }

    /** The bits fit their width and no shorter width would do. */
    predicate Valid() {
      match this
      case Half(h) => h < 0x1_0000
      case Single(s) => s < 0x1_0000_0000 && NarrowSingle(s).None?
      case Double(d) => d < 0x1_0000_0000_0000_0000 && NarrowDouble(d).None?
    }
  }

  /** The binary16 bits of a finite binary32 number, when it is exactly representable. */
  function NarrowSingle(s: nat): Option<nat> {
    var sign, exp, frac := (s / 0x8000_0000) % 2 * 0x8000, (s / 0x80_0000) % 0x100, s % 0x80_0000;
    if exp == 0 && frac == 0 then Some(sign)
    else if 113 <= exp <= 142 && frac % 0x2000 == 0 then Some(sign + (exp - 112) * 0x400 + frac / 0x2000)
    else if 103 <= exp <= 112 && (0x80_0000 + frac) % Pow2(126 - exp) == 0 then
      Some(sign + ((0x80_0000 + frac) / Pow2(126 - exp)) % 0x400)
    else None
  }

  /** The binary32 bits of a finite binary64 number, when it is exactly representable. */
  function NarrowDouble(d: nat): Option<nat> {
    var sign := (d / 0x8000_0000_0000_0000) % 2 * 0x8000_0000;
    var exp, frac := (d / 0x10_0000_0000_0000) % 0x800, d % 0x10_0000_0000_0000;
    if exp == 0 && frac == 0 then Some(sign)
    else if 897 <= exp <= 1150 && frac % 0x2000_0000 == 0 then
      Some(sign + (exp - 896) * 0x80_0000 + frac / 0x2000_0000)
    else if 874 <= exp <= 896 && (0x10_0000_0000_0000 + frac) % Pow2(926 - exp) == 0 then
      Some(sign + ((0x10_0000_0000_0000 + frac) / Pow2(926 - exp)) % 0x80_0000)
    else None
  }

  function OfSingle(s: nat): (f: Float)
    requires s < 0x1_0000_0000
    ensures f.Valid()
  {
    match NarrowSingle(s)
    case Some(h) => Half(h)
    case None => Single(s)
  }

  function OfDouble(d: nat): (f: Float)
    requires d < 0x1_0000_0000_0000_0000
    ensures f.Valid()
  {
    match NarrowDouble(d)
    case Some(s) => OfSingle(s)
    case None => Double(d)
  }

  predicate Continuation(b: Byte) { 0x80 <= b < 0xC0 }

  /** Well-formed UTF-8, the invariant of a Rust string. */
  predicate Utf8(s: seq<Byte>) {
    s == [] ||
    if s[0] < 0x80 then Utf8(s[1..])
    else if 0xC2 <= s[0] <= 0xDF then |s| >= 2 && Continuation(s[1]) && Utf8(s[2..])
    else if 0xE0 <= s[0] <= 0xEF then
      && |s| >= 3 && Continuation(s[1]) && Continuation(s[2])
      && (s[0] == 0xE0 ==> s[1] >= 0xA0) && (s[0] == 0xED ==> s[1] < 0xA0)
      && Utf8(s[3..])
    else if 0xF0 <= s[0] <= 0xF4 then
      && |s| >= 4 && Continuation(s[1]) && Continuation(s[2]) && Continuation(s[3])
      && (s[0] == 0xF0 ==> s[1] >= 0x90) && (s[0] == 0xF4 ==> s[1] < 0x90)
      && Utf8(s[4..])
    else false
  }

  datatype Field = Field(key: Value, val: Value)

  /** `ciborium::Value`; a text is held as its UTF-8 bytes. */
  datatype Value =
    | Int(n: int)
    | Bstr(bytes: seq<Byte>)
    | Text(utf8: seq<Byte>)
    | Bool(b: bool)
    | Null
    | Num(f: Float)
    | Array(items: seq<Value>)
    | Map(fields: seq<Field>)
    | Tag(tag: nat, inner: Value)

  const WORD: int := 0x1_0000_0000_0000_0000

  /** The invariants the Rust types carry: integers within CBOR range, lengths within 64 bits,
      strings in UTF-8, floats named by their shortest width. */
  predicate Valid(v: Value)
    decreases v, 1
  {
    match v
    case Int(n) => -WORD <= n < WORD
    case Bstr(s) => |s| < WORD
    case Text(s) => |s| < WORD && Utf8(s)
    case Bool(_) => true
    case Null => true
    case Num(f) => f.Valid()
    case Array(items) => |items| < WORD && AllValid(items)
    case Map(fields) => |fields| < WORD && AllFieldsValid(fields)
    case Tag(t, inner) => t < WORD && Valid(inner)
  }

  predicate AllValid(items: seq<Value>)
    decreases items, 0
  {
    items == [] || (Valid(items[0]) && AllValid(items[1..]))
  }

  predicate AllFieldsValid(fields: seq<Field>)
    decreases fields, 0
  {
    fields == [] ||
    assert fields[0].key < fields[0] && fields[0].val < fields[0];
    (Valid(fields[0].key) && Valid(fields[0].val) && AllFieldsValid(fields[1..]))
  }

  // ----- the writer

  /** Bytes an argument needs after the initial byte. */
  function Width(n: nat): (k: nat)
    ensures k in {0, 1, 2, 4, 8}
  {
    if n < 24 then 0 else if n < 0x100 then 1 else if n < 0x1_0000 then 2
    else if n < 0x1_0000_0000 then 4 else 8
  }

  /** Additional information that announces an argument of `k` bytes. */
  function Info(k: nat): (info: nat)
    requires k in {1, 2, 4, 8}
    ensures 24 <= info <= 27
  {
    if k == 1 then 24 else if k == 2 then 25 else if k == 4 then 26 else 27
  }

  /** Initial byte and argument in the shortest form (RFC 8949, section 4.2.1). */
  function Head(major: nat, n: nat): (s: seq<Byte>)
    requires major < 8
    ensures 1 <= |s| <= 9
  {
    if n < 24 then [major * 32 + n] else [major * 32 + Info(Width(n))] + BE(n, Width(n))
  }

  function WriteFloat(f: Float): seq<Byte> {
    match f
    case Half(h) => [0xF9] + BE(h, 2)
    case Single(s) => [0xFA] + BE(s, 4)
    case Double(d) => [0xFB] + BE(d, 8)
  }

  /** `ciborium::ser::into_writer`. */
  function Write(v: Value): (s: seq<Byte>)
    ensures s != []
    decreases v, 1
  {
    match v
    case Int(n) => if n >= 0 then Head(0, n) else Head(1, -1 - n)
    case Bstr(b) => Head(2, |b|) + b
    case Text(t) => Head(3, |t|) + t
    case Bool(b) => if b then [0xF5] else [0xF4]
    case Null => [0xF6]
    case Num(f) => WriteFloat(f)
    case Array(items) => Head(4, |items|) + WriteItems(items)
    case Map(fields) => Head(5, |fields|) + WriteFields(fields)
    case Tag(t, inner) => Head(6, t) + Write(inner)
  }

  function WriteItems(items: seq<Value>): seq<Byte>
    decreases items, 0
  {
    if items == [] then [] else Write(items[0]) + WriteItems(items[1..])
  }

  function WriteFields(fields: seq<Field>): seq<Byte>
    decreases fields, 0
  {
    if fields == [] then []
    else
      assert fields[0].key < fields[0] && fields[0].val < fields[0];
      Write(fields[0].key) + Write(fields[0].val) + WriteFields(fields[1..])
  }

  // ----- the reader

  datatype Header = Header(major: nat, info: nat, argument: nat, rest: seq<Byte>)

  /** The initial byte and its argument; indefinite and reserved lengths are refused. */
  function ReadHead(b: seq<Byte>): (r: Option<Header>)
    ensures r.Some? ==> |r.value.rest| < |b| && r.value.major < 8 && r.value.argument < WORD
  {
    if b == [] then None
    else
      var major, info := b[0] / 32, b[0] % 32;
      if info < 24 then Some(Header(major, info, info, b[1..]))
      else if info > 27 then None
      else
        var n := Pow2(info - 24);
        if |b| < 1 + n then None
        else
          BEOfFromBE(b[1..1 + n]);
          ArgumentFits(info);
          Some(Header(major, info, FromBE(b[1..1 + n]), b[1 + n..]))
  }

  lemma ArgumentFits(info: nat)
    requires 24 <= info <= 27
    ensures 1 <= Pow2(info - 24) <= 8 && Pow256(Pow2(info - 24)) <= WORD
  {
    Widths();
  }

  /** The values of major type 7 that are read. */
  function Simple(info: nat, n: nat): Option<Value>
    requires n < WORD
  {
    if info == 20 then Some(Bool(false))
    else if info == 21 then Some(Bool(true))
    else if info == 22 then Some(Null)
    else if info == 25 && n < 0x1_0000 then Some(Num(Half(n)))
    else if info == 26 && n < 0x1_0000_0000 then Some(Num(OfSingle(n)))
    else if info == 27 then Some(Num(OfDouble(n)))
    else None
  }

  /** `ciborium::de::from_reader_with_recursion_limit` on definite-length input: one value and the
      bytes after it. Every array or map consumes one unit of `limit`. */
  function Parse(b: seq<Byte>, limit: nat): (r: Option<(Value, seq<Byte>)>)
    ensures r.Some? ==> |r.value.1| < |b|
    decreases |b|, 0
  {
    match ReadHead(b)
    case None => None
    case Some(h) =>
      if h.major <= 3 || h.major == 7 then ParseLeaf(h)
      else if h.major > 5 || limit == 0 then None
      else if h.major == 4 then
        (match ParseItems(h.rest, h.argument, limit - 1)
         case None => None
         case Some((items, tail)) => Some((Array(items), tail)))
      else
        (match ParseFields(h.rest, h.argument, limit - 1)
         case None => None
         case Some((fields, tail)) => Some((Map(fields), tail)))
  }

  function ParseLeaf(h: Header): (r: Option<(Value, seq<Byte>)>)
    requires h.argument < WORD
    ensures r.Some? ==> |r.value.1| <= |h.rest|
  {
    var n, rest := h.argument, h.rest;
    match h.major
    case 0 => Some((Int(n), rest))
    case 1 => Some((Int(-1 - n), rest))
    case 2 => if n <= |rest| then Some((Bstr(rest[..n]), rest[n..])) else None
    case 3 => if n <= |rest| && Utf8(rest[..n]) then Some((Text(rest[..n]), rest[n..])) else None
    case _ =>
      match if h.major == 7 then Simple(h.info, n) else None
      case None => None
      case Some(v) => Some((v, rest))
  }

  function ParseItems(b: seq<Byte>, n: nat, limit: nat): (r: Option<(seq<Value>, seq<Byte>)>)
    ensures r.Some? ==> |r.value.0| == n && |r.value.1| + n <= |b|
    decreases |b|, n + 1
  {
    if n == 0 then Some(([], b))
    else
      match Parse(b, limit)
      case None => None
      case Some((v, mid)) =>
        match ParseItems(mid, n - 1, limit)
        case None => None
        case Some((vs, tail)) => Some(([v] + vs, tail))
  }

  function ParseFields(b: seq<Byte>, n: nat, limit: nat): (r: Option<(seq<Field>, seq<Byte>)>)
    ensures r.Some? ==> |r.value.0| == n && |r.value.1| + n <= |b|
    decreases |b|, n + 1
  {
    if n == 0 then Some(([], b))
    else
      match Parse(b, limit)
      case None => None
      case Some((k, b1)) =>
        match Parse(b1, limit)
        case None => None
        case Some((v, b2)) =>
          match ParseFields(b2, n - 1, limit)
          case None => None
          case Some((fs, tail)) => Some(([Field(k, v)] + fs, tail))
  }

  // ----- reading back what was written

  /** Levels of arrays and maps around the deepest leaf. */
  function Nesting(v: Value): nat
    decreases v, 1
  {
    match v
    case Array(items) => 1 + NestingItems(items)
    case Map(fields) => 1 + NestingFields(fields)
    case Tag(_, inner) => 1 + Nesting(inner)
    case _ => 0
  }

  function Max(a: nat, b: nat): nat { if a < b then b else a }

  function NestingItems(items: seq<Value>): nat
    decreases items, 0
  {
    if items == [] then 0 else Max(Nesting(items[0]), NestingItems(items[1..]))
  }

  function NestingFields(fields: seq<Field>): nat
    decreases fields, 0
  {
    if fields == [] then 0
    else
      assert fields[0].key < fields[0] && fields[0].val < fields[0];
      Max(Max(Nesting(fields[0].key), Nesting(fields[0].val)), NestingFields(fields[1..]))
  }

  /** No tag anywhere: the reader refuses major type 6. */
  predicate Untagged(v: Value)
    decreases v, 1
  {
    match v
    case Array(items) => UntaggedItems(items)
    case Map(fields) => UntaggedFields(fields)
    case Tag(_, _) => false
    case _ => true
  }

  predicate UntaggedItems(items: seq<Value>)
    decreases items, 0
  {
    items == [] || (Untagged(items[0]) && UntaggedItems(items[1..]))
  }

  predicate UntaggedFields(fields: seq<Field>)
    decreases fields, 0
  {
    fields == [] ||
    assert fields[0].key < fields[0] && fields[0].val < fields[0];
    (Untagged(fields[0].key) && Untagged(fields[0].val) && UntaggedFields(fields[1..]))
  }

  /** Width in bytes of an argument that follows the initial byte, by additional information. */
  lemma Widths()
    ensures Pow2(0) == 1 && Pow2(1) == 2 && Pow2(2) == 4 && Pow2(3) == 8
    ensures Pow256(1) == 0x100 && Pow256(2) == 0x1_0000
    ensures Pow256(4) == 0x1_0000_0000 && Pow256(8) == WORD
  {
    assert Pow256(3) == 0x100_0000;
    assert Pow256(5) == 0x100_0000_0000 && Pow256(6) == 0x1_0000_0000_0000;
  }

  lemma WideReadBack(major: nat, info: nat, k: nat, n: nat, tail: seq<Byte>)
    requires major < 8 && 24 <= info <= 27 && k == Pow2(info - 24) && n < Pow256(k)
    ensures ReadHead([major * 32 + info] + BE(n, k) + tail) == Some(Header(major, info, n, tail))
  {
    var first: Byte := major * 32 + info;
    var s := [first] + BE(n, k) + tail;
    assert first / 32 == major && first % 32 == info;
    assert s[0] == first;
    FromBEOfBE(n, k);
    assert s[1..1 + k] == BE(n, k);
    assert s[1 + k..] == tail;
  }

  lemma HeadReadBack(major: nat, n: nat, tail: seq<Byte>)
    requires major < 8 && n < WORD
    ensures ReadHead(Head(major, n) + tail).Some?
    ensures var h := ReadHead(Head(major, n) + tail).value;
            h.major == major && h.argument == n && h.rest == tail
  {
    Widths();
    if n < 24 {
      assert (Head(major, n) + tail)[1..] == tail;
    } else {
      WideReadBack(major, Info(Width(n)), Width(n), n, tail);
    }
  }

  lemma FloatReadBack(f: Float, tail: seq<Byte>)
    requires f.Valid()
    ensures ReadHead(WriteFloat(f) + tail).Some?
    ensures var h := ReadHead(WriteFloat(f) + tail).value;
            h.major == 7 && h.rest == tail && Simple(h.info, h.argument) == Some(Num(f))
  {
    Widths();
    match f {
      case Half(h) => WideReadBack(7, 25, 2, h, tail);
      case Single(b) => WideReadBack(7, 26, 4, b, tail);
      case Double(d) => WideReadBack(7, 27, 8, d, tail);
    }
  }

  lemma LeafReadBack(v: Value, tail: seq<Byte>, limit: nat)
    requires Valid(v) && !v.Array? && !v.Map? && !v.Tag?
    ensures Parse(Write(v) + tail, limit) == Some((v, tail))
  {
    hide WriteFloat, Utf8;
    match v {
      case Int(n) =>
        HeadReadBack(if n >= 0 then 0 else 1, if n >= 0 then n else -1 - n, tail);
      case Bstr(b) =>
        StringReadBack(2, b, tail);
      case Text(t) =>
        StringReadBack(3, t, tail);
      case Bool(b) =>
        assert (Write(v) + tail)[1..] == tail;
      case Null =>
        assert (Write(v) + tail)[1..] == tail;
      case Num(f) =>
        FloatReadBack(f, tail);
    }
  }

  lemma StringLeaf(major: nat, info: nat, s: seq<Byte>, tail: seq<Byte>)
    requires 2 <= major <= 3 && |s| < WORD && (major == 3 ==> Utf8(s))
    ensures ParseLeaf(Header(major, info, |s|, s + tail)) == Some((if major == 2 then Bstr(s) else Text(s), tail))
  {
    hide Utf8, Simple;
    assert (s + tail)[..|s|] == s && (s + tail)[|s|..] == tail;
  }

  lemma StringReadBack(major: nat, s: seq<Byte>, tail: seq<Byte>)
    requires 2 <= major <= 3 && |s| < WORD && (major == 3 ==> Utf8(s))
    ensures ReadHead(Head(major, |s|) + s + tail).Some?
    ensures var h := ReadHead(Head(major, |s|) + s + tail).value;
            h.major == major && ParseLeaf(h) == Some((if major == 2 then Bstr(s) else Text(s), tail))
  {
    hide Head, ReadHead, Utf8, ParseLeaf;
    assert Head(major, |s|) + s + tail == Head(major, |s|) + (s + tail);
    HeadReadBack(major, |s|, s + tail);
    var h := ReadHead(Head(major, |s|) + (s + tail)).value;
    assert h == Header(major, h.info, |s|, s + tail);
    StringLeaf(major, h.info, s, tail);
  }

  /** The reader inverts the writer, whatever follows the value. */
  lemma {:induction false} ParseWrite(v: Value, tail: seq<Byte>, limit: nat)
    requires Valid(v) && Untagged(v) && Nesting(v) <= limit
    ensures Parse(Write(v) + tail, limit) == Some((v, tail))
    decreases v, 1
  {
    hide Head, ReadHead, ParseLeaf;
    match v {
      case Array(items) =>
        HeadReadBack(4, |items|, WriteItems(items) + tail);
        assert Write(v) + tail == Head(4, |items|) + (WriteItems(items) + tail);
        ParseWriteItems(items, tail, limit - 1);
      case Map(fields) =>
        HeadReadBack(5, |fields|, WriteFields(fields) + tail);
        assert Write(v) + tail == Head(5, |fields|) + (WriteFields(fields) + tail);
        ParseWriteFields(fields, tail, limit - 1);
      case _ =>
        LeafReadBack(v, tail, limit);
    }
  }

  lemma {:induction false} ParseWriteItems(items: seq<Value>, tail: seq<Byte>, limit: nat)
    requires AllValid(items) && UntaggedItems(items) && NestingItems(items) <= limit
    ensures ParseItems(WriteItems(items) + tail, |items|, limit) == Some((items, tail))
    decreases items, 0
  {
    hide Parse, Write;
    if items == [] {
      assert WriteItems(items) + tail == tail;
    } else {
      var more := WriteItems(items[1..]) + tail;
      ParseWrite(items[0], more, limit);
      assert WriteItems(items) + tail == Write(items[0]) + more;
      ParseWriteItems(items[1..], tail, limit);
      assert items == [items[0]] + items[1..];
    }
  }

  lemma {:induction false} ParseWriteFields(fields: seq<Field>, tail: seq<Byte>, limit: nat)
    requires AllFieldsValid(fields) && UntaggedFields(fields) && NestingFields(fields) <= limit
    ensures ParseFields(WriteFields(fields) + tail, |fields|, limit) == Some((fields, tail))
    decreases fields, 0
  {
    hide Parse, Write;
    if fields == [] {
      assert WriteFields(fields) + tail == tail;
    } else {
      assert fields[0].key < fields[0] && fields[0].val < fields[0];
      var Field(k, x) := fields[0];
      var more := WriteFields(fields[1..]) + tail;
      ParseWrite(k, Write(x) + more, limit);
      ParseWrite(x, more, limit);
      assert WriteFields(fields) + tail == Write(k) + (Write(x) + more);
      ParseWriteFields(fields[1..], tail, limit);
      assert fields == [fields[0]] + fields[1..];
    }
  }

  /** The encodings of two values are equal, or neither is a prefix of the other. */
  lemma {:induction false} PrefixFree(v: Value, w: Value, x: seq<Byte>, y: seq<Byte>)
    requires Valid(v) && Untagged(v) && Valid(w) && Untagged(w)
    requires Write(v) + x == Write(w) + y
    ensures v == w && x == y
  {
    var limit := Max(Nesting(v), Nesting(w));
    ParseWrite(v, x, limit);
    ParseWrite(w, y, limit);
  }

  /** Whatever the reader returns satisfies the invariants of the value type and the limit. */
  lemma {:induction false} ParsedIsValid(b: seq<Byte>, limit: nat)
    requires |b| < WORD && Parse(b, limit).Some?
    ensures var v := Parse(b, limit).value.0; Valid(v) && Untagged(v) && Nesting(v) <= limit
    decreases |b|, 0
  {
    var h := ReadHead(b).value;
    if h.major == 4 {
      ParsedItemsAreValid(h.rest, h.argument, limit - 1);
    } else if h.major == 5 {
      ParsedFieldsAreValid(h.rest, h.argument, limit - 1);
    }
  }

  lemma {:induction false} ParsedItemsAreValid(b: seq<Byte>, n: nat, limit: nat)
    requires |b| < WORD && ParseItems(b, n, limit).Some?
    ensures var vs := ParseItems(b, n, limit).value.0;
            AllValid(vs) && UntaggedItems(vs) && NestingItems(vs) <= limit
    decreases |b|, n + 1
  {
    if n > 0 {
      ParsedIsValid(b, limit);
      var (v, mid) := Parse(b, limit).value;
      ParsedItemsAreValid(mid, n - 1, limit);
      var vs := ParseItems(mid, n - 1, limit).value.0;
      assert ([v] + vs)[1..] == vs;
    }
  }

  lemma {:induction false} ParsedFieldsAreValid(b: seq<Byte>, n: nat, limit: nat)
    requires |b| < WORD && ParseFields(b, n, limit).Some?
    ensures var fs := ParseFields(b, n, limit).value.0;
            AllFieldsValid(fs) && UntaggedFields(fs) && NestingFields(fs) <= limit
    decreases |b|, n + 1
  {
    if n > 0 {
      ParsedIsValid(b, limit);
      var (k, b1) := Parse(b, limit).value;
      ParsedIsValid(b1, limit);
      var (v, b2) := Parse(b1, limit).value;
      ParsedFieldsAreValid(b2, n - 1, limit);
      var fs := ParseFields(b2, n - 1, limit).value.0;
      assert ([Field(k, v)] + fs)[1..] == fs;
    }
  }
}
