/** The bytes of each kind of CBOR value, as RFC 8949 lays them out (section 3, table 1, and appendix A). */
module CborWire {
  import opened Bytes
  import opened CborValue

  /** Major type and argument in the shortest form. */
  predicate HeadIs(s: seq<Byte>, major: nat, n: nat) {
    if n < 24 then |s| == 1 && s[0] == 32 * major + n
    else if n < 0x100 then |s| == 2 && s[0] == 32 * major + 24 && s[1] == n
    else if n < 0x1_0000 then |s| == 3 && s[0] == 32 * major + 25 && BigEndian(s, 2) == n
    else if n < 0x1_0000_0000 then |s| == 5 && s[0] == 32 * major + 26 && BigEndian(s, 4) == n
    else |s| == 9 && s[0] == 32 * major + 27 && BigEndian(s, 8) == n
  }

  /** The number in the `k` bytes behind the first. */
  function BigEndian(s: seq<Byte>, k: nat): nat
    requires |s| == k + 1
  {
    match k
    case 2 => 0x100 * s[1] as int + s[2]
    case 4 => 0x100_0000 * s[1] as int + 0x1_0000 * s[2] as int + 0x100 * s[3] as int + s[4]
    case 8 =>
      0x1_0000_0000 * (0x100_0000 * s[1] as int + 0x1_0000 * s[2] as int + 0x100 * s[3] as int + s[4])
      + (0x100_0000 * s[5] as int + 0x1_0000 * s[6] as int + 0x100 * s[7] as int + s[8])
    case _ => 0
  }

  lemma {:induction false} BEIndex(n: nat, k: nat, i: nat)
    requires i < k
    ensures BE(n, k)[k - 1 - i] == n / Pow256(i) % 256
  {
    if i > 0 {
      BEIndex(n / 256, k - 1, i - 1);
      var p := Pow256(i - 1);
      DivideTwice(n, 256, p);
    }
  }

  /** The writer's head is the major type and the argument in the shortest form. */
  lemma HeadExactly(major: nat, n: nat)
    requires major < 8 && n < 0x1_0000_0000_0000_0000
    ensures HeadIs(Head(major, n), major, n)
  {
    hide BE, HeadIs;
    if n < 24 {
      HeadOne(major, n);
    } else if n < 0x100 {
      BE1(n);
    } else if n < 0x1_0000 {
      BE2(n);
    } else if n < 0x1_0000_0000 {
      BE4(n);
    } else {
      BE8(n);
    }
    HeadByWidth(major, n, BE(n, Width(n)));
  }

  lemma HeadOne(major: nat, n: nat)
    requires major < 8 && n < 24
    ensures HeadIs([major * 32 + n], major, n)
  {
  }

  predicate Holds(b: seq<Byte>, n: nat) {
    match |b|
    case 1 => b[0] == n
    case 2 => 0x100 * b[0] as int + b[1] == n
    case 4 => 0x100_0000 * b[0] as int + 0x1_0000 * b[1] as int + 0x100 * b[2] as int + b[3] == n
    case 8 =>
      0x1_0000_0000 * (0x100_0000 * b[0] as int + 0x1_0000 * b[1] as int + 0x100 * b[2] as int + b[3])
      + (0x100_0000 * b[4] as int + 0x1_0000 * b[5] as int + 0x100 * b[6] as int + b[7]) == n
    case _ => false
  }

  lemma HeadByWidth(major: nat, n: nat, b: seq<Byte>)
    requires major < 8 && n < 0x1_0000_0000_0000_0000 && |b| == Width(n) && (n >= 24 ==> Holds(b, n))
    ensures HeadIs(if n < 24 then [major * 32 + n] else [major * 32 + Info(Width(n))] + b, major, n)
  {
  }

  lemma BE1(n: nat)
    requires n < 0x100
    ensures Holds(BE(n, 1), n)
  {
    BEIndex(n, 1, 0);
  }

  lemma BE2(n: nat)
    requires n < 0x1_0000
    ensures Holds(BE(n, 2), n)
  {
    BEIndex(n, 2, 0);
    BEIndex(n, 2, 1);
    Powers();
  }

  lemma Powers()
    ensures Pow256(0) == 1 && Pow256(1) == 0x100 && Pow256(2) == 0x1_0000 && Pow256(3) == 0x100_0000
  {
  }

  lemma BE4(n: nat)
    requires n < 0x1_0000_0000
    ensures Holds(BE(n, 4), n)
  {
    hide BE;
    BEIndex(n, 4, 0);
    BEIndex(n, 4, 1);
    BEIndex(n, 4, 2);
    BEIndex(n, 4, 3);
    Powers();
    Four(n);
  }

  lemma Four(n: nat)
    requires n < 0x1_0000_0000
    ensures n == 0x100_0000 * (n / 0x100_0000 % 256) + 0x1_0000 * (n / 0x1_0000 % 256) + 0x100 * (n / 0x100 % 256) + n % 256
  {
    var a, b, c := n / 0x100, n / 0x1_0000, n / 0x100_0000;
    assert n == 0x100 * a + n % 256;
    assert a == 0x100 * b + a % 256;
    assert b == 0x100 * c + b % 256;
    assert c == c % 256;
  }

  /** What is left without the `j` low bytes. */
  function Above(n: nat, j: nat): nat
    decreases j
  {
    if j == 0 then n else Above(n / 256, j - 1)
  }

  lemma {:induction false} BESplit(n: nat, k: nat, j: nat)
    ensures BE(n, k + j) == BE(Above(n, j), k) + BE(n, j)
    decreases j
  {
    hide BE;
    if j == 0 {
      NoBytes(n, k);
    } else {
      BESplit(n / 256, k, j - 1);
      SplitStep(n, k, j, Above(n, j));
    }
  }

  lemma SplitStep(n: nat, k: nat, j: nat, m: nat)
    requires j > 0 && BE(n / 256, k + (j - 1)) == BE(m, k) + BE(n / 256, j - 1)
    ensures BE(n, k + j) == BE(m, k) + BE(n, j)
  {
    hide BE;
    LastByte(n, k + j);
    LastByte(n, j);
    assert k + j - 1 == k + (j - 1);
    Regrouped(BE(m, k), BE(n / 256, j - 1), [n % 256]);
  }

  lemma NoBytes(n: nat, k: nat)
    ensures BE(n, k) == BE(n, k) + BE(n, 0)
  {
  }

  lemma LastByte(n: nat, k: nat)
    requires k > 0
    ensures BE(n, k) == BE(n / 256, k - 1) + [n % 256]
  {
  }

  lemma Regrouped(a: seq<Byte>, b: seq<Byte>, c: seq<Byte>)
    ensures a + b + c == a + (b + c)
  {
  }

  lemma {:induction false} BELow(n: nat, k: nat)
    ensures BE(n, k) == BE(n % Pow256(k), k)
    decreases k
  {
    if k > 0 {
      var p := Pow256(k - 1);
      BELow(n / 256, k - 1);
      BELow(n % (256 * p) / 256, k - 1);
      ModDiv(n, p);
    }
  }

  lemma ModDiv(n: nat, p: nat)
    requires p > 0
    ensures n % (256 * p) / 256 == n / 256 % p && n % (256 * p) % 256 == n % 256
  {
    var x, r, t := n / 256 / p, n / 256 % p, n % 256;
    Product(256, p, x, r, t);
    assert n / 256 == x * p + r;
    Division(n, 256 * p, x, r * 256 + t);
  }

  lemma BE8(n: nat)
    requires n < 0x1_0000_0000_0000_0000
    ensures Holds(BE(n, 8), n)
  {
    hide BE, Pow256;
    var high, low := n / 0x1_0000_0000, n % 0x1_0000_0000;
    assert Pow256(4) == 0x1_0000_0000 by { FourBytes(); }
    BESplit(n, 4, 4);
    AboveFour(n);
    BELow(n, 4);
    BE4(high);
    BE4(low);
  }

  lemma AboveFour(n: nat)
    ensures Above(n, 4) == n / 0x1_0000_0000
  {
    var a, b, c := n / 256, n / 0x1_0000, n / 0x100_0000;
    assert a / 256 == b && b / 256 == c && c / 256 == n / 0x1_0000_0000;
    assert Above(n, 4) == Above(a, 3) == Above(b, 2) == Above(c, 1) == Above(n / 0x1_0000_0000, 0);
  }

  lemma FourBytes()
    ensures Pow256(4) == 0x1_0000_0000
  {
  }

  /** The bytes of each kind of value. */
  lemma WireExactly(v: Value)
    requires Valid(v)
    ensures match v
      case Int(n) => HeadIs(Write(v), if n >= 0 then 0 else 1, if n >= 0 then n else -1 - n)
      case Bstr(b) => Headed(Write(v), 2, |b|, b)
      case Text(t) => Headed(Write(v), 3, |t|, t)
      case Array(items) => Headed(Write(v), 4, |items|, WriteItems(items))
      case Map(fields) => Headed(Write(v), 5, |fields|, WriteFields(fields))
      case Tag(t, inner) => Headed(Write(v), 6, t, Write(inner))
      case Bool(b) => Write(v) == if b then [0xF5] else [0xF4]
      case Null => Write(v) == [0xF6]
      case Num(f) =>
        match f
        case Half(h) => |Write(v)| == 3 && Write(v)[0] == 0xF9 && BigEndian(Write(v), 2) == h
        case Single(s) => |Write(v)| == 5 && Write(v)[0] == 0xFA && BigEndian(Write(v), 4) == s
        case Double(d) => |Write(v)| == 9 && Write(v)[0] == 0xFB && BigEndian(Write(v), 8) == d
  {
    hide BE, HeadIs, Head, NarrowSingle, NarrowDouble;
    match v
    case Int(n) => HeadExactly(if n >= 0 then 0 else 1, if n >= 0 then n else -1 - n);
    case Bstr(b) => HeadExactly(2, |b|);
    case Text(t) => HeadExactly(3, |t|);
    case Array(items) => HeadExactly(4, |items|);
    case Map(fields) => HeadExactly(5, |fields|);
    case Tag(t, inner) => HeadExactly(6, t);
    case Num(f) =>
      match f {
        case Half(h) => BE2(h);
        case Single(s) => BE4(s);
        case Double(d) => BE8(d);
      }
    case _ =>
  }

  ghost predicate Headed(s: seq<Byte>, major: nat, n: nat, rest: seq<Byte>) { exists h: seq<Byte> :: HeadIs(h, major, n) && s == h + rest }

  /** Items follow each other without anything between. */
  lemma {:induction false} ItemsAppend(a: seq<Value>, b: seq<Value>)
    ensures WriteItems(a + b) == WriteItems(a) + WriteItems(b)
  {
    hide Write;
    if a == [] {
      assert a + b == b;
    } else {
      assert (a + b)[1..] == a[1..] + b;
      ItemsAppend(a[1..], b);
    }
  }

  /** Of a map each key is followed by its value. */
  lemma {:induction false} FieldsAppend(a: seq<Field>, b: seq<Field>)
    ensures WriteFields(a + b) == WriteFields(a) + WriteFields(b)
  {
    hide Write;
    if a == [] {
      assert a + b == b;
    } else {
      assert (a + b)[1..] == a[1..] + b;
      FieldsAppend(a[1..], b);
    }
  }

  lemma OneItem(v: Value, k: Value)
    ensures WriteItems([v]) == Write(v) && WriteFields([Field(k, v)]) == Write(k) + Write(v)
  {
    hide Write;
    assert WriteItems([]) == [] && WriteFields([]) == [];
    assert Write(v) + [] == Write(v) && Write(k) + Write(v) + [] == Write(k) + Write(v);
  }

  /** Examples of appendix A of RFC 8949. */
  lemma AppendixA()
    ensures Write(Int(0)) == [0x00] && Write(Int(23)) == [0x17] && Write(Int(24)) == [0x18, 0x18]
    ensures Write(Int(1000)) == [0x19, 0x03, 0xE8] && Write(Int(1000000)) == [0x1A, 0x00, 0x0F, 0x42, 0x40]
    ensures Write(Int(-1)) == [0x20] && Write(Int(-10)) == [0x29] && Write(Int(-1000)) == [0x39, 0x03, 0xE7]
    ensures Write(Bstr([0x01, 0x02, 0x03, 0x04])) == [0x44, 0x01, 0x02, 0x03, 0x04]
    ensures Write(Text([0x49, 0x45, 0x54, 0x46])) == [0x64, 0x49, 0x45, 0x54, 0x46]
    ensures Write(Array([Int(1), Int(2), Int(3)])) == [0x83, 0x01, 0x02, 0x03]
    ensures Write(Map([Field(Int(1), Int(2)), Field(Int(3), Int(4))])) == [0xA2, 0x01, 0x02, 0x03, 0x04]
    ensures Write(Num(Half(0x3E00))) == [0xF9, 0x3E, 0x00]
  {
    hide Write, WriteItems, WriteFields;
    Example(0, [0x00]);
    Example(23, [0x17]);
    Example(24, [0x18, 0x18]);
    Example(1000, [0x19, 0x03, 0xE8]);
    Example(1000000, [0x1A, 0x00, 0x0F, 0x42, 0x40]);
    Example(-1, [0x20]);
    Example(-10, [0x29]);
    Example(-1000, [0x39, 0x03, 0xE7]);
    Strings();
    Containers();
    WireExactly(Num(Half(0x3E00)));
    assert Write(Num(Half(0x3E00))) == [0xF9, 0x3E, 0x00];
  }

  lemma Example(n: int, s: seq<Byte>)
    requires -0x1_0000_0000 <= n < 0x1_0000_0000 && HeadIs(s, if n >= 0 then 0 else 1, if n >= 0 then n else -1 - n)
    ensures Write(Int(n)) == s
  {
    hide Write, HeadIs;
    WireExactly(Int(n));
    SameHead(Write(Int(n)), s, if n >= 0 then 0 else 1, if n >= 0 then n else -1 - n);
  }

  lemma SameHead(s: seq<Byte>, t: seq<Byte>, major: nat, n: nat)
    requires n < 0x1_0000_0000 && HeadIs(s, major, n) && HeadIs(t, major, n)
    ensures s == t
  {
    if 0x100 <= n < 0x1_0000 {
      SameDigits(s[1], s[2], t[1], t[2]);
    } else if n >= 0x1_0000 {
      SameDigits(0x1_0000 * s[1] as int + 0x100 * s[2] as int + s[3], s[4], 0x1_0000 * t[1] as int + 0x100 * t[2] as int + t[3], t[4]);
      SameDigits(0x100 * s[1] as int + s[2], s[3], 0x100 * t[1] as int + t[2], t[3]);
      SameDigits(s[1], s[2], t[1], t[2]);
    }
  }

  lemma SameDigits(x: nat, d: nat, y: nat, e: nat)
    requires d < 0x100 && e < 0x100 && 0x100 * x + d == 0x100 * y + e
    ensures x == y && d == e
  {
  }

  lemma Strings()
    ensures Write(Bstr([0x01, 0x02, 0x03, 0x04])) == [0x44, 0x01, 0x02, 0x03, 0x04]
    ensures Write(Text([0x49, 0x45, 0x54, 0x46])) == [0x64, 0x49, 0x45, 0x54, 0x46]
  {
  }

  lemma Containers()
    ensures Write(Array([Int(1), Int(2), Int(3)])) == [0x83, 0x01, 0x02, 0x03]
    ensures Write(Map([Field(Int(1), Int(2)), Field(Int(3), Int(4))])) == [0xA2, 0x01, 0x02, 0x03, 0x04]
  {
    hide Write;
    assert Write(Int(1)) == [0x01] && Write(Int(2)) == [0x02] && Write(Int(3)) == [0x03] && Write(Int(4)) == [0x04] by {
      Example(1, [0x01]);
      Example(2, [0x02]);
      Example(3, [0x03]);
      Example(4, [0x04]);
    }
    OneItem(Int(1), Int(1));
    OneItem(Int(2), Int(1));
    OneItem(Int(3), Int(1));
    OneItem(Int(4), Int(3));
    ItemsAppend([Int(1)], [Int(2)]);
    ItemsAppend([Int(1)] + [Int(2)], [Int(3)]);
    assert [Int(1)] + [Int(2)] + [Int(3)] == [Int(1), Int(2), Int(3)];
    FieldsAppend([Field(Int(1), Int(2))], [Field(Int(3), Int(4))]);
    assert [Field(Int(1), Int(2))] + [Field(Int(3), Int(4))] == [Field(Int(1), Int(2)), Field(Int(3), Int(4))];
    ThreeItems([0x01, 0x02, 0x03]);
  }

  lemma ThreeItems(rest: seq<Byte>)
    requires WriteItems([Int(1), Int(2), Int(3)]) == rest
    requires WriteFields([Field(Int(1), Int(2)), Field(Int(3), Int(4))]) == rest + [0x04]
    ensures Write(Array([Int(1), Int(2), Int(3)])) == [0x83] + rest
    ensures Write(Map([Field(Int(1), Int(2)), Field(Int(3), Int(4))])) == [0xA2] + (rest + [0x04])
  {
    hide WriteItems, WriteFields;
  }
}
