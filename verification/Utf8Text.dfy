/** The texts CBOR strings may hold: UTF-8, as section 3 of RFC 3629 defines it. */
module Utf8Text {
  import opened Bytes
  import opened CborValue

  /** A Unicode scalar value: no surrogate, nothing past 10FFFF. */
  predicate Scalar(c: nat) { c < 0xD800 || 0xE000 <= c < 0x11_0000 }

  function Encoded(c: nat): seq<Byte>
    requires Scalar(c)
  {
    if c < 0x80 then [c]
    else if c < 0x800 then [0xC0 + c / 0x40, 0x80 + c % 0x40]
    else if c < 0x1_0000 then [0xE0 + c / 0x1000, 0x80 + c / 0x40 % 0x40, 0x80 + c % 0x40]
    else [0xF0 + c / 0x4_0000, 0x80 + c / 0x1000 % 0x40, 0x80 + c / 0x40 % 0x40, 0x80 + c % 0x40]
  }

  function EncodedAll(cs: seq<nat>): seq<Byte>
    requires forall c :: c in cs ==> Scalar(c)
  {
    if cs == [] then [] else Encoded(cs[0]) + EncodedAll(cs[1..])
  }

  lemma OneIsUtf8(c: nat, rest: seq<Byte>)
    requires Scalar(c)
    ensures Utf8(Encoded(c) + rest) == Utf8(rest)
  {
    hide Utf8;
    if c < 0x80 {
      OneByte(c, rest);
    } else if c < 0x800 {
      TwoBytes(c / 0x40, c % 0x40, rest);
    } else if c < 0x1_0000 {
      assert c / 0x40 % 0x40 == c / 0x40 - c / 0x1000 * 0x40;
      ThreeBytes(c / 0x1000, c / 0x40 % 0x40, c % 0x40, rest);
    } else {
      assert c / 0x1000 % 0x40 == c / 0x1000 - c / 0x4_0000 * 0x40;
      FourBytes(c / 0x4_0000, c / 0x1000 % 0x40, c / 0x40 % 0x40, c % 0x40, rest);
    }
  }

  lemma OneByte(a: nat, rest: seq<Byte>)
    requires a < 0x80
    ensures Utf8([a] + rest) == Utf8(rest)
  {
    assert ([a] + rest)[1..] == rest;
  }

  lemma TwoBytes(a: nat, b: nat, rest: seq<Byte>)
    requires 2 <= a < 0x20 && b < 0x40
    ensures Utf8([0xC0 + a, 0x80 + b] + rest) == Utf8(rest)
  {
    assert ([0xC0 + a, 0x80 + b] + rest)[2..] == rest;
  }

  lemma ThreeBytes(a: nat, b: nat, d: nat, rest: seq<Byte>)
    requires a < 0x10 && b < 0x40 && d < 0x40 && (a == 0 ==> b >= 0x20) && (a == 0xD ==> b < 0x20)
    ensures Utf8([0xE0 + a, 0x80 + b, 0x80 + d] + rest) == Utf8(rest)
  {
    assert ([0xE0 + a, 0x80 + b, 0x80 + d] + rest)[3..] == rest;
  }

  lemma FourBytes(a: nat, b: nat, d: nat, e: nat, rest: seq<Byte>)
    requires a < 5 && b < 0x40 && d < 0x40 && e < 0x40 && (a == 0 ==> b >= 0x10) && (a == 4 ==> b < 0x10)
    ensures Utf8([0xF0 + a, 0x80 + b, 0x80 + d, 0x80 + e] + rest) == Utf8(rest)
  {
    assert ([0xF0 + a, 0x80 + b, 0x80 + d, 0x80 + e] + rest)[4..] == rest;
  }

  lemma {:induction false} EncodedIsUtf8(cs: seq<nat>)
    requires forall c :: c in cs ==> Scalar(c)
    ensures Utf8(EncodedAll(cs))
  {
    hide Encoded;
    if cs != [] {
      EncodedIsUtf8(cs[1..]);
      OneIsUtf8(cs[0], EncodedAll(cs[1..]));
    } else {
      assert Utf8([]);
    }
  }

  /** The first character of a well-formed text. */
  lemma FirstScalar(s: seq<Byte>) returns (c: nat)
    requires s != [] && Utf8(s)
    ensures Scalar(c) && |Encoded(c)| <= |s| && s[..|Encoded(c)|] == Encoded(c) && Utf8(s[|Encoded(c)|..])
  {
    if s[0] < 0x80 {
      c := s[0];
    } else if s[0] < 0xE0 {
      c := Two(s[0] - 0xC0, s[1] - 0x80);
    } else if s[0] < 0xF0 {
      c := Three(s[0] - 0xE0, s[1] - 0x80, s[2] - 0x80);
    } else {
      c := Four(s[0] - 0xF0, s[1] - 0x80, s[2] - 0x80, s[3] - 0x80);
    }
  }

  lemma Two(a: nat, b: nat) returns (c: nat)
    requires 2 <= a < 0x20 && b < 0x40
    ensures Scalar(c) && Encoded(c) == [0xC0 + a, 0x80 + b]
  {
    c := 0x40 * a + b;
  }

  lemma Three(a: nat, b: nat, d: nat) returns (c: nat)
    requires a < 0x10 && b < 0x40 && d < 0x40 && (a == 0 ==> b >= 0x20) && (a == 0xD ==> b < 0x20)
    ensures Scalar(c) && Encoded(c) == [0xE0 + a, 0x80 + b, 0x80 + d]
  {
    c := 0x1000 * a + 0x40 * b + d;
    assert c / 0x40 == 0x40 * a + b;
  }

  lemma Four(a: nat, b: nat, d: nat, e: nat) returns (c: nat)
    requires a < 5 && b < 0x40 && d < 0x40 && e < 0x40 && (a == 0 ==> b >= 0x10) && (a == 4 ==> b < 0x10)
    ensures Scalar(c) && Encoded(c) == [0xF0 + a, 0x80 + b, 0x80 + d, 0x80 + e]
  {
    c := 0x4_0000 * a + 0x1000 * b + 0x40 * d + e;
    assert c / 0x40 == 0x1000 * a + 0x40 * b + d && c / 0x1000 == 0x40 * a + b;
  }

  lemma {:induction false} Utf8IsEncoded(s: seq<Byte>) returns (cs: seq<nat>)
    requires Utf8(s)
    ensures (forall c :: c in cs ==> Scalar(c)) && EncodedAll(cs) == s
    decreases |s|
  {
    hide Encoded, Utf8;
    if s == [] {
      cs := [];
    } else {
      var c := FirstScalar(s);
      assert Encoded(c) != [] by { NotEmpty(c); }
      var rest := Utf8IsEncoded(s[|Encoded(c)|..]);
      cs := [c] + rest;
      assert cs[1..] == rest && s == s[..|Encoded(c)|] + s[|Encoded(c)|..];
    }
  }

  lemma NotEmpty(c: nat)
    requires Scalar(c)
    ensures Encoded(c) != []
  {
  }

  ghost predicate IsText(s: seq<Byte>) { exists cs: seq<nat> :: (forall c :: c in cs ==> Scalar(c)) && EncodedAll(cs) == s }

  /** A byte string is a text exactly when it is the encoding of some scalar values. */
  lemma Utf8Exactly(s: seq<Byte>)
    ensures Utf8(s) <==> IsText(s)
  {
    hide Utf8, EncodedAll;
    if Utf8(s) {
      var cs := Utf8IsEncoded(s);
    }
    if cs: seq<nat> :| (forall c :: c in cs ==> Scalar(c)) && EncodedAll(cs) == s {
      EncodedIsUtf8(cs);
    }
  }
}
