/** Why a number has one name: a wide float narrows to exactly the shorter float of the same sign and size
    (IEEE 754, sections 3.4 and 3.6), which is what "shortest form that preserves the value" asks of the writer of
    `crates/ink-format/src/cbor.rs` (RFC 8949, section 4.2.1). */
module FloatWidths {
  import opened Bytes
  import opened Results
  import opened CborValue

  // ----- what the bits of a float denote

  /** A significand times a power of two. */
  datatype Size = Size(sig: nat, exp: int)

  predicate Equal(a: Size, b: Size) {
    if a.exp <= b.exp then a.sig == b.sig * Pow2(b.exp - a.exp) else a.sig * Pow2(a.exp - b.exp) == b.sig
  }

  /** A finite float with `one` as its hidden bit and `low` as the exponent of its smallest number. */
  function SizeOf(exp: nat, frac: nat, one: nat, low: int): Size {
    if exp == 0 then Size(frac, low) else Size(one + frac, low + exp - 1)
  }

  function HalfSize(h: nat): Size { SizeOf(h / 0x400 % 0x20, h % 0x400, 0x400, -24) }
  function SingleSize(s: nat): Size { SizeOf(s / 0x80_0000 % 0x100, s % 0x80_0000, 0x80_0000, -149) }
  function DoubleSize(d: nat): Size { SizeOf(d / 0x10_0000_0000_0000 % 0x800, d % 0x10_0000_0000_0000, 0x10_0000_0000_0000, -1074) }

  // ----- powers of two

  lemma {:induction false} PowAdds(a: nat, b: nat)
    ensures Pow2(a + b) == Pow2(a) * Pow2(b)
  {
    if a == 0 {
    } else {
      PowAdds(a - 1, b);
      Associates(Pow2(a - 1), Pow2(b));
    }
  }

  lemma Associates(x: nat, y: nat)
    ensures 2 * (x * y) == (2 * x) * y
  {
  }

  lemma PowGrows(a: nat, b: nat)
    requires a < b
    ensures 2 * Pow2(a) <= Pow2(b)
  {
    PowAdds(a, b - a);
    PowAdds(1, b - a - 1);
    var k := Pow2(b - a - 1);
    assert Pow2(b - a) == 2 * k;
    Multiple(Pow2(a), k);
  }

  lemma Multiple(x: nat, k: nat)
    requires k >= 1
    ensures x * (2 * k) >= 2 * x
  {
  }

  // ----- narrowing, for any two widths

  /** What the narrowing functions do with an exponent `e` and a fraction `f`, for a narrow width of `bits` fraction
      bits and `more` of them in the wide one. */
  predicate Narrows(bits: nat, more: nat, off: nat, top: nat, e: nat, f: nat, h: nat, g: nat)
    requires bits <= off
  {
    if e == 0 && f == 0 then h == 0 && g == 0
    else if off + 1 <= e <= off + top && f % Pow2(more) == 0 then h == e - off && g == f / Pow2(more)
    else if off + 1 - bits <= e <= off && (Pow2(bits + more) + f) % Pow2(off + more + 1 - e) == 0 then
      h == 0 && g == (Pow2(bits + more) + f) / Pow2(off + more + 1 - e) % Pow2(bits)
    else false
  }

  /** The two numbers, the narrow one first. */
  predicate Same(bits: nat, more: nat, off: nat, e: nat, f: nat, h: nat, g: nat, low: int) {
    Equal(SizeOf(h, g, Pow2(bits), low), SizeOf(e, f, Pow2(bits + more), low - off - more))
  }

  predicate Sized(bits: nat, more: nat, off: nat, top: nat, e: nat, f: nat, h: nat, g: nat) {
    bits <= off && f < Pow2(bits + more) && g < Pow2(bits) && h <= top && more > 0
  }

  lemma ZeroSame(bits: nat, more: nat, off: nat, top: nat, e: nat, f: nat, h: nat, g: nat, low: int)
    requires Sized(bits, more, off, top, e, f, h, g) && e == 0
    ensures Same(bits, more, off, e, f, h, g, low) <==> f == 0 && h == 0 && g == 0
  {
    hide Pow2;
    var m, d := if h == 0 then g else Pow2(bits) + g, (if h == 0 then 0 else h - 1) + off + more;
    assert Same(bits, more, off, e, f, h, g, low) <==> f == m * Pow2(d);
    if m >= 1 {
      Scale(1, m, Pow2(d));
      if d > bits + more {
        PowGrows(bits + more, d);
      }
    }
  }

  lemma TooHigh(a: nat, p: nat, q: nat, f: nat, g: nat)
    requires f < a * p && 2 * p <= q
    ensures a * p + f < (a + g) * q
  {
    Scale(a, a + g, q);
    Scale(2 * p, q, a);
    assert 2 * p * a == 2 * (a * p);
  }

  lemma TooLow(a: nat, p: nat, q: nat, f: nat, g: nat)
    requires g < a && 2 * q <= p && q > 0
    ensures (a + g) * q < a * p + f
  {
    Scale(a + g + 1, 2 * a, q);
    assert (a + g + 1) * q == (a + g) * q + q;
    Scale(2 * q, p, a);
    assert 2 * q * a == 2 * a * q;
  }

  lemma FarTooLow(a: nat, p: nat, q: nat, f: nat, g: nat)
    requires g < a && 2 <= p && q > 0
    ensures a + g < (a * p + f) * q
  {
    Scale(1, q, a * p + f);
    Scale(2, p, a);
  }

  /** The significands a power of two apart. */
  predicate Apart(wide: nat, narrow: nat, d: int) {
    if d >= 0 then wide == narrow * Pow2(d) else wide * Pow2(-d) == narrow
  }

  lemma SameIsApart(bits: nat, more: nat, off: nat, e: nat, f: nat, h: nat, g: nat, low: int)
    ensures Same(bits, more, off, e, f, h, g, low) <==>
              Apart(if e == 0 then f else Pow2(bits + more) + f, if h == 0 then g else Pow2(bits) + g,
                    (if h == 0 then 1 else h) - (if e == 0 then 1 else e) + off + more)
  {
    hide Pow2;
    PowZero();
  }

  lemma NormalApart(bits: nat, more: nat, f: nat, g: nat, d: int)
    requires f < Pow2(bits + more) && g < Pow2(bits) && more > 0
    ensures Apart(Pow2(bits + more) + f, Pow2(bits) + g, d) <==> d == more && f == g * Pow2(more)
  {
    hide Pow2;
    var a, p := Pow2(bits), Pow2(more);
    PowAdds(bits, more);
    PowZero();
    PowGrows(0, more);
    if d > more {
      PowGrows(more, d);
      TooHigh(a, p, Pow2(d), f, g);
    } else if d == more {
      assert (a + g) * p == a * p + g * p;
    } else if d >= 0 {
      PowGrows(d, more);
      TooLow(a, p, Pow2(d), f, g);
    } else {
      FarTooLow(a, p, Pow2(-d), f, g);
    }
  }

  lemma NotReached(n: nat, q: nat, g: nat)
    requires 0 < n < q
    ensures n != g * q
  {
    if g >= 1 {
      Scale(1, g, q);
    }
  }

  lemma Exceeded(a: nat, p: nat, q: nat, g: nat, n: nat)
    requires g < a && 0 < q <= p && a * p <= n
    ensures g * q < n
  {
    Scale(g + 1, a, q);
    Scale(q, p, a);
    assert (g + 1) * q == g * q + q;
  }

  lemma Raised(a: nat, p: nat, q: nat, g: nat, n: nat)
    requires g < a && 0 < q && 0 < p && a * p <= n
    ensures g < n * q
  {
    Scale(1, q, n);
    Scale(1, p, a);
  }

  lemma Falls(a: nat, p: nat, q: nat, n: nat)
    requires n < 2 * (a * p) && 2 * p <= q
    ensures n / q < a
  {
    var c := n / q;
    assert c * q <= n;
    assert 2 * p * a == 2 * (a * p);
    if c >= a {
      Scale(a, c, q);
      Scale(2 * p, q, a);
    }
  }

  /** A normal number beside one below the narrow width's normal range. */
  lemma SubnormalApart(bits: nat, more: nat, f: nat, g: nat, d: int)
    requires f < Pow2(bits + more) && g < Pow2(bits) && more > 0
    ensures Apart(Pow2(bits + more) + f, g, d) <==>
              more < d <= bits + more && (Pow2(bits + more) + f) % Pow2(d) == 0 && g == (Pow2(bits + more) + f) / Pow2(d)
    ensures more < d ==> (Pow2(bits + more) + f) / Pow2(d) < Pow2(bits)
  {
    hide Pow2;
    var a, p, n := Pow2(bits), Pow2(more), Pow2(bits + more) + f;
    PowAdds(bits, more);
    if d > more {
      PowGrows(more, d);
      Falls(a, p, Pow2(d), n);
    }
    if d > bits + more {
      PowGrows(bits + more, d);
      NotReached(n, Pow2(d), g);
    } else if d > more {
      Division(n, Pow2(d), g, 0);
    } else if d >= 0 {
      if d < more {
        PowGrows(d, more);
      }
      Exceeded(a, p, Pow2(d), g, n);
    } else {
      Raised(a, p, Pow2(-d), g, n);
    }
  }

  lemma PowZero()
    ensures Pow2(0) == 1
  {
  }

  lemma NarrowsNormal(bits: nat, more: nat, off: nat, top: nat, e: nat, f: nat, h: nat, g: nat, low: int)
    requires Sized(bits, more, off, top, e, f, h, g) && e > 0 && h > 0
    ensures Narrows(bits, more, off, top, e, f, h, g) <==> Same(bits, more, off, e, f, h, g, low)
  {
    hide Pow2, Same, Apart;
    SameIsApart(bits, more, off, e, f, h, g, low);
    NormalApart(bits, more, f, g, h - e + off + more);
    Division(f, Pow2(more), g, 0);
  }

  lemma NarrowsSubnormal(bits: nat, more: nat, off: nat, top: nat, e: nat, f: nat, g: nat, low: int)
    requires Sized(bits, more, off, top, e, f, 0, g) && e > 0
    ensures Narrows(bits, more, off, top, e, f, 0, g) <==> Same(bits, more, off, e, f, 0, g, low)
  {
    hide Pow2, Same, Apart;
    SameIsApart(bits, more, off, e, f, 0, g, low);
    var d := off + more + 1 - e;
    SubnormalApart(bits, more, f, g, d);
    if d > more {
      Remainder((Pow2(bits + more) + f) / Pow2(d), Pow2(bits));
    }
  }

  lemma Remainder(x: nat, y: nat)
    requires x < y
    ensures x % y == x
  {
  }

  /** In all widths: narrowing gives the number of the same size, if there is one. */
  lemma NarrowsExactly(bits: nat, more: nat, off: nat, top: nat, e: nat, f: nat, h: nat, g: nat, low: int)
    requires Sized(bits, more, off, top, e, f, h, g)
    ensures Narrows(bits, more, off, top, e, f, h, g) <==> Same(bits, more, off, e, f, h, g, low)
  {
    hide Pow2, Same, Apart;
    if e == 0 {
      ZeroSame(bits, more, off, top, e, f, h, g, low);
    } else if h > 0 {
      NarrowsNormal(bits, more, off, top, e, f, h, g, low);
    } else {
      NarrowsSubnormal(bits, more, off, top, e, f, g, low);
    }
  }

  // ----- the two narrowings of the writer

  lemma Powers()
    ensures Pow2(10) == 0x400 && Pow2(13) == 0x2000 && Pow2(23) == 0x80_0000
    ensures Pow2(29) == 0x2000_0000 && Pow2(52) == 0x10_0000_0000_0000
  {
    assert Pow2(10) == 0x400;
    PowAdds(10, 3);
    PowAdds(10, 13);
    PowAdds(6, 23);
    PowAdds(23, 29);
  }

  /** Sign, exponent and fraction put together and taken apart. */
  lemma Assembled(sign: nat, e: nat, f: nat, x: nat, one: nat, exps: nat)
    requires one > 0 && exps > 0 && sign < 2 && e < exps && f < one
    ensures x == sign * (exps * one) + e * one + f <==> x / one / exps == sign && x / one % exps == e && x % one == f
  {
    Division(sign * (exps * one) + e * one, one, sign * exps + e, 0);
    assert sign * (exps * one) + e * one == (sign * exps + e) * one;
    Division(x, one, sign * exps + e, f);
    Division(x / one, exps, sign, e);
  }

  lemma Halved(sign: nat, e: nat, f: nat, h: nat)
    requires sign < 2 && e < 0x20 && f < 0x400
    ensures h == sign * 0x8000 + e * 0x400 + f <==> h / 0x8000 == sign && h / 0x400 % 0x20 == e && h % 0x400 == f
  {
    Assembled(sign, e, f, h, 0x400, 0x20);
  }

  lemma SingleNarrows(s: nat, h: nat)
    requires s < 0x1_0000_0000 && h < 0x1_0000 && h / 0x400 % 0x20 <= 30
    ensures NarrowSingle(s) == Some(h) <==>
              h / 0x8000 == s / 0x8000_0000
              && Narrows(10, 13, 112, 30, s / 0x80_0000 % 0x100, s % 0x80_0000, h / 0x400 % 0x20, h % 0x400)
  {
    hide Pow2;
    Powers();
    var sign, e, f := s / 0x8000_0000, s / 0x80_0000 % 0x100, s % 0x80_0000;
    if e == 0 && f == 0 {
      Halved(sign, 0, 0, h);
    } else if 113 <= e <= 142 && f % 0x2000 == 0 {
      Halved(sign, e - 112, f / 0x2000, h);
    } else if 103 <= e <= 112 && (0x80_0000 + f) % Pow2(126 - e) == 0 {
      Halved(sign, 0, (0x80_0000 + f) / Pow2(126 - e) % 0x400, h);
    }
  }

  lemma SingleInRange(s: nat)
    requires s < 0x1_0000_0000 && NarrowSingle(s).Some?
    ensures Single(s).Finite() && NarrowSingle(s).value < 0x1_0000 && Half(NarrowSingle(s).value).Finite()
  {
    hide Pow2;
    var e, f := s / 0x80_0000 % 0x100, s % 0x80_0000;
    if 103 <= e <= 112 {
      assert (0x80_0000 + f) / Pow2(126 - e) % 0x400 < 0x400;
    }
  }

  /** A binary32 number is narrowed exactly to the finite binary16 number of its sign and size. */
  lemma NarrowSingleExactly(s: nat, h: nat)
    requires s < 0x1_0000_0000
    ensures NarrowSingle(s) == Some(h) <==>
              h < 0x1_0000 && Half(h).Finite() && Single(s).Finite() && h / 0x8000 == s / 0x8000_0000
              && Equal(HalfSize(h), SingleSize(s))
  {
    hide NarrowSingle, Narrows, Equal;
    if NarrowSingle(s).Some? {
      SingleInRange(s);
    }
    if h < 0x1_0000 && Half(h).Finite() {
      SingleNarrows(s, h);
      Powers();
      NarrowsExactly(10, 13, 112, 30, s / 0x80_0000 % 0x100, s % 0x80_0000, h / 0x400 % 0x20, h % 0x400, -24);
    }
  }

  lemma Doubled(sign: nat, e: nat, f: nat, s: nat)
    requires sign < 2 && e < 0x100 && f < 0x80_0000
    ensures s == sign * 0x8000_0000 + e * 0x80_0000 + f <==> s / 0x8000_0000 == sign && s / 0x80_0000 % 0x100 == e && s % 0x80_0000 == f
  {
    Assembled(sign, e, f, s, 0x80_0000, 0x100);
  }

  lemma DoubleNarrows(d: nat, s: nat)
    requires d < 0x1_0000_0000_0000_0000 && s < 0x1_0000_0000 && s / 0x80_0000 % 0x100 <= 254
    ensures NarrowDouble(d) == Some(s) <==>
              s / 0x8000_0000 == d / 0x8000_0000_0000_0000
              && Narrows(23, 29, 896, 254, d / 0x10_0000_0000_0000 % 0x800, d % 0x10_0000_0000_0000, s / 0x80_0000 % 0x100, s % 0x80_0000)
  {
    hide Pow2;
    Powers();
    var sign, e, f := d / 0x8000_0000_0000_0000, d / 0x10_0000_0000_0000 % 0x800, d % 0x10_0000_0000_0000;
    if e == 0 && f == 0 {
      Doubled(sign, 0, 0, s);
    } else if 897 <= e <= 1150 && f % 0x2000_0000 == 0 {
      Doubled(sign, e - 896, f / 0x2000_0000, s);
    } else if 874 <= e <= 896 && (0x10_0000_0000_0000 + f) % Pow2(926 - e) == 0 {
      Doubled(sign, 0, (0x10_0000_0000_0000 + f) / Pow2(926 - e) % 0x80_0000, s);
    }
  }

  lemma DoubleInRange(d: nat)
    requires d < 0x1_0000_0000_0000_0000 && NarrowDouble(d).Some?
    ensures Double(d).Finite() && NarrowDouble(d).value < 0x1_0000_0000 && Single(NarrowDouble(d).value).Finite()
  {
    hide Pow2;
    var s, sign := NarrowDouble(d).value, d / 0x8000_0000_0000_0000;
    var e, f := d / 0x10_0000_0000_0000 % 0x800, d % 0x10_0000_0000_0000;
    if e == 0 && f == 0 {
      Doubled(sign, 0, 0, s);
    } else if 897 <= e <= 1150 && f % 0x2000_0000 == 0 {
      Doubled(sign, e - 896, f / 0x2000_0000, s);
    } else {
      Doubled(sign, 0, (0x10_0000_0000_0000 + f) / Pow2(926 - e) % 0x80_0000, s);
    }
  }

  /** A binary64 number is narrowed exactly to the finite binary32 number of its sign and size. */
  lemma NarrowDoubleExactly(d: nat, s: nat)
    requires d < 0x1_0000_0000_0000_0000
    ensures NarrowDouble(d) == Some(s) <==>
              s < 0x1_0000_0000 && Single(s).Finite() && Double(d).Finite() && s / 0x8000_0000 == d / 0x8000_0000_0000_0000
              && Equal(SingleSize(s), DoubleSize(d))
  {
    hide NarrowDouble, Narrows, Equal;
    if NarrowDouble(d).Some? {
      DoubleInRange(d);
    }
    if s < 0x1_0000_0000 && Single(s).Finite() {
      DoubleNarrows(d, s);
      Powers();
      NarrowsExactly(23, 29, 896, 254, d / 0x10_0000_0000_0000 % 0x800, d % 0x10_0000_0000_0000, s / 0x80_0000 % 0x100, s % 0x80_0000,
                     -149);
    }
  }

  // ----- the one name of a number

  predicate HalfOf(h: nat, s: nat) {
    h < 0x1_0000 && Half(h).Finite() && Single(s).Finite() && h / 0x8000 == s / 0x8000_0000 && Equal(HalfSize(h), SingleSize(s))
  }

  predicate SingleOf(s: nat, d: nat) {
    && s < 0x1_0000_0000 && Single(s).Finite() && Double(d).Finite() && s / 0x8000_0000 == d / 0x8000_0000_0000_0000
    && Equal(SingleSize(s), DoubleSize(d))
  }

  /** A float may be written in a width exactly when no number of the next shorter width has its sign and size. */
  lemma ShortestExactly(f: Float)
    ensures f.Valid() <==>
              match f
              case Half(h) => h < 0x1_0000
              case Single(s) => s < 0x1_0000_0000 && forall h: nat :: !HalfOf(h, s)
              case Double(d) => d < 0x1_0000_0000_0000_0000 && forall s: nat :: !SingleOf(s, d)
  {
    hide NarrowSingle, NarrowDouble, Equal;
    match f
    case Half(_) =>
    case Single(s) =>
      if s < 0x1_0000_0000 {
        forall h: nat
          ensures HalfOf(h, s) <==> NarrowSingle(s) == Some(h)
        {
          NarrowSingleExactly(s, h);
        }
      }
    case Double(d) =>
      if d < 0x1_0000_0000_0000_0000 {
        forall s: nat
          ensures SingleOf(s, d) <==> NarrowDouble(d) == Some(s)
        {
          NarrowDoubleExactly(d, s);
        }
      }
  }
}
