/** Bytes, the fixed-width integers laid out in them, and their lexicographic order. */
module Bytes {
  type Byte = n: nat | n < 256

  function Pow256(k: nat): (p: nat)
    ensures p > 0
  {
    if k == 0 then 1 else 256 * Pow256(k - 1)
  }

  function Pow2(k: nat): (p: nat)
    ensures p > 0
  {
    if k == 0 then 1 else 2 * Pow2(k - 1)
  }

  /** The `k` low bytes of `n`, most significant first (`to_be_bytes`). */
  function BE(n: nat, k: nat): (s: seq<Byte>)
    ensures |s| == k
    decreases k, n
  {
    if k == 0 then [] else BE(n / 256, k - 1) + [n % 256]
  }

  function FromBE(s: seq<Byte>): nat {
    if s == [] then 0 else 256 * FromBE(s[..|s| - 1]) + s[|s| - 1]
  }

  lemma {:induction false} FromBEOfBE(n: nat, k: nat)
    requires n < Pow256(k)
    ensures FromBE(BE(n, k)) == n
    decreases k
  {
    if k > 0 {
      FromBEOfBE(n / 256, k - 1);
      assert BE(n, k)[..k - 1] == BE(n / 256, k - 1);
    }
  }

  lemma {:induction false} BEOfFromBE(s: seq<Byte>)
    ensures FromBE(s) < Pow256(|s|)
    ensures BE(FromBE(s), |s|) == s
  {
    if s != [] {
      BEOfFromBE(s[..|s| - 1]);
    }
  }

  /** The `k` low bytes of `n`, least significant first (`to_le_bytes`). */
  function LE(n: nat, k: nat): (s: seq<Byte>)
    ensures |s| == k
    decreases k, n
  {
    if k == 0 then [] else [n % 256] + LE(n / 256, k - 1)
  }

  function FromLE(s: seq<Byte>): nat {
    if s == [] then 0 else s[0] + 256 * FromLE(s[1..])
  }

  lemma {:induction false} FromLEOfLE(n: nat, k: nat)
    requires n < Pow256(k)
    ensures FromLE(LE(n, k)) == n
    decreases k
  {
    if k > 0 {
      FromLEOfLE(n / 256, k - 1);
      assert LE(n, k)[1..] == LE(n / 256, k - 1);
    }
  }

  lemma {:induction false} FromLEBound(s: seq<Byte>)
    ensures FromLE(s) < Pow256(|s|)
  {
    if s != [] {
      FromLEBound(s[1..]);
    }
  }

  /** Slice order of byte strings (`Ord for [u8]`): a proper prefix comes first. */
  predicate LexLt(a: seq<Byte>, b: seq<Byte>) {
    b != [] && (a == [] || a[0] < b[0] || (a[0] == b[0] && LexLt(a[1..], b[1..])))
  }

  lemma {:induction false} LexIrreflexive(a: seq<Byte>)
    ensures !LexLt(a, a)
  {
    if a != [] {
      LexIrreflexive(a[1..]);
    }
  }

  lemma {:induction false} LexTransitive(a: seq<Byte>, b: seq<Byte>, c: seq<Byte>)
    requires LexLt(a, b) && LexLt(b, c)
    ensures LexLt(a, c)
  {
    if a != [] && a[0] == b[0] == c[0] {
      LexTransitive(a[1..], b[1..], c[1..]);
    }
  }

  lemma {:induction false} LexTrichotomy(a: seq<Byte>, b: seq<Byte>)
    ensures LexLt(a, b) || a == b || LexLt(b, a)
  {
    if a != [] && b != [] && a[0] == b[0] {
      LexTrichotomy(a[1..], b[1..]);
      assert a == [a[0]] + a[1..] && b == [b[0]] + b[1..];
    }
  }

  // ----- division

  lemma Scale(x: nat, y: nat, p: nat)
    requires x <= y
    ensures x * p <= y * p
  {
  }

  /** Quotient and remainder are unique. */
  lemma Division(n: nat, p: nat, q: nat, r: nat)
    requires r < p
    ensures n == q * p + r <==> n / p == q && n % p == r
  {
    if n == q * p + r {
      var c := n / p - q;
      assert c * p == n / p * p - q * p;
      if c < 0 {
        Scale(1, -c, p);
      } else if c > 0 {
        Scale(1, c, p);
      }
    }
  }

  /** Dividing twice is dividing once by the product. */
  lemma DivideTwice(n: nat, k: nat, p: nat)
    requires k > 0 && p > 0
    ensures k * p > 0 && n / (k * p) == n / k / p
  {
    Remains(n, k);
    Remains(n / k, p);
    Product(k, p, n / k / p, n / k % p, n % k);
    Twice(n, k * p, n / k / p, n / k % p * k + n % k);
  }

  lemma Remains(n: nat, p: nat)
    requires p > 0
    ensures n == n / p * p + n % p && n % p < p
  {
  }

  lemma Twice(n: nat, m: nat, x: nat, r: nat)
    requires r < m && n == x * m + r
    ensures n / m == x
  {
    Division(n, m, x, r);
  }

  lemma Product(k: nat, p: nat, x: nat, r: nat, t: nat)
    requires r < p && t < k
    ensures k * p > 0 && r * k + t < k * p && (x * p + r) * k + t == x * (k * p) + (r * k + t)
  {
    Scale(r + 1, p, k);
    assert (r + 1) * k == r * k + k;
    assert (x * p + r) * k == x * p * k + r * k;
    assert x * p * k == x * (k * p);
  }
}
