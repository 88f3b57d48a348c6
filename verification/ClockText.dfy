/** The text form of the clock in `crates/notes-core/src/hlc.rs`: printing, parsing and order. */
module ClockText {
  import opened Results
  import opened HybridClock
  import B = Bytes

  // ----- strings

  /** Order of ASCII strings, as of their bytes. */
  predicate Precedes(a: string, b: string) {
    b != [] && (a == [] || a[0] < b[0] || (a[0] == b[0] && Precedes(a[1..], b[1..])))
  }

  lemma {:induction false} PrecedesParts(a: string, b: string, x: string, y: string)
    requires |a| == |b|
    ensures Precedes(a + x, b + y) <==> Precedes(a, b) || (a == b && Precedes(x, y))
  {
    if a == [] {
      assert a + x == x && b + y == y;
    } else {
      assert (a + x)[1..] == a[1..] + x && (b + y)[1..] == b[1..] + y;
      PrecedesParts(a[1..], b[1..], x, y);
      assert a == [a[0]] + a[1..] && b == [b[0]] + b[1..];
    }
  }

  lemma {:induction false} PrecedesNotSelf(a: string)
    ensures !Precedes(a, a)
  {
    if a != [] {
      PrecedesNotSelf(a[1..]);
    }
  }

  // ----- hexadecimal numbers

  function Pow16(k: nat): (p: nat)
    ensures p > 0
  {
    if k == 0 then 1 else 16 * Pow16(k - 1)
  }

  const DIGITS: string := "0123456789abcdef"

  function Digit(d: nat): char
    requires d < 16
  {
    DIGITS[d]
  }

  /** Lower and upper case digits are read alike. */
  function DigitValue(c: char): Option<nat> {
    if '0' <= c <= '9' then Some(c as int - '0' as int)
    else if 'a' <= c <= 'f' then Some(c as int - 'a' as int + 10)
    else if 'A' <= c <= 'F' then Some(c as int - 'A' as int + 10)
    else None
  }

  lemma DigitReads(d: nat)
    requires d < 16
    ensures DigitValue(Digit(d)) == Some(d) && Digit(d) != '-' && Digit(d) != '+'
  {
  }

  lemma DigitOrder(a: nat, b: nat)
    requires a < 16 && b < 16
    ensures Digit(a) < Digit(b) <==> a < b
    ensures Digit(a) == Digit(b) <==> a == b
  {
  }

  /** `{:0kx}` of a number that fits `k` digits. */
  function Hex(n: nat, k: nat): (s: string)
    requires n < Pow16(k)
    ensures |s| == k
    decreases k
  {
    if k == 0 then [] else Hex(n / 16, k - 1) + [Digit(n % 16)]
  }

  /** The number a string of digits denotes. */
  function Value(s: string): Option<nat> {
    if s == [] then Some(0)
    else
      match (Value(s[..|s| - 1]), DigitValue(s[|s| - 1]))
      case (Some(n), Some(d)) => Some(16 * n + d)
      case _ => None
  }

  lemma ValueOfOneMore(s: string, c: char)
    requires Value(s).Some? && DigitValue(c).Some?
    ensures Value(s + [c]) == Some(16 * Value(s).value + DigitValue(c).value)
  {
    var t := s + [c];
    assert t[..|t| - 1] == s;
  }

  lemma {:induction false} HexReads(n: nat, k: nat)
    requires n < Pow16(k)
    ensures Value(Hex(n, k)) == Some(n)
    decreases k
  {
    hide Value, Digit, DigitValue;
    if k > 0 {
      HexReads(n / 16, k - 1);
      DigitReads(n % 16);
      ValueOfOneMore(Hex(n / 16, k - 1), Digit(n % 16));
    } else {
      ValueOfNothing();
    }
  }

  lemma ValueOfNothing()
    ensures Value([]) == Some(0)
  {
  }

  predicate LowerHex(s: string) { forall i :: 0 <= i < |s| ==> s[i] in DIGITS }

  lemma DigitIsLower(d: nat)
    requires d < 16
    ensures Digit(d) in DIGITS
  {
  }

  lemma {:induction false} HexIsLower(n: nat, k: nat)
    requires n < Pow16(k)
    ensures LowerHex(Hex(n, k))
    decreases k
  {
    hide Digit, DIGITS;
    if k > 0 {
      HexIsLower(n / 16, k - 1);
      DigitIsLower(n % 16);
    }
  }

  lemma {:induction false} HexOrder(a: nat, b: nat, k: nat)
    requires a < Pow16(k) && b < Pow16(k)
    ensures Precedes(Hex(a, k), Hex(b, k)) <==> a < b
    ensures Hex(a, k) == Hex(b, k) <==> a == b
    decreases k
  {
    hide DIGITS;
    if k > 0 {
      HexOrder(a / 16, b / 16, k - 1);
      DigitOrder(a % 16, b % 16);
      var x, y := [Digit(a % 16)], [Digit(b % 16)];
      PrecedesParts(Hex(a / 16, k - 1), Hex(b / 16, k - 1), x, y);
      OneCharacter(Digit(a % 16), Digit(b % 16));
      HexReads(a, k);
      HexReads(b, k);
    }
  }

  lemma OneCharacter(c: char, d: char)
    ensures Precedes([c], [d]) <==> c < d
  {
  }

  /** `from_str_radix(_, 16)` into `k` digits' worth of bits: an optional plus sign, then digits. */
  function FromRadix(s: string, k: nat): Option<nat> {
    var digits := if |s| > 1 && s[0] == '+' then s[1..] else s;
    if digits == [] then None
    else
      match Value(digits)
      case Some(n) => if n < Pow16(k) then Some(n) else None
      case None => None
  }

  // ----- printing and parsing

  function Print(h: Hlc): string {
    Sizes();
    Hex(h.wall, 16) + "-" + Hex(h.counter, 8) + "-" + Hex(h.device, 32)
  }

  lemma Sizes()
    ensures Pow16(8) == 0x1_0000_0000 && Pow16(16) == 0x1_0000_0000_0000_0000
    ensures Pow16(32) == 0x1_0000_0000_0000_0000_0000_0000_0000_0000
  {
    assert Pow16(4) == 0x1_0000;
    assert Pow16(12) == 0x1_0000_0000_0000;
    assert Pow16(20) == 0x1_0000_0000_0000_0000_0000;
    assert Pow16(24) == 0x1_0000_0000_0000_0000_0000_0000;
    assert Pow16(28) == 0x1_0000_0000_0000_0000_0000_0000_0000;
  }

  /** The text before and after the first dash. */
  function SplitOnce(s: string): Option<(string, string)> {
    if s == [] then None
    else if s[0] == '-' then Some(([], s[1..]))
    else
      match SplitOnce(s[1..])
      case Some((a, b)) => Some(([s[0]] + a, b))
      case None => None
  }

  lemma {:induction false} SplitAtDash(a: string, b: string)
    requires '-' !in a
    ensures SplitOnce(a + "-" + b) == Some((a, b))
  {
    if a == [] {
      assert (a + "-" + b)[1..] == b;
    } else {
      assert (a + "-" + b)[1..] == a[1..] + "-" + b;
      SplitAtDash(a[1..], b);
      assert a == [a[0]] + a[1..];
    }
  }

  lemma {:induction false} SplitJoins(s: string)
    requires SplitOnce(s).Some?
    ensures var (a, b) := SplitOnce(s).value; s == a + "-" + b && '-' !in a
  {
    if s[0] != '-' {
      SplitJoins(s[1..]);
      var (a, b) := SplitOnce(s[1..]).value;
      assert s == [s[0]] + s[1..];
      assert [s[0]] + (a + "-" + b) == [s[0]] + a + "-" + b;
    } else {
      assert s == "-" + s[1..];
    }
  }

  /** `Hlc::from_str`: two numbers and a device suffix of exactly 32 digits, at most three parts. */
  function Parse(s: string): Option<Hlc> {
    match SplitOnce(s)
    case None => None
    case Some((wallText, rest)) =>
      match (FromRadix(wallText, 16), SplitOnce(rest))
      case (Some(wall), Some((counterText, device))) =>
        (match (FromRadix(counterText, 8), Value(device))
         case (Some(counter), Some(id)) =>
           Sizes();
           if |device| == 32 then
             ValueBound(device);
             Some(Hlc(wall, counter, id))
           else None
         case _ => None)
      case _ => None
  }

  lemma {:induction false} ValueBound(s: string)
    ensures Value(s).Some? ==> Value(s).value < Pow16(|s|)
  {
    if s != [] {
      ValueBound(s[..|s| - 1]);
    }
  }

  lemma HexPlain(n: nat, k: nat)
    requires n < Pow16(k) && k > 0
    ensures '-' !in Hex(n, k) && FromRadix(Hex(n, k), k) == Some(n)
  {
    hide Hex, DIGITS, Value, Pow16;
    HexReads(n, k);
    HexIsLower(n, k);
    var s := Hex(n, k);
    NoSigns();
    assert s[0] in DIGITS;
  }

  lemma NoSigns()
    ensures '-' !in DIGITS && '+' !in DIGITS
  {
  }

  /** Parsing a printed clock returns it. */
  lemma PrintParses(h: Hlc)
    ensures Parse(Print(h)) == Some(h)
  {
    hide Pow16, Hex, FromRadix;
    Sizes();
    var w, c, d := Hex(h.wall, 16), Hex(h.counter, 8), Hex(h.device, 32);
    HexPlain(h.wall, 16);
    HexPlain(h.counter, 8);
    HexReads(h.device, 32);
    assert Print(h) == w + "-" + (c + "-" + d);
    SplitAtDash(w, c + "-" + d);
    SplitAtDash(c, d);
  }

  /** Printed clocks sort as strings exactly as the clocks do. */
  lemma PrintKeepsOrder(a: Hlc, b: Hlc)
    ensures Precedes(Print(a), Print(b)) <==> Less(a, b)
  {
    hide Pow16, Hex, Precedes;
    Sizes();
    var x, y := Hex(a.counter, 8) + "-" + Hex(a.device, 32), Hex(b.counter, 8) + "-" + Hex(b.device, 32);
    assert Print(a) == Hex(a.wall, 16) + ("-" + x) && Print(b) == Hex(b.wall, 16) + ("-" + y);
    PrecedesParts(Hex(a.wall, 16), Hex(b.wall, 16), "-" + x, "-" + y);
    PrecedesParts("-", "-", x, y);
    PrecedesNotSelf("-");
    var u, v := Hex(a.device, 32), Hex(b.device, 32);
    assert x == Hex(a.counter, 8) + ("-" + u) && y == Hex(b.counter, 8) + ("-" + v);
    PrecedesParts(Hex(a.counter, 8), Hex(b.counter, 8), "-" + u, "-" + v);
    PrecedesParts("-", "-", u, v);
    HexOrder(a.wall, b.wall, 16);
    HexOrder(a.counter, b.counter, 8);
    HexOrder(a.device, b.device, 32);
  }

  // ----- texts that are not printed clocks

  /** The fixed-width, lower-case form. */
  predicate Fixed(s: string) {
    |s| == 58 && s[16] == '-' && s[25] == '-' && LowerHex(s[..16]) && LowerHex(s[17..25]) && LowerHex(s[26..])
  }

  lemma {:induction false} LowerHexIsHex(s: string)
    requires LowerHex(s)
    ensures Value(s).Some? && Value(s).value < Pow16(|s|) && Hex(Value(s).value, |s|) == s
  {
    hide Digit, DigitValue, DIGITS;
    ValueBound(s);
    if s == [] {
      ValueOfNothing();
    } else {
      var front, c := s[..|s| - 1], s[|s| - 1];
      assert LowerHex(front);
      LowerHexIsHex(front);
      LowerDigit(c);
      assert s == front + [c];
      ValueOfOneMore(front, c);
      HexOfOneMore(Value(front).value, DigitValue(c).value, |s|);
    }
  }

  lemma HexOfOneMore(n: nat, d: nat, k: nat)
    requires k > 0 && d < 16 && n < Pow16(k - 1)
    ensures 16 * n + d < Pow16(k) && Hex(16 * n + d, k) == Hex(n, k - 1) + [Digit(d)]
  {
    hide Digit;
    assert (16 * n + d) / 16 == n && (16 * n + d) % 16 == d;
  }

  lemma LowerDigit(c: char)
    requires c in DIGITS
    ensures DigitValue(c).Some? && DigitValue(c).value < 16 && Digit(DigitValue(c).value) == c
  {
    var i :| 0 <= i < |DIGITS| && DIGITS[i] == c;
    DigitReads(i);
  }

  lemma PrintIsFixed(h: Hlc)
    ensures Fixed(Print(h))
  {
    hide Pow16, Hex, LowerHex;
    Sizes();
    HexIsLower(h.wall, 16);
    HexIsLower(h.counter, 8);
    HexIsLower(h.device, 32);
    Joined(Hex(h.wall, 16), Hex(h.counter, 8), Hex(h.device, 32));
  }

  lemma Joined(w: string, c: string, d: string)
    requires |w| == 16 && |c| == 8 && |d| == 32
    ensures var s := w + "-" + c + "-" + d;
            |s| == 58 && s[16] == '-' && s[25] == '-' && s[..16] == w && s[17..25] == c && s[26..] == d
  {
  }

  /** An accepted text is what its clock prints exactly when it is in fixed-width lower-case form. The
      parser also accepts other texts, which sort differently. */
  lemma ParsePrintsExactly(s: string)
    requires Parse(s).Some?
    ensures Print(Parse(s).value) == s <==> Fixed(s)
  {
    hide Pow16, Hex, Value, SplitOnce, FromRadix;
    Sizes();
    PrintIsFixed(Parse(s).value);
    if Fixed(s) {
      var w, c, d := s[..16], s[17..25], s[26..];
      LowerHexIsHex(w);
      LowerHexIsHex(c);
      LowerHexIsHex(d);
      var h := Hlc(Value(w).value, Value(c).value, Value(d).value);
      assert s == Print(h);
      PrintParses(h);
    }
  }

  /** A signed, upper-case, short text is accepted and printed differently. */
  lemma LooseTextsAccepted()
    ensures var s := "+A-0-00000000000000000000000000000000";
            Parse(s) == Some(Hlc(10, 0, 0)) && Print(Hlc(10, 0, 0)) != s
  {
    hide Value, SplitOnce, Hex, Print, Pow16;
    var d := "00000000000000000000000000000000";
    var s := "+A-0-" + d;
    Sizes();
    Zeros(d);
    assert s == "+A" + "-" + ("0" + "-" + d);
    SplitAtDash("+A", "0" + "-" + d);
    SplitAtDash("0", d);
    Zeros("0");
    OneDigit('A', 10);
    assert "+A"[1..] == "A";
    assert FromRadix("+A", 16) == Some(10) && FromRadix("0", 8) == Some(0);
    assert |d| == 32 && s == "+A-0-00000000000000000000000000000000";
    PrintIsFixed(Hlc(10, 0, 0));
  }

  lemma OneDigit(c: char, d: nat)
    requires DigitValue(c) == Some(d)
    ensures Value([c]) == Some(d)
  {
    ValueOfNothing();
    ValueOfOneMore([], c);
    assert [] + [c] == [c];
  }

  lemma {:induction false} Zeros(s: string)
    requires forall i :: 0 <= i < |s| ==> s[i] == '0'
    ensures Value(s) == Some(0)
  {
    if s != [] {
      Zeros(s[..|s| - 1]);
    }
  }

  // ----- every text that is accepted

  /** A digit of either case. */
  predicate IsDigit(c: char, d: nat) { d < 16 && ("0123456789abcdef"[d] == c || "0123456789ABCDEF"[d] == c) }

  lemma DigitExactly(c: char, d: nat)
    ensures DigitValue(c) == Some(d) <==> IsDigit(c, d)
  {
  }

  /** `j` places from the right stands the digit of weight `16^j`. */
  predicate DigitAt(s: string, n: nat, j: nat) { j < |s| && IsDigit(s[|s| - 1 - j], n / Pow16(j) % 16) }

  /** The number these digits are in base 16. */
  predicate Denotes(s: string, n: nat) { n < Pow16(|s|) && forall j :: 0 <= j < |s| ==> DigitAt(s, n, j) }

  lemma PlacesShift(s: string, n: nat, j: nat)
    requires s != []
    ensures DigitAt(s, n, j + 1) <==> DigitAt(s[..|s| - 1], n / 16, j)
  {
    B.DivideTwice(n, 16, Pow16(j));
  }

  lemma DenotesStep(s: string, n: nat)
    requires s != []
    ensures Denotes(s, n) <==> Denotes(s[..|s| - 1], n / 16) && IsDigit(s[|s| - 1], n % 16)
  {
    hide IsDigit;
    var front := s[..|s| - 1];
    assert n / Pow16(0) == n;
    assert DigitAt(s, n, 0) <==> IsDigit(s[|s| - 1], n % 16);
    forall j: nat
      ensures DigitAt(s, n, j + 1) <==> DigitAt(front, n / 16, j)
    {
      PlacesShift(s, n, j);
    }
    if Denotes(front, n / 16) && DigitAt(s, n, 0) {
      forall j | 0 <= j < |s|
        ensures DigitAt(s, n, j)
      {
        if j > 0 {
          assert DigitAt(front, n / 16, j - 1);
        }
      }
    }
    if Denotes(s, n) {
      forall j | 0 <= j < |front|
        ensures DigitAt(front, n / 16, j)
      {
        assert DigitAt(s, n, j + 1);
      }
    }
  }

  /** Digits are read as the number they denote in base 16. */
  lemma {:induction false} ValueExactly(s: string, n: nat)
    ensures Value(s) == Some(n) <==> Denotes(s, n)
  {
    hide DigitValue, IsDigit, DigitAt;
    if s != [] {
      ValueExactly(s[..|s| - 1], n / 16);
      DenotesStep(s, n);
      DigitExactly(s[|s| - 1], n % 16);
      if Value(s) == Some(n) {
        ValueBound(s);
        DigitBound(s[|s| - 1]);
      }
    }
  }

  lemma DigitBound(c: char)
    ensures DigitValue(c).Some? ==> DigitValue(c).value < 16
  {
  }

  /** A number of at most `k` digits' worth of bits, after an optional plus sign. */
  ghost predicate Number(s: string, k: nat, n: nat) {
    n < Pow16(k) && exists digits :: digits != [] && (s == digits || s == "+" + digits) && Denotes(digits, n)
  }

  lemma RadixExactly(s: string, k: nat, n: nat)
    ensures FromRadix(s, k) == Some(n) <==> Number(s, k, n)
  {
    hide Denotes, Pow16, Value;
    var digits := if |s| > 1 && s[0] == '+' then s[1..] else s;
    ValueExactly(digits, n);
    if FromRadix(s, k) == Some(n) {
      assert digits != [] && (s == digits || s == "+" + digits) && Denotes(digits, n);
    }
    if Number(s, k, n) {
      var t :| t != [] && (s == t || s == "+" + t) && Denotes(t, n);
      ValueExactly(t, n);
      if s == t {
        NoSignDenotes(t, n);
      }
      assert t == digits;
    }
  }

  lemma NoSignDenotes(t: string, n: nat)
    requires t != [] && Denotes(t, n)
    ensures t[0] != '+'
  {
    assert DigitAt(t, n, |t| - 1);
  }

  /** The three parts of a text that is read as this clock. */
  ghost predicate Reads(h: Hlc, wall: string, counter: string, device: string) {
    && '-' !in wall && '-' !in counter && Number(wall, 16, h.wall) && Number(counter, 8, h.counter)
    && |device| == 32 && Denotes(device, h.device)
  }

  /** Exactly which texts are read as a clock, and as which. */
  lemma ParseExactly(s: string, h: Hlc)
    ensures Parse(s) == Some(h) <==> exists wall, counter, device :: Reads(h, wall, counter, device) && s == wall + "-" + counter + "-" + device
  {
    hide Number, Denotes, Pow16, Value, FromRadix, SplitOnce;
    if Parse(s) == Some(h) {
      var (wall, rest) := SplitOnce(s).value;
      var (counter, device) := SplitOnce(rest).value;
      SplitJoins(s);
      SplitJoins(rest);
      RadixExactly(wall, 16, h.wall);
      RadixExactly(counter, 8, h.counter);
      ValueExactly(device, h.device);
      assert s == wall + "-" + counter + "-" + device;
      assert Reads(h, wall, counter, device);
    }
    if wall, counter, device :| Reads(h, wall, counter, device) && s == wall + "-" + counter + "-" + device {
      assert s == wall + "-" + (counter + "-" + device);
      SplitAtDash(wall, counter + "-" + device);
      SplitAtDash(counter, device);
      RadixExactly(wall, 16, h.wall);
      RadixExactly(counter, 8, h.counter);
      ValueExactly(device, h.device);
    }
  }
}
