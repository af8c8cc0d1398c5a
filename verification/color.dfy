/** `generateColor` of the floating widget (content-scripts/floating-widget.js):
    a colour derived from an environment name by a 31-based string hash over
    UTF-16 code units, computed in 32-bit two's-complement arithmetic, whose
    low 24 bits are rendered as `#RRGGBB`. The method exists on the widget
    class, but nothing in the extension calls it. */
module WidgetColor {

  const TwoTo32: int := 0x1_0000_0000
  const TwoTo31: int := 0x8000_0000
  const TwoTo24: int := 0x100_0000

  predicate IsInt32(x: int)
  {
    -TwoTo31 <= x < TwoTo31
  }

  /** ECMAScript's ToInt32 (section 7.1.6 of ECMA-262) on an integral value:
      the 32-bit two's-complement value congruent to `x`. Both `h & h` and
      the operands of `<<` go through it. */
  function ToInt32(x: int): (r: int)
    ensures IsInt32(r)
    ensures (r - x) % TwoTo32 == 0
    ensures IsInt32(x) ==> r == x
  {
    var m := x % TwoTo32;
    if m >= TwoTo31 then m - TwoTo32 else m
  }

  /** Values congruent modulo 2^32 have the same 32-bit representation. */
  lemma ToInt32Congruent(x: int, y: int)
    requires (x - y) % TwoTo32 == 0
    ensures ToInt32(x) == ToInt32(y)
  {
    var k := (x - y) / TwoTo32;
    assert x == y + k * TwoTo32;
    ModMultiple(y, k);
  }

  lemma ModMultiple(y: int, k: int)
    ensures (y + k * TwoTo32) % TwoTo32 == y % TwoTo32
  {
  }

  /** `h << 5`. */
  function ShiftLeft5(h: int): (r: int)
    ensures IsInt32(r)
    ensures (r - 32 * h) % TwoTo32 == 0
  {
    var r := ToInt32(ToInt32(h) * 32);
    assert (r - 32 * h) % TwoTo32 == 0 by {
      var a := ToInt32(h);
      var k := (a - h) / TwoTo32;
      assert a == h + k * TwoTo32;
      assert ToInt32(a * 32) - 32 * h == (ToInt32(a * 32) - a * 32) + 32 * k * TwoTo32;
      ModMultiple(ToInt32(a * 32) - a * 32, 32 * k);
    }
    r
  }

  /** One iteration of the loop: `hash = c + ((hash << 5) - hash); hash = hash & hash`. */
  function HashStep(h: int, c: int): (r: int)
    ensures IsInt32(r)
  {
    ToInt32(c + (ShiftLeft5(h) - h))
  }

  /** The step is `31 * h + c` reduced to 32 bits. */
  lemma HashStepIsPolynomial(h: int, c: int)
    ensures HashStep(h, c) == ToInt32(31 * h + c)
  {
    var s := ShiftLeft5(h);
    var k := (s - 32 * h) / TwoTo32;
    assert s == 32 * h + k * TwoTo32;
    assert c + (s - h) == (31 * h + c) + k * TwoTo32;
    ModMultiple(31 * h + c, k);
    ToInt32Congruent(c + (s - h), 31 * h + c);
  }

  /** The UTF-16 code units `charCodeAt` walks through: characters outside
      the Basic Multilingual Plane count as a surrogate pair. */
  function CodeUnits(s: string): (r: seq<int>)
    ensures forall i :: 0 <= i < |r| ==> 0 <= r[i] < 0x1_0000
    ensures |s| <= |r| <= 2 * |s|
  {
    if |s| == 0 then []
    else
      var n := s[0] as int;
      var first := if n < 0x1_0000 then [n]
                   else [0xD800 + (n - 0x1_0000) / 0x400, 0xDC00 + (n - 0x1_0000) % 0x400];
      first + CodeUnits(s[1..])
  }

  /** The hash loop over code units, left to right. */
  function Hash(u: seq<int>): (r: int)
    ensures IsInt32(r)
  {
    if |u| == 0 then 0 else HashStep(Hash(u[..|u| - 1]), u[|u| - 1])
  }

  /** The polynomial the hash approximates, over unbounded integers. */
  function Polynomial(u: seq<int>): int
  {
    if |u| == 0 then 0 else 31 * Polynomial(u[..|u| - 1]) + u[|u| - 1]
  }

  /** Congruent hashes stay congruent through one more step. */
  lemma StepCongruent(h: int, p: int, c: int)
    requires (h - p) % TwoTo32 == 0
    ensures ToInt32(31 * h + c) == ToInt32(31 * p + c)
  {
    var k := (h - p) / TwoTo32;
    assert h == p + k * TwoTo32;
    assert 31 * h + c == (31 * p + c) + (31 * k) * TwoTo32;
    ModMultiple(31 * p + c, 31 * k);
    ToInt32Congruent(31 * h + c, 31 * p + c);
  }

  /** The 32-bit hash is exactly the polynomial hash reduced to 32 bits:
      truncating after every step loses nothing. */
  lemma {:induction false} HashIsPolynomial(u: seq<int>)
    ensures Hash(u) == ToInt32(Polynomial(u))
  {
    if |u| > 0 {
      var init := u[..|u| - 1];
      var c := u[|u| - 1];
      HashIsPolynomial(init);
      HashStepIsPolynomial(Hash(init), c);
      StepCongruent(Hash(init), Polynomial(init), c);
    }
  }

  /** The loop of `generateColor`, iteration by iteration. */
  method ComputeHash(name: string) returns (hash: int)
    ensures hash == Hash(CodeUnits(name))
    ensures hash == ToInt32(Polynomial(CodeUnits(name)))
  {
    var u := CodeUnits(name);
    hash := 0;
    var i := 0;
    while i < |u|
      invariant 0 <= i <= |u|
      invariant hash == Hash(u[..i])
    {
      assert u[..i + 1][..i] == u[..i];
      hash := HashStep(hash, u[i]);
      i := i + 1;
    }
    assert u[..|u|] == u;
    HashIsPolynomial(u);
  }

  // ---------------------------------------------------------------------
  // Rendering
  // ---------------------------------------------------------------------

  /** `hash & 0x00FFFFFF`: the low 24 bits, for negative hashes too. */
  function Low24(h: int): (r: int)
    ensures 0 <= r < TwoTo24
    ensures (h - r) % TwoTo24 == 0
  {
    h % TwoTo24
  }

  /** The characters `toString(16).toUpperCase()` produces. */
  predicate IsHexChar(c: char)
  {
    '0' <= c <= '9' || 'A' <= c <= 'F'
  }

  predicate IsHexString(s: string)
  {
    forall i :: 0 <= i < |s| ==> IsHexChar(s[i])
  }

  /** The upper-case digit of a value below 16. */
  function HexDigit(d: nat): (c: char)
    requires d < 16
    ensures IsHexChar(c)
  {
    if d < 10 then ('0' as int + d) as char else ('A' as int + d - 10) as char
  }

  /** The value of a digit. */
  function DigitValue(c: char): (v: nat)
    requires IsHexChar(c)
    ensures v < 16 && HexDigit(v) == c
  {
    if c <= '9' then c as int - '0' as int else c as int - 'A' as int + 10
  }

  lemma DigitRoundTrip(d: nat)
    requires d < 16
    ensures DigitValue(HexDigit(d)) == d
  {
  }

  /** `n.toString(16).toUpperCase()`: digits without leading zeros. */
  function Hex(n: nat): (r: string)
    ensures 1 <= |r|
    ensures IsHexString(r)
    decreases n
  {
    if n < 16 then [HexDigit(n)] else Hex(n / 16) + [HexDigit(n % 16)]
  }

  /** The number a string of upper-case hex digits denotes. */
  function HexValue(s: string): nat
    requires IsHexString(s)
  {
    if |s| == 0 then 0 else 16 * HexValue(s[..|s| - 1]) + DigitValue(s[|s| - 1])
  }

  /** Reading back the rendered digits gives the number. */
  lemma {:induction false} HexRoundTrip(n: nat)
    ensures HexValue(Hex(n)) == n
    decreases n
  {
    var h := Hex(n);
    if n < 16 {
      assert h[..0] == [];
      DigitRoundTrip(n);
    } else {
      HexRoundTrip(n / 16);
      assert h[..|h| - 1] == Hex(n / 16);
      DigitRoundTrip(n % 16);
    }
  }

  function Pow16(k: nat): (r: nat)
    ensures r >= 1
  {
    if k == 0 then 1 else 16 * Pow16(k - 1)
  }

  /** A number below 16^k has at most `k` digits. */
  lemma {:induction false} HexLength(n: nat, k: nat)
    requires 1 <= k && n < Pow16(k)
    ensures |Hex(n)| <= k
    decreases k
  {
    if n >= 16 {
      assert k > 1;
      HexLength(n / 16, k - 1);
    }
  }

  predicate AllZeros(z: string)
  {
    forall i :: 0 <= i < |z| ==> z[i] == '0'
  }

  /** Leading zeros do not change the value. */
  lemma {:induction false} LeadingZero(x: string)
    requires IsHexString(x)
    ensures IsHexString("0" + x) && HexValue("0" + x) == HexValue(x)
    decreases |x|
  {
    var z := "0" + x;
    if |x| > 0 {
      LeadingZero(x[..|x| - 1]);
      assert z[..|z| - 1] == "0" + x[..|x| - 1];
    } else {
      assert z[..0] == [];
    }
  }

  lemma {:induction false} LeadingZeros(z: string, x: string)
    requires AllZeros(z) && IsHexString(x)
    ensures IsHexString(z + x) && HexValue(z + x) == HexValue(x)
    decreases |z|
  {
    if |z| > 0 {
      var y := z[1..] + x;
      LeadingZeros(z[1..], x);
      LeadingZero(y);
      assert z + x == "0" + y;
    } else {
      assert z + x == x;
    }
  }

  /** `"00000".substring(0, k)`: `substring` clamps its end into range. */
  function ZeroPrefix(k: int): (r: string)
    ensures AllZeros(r)
    ensures |r| == if k <= 0 then 0 else if k >= 5 then 5 else k
  {
    var s := "00000";
    if k <= 0 then "" else if k >= 5 then s else s[..k]
  }

  /** `generateColor(name)`: `#`, then the low 24 bits of the hash as six
      upper-case hex digits. */
  function GenerateColor(name: string): (r: string)
    ensures |r| == 7 && r[0] == '#'
    ensures IsHexString(r[1..])
    ensures HexValue(r[1..]) == Low24(Hash(CodeUnits(name)))
  {
    var v := Low24(Hash(CodeUnits(name)));
    var hex := Hex(v);
    var pad := ZeroPrefix(6 - |hex|);
    ColorDigits(v, hex, pad);
    var r := "#" + pad + hex;
    assert r[1..] == pad + hex;
    r
  }

  lemma ColorDigits(v: nat, hex: string, pad: string)
    requires v < TwoTo24 && hex == Hex(v) && pad == ZeroPrefix(6 - |hex|)
    ensures |pad + hex| == 6 && IsHexString(pad + hex) && HexValue(pad + hex) == v
  {
    assert Pow16(6) == TwoTo24;
    HexLength(v, 6);
    HexRoundTrip(v);
    LeadingZeros(pad, hex);
  }
}
