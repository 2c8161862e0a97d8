/**
  Conversion between doubles and the 96-bit extended format in which the FPU registers are saved.
  A double is taken apart into its three bit fields; arithmetic on doubles rounds to nearest even.
*/
module FpuFormat {
  import opened Machine
  import opened Bits

  const TWO_52 := 0x10_0000_0000_0000
  const TWO_63 := 0x8000_0000_0000_0000

  type Exponent = e: int | 0 <= e < 0x800
  type Fraction = f: int | 0 <= f < 0x10_0000_0000_0000

  datatype Double = Double(sign: bool, exp: Exponent, frac: Fraction)
  {
    predicate IsZero() { exp == 0 && frac == 0 }
    predicate IsNormal() { 0 < exp < 0x7FF }
    predicate IsSubnormal() { exp == 0 && frac > 0 }
    predicate IsInfinite() { exp == 0x7FF && frac == 0 }
    predicate IsNaN() { exp == 0x7FF && frac > 0 }

    function Significand(): nat { if exp == 0 then frac else TWO_52 + frac }

    /** A finite double is its significand times two to this power. */
    function Scale(): int { if exp == 0 then -1074 else exp - 1075 }
  }

  const QUIET_NAN := Double(false, 0x7FF, 0x8_0000_0000_0000)

  function Infinity(): Double { Double(false, 0x7FF, 0) }

  // ----- Rounding -----

  function BitLength(m: nat): nat {
    if m == 0 then 0 else 1 + BitLength(m / 2)
  }

  /** m / 2^s, to nearest, ties to even. */
  function RoundShift(m: nat, s: nat): nat {
    var q, r := m / Pow2(s), m % Pow2(s);
    if 2 * r > Pow2(s) || (2 * r == Pow2(s) && q % 2 == 1) then q + 1 else q
  }

  /** The double for k * 2^q, where k has at most 53 bits, or is 2^53 after rounding up. */
  function FromScaled(k: nat, q: int): Double {
    if k < TWO_52 then Double(false, 0, k)
    else
      var exp := if k < 2 * TWO_52 then q + 1075 else q + 1076;
      if 0 <= exp < 0x7FF then Double(false, exp, if k < 2 * TWO_52 then k - TWO_52 else 0) else Infinity()
  }

  /** The double nearest to m * 2^e. */
  function Round(m: nat, e: int): Double {
    var top := BitLength(m) - 1 + e;
    if m == 0 then Double(false, 0, 0)
    else if top > 1023 then Infinity()
    else
      var q := if top >= -1022 then top - 52 else -1074;
      FromScaled(if e >= q then m * Pow2(e - q) else RoundShift(m, q - e), q)
  }

  /** d * 2^k for a non-negative finite d. */
  function Scaled(d: Double, k: int): Double {
    Round(d.Significand(), d.Scale() + k)
  }

  // ----- The conversions -----

  datatype Extended = Extended(sign: bool, exponent: u16, mantissa: nat)

  function ToExtended(d: Double): (x: Extended)
    ensures x.exponent < 0x8000 && x.mantissa < 2 * TWO_63
  {
    if d.IsNaN() then Extended(d.sign, 0x7FFF, 2 * TWO_63 - 1)
    else if d.IsInfinite() then Extended(d.sign, 0x7FFF, TWO_63)
    else if d.IsZero() then Extended(d.sign, 0, 0)
    else Extended(d.sign, d.exp - 1023 + 16383, TWO_63 + d.frac * 0x800)
  }

  /** mantissa / 2^63 * pow(2, exponent - 16383), as double arithmetic computes it. */
  function Magnitude(exponent: u16, mantissa: nat): Double {
    var fraction := Scaled(Round(mantissa, 0), -63);
    var k := exponent - 16383;
    if k > 1023 then (if fraction.IsZero() then QUIET_NAN else Infinity())
    else if k < -1074 then Double(false, 0, 0)
    else Scaled(fraction, k)
  }

  function FromExtended(x: Extended): Double {
    if x.exponent == 0 && x.mantissa == 0 then Double(x.sign, 0, 0)
    else if x.exponent == 0x7FFF then
      (if x.mantissa == 0 then Infinity().(sign := x.sign) else QUIET_NAN)
    else Magnitude(x.exponent, x.mantissa).(sign := x.sign)
  }

  // ----- Exactness -----

  lemma {:induction false} BitLengthIs(m: nat, n: nat)
    requires n > 0 && Pow2(n - 1) <= m < Pow2(n)
    ensures BitLength(m) == n
  {
    if n == 1 {
      assert m == 1 && BitLength(0) == 0;
    } else {
      assert Pow2(n) == 2 * Pow2(n - 1) && Pow2(n - 1) == 2 * Pow2(n - 2);
      BitLengthIs(m / 2, n - 1);
    }
  }

  lemma {:induction false} Pow2Sum(a: nat, b: nat)
    ensures Pow2(a + b) == Pow2(a) * Pow2(b)
  {
    if a > 0 {
      Pow2Sum(a - 1, b);
    }
  }

  lemma FiftyTwo()
    ensures Pow2(52) == TWO_52 && Pow2(53) == 2 * TWO_52 && Pow2(11) == 0x800 && Pow2(1) == 2 && Pow2(0) == 1
  {
    assert Pow2(4) == 16;
    assert Pow2(8) == 16 * Pow2(4);
    assert Pow2(11) == 8 * Pow2(8);
    assert Pow2(12) == 16 * Pow2(8);
    Pow2Values();
    Pow2Sum(12, 8);
    Pow2Sum(20, 32);
    assert Pow2(53) == 2 * Pow2(52);
  }

  lemma ScaleCompare(s: int, a: int, b: int)
    requires s > 0
    ensures a <= b ==> a * s <= b * s
    ensures a < b ==> a * s < b * s
  {
  }

  lemma ShiftBack(k: nat, s: nat)
    ensures RoundShift(k * Pow2(s), s) == k
  {
    DivModUnique(k * Pow2(s), Pow2(s), k, 0);
  }

  /** A number with 53 significant bits within the normal range rounds to itself. */
  lemma RoundExact(k: nat, s: nat, e: int)
    requires TWO_52 <= k < 2 * TWO_52 && -1074 <= e + s <= 971
    ensures Round(k * Pow2(s), e) == Double(false, e + s + 1075, k - TWO_52)
  {
    hide Pow2, BitLength, RoundShift;
    ExactBits(k, s);
    ShiftBack(k, s);
    FiftyTwo();
    if s == 0 {
      assert k * Pow2(0) == k;
    }
  }

  lemma ExactBits(k: nat, s: nat)
    requires TWO_52 <= k < 2 * TWO_52
    ensures k * Pow2(s) > 0 && BitLength(k * Pow2(s)) == 53 + s
  {
    hide Pow2, BitLength;
    FiftyTwo();
    Pow2Sum(52, s);
    Pow2Sum(53, s);
    ScaleCompare(Pow2(s), TWO_52, k);
    ScaleCompare(Pow2(s), k, 2 * TWO_52);
    ScaleCompare(Pow2(s), 1, k);
    BitLengthIs(k * Pow2(s), 53 + s);
  }

  /** Scaling by a power of two is exact as long as the result stays normal. */
  lemma ScaledNormal(d: Double, k: int)
    requires d.exp > 0 && 0 < d.exp + k < 0x7FF
    ensures Scaled(d, k) == Double(false, d.exp + k, d.frac)
  {
    RoundExact(TWO_52 + d.frac, 0, d.exp - 1075 + k);
    FiftyTwo();
    hide Round, Pow2;
  }

  /** The explicit-bit mantissa of a normal number converts to a double without rounding. */
  lemma RoundMantissa(frac: Fraction)
    ensures Round(TWO_63 + frac * 0x800, 0) == Double(false, 1086, frac)
  {
    RoundExact(TWO_52 + frac, 11, 0);
    FiftyTwo();
    hide Round, Pow2;
  }

  lemma FractionOf(frac: Fraction)
    ensures Scaled(Round(TWO_63 + frac * 0x800, 0), -63) == Double(false, 1023, frac)
  {
    hide Round, Scaled;
    RoundMantissa(frac);
    ScaledNormal(Double(false, 1086, frac), -63);
  }

  lemma NormalMagnitude(exp: Exponent, frac: Fraction)
    requires 0 < exp < 0x7FF
    ensures Magnitude(exp - 1023 + 16383, TWO_63 + frac * 0x800) == Double(false, exp, frac)
  {
    hide Round, Scaled;
    FractionOf(frac);
    ScaledNormal(Double(false, 1023, frac), exp - 1023);
  }

  /** Halving a significand with the leading bit set never gives the subnormal it came from. */
  lemma HalfDiffers(frac: Fraction)
    requires frac > 0
    ensures var k := RoundShift(TWO_52 + frac, 1); k != frac && k <= TWO_52
  {
  }

  lemma SubnormalMagnitude(frac: Fraction)
    requires frac > 0
    ensures var m := Magnitude(0 - 1023 + 16383, TWO_63 + frac * 0x800); m.exp != 0 || m.frac != frac
  {
    hide Round, Scaled;
    FractionOf(frac);
    HalvedSubnormal(frac);
  }

  lemma HalvedSubnormal(frac: Fraction)
    requires frac > 0
    ensures var m := Scaled(Double(false, 1023, frac), -1023); m.exp != 0 || m.frac != frac
  {
    FiftyTwo();
    HalfDiffers(frac);
    BitLengthIs(TWO_52 + frac, 53);
    hide Pow2, BitLength, RoundShift;
    assert Round(TWO_52 + frac, -1075) == FromScaled(RoundShift(TWO_52 + frac, 1), -1074);
  }

  predicate Survives(d: Double) {
    d.IsZero() || d.IsNormal() || d == QUIET_NAN
  }

  /**
    Saving and restoring a register gives it back if and only if it holds a zero (of either sign), a
    normal number, or the one NaN that reading produces.  Infinities come back as NaN, subnormal
    numbers as other numbers.
  */
  lemma SurvivesExactly(d: Double)
    ensures FromExtended(ToExtended(d)) == d <==> Survives(d)
    ensures d.IsInfinite() || d.IsNaN() ==> FromExtended(ToExtended(d)) == QUIET_NAN
  {
    hide Magnitude, ToExtended, FromExtended;
    if d.IsNormal() {
      NormalSurvives(d);
    } else if d.IsSubnormal() {
      SubnormalLost(d);
    } else {
      SpecialDecode(d);
    }
  }

  lemma NormalSurvives(d: Double)
    requires d.IsNormal()
    ensures FromExtended(ToExtended(d)) == d
  {
    hide Magnitude;
    NormalMagnitude(d.exp, d.frac);
  }

  lemma SubnormalLost(d: Double)
    requires d.IsSubnormal()
    ensures FromExtended(ToExtended(d)) != d
  {
    hide Magnitude;
    SubnormalMagnitude(d.frac);
  }

  lemma SpecialDecode(d: Double)
    requires !d.IsNormal() && !d.IsSubnormal()
    ensures FromExtended(ToExtended(d)) == if d.IsZero() then d else QUIET_NAN
  {
  }

  /** The smallest positive number, 2^-1074, comes back as 2^-1023. */
  lemma SmallestIsLost()
    ensures FromExtended(ToExtended(Double(false, 0, 1))) == Double(false, 0, 0x8_0000_0000_0000)
  {
    hide Scaled, Round;
    FractionOf(1);
    HalfOfOne();
  }

  lemma HalfOfOne()
    ensures Scaled(Double(false, 1023, 1), -1023) == Double(false, 0, 0x8_0000_0000_0000)
  {
    FiftyTwo();
    BitLengthIs(TWO_52 + 1, 53);
    hide Pow2, BitLength;
    assert RoundShift(TWO_52 + 1, 1) == 0x8_0000_0000_0000;
  }
}
