/**
  Chains of ADDX and SUBX: passing X from limb to limb gives arithmetic on numbers of any length.
  Limbs are stored least significant first, n bytes each.
*/
module MultiLimb {
  import opened Machine
  import opened Alu
  import opened Bits

  /** ADDX: Z is only ever cleared, so it accumulates over a chain. */
  function AddX(a: u32, b: u32, ccr: Ccr, n: Size): AluResult {
    var r := Add(a, b, ccr, n, true);
    if r.ccr.z then r.(ccr := r.ccr.(z := ccr.z)) else r
  }

  function SubX(a: u32, b: u32, ccr: Ccr, n: Size): AluResult {
    var r := Sub(a, b, ccr, n, true);
    if r.ccr.z then r.(ccr := r.ccr.(z := ccr.z)) else r
  }

  datatype Chain = Chain(limbs: seq<u32>, ccr: Ccr)

  function AddChain(a: seq<u32>, b: seq<u32>, ccr: Ccr, n: Size): (r: Chain)
    requires |a| == |b|
    ensures |r.limbs| == |a|
  {
    if a == [] then Chain([], ccr)
    else
      var r := AddX(a[0], b[0], ccr, n);
      var rest := AddChain(a[1..], b[1..], r.ccr, n);
      Chain([r.result] + rest.limbs, rest.ccr)
  }

  function SubChain(a: seq<u32>, b: seq<u32>, ccr: Ccr, n: Size): (r: Chain)
    requires |a| == |b|
    ensures |r.limbs| == |a|
  {
    if a == [] then Chain([], ccr)
    else
      var r := SubX(a[0], b[0], ccr, n);
      var rest := SubChain(a[1..], b[1..], r.ccr, n);
      Chain([r.result] + rest.limbs, rest.ccr)
  }

  // ----- The numbers a chain stands for -----

  predicate Limbs(a: seq<u32>, n: Size) {
    forall i :: 0 <= i < |a| ==> a[i] < Modulus(n)
  }

  /** Modulus(n) to the power k. */
  function Range(k: nat, n: Size): (p: int)
    ensures p > 0
  {
    if k == 0 then 1 else Modulus(n) * Range(k - 1, n)
  }

  function Value(a: seq<u32>, n: Size): nat {
    if a == [] then 0 else a[0] + Modulus(n) * Value(a[1..], n)
  }

  /** Two's complement reading of the whole number. */
  function SignedValue(a: seq<u32>, n: Size): int {
    Value(a, n) - (if TopBit(a, n) then Range(|a|, n) else 0)
  }

  predicate TopBit(a: seq<u32>, n: Size) {
    2 * Value(a, n) >= Range(|a|, n)
  }

  predicate Fits(v: int, k: nat, n: Size) {
    -Range(k, n) <= 2 * v < Range(k, n)
  }

  function One(x: bool): int {
    if x then 1 else 0
  }

  predicate AllZero(a: seq<u32>) {
    forall i :: 0 <= i < |a| ==> a[i] == 0
  }

  lemma {:induction false} ValueBound(a: seq<u32>, n: Size)
    requires Limbs(a, n)
    ensures Value(a, n) < Range(|a|, n)
  {
    if a != [] {
      ValueBound(a[1..], n);
    }
  }

  lemma {:induction false} ValueInjective(a: seq<u32>, b: seq<u32>, n: Size)
    requires |a| == |b| && Limbs(a, n) && Limbs(b, n)
    requires Value(a, n) == Value(b, n)
    ensures a == b
  {
    if a != [] {
      var m := Modulus(n);
      DivModUnique(Value(a, n), m, Value(a[1..], n), a[0]);
      DivModUnique(Value(b, n), m, Value(b[1..], n), b[0]);
      ValueInjective(a[1..], b[1..], n);
      assert a == [a[0]] + a[1..] && b == [b[0]] + b[1..];
    }
  }

  /** For two or more limbs the sign comes from the upper limbs, so the reading splits as the value does. */
  lemma SignedSplit(a: seq<u32>, n: Size)
    requires |a| >= 2 && Limbs(a, n)
    ensures SignedValue(a, n) == a[0] + Modulus(n) * SignedValue(a[1..], n)
    ensures TopBit(a, n) == TopBit(a[1..], n)
  {
    var m, half := Modulus(n), Range(|a| - 1, n) / 2;
    EvenRange(|a| - 1, n);
    ScaledCompare(Value(a[1..], n), half, a[0], m);
  }

  lemma EvenRange(k: nat, n: Size)
    requires k > 0
    ensures Range(k, n) == 2 * (Range(k, n) / 2)
  {
  }

  /** Appending a low limb does not change a comparison with a multiple of the modulus. */
  lemma ScaledCompare(t: int, bound: int, low: int, m: int)
    requires 0 <= low < m
    ensures (low + m * t >= m * bound) == (t >= bound)
  {
    if t >= bound {
      assert m * t >= m * bound;
    } else {
      assert m * t <= m * (bound - 1) == m * bound - m;
    }
  }

  // ----- One limb -----

  lemma AddLimb(a: u32, b: u32, ccr: Ccr, n: Size)
    requires a < Modulus(n) && b < Modulus(n)
    ensures var r := AddX(a, b, ccr, n);
            r.result + Modulus(n) * One(r.ccr.x) == a + b + One(ccr.x)
            && r.result < Modulus(n) && r.ccr.c == r.ccr.x
            && r.ccr.z == (ccr.z && r.result == 0)
            && r.ccr.n == Sign(r.result, n)
  {
    ModStep(a + b + One(ccr.x), Modulus(n));
  }

  /** V is signed overflow. */
  lemma AddOverflow(a: u32, b: u32, ccr: Ccr, n: Size)
    requires a < Modulus(n) && b < Modulus(n)
    ensures AddX(a, b, ccr, n).ccr.v
        == !(-Modulus(n) <= 2 * (Signed(a, n) + Signed(b, n) + One(ccr.x)) < Modulus(n))
  {
    ModStep(a + b + One(ccr.x), Modulus(n));
  }

  lemma SubLimb(a: u32, b: u32, ccr: Ccr, n: Size)
    requires a < Modulus(n) && b < Modulus(n)
    ensures var r := SubX(a, b, ccr, n);
            r.result - Modulus(n) * One(r.ccr.x) == a - b - One(ccr.x)
            && r.result < Modulus(n) && r.ccr.c == r.ccr.x
            && r.ccr.z == (ccr.z && r.result == 0)
            && r.ccr.n == Sign(r.result, n)
  {
  }

  lemma SubOverflow(a: u32, b: u32, ccr: Ccr, n: Size)
    requires a < Modulus(n) && b < Modulus(n)
    ensures SubX(a, b, ccr, n).ccr.v
        == !(-Modulus(n) <= 2 * (Signed(a, n) - Signed(b, n) - One(ccr.x)) < Modulus(n))
  {
    ModBelow(a - b - One(ccr.x), Modulus(n));
  }

  // ----- Chains -----

  /** The sum is exact: what does not fit in the limbs is the final X. */
  lemma {:induction false} AddChainSum(a: seq<u32>, b: seq<u32>, ccr: Ccr, n: Size)
    requires |a| == |b| && Limbs(a, n) && Limbs(b, n)
    ensures var r := AddChain(a, b, ccr, n);
            Limbs(r.limbs, n)
            && Value(r.limbs, n) + Range(|a|, n) * One(r.ccr.x) == Value(a, n) + Value(b, n) + One(ccr.x)
  {
    if a != [] {
      var m, r := Modulus(n), AddX(a[0], b[0], ccr, n);
      var rest := AddChain(a[1..], b[1..], r.ccr, n);
      AddLimb(a[0], b[0], ccr, n);
      AddChainSum(a[1..], b[1..], r.ccr, n);
      var limbs := [r.result] + rest.limbs;
      assert limbs[1..] == rest.limbs;
      assert m * (Value(rest.limbs, n) + Range(|a| - 1, n) * One(rest.ccr.x))
          == m * (Value(a[1..], n) + Value(b[1..], n) + One(r.ccr.x));
    }
  }

  lemma {:induction false} SubChainDifference(a: seq<u32>, b: seq<u32>, ccr: Ccr, n: Size)
    requires |a| == |b| && Limbs(a, n) && Limbs(b, n)
    ensures var r := SubChain(a, b, ccr, n);
            Limbs(r.limbs, n)
            && Value(r.limbs, n) - Range(|a|, n) * One(r.ccr.x) == Value(a, n) - Value(b, n) - One(ccr.x)
  {
    if a != [] {
      var m, r := Modulus(n), SubX(a[0], b[0], ccr, n);
      var rest := SubChain(a[1..], b[1..], r.ccr, n);
      SubLimb(a[0], b[0], ccr, n);
      SubChainDifference(a[1..], b[1..], r.ccr, n);
      var limbs := [r.result] + rest.limbs;
      assert limbs[1..] == rest.limbs;
      assert m * (Value(rest.limbs, n) - Range(|a| - 1, n) * One(rest.ccr.x))
          == m * (Value(a[1..], n) - Value(b[1..], n) - One(r.ccr.x));
    }
  }

  // The final Z, N, V and C describe the whole number, not the last limb.

  lemma AddChainUnfold(a: seq<u32>, b: seq<u32>, ccr: Ccr, n: Size)
    requires |a| == |b| > 0
    ensures var first := AddX(a[0], b[0], ccr, n);
            var rest := AddChain(a[1..], b[1..], first.ccr, n);
            var r := AddChain(a, b, ccr, n);
            r.limbs[0] == first.result && r.limbs[1..] == rest.limbs && r.ccr == rest.ccr
  {
  }

  lemma {:induction false} AddChainZeroNegative(a: seq<u32>, b: seq<u32>, ccr: Ccr, n: Size)
    requires |a| == |b| > 0 && Limbs(a, n) && Limbs(b, n)
    ensures var r := AddChain(a, b, ccr, n);
            Limbs(r.limbs, n) && r.ccr.c == r.ccr.x
            && r.ccr.z == (ccr.z && AllZero(r.limbs))
            && r.ccr.n == TopBit(r.limbs, n)
  {
    hide AddX, Modulus, Range, Value, AllZero, TopBit;
    AddLimb(a[0], b[0], ccr, n);
    AddChainUnfold(a, b, ccr, n);
    AddChainSum(a, b, ccr, n);
    var r := AddChain(a, b, ccr, n);
    if |a| == 1 {
      OneLimb(r.limbs, n);
    } else {
      AddChainZeroNegative(a[1..], b[1..], AddX(a[0], b[0], ccr, n).ccr, n);
      SignedSplit(r.limbs, n);
      AllZeroSplit(r.limbs);
    }
  }

  lemma {:induction false} AddChainOverflow(a: seq<u32>, b: seq<u32>, ccr: Ccr, n: Size)
    requires |a| == |b| > 0 && Limbs(a, n) && Limbs(b, n)
    ensures AddChain(a, b, ccr, n).ccr.v
        == !Fits(SignedValue(a, n) + SignedValue(b, n) + One(ccr.x), |a|, n)
  {
    hide AddX, SignedValue, Fits, Modulus, Range, Value, One;
    AddChainUnfold(a, b, ccr, n);
    var first := AddX(a[0], b[0], ccr, n);
    if |a| == 1 {
      AddOverflow(a[0], b[0], ccr, n);
      OneLimb(a, n);
      OneLimb(b, n);
      OneLimbFits(Signed(a[0], n) + Signed(b[0], n) + One(ccr.x), n);
    } else {
      AddLimb(a[0], b[0], ccr, n);
      AddChainOverflow(a[1..], b[1..], first.ccr, n);
      AddCarries(a, b, ccr, first, n);
      FitsSplit(SignedValue(a[1..], n) + SignedValue(b[1..], n) + One(first.ccr.x), first.result, |a|, n);
    }
  }

  lemma AddCarries(a: seq<u32>, b: seq<u32>, ccr: Ccr, first: AluResult, n: Size)
    requires |a| == |b| >= 2 && Limbs(a, n) && Limbs(b, n)
    requires first.result + Modulus(n) * One(first.ccr.x) == a[0] + b[0] + One(ccr.x)
    ensures SignedValue(a, n) + SignedValue(b, n) + One(ccr.x)
         == first.result + Modulus(n) * (SignedValue(a[1..], n) + SignedValue(b[1..], n) + One(first.ccr.x))
  {
    SignedSplit(a, n);
    SignedSplit(b, n);
    Factor(Modulus(n), SignedValue(a[1..], n), SignedValue(b[1..], n), One(first.ccr.x));
  }

  lemma SubChainUnfold(a: seq<u32>, b: seq<u32>, ccr: Ccr, n: Size)
    requires |a| == |b| > 0
    ensures var first := SubX(a[0], b[0], ccr, n);
            var rest := SubChain(a[1..], b[1..], first.ccr, n);
            var r := SubChain(a, b, ccr, n);
            r.limbs[0] == first.result && r.limbs[1..] == rest.limbs && r.ccr == rest.ccr
  {
  }

  lemma {:induction false} SubChainZeroNegative(a: seq<u32>, b: seq<u32>, ccr: Ccr, n: Size)
    requires |a| == |b| > 0 && Limbs(a, n) && Limbs(b, n)
    ensures var r := SubChain(a, b, ccr, n);
            Limbs(r.limbs, n) && r.ccr.c == r.ccr.x
            && r.ccr.z == (ccr.z && AllZero(r.limbs))
            && r.ccr.n == TopBit(r.limbs, n)
  {
    hide SubX, Modulus, Range, Value, AllZero, TopBit;
    SubLimb(a[0], b[0], ccr, n);
    SubChainUnfold(a, b, ccr, n);
    SubChainDifference(a, b, ccr, n);
    var r := SubChain(a, b, ccr, n);
    if |a| == 1 {
      OneLimb(r.limbs, n);
    } else {
      SubChainZeroNegative(a[1..], b[1..], SubX(a[0], b[0], ccr, n).ccr, n);
      SignedSplit(r.limbs, n);
      AllZeroSplit(r.limbs);
    }
  }

  lemma {:induction false} SubChainOverflow(a: seq<u32>, b: seq<u32>, ccr: Ccr, n: Size)
    requires |a| == |b| > 0 && Limbs(a, n) && Limbs(b, n)
    ensures SubChain(a, b, ccr, n).ccr.v
        == !Fits(SignedValue(a, n) - SignedValue(b, n) - One(ccr.x), |a|, n)
  {
    hide SubX, SignedValue, Fits, Modulus, Range, Value, One;
    SubChainUnfold(a, b, ccr, n);
    var first := SubX(a[0], b[0], ccr, n);
    if |a| == 1 {
      SubOverflow(a[0], b[0], ccr, n);
      OneLimb(a, n);
      OneLimb(b, n);
      OneLimbFits(Signed(a[0], n) - Signed(b[0], n) - One(ccr.x), n);
    } else {
      SubLimb(a[0], b[0], ccr, n);
      SubChainOverflow(a[1..], b[1..], first.ccr, n);
      SubCarries(a, b, ccr, first, n);
      FitsSplit(SignedValue(a[1..], n) - SignedValue(b[1..], n) - One(first.ccr.x), first.result, |a|, n);
    }
  }

  lemma SubCarries(a: seq<u32>, b: seq<u32>, ccr: Ccr, first: AluResult, n: Size)
    requires |a| == |b| >= 2 && Limbs(a, n) && Limbs(b, n)
    requires first.result - Modulus(n) * One(first.ccr.x) == a[0] - b[0] - One(ccr.x)
    ensures SignedValue(a, n) - SignedValue(b, n) - One(ccr.x)
         == first.result + Modulus(n) * (SignedValue(a[1..], n) - SignedValue(b[1..], n) - One(first.ccr.x))
  {
    SignedSplit(a, n);
    SignedSplit(b, n);
    Factor(Modulus(n), SignedValue(a[1..], n), -SignedValue(b[1..], n), -One(first.ccr.x));
  }

  lemma Factor(m: int, x: int, y: int, z: int)
    ensures m * (x + y + z) == m * x + m * y + m * z
    ensures m * -y == -(m * y) && m * -z == -(m * z)
  {
  }

  lemma OneLimb(a: seq<u32>, n: Size)
    requires |a| == 1 && Limbs(a, n)
    ensures Value(a, n) == a[0] && SignedValue(a, n) == Signed(a[0], n)
    ensures TopBit(a, n) == Sign(a[0], n)
    ensures AllZero(a) == (a[0] == 0)
  {
  }

  lemma OneLimbFits(v: int, n: Size)
    ensures Fits(v, 1, n) == (-Modulus(n) <= 2 * v < Modulus(n))
  {
  }

  lemma AllZeroSplit(a: seq<u32>)
    requires a != []
    ensures AllZero(a) == (a[0] == 0 && AllZero(a[1..]))
  {
  }

  lemma FitsSplit(v: int, low: int, k: nat, n: Size)
    requires k >= 2 && 0 <= low < Modulus(n)
    ensures Fits(low + Modulus(n) * v, k, n) == Fits(v, k - 1, n)
  {
    var half := Range(k - 1, n) / 2;
    EvenRange(k - 1, n);
    ScaledCompare(v, half, low, Modulus(n));
    ScaledCompare(v, -half, low, Modulus(n));
    assert Range(k, n) == 2 * (Modulus(n) * half);
    assert Modulus(n) * -half == -(Modulus(n) * half);
  }

  /** Subtracting with the same entry X undoes the addition, limb for limb, and leaves the same X. */
  lemma SubUndoesAdd(a: seq<u32>, b: seq<u32>, ccr: Ccr, entry: Ccr, n: Size)
    requires |a| == |b| && Limbs(a, n) && Limbs(b, n) && entry.x == ccr.x
    ensures var sum := AddChain(a, b, ccr, n);
            var back := SubChain(sum.limbs, b, entry, n);
            back.limbs == a && (a != [] ==> back.ccr.x == sum.ccr.x)
  {
    var sum := AddChain(a, b, ccr, n);
    AddChainSum(a, b, ccr, n);
    var back := SubChain(sum.limbs, b, entry, n);
    SubChainDifference(sum.limbs, b, entry, n);
    ValueBound(a, n);
    ValueBound(back.limbs, n);
    assert Value(back.limbs, n) - Range(|a|, n) * One(back.ccr.x) == Value(a, n) - Range(|a|, n) * One(sum.ccr.x);
    ValueInjective(back.limbs, a, n);
  }
}
