/** Bitwise operations on integers, defined bit by bit. */
module Bits {
  import opened Machine

  function Pow2(k: nat): (p: int)
    ensures p > 0
  {
    if k == 0 then 1 else 2 * Pow2(k - 1)
  }

  lemma Pow2Values()
    ensures Pow2(4) == 16 && Pow2(7) == 0x80 && Pow2(8) == 0x100
    ensures Pow2(15) == 0x8000 && Pow2(16) == 0x1_0000
    ensures Pow2(31) == 0x8000_0000 && Pow2(32) == 0x1_0000_0000
  {
    assert Pow2(4) == 16;
    assert Pow2(8) == 16 * Pow2(4);
    assert Pow2(12) == 16 * Pow2(8);
    assert Pow2(16) == 16 * Pow2(12);
    assert Pow2(20) == 16 * Pow2(16);
    assert Pow2(24) == 16 * Pow2(20);
    assert Pow2(28) == 16 * Pow2(24);
    assert Pow2(32) == 16 * Pow2(28);
  }

  predicate Bit(v: nat, k: nat) {
    (v / Pow2(k)) % 2 == 1
  }

  datatype LogicOp = And | Or | Eor

  function OnBit(op: LogicOp, a: int, b: int): (r: int)
    ensures r == 0 || r == 1
  {
    match op
    case And => if a == 1 && b == 1 then 1 else 0
    case Or => if a == 1 || b == 1 then 1 else 0
    case Eor => if a != b then 1 else 0
  }

  /** The low w bits of a op b. */
  function Logic(op: LogicOp, a: nat, b: nat, w: nat): (r: nat)
    ensures r < Pow2(w)
  {
    if w == 0 then 0 else OnBit(op, a % 2, b % 2) + 2 * Logic(op, a / 2, b / 2, w - 1)
  }

  /** The operator on n-byte values. */
  function LogicN(op: LogicOp, a: u32, b: u32, n: Size): (r: u32)
    ensures r < Modulus(n)
  {
    Pow2Values();
    Logic(op, a, b, 8 * n)
  }

  lemma HalfMod(a: nat, p: nat)
    requires p > 0
    ensures (a % (2 * p)) % 2 == a % 2
    ensures (a % (2 * p)) / 2 == (a / 2) % p
  {
    var q, r := a / (2 * p), a % (2 * p);
    assert a == 2 * (p * q) + r;
    assert a / 2 == p * q + r / 2;
    DivModUnique(a / 2, p, q, r / 2);
  }

  lemma DivModUnique(a: int, d: int, q: int, r: int)
    requires d > 0 && 0 <= r < d && a == d * q + r
    ensures a / d == q && a % d == r
  {
    var t := q - a / d;
    assert d * t == a % d - r;
    if t >= 1 {
      MulAtLeast(d, t);
    } else if t <= -1 {
      MulAtLeast(d, -t);
    }
  }

  lemma ModStep(v: int, m: int)
    requires 0 <= v < 2 * m
    ensures v % m == if v < m then v else v - m
  {
  }

  lemma ModBelow(v: int, m: int)
    requires -m <= v < m
    ensures m > 0 && v % m == if v < 0 then v + m else v
  {
  }

  lemma MulAtLeast(d: int, t: int)
    requires d > 0 && t >= 1
    ensures d * t >= d
  {
  }

  lemma LessByFactor(e: nat, h: nat, s: nat)
    requires e * h < e * s
    ensures h < s
  {
  }

  /** Bitwise operators work column by column: truncating first or last is the same. */
  lemma {:induction false} LogicTruncates(op: LogicOp, a: nat, b: nat, w: nat, k: nat)
    requires k <= w
    ensures Logic(op, a, b, w) % Pow2(k) == Logic(op, a % Pow2(k), b % Pow2(k), k)
  {
    if k > 0 {
      var p := Pow2(k - 1);
      HalfMod(a, p);
      HalfMod(b, p);
      var rest := Logic(op, a / 2, b / 2, w - 1);
      LogicTruncates(op, a / 2, b / 2, w - 1, k - 1);
      var bit := OnBit(op, a % 2, b % 2);
      HalfMod(bit + 2 * rest, p);
      var x := (bit + 2 * rest) % (2 * p);
      assert (bit + 2 * rest) / 2 == rest && (bit + 2 * rest) % 2 == bit;
      assert x == bit + 2 * (rest % p);
    }
  }

  lemma LogicLow(op: LogicOp, a: u32, b: u32, n: Size)
    ensures Low(LogicN(op, a, b, 4), n) == LogicN(op, Low(a, n), Low(b, n), n)
  {
    Pow2Values();
    LogicTruncates(op, a, b, 32, 8 * n);
  }
}
