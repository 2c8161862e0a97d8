/**
  The arithmetic unit: add and subtract with flags, shifts, rotates and packed decimal, at byte,
  word and long size.

  The shifts and rotates are loops in the emulator.  Each loop is a method here, proved equal to a
  closed form that says what the operation means.
*/
module Alu {
  import opened Machine
  import opened Bits

  datatype AluResult = AluResult(result: u32, ccr: Ccr)

  /** N and Z of an n-byte value, all other flags clear. */
  function NzFlags(v: u32, n: Size): Ccr {
    Ccr(false, Sign(v, n), v == 0, false, false, 0)
  }

  // ----- Add and subtract -----

  /** V is ((a ^ r) & (b ^ r) & msb) != 0: both operands differ from the result in sign. */
  function Add(a: u32, b: u32, ccr: Ccr, n: Size, withExtend: bool := false): AluResult {
    var x := if withExtend && ccr.x then 1 else 0;
    var sum := a + b + x;
    var r := sum % Modulus(n);
    var carry := sum > Modulus(n) - 1;
    AluResult(r, Ccr(carry, Sign(r, n), r == 0, Sign(a, n) != Sign(r, n) && Sign(b, n) != Sign(r, n), carry, 0))
  }

  /** V is ((a ^ b) & (a ^ r) & msb) != 0: the minuend differs from subtrahend and result in sign. */
  function Sub(a: u32, b: u32, ccr: Ccr, n: Size, withExtend: bool := false): AluResult {
    var x := if withExtend && ccr.x then 1 else 0;
    var difference := a - b - x;
    var r := difference % Modulus(n);
    var borrow := difference < 0;
    AluResult(r, Ccr(borrow, Sign(r, n), r == 0, Sign(a, n) != Sign(b, n) && Sign(a, n) != Sign(r, n), borrow, 0))
  }

  // ----- Shifts: closed forms -----

  /** The bit that the count-th left shift pushes out. */
  predicate LastOut(v: u32, count: nat, n: Size) {
    1 <= count <= 8 * n && Bit(v, 8 * n - count)
  }

  function Twice(r: u32, n: Size): u32 {
    r * 2 % Modulus(n)
  }

  function Shl(v: u32, count: nat, n: Size): (r: u32)
    ensures r < Modulus(n)
  {
    v * Pow2(count) % Modulus(n)
  }

  /** Multiplication by 2^count; C and X are the last bit shifted out, V compares first and last sign. */
  function ShiftLeft(v: u32, count: nat, n: Size): AluResult
    requires v < Modulus(n)
  {
    var r := Shl(v, count, n);
    var c := LastOut(v, count, n);
    AluResult(r, NzFlags(r, n).(x := c, c := c, v := count > 0 && Sign(v, n) != Sign(r, n)))
  }

  /** Floor division of the signed value by 2^count. */
  function ArithShiftRight(v: u32, count: nat, n: Size): AluResult
    requires v < Modulus(n)
  {
    var r := Signed(v, n) / Pow2(count) % Modulus(n);
    var c := count > 0 && Signed(v, n) / Pow2(count - 1) % 2 == 1;
    AluResult(r, NzFlags(r, n).(x := c, c := c))
  }

  /** Floor division of the unsigned value by 2^count. */
  function LogicalShiftRight(v: u32, count: nat, n: Size): AluResult
    requires v < Modulus(n)
  {
    DivShrinks(v, Pow2(count));
    var r := v / Pow2(count);
    var c := count > 0 && Bit(v, count - 1);
    AluResult(r, NzFlags(r, n).(x := c, c := c))
  }

  // ----- Shifts: the loops -----

  method ShiftLeftLoop(v: u32, count: int, n: Size) returns (res: AluResult)
    requires v < Modulus(n)
    ensures res == ShiftLeft(v, if count < 0 then 0 else count, n)
  {
    var r, c := v, 0;
    var i := 0;
    while i < count
      invariant 0 <= i && (i <= count || i == 0)
      invariant r == Shl(v, i, n)
      invariant c == if LastOut(v, i, n) then 1 else 0
    {
      ShlStep(v, i, n);
      c := if Sign(r, n) then 1 else 0;
      r := Twice(r, n);
      i := i + 1;
    }
    var ccr := NzFlags(r, n);
    if count > 0 && c != 0 {
      ccr := ccr.(x := true, c := true);
    }
    if count > 0 && Sign(v, n) != Sign(r, n) {
      ccr := ccr.(v := true);
    }
    res := AluResult(r, ccr);
  }

  method ArithShiftRightLoop(v: u32, count: int, n: Size) returns (res: AluResult)
    requires v < Modulus(n)
    ensures res == ArithShiftRight(v, if count < 0 then 0 else count, n)
  {
    var r, c := Signed(v, n), 0;
    var i := 0;
    while i < count
      invariant 0 <= i && (i <= count || i == 0)
      invariant r == Signed(v, n) / Pow2(i)
      invariant c == if i > 0 && Signed(v, n) / Pow2(i - 1) % 2 == 1 then 1 else 0
    {
      DivTwice(Signed(v, n), Pow2(i));
      c := r % 2;
      r := r / 2;
      i := i + 1;
    }
    var ccr := NzFlags(r % Modulus(n), n);
    if count > 0 && c != 0 {
      ccr := ccr.(x := true, c := true);
    }
    res := AluResult(r % Modulus(n), ccr);
  }

  method LogicalShiftRightLoop(v: u32, count: int, n: Size) returns (res: AluResult)
    requires v < Modulus(n)
    ensures res == LogicalShiftRight(v, if count < 0 then 0 else count, n)
  {
    var r, c := v, 0;
    var i := 0;
    while i < count
      invariant 0 <= i && (i <= count || i == 0)
      invariant 0 <= r == v / Pow2(i) <= v
      invariant c == if i > 0 && Bit(v, i - 1) then 1 else 0
    {
      DivTwice(v, Pow2(i));
      c := r % 2;
      r := r / 2;
      i := i + 1;
    }
    var ccr := NzFlags(r, n);
    if count > 0 && c != 0 {
      ccr := ccr.(x := true, c := true);
    }
    res := AluResult(r, ccr);
  }

  lemma DivShrinks(a: nat, d: int)
    requires d > 0
    ensures 0 <= a / d <= a
  {
    var q := a / d;
    assert a == d * q + a % d;
    if q > 0 {
      MulAtLeast(q, d);
    }
  }

  /** (a / d) / 2 == a / (2 d), for floor division of any integer. */
  lemma DivTwice(a: int, d: int)
    requires d > 0
    ensures a / d / 2 == a / (2 * d)
  {
    var q, r := a / d, a % d;
    var h, b := q / 2, q % 2;
    assert a == d * q + r == (2 * d) * h + (d * b + r) by {
      assert d * q == d * (2 * h + b) == (2 * d) * h + d * b;
    }
    assert 0 <= d * b + r < 2 * d by {
      if b == 0 {
        assert d * b == 0;
      } else {
        assert b == 1 && d * b == d;
      }
    }
    DivModUnique(a, 2 * d, h, d * b + r);
  }

  lemma ModTwice(a: int, d: int)
    requires d > 0
    ensures a % d * 2 % d == 2 * a % d
  {
    var q := a / d;
    var s := a % d * 2;
    assert 2 * a == d * (2 * q) + s by {
      assert a == d * q + a % d;
    }
    assert s == d * (s / d) + s % d;
    assert 2 * a == d * (2 * q + s / d) + s % d by {
      assert d * (2 * q + s / d) == d * (2 * q) + d * (s / d);
    }
    DivModUnique(2 * a, d, 2 * q + s / d, s % d);
  }

  lemma {:induction false} Pow2Add(a: nat, b: nat)
    ensures Pow2(a + b) == Pow2(a) * Pow2(b)
  {
    if a > 0 {
      Pow2Add(a - 1, b);
    }
  }

  lemma WidthModulus(n: Size)
    ensures Pow2(8 * n) == Modulus(n) == 2 * Pow2(8 * n - 1)
  {
    Pow2Values();
  }

  /** Scaling by s moves bit log2(d) to the top of a word of modulus 2 d s. */
  lemma ScaledTopBit(v: nat, d: int, s: int)
    requires d > 0 && s > 0
    ensures d * s > 0
    ensures (v * s % (2 * (d * s)) >= d * s) == (v / d % 2 == 1)
  {
    var q, r := v / d, v % d;
    var h, b := q / 2, q % 2;
    var ds, rs := d * s, r * s;
    assert 0 <= rs <= ds - s by {
      assert rs <= (d - 1) * s;
    }
    assert v * s == ds * q + rs by {
      assert v == d * q + r;
      Distribute(d, q, r, s);
    }
    assert ds * q == 2 * ds * h + ds * b by {
      assert q == 2 * h + b;
    }
    var t := if b == 1 then ds + rs else rs;
    assert v * s == 2 * ds * h + t;
    DivModUnique(v * s, 2 * ds, h, t);
  }

  lemma Distribute(d: int, q: int, r: int, s: int)
    ensures (d * q + r) * s == d * s * q + r * s
  {
  }

  /** The sign bit after i left shifts is bit w - 1 - i of the operand. */
  lemma ShiftedOutLeft(v: u32, i: nat, n: Size)
    requires v < Modulus(n)
    ensures Sign(v * Pow2(i) % Modulus(n), n) == (i < 8 * n && Bit(v, 8 * n - 1 - i))
  {
    var w := 8 * n;
    WidthModulus(n);
    if i < w {
      Pow2Add(w - 1 - i, i);
      ScaledTopBit(v, Pow2(w - 1 - i), Pow2(i));
    } else {
      Pow2Add(i - w, w);
      MultipleMod(v, Pow2(i - w), Modulus(n));
    }
  }

  lemma ShlStep(v: u32, i: nat, n: Size)
    requires v < Modulus(n)
    ensures Twice(Shl(v, i, n), n) == Shl(v, i + 1, n)
    ensures Sign(Shl(v, i, n), n) == LastOut(v, i + 1, n)
  {
    ShiftedOutLeft(v, i, n);
    ModTwice(v * Pow2(i), Modulus(n));
    assert v * Pow2(i + 1) == 2 * (v * Pow2(i));
  }

  lemma MultipleMod(v: int, k: int, m: int)
    requires m > 0
    ensures v * (k * m) % m == 0
  {
    assert v * (k * m) == m * (v * k);
    DivModUnique(v * (k * m), m, v * k, 0);
  }

  // ----- Rotates -----

  /** One left rotation of a w-bit word. */
  function RotlOnce(v: nat, w: nat): (r: nat)
    requires v < Pow2(w)
    ensures r < Pow2(w)
  {
    if 2 * v < Pow2(w) then 2 * v
    else
      RotlBound(v, w);
      2 * v - Pow2(w) + 1
  }

  lemma RotlBound(v: nat, w: nat)
    requires v < Pow2(w) <= 2 * v
    ensures 2 * v - Pow2(w) + 1 < Pow2(w)
  {
  }

  /** One right rotation of a w-bit word. */
  function RotrOnce(v: nat, w: nat): (r: nat)
    requires v < Pow2(w) && w > 0
    ensures r < Pow2(w)
  {
    v / 2 + (if v % 2 == 1 then Pow2(w - 1) else 0)
  }

  function Rotl(v: nat, k: nat, w: nat): (r: nat)
    requires v < Pow2(w)
    ensures r < Pow2(w)
  {
    if k == 0 then v else RotlOnce(Rotl(v, k - 1, w), w)
  }

  function Rotr(v: nat, k: nat, w: nat): (r: nat)
    requires v < Pow2(w) && w > 0
    ensures r < Pow2(w)
  {
    if k == 0 then v else RotrOnce(Rotr(v, k - 1, w), w)
  }

  lemma RotlOnceStep(r: u32, n: Size)
    requires r < Modulus(n) == Pow2(8 * n)
    ensures RotlOnce(r, 8 * n) == (r * 2 + (if Sign(r, n) then 1 else 0)) % Modulus(n)
    ensures Sign(r, n) == (RotlOnce(r, 8 * n) % 2 == 1)
  {
    var c := if Sign(r, n) then 1 else 0;
    ModStep(r * 2 + c, Modulus(n));
  }

  lemma RotrOnceStep(r: u32, n: Size)
    requires r < Modulus(n)
    ensures Modulus(n) == Pow2(8 * n)
    ensures RotrOnce(r, 8 * n) == r / 2 + r % 2 * (Modulus(n) / 2)
    ensures Sign(RotrOnce(r, 8 * n), n) == (r % 2 == 1)
  {
    WidthModulus(n);
    if n == 1 {
    } else if n == 2 {
    } else {
    }
  }

  /** X is cleared: the emulator writes the whole CCR and never sets X here. */
  function RotateLeft(v: u32, count: nat, n: Size): AluResult {
    WidthModulus(n);
    var r := Rotl(Low(v, n), count, 8 * n);
    AluResult(r, NzFlags(r, n).(c := count > 0 && r % 2 == 1))
  }

  function RotateRight(v: u32, count: nat, n: Size): AluResult {
    WidthModulus(n);
    var r := Rotr(Low(v, n), count, 8 * n);
    AluResult(r, NzFlags(r, n).(c := count > 0 && Sign(r, n)))
  }

  /** X above the value: the (w + 1)-bit word that ROXL and ROXR rotate. */
  function WithX(v: u32, x: bool, n: Size): (w: nat)
    requires v < Modulus(n)
    ensures w < Pow2(8 * n + 1)
  {
    WidthModulus(n);
    v + (if x then Modulus(n) else 0)
  }

  function SplitX(w: nat, n: Size): AluResult
    requires w < Pow2(8 * n + 1)
  {
    WidthModulus(n);
    var r := w % Modulus(n);
    var x := w >= Modulus(n);
    AluResult(r, NzFlags(r, n).(x := x, c := x))
  }

  lemma SplitWith(v: u32, x: bool, n: Size)
    requires v < Modulus(n)
    ensures SplitX(WithX(v, x, n), n) == AluResult(v, NzFlags(v, n).(x := x, c := x))
  {
  }

  /** The value part of one rotation through X; the bit that leaves becomes the new X. */
  function RoxlValue(r: u32, x: bool, n: Size): (v: u32)
    ensures v < Modulus(n)
  {
    (r * 2 + (if x then 1 else 0)) % Modulus(n)
  }

  function RoxrValue(r: u32, x: bool, n: Size): (v: u32)
    requires r < Modulus(n)
    ensures v < Modulus(n)
  {
    r / 2 + (if x then Modulus(n) / 2 else 0)
  }

  lemma RotlXStep(r: u32, x: bool, n: Size)
    requires r < Modulus(n)
    ensures WithX(RoxlValue(r, x, n), Sign(r, n), n) == RotlOnce(WithX(r, x, n), 8 * n + 1)
  {
    WidthModulus(n);
    assert Pow2(8 * n + 1) == 2 * Modulus(n);
    ModStep(r * 2 + (if x then 1 else 0), Modulus(n));
  }

  lemma RotrXStep(r: u32, x: bool, n: Size)
    requires r < Modulus(n)
    ensures WithX(RoxrValue(r, x, n), r % 2 == 1, n) == RotrOnce(WithX(r, x, n), 8 * n + 1)
  {
    WidthModulus(n);
    if n == 1 {
    } else if n == 2 {
    } else {
    }
  }

  function RotateLeftX(v: u32, count: nat, n: Size, ccr: Ccr): AluResult {
    SplitX(Rotl(WithX(Low(v, n), ccr.x, n), count, 8 * n + 1), n)
  }

  function RotateRightX(v: u32, count: nat, n: Size, ccr: Ccr): AluResult {
    SplitX(Rotr(WithX(Low(v, n), ccr.x, n), count, 8 * n + 1), n)
  }

  method RotateLeftLoop(v: u32, count: int, n: Size) returns (res: AluResult)
    ensures res == RotateLeft(v, if count < 0 then 0 else count, n)
  {
    WidthModulus(n);
    var r, c := Low(v, n), 0;
    var i := 0;
    while i < count
      invariant 0 <= i && (i <= count || i == 0)
      invariant 0 <= r < Modulus(n) && r == Rotl(Low(v, n), i, 8 * n)
      invariant i > 0 ==> c == r % 2
    {
      RotlOnceStep(r, n);
      c := if Sign(r, n) then 1 else 0;
      r := (r * 2 + c) % Modulus(n);
      i := i + 1;
    }
    var ccr := NzFlags(r, n);
    if count > 0 && c != 0 {
      ccr := ccr.(c := true);
    }
    res := AluResult(r, ccr);
  }

  method RotateRightLoop(v: u32, count: int, n: Size) returns (res: AluResult)
    ensures res == RotateRight(v, if count < 0 then 0 else count, n)
  {
    WidthModulus(n);
    var r, c := Low(v, n), 0;
    var i := 0;
    while i < count
      invariant 0 <= i && (i <= count || i == 0)
      invariant 0 <= r < Modulus(n) && r == Rotr(Low(v, n), i, 8 * n)
      invariant i > 0 ==> (c == 1 <==> Sign(r, n)) && 0 <= c <= 1
    {
      RotrOnceStep(r, n);
      c := r % 2;
      r := r / 2 + c * (Modulus(n) / 2);
      i := i + 1;
    }
    var ccr := NzFlags(r, n);
    if count > 0 && c != 0 {
      ccr := ccr.(c := true);
    }
    res := AluResult(r, ccr);
  }

  method RotateLeftXLoop(v: u32, count: int, n: Size, ccr: Ccr) returns (res: AluResult)
    ensures res == RotateLeftX(v, if count < 0 then 0 else count, n, ccr)
  {
    var r := Low(v, n);
    var x := ccr.x;
    var c := x;
    var i := 0;
    while i < count
      invariant 0 <= i && (i <= count || i == 0)
      invariant 0 <= r < Modulus(n) && c == x
      invariant WithX(r, x, n) == Rotl(WithX(Low(v, n), ccr.x, n), i, 8 * n + 1)
    {
      RotlXStep(r, x, n);
      c := Sign(r, n);
      r := RoxlValue(r, x, n);
      x := c;
      i := i + 1;
    }
    SplitWith(r, x, n);
    var newCcr := NzFlags(r, n);
    if count > 0 {
      if c {
        newCcr := newCcr.(x := true, c := true);
      }
    } else {
      newCcr := newCcr.(x := ccr.x);
      if ccr.x {
        newCcr := newCcr.(c := true);
      }
    }
    res := AluResult(r, newCcr);
  }

  method RotateRightXLoop(v: u32, count: int, n: Size, ccr: Ccr) returns (res: AluResult)
    ensures res == RotateRightX(v, if count < 0 then 0 else count, n, ccr)
  {
    var r := Low(v, n);
    var x := ccr.x;
    var c := x;
    var i := 0;
    while i < count
      invariant 0 <= i && (i <= count || i == 0)
      invariant 0 <= r < Modulus(n) && c == x
      invariant WithX(r, x, n) == Rotr(WithX(Low(v, n), ccr.x, n), i, 8 * n + 1)
    {
      RotrXStep(r, x, n);
      c := r % 2 == 1;
      r := RoxrValue(r, x, n);
      x := c;
      i := i + 1;
    }
    SplitWith(r, x, n);
    var newCcr := NzFlags(r, n);
    if count > 0 {
      if c {
        newCcr := newCcr.(x := true, c := true);
      }
    } else {
      newCcr := newCcr.(x := ccr.x);
      if ccr.x {
        newCcr := newCcr.(c := true);
      }
    }
    res := AluResult(r, newCcr);
  }
}
