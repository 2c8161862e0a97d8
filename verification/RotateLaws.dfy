/** What the rotate instructions mean: they are invertible and periodic in the count. */
module RotateLaws {
  import opened Machine
  import opened Bits
  import opened Alu

  // ----- A right rotation undoes a left rotation -----

  lemma OnceInverse(v: nat, w: nat)
    requires v < Pow2(w) && w > 0
    ensures RotrOnce(RotlOnce(v, w), w) == v
  {
  }

  lemma {:induction false} RotrPeel(v: nat, k: nat, w: nat)
    requires v < Pow2(w) && w > 0 && k > 0
    ensures Rotr(v, k, w) == Rotr(RotrOnce(v, w), k - 1, w)
  {
    if k > 1 {
      RotrPeel(v, k - 1, w);
    }
  }

  lemma {:induction false} RotrUndoesRotl(v: nat, k: nat, w: nat)
    requires v < Pow2(w) && w > 0
    ensures Rotr(Rotl(v, k, w), k, w) == v
  {
    if k > 0 {
      RotrPeel(Rotl(v, k, w), k, w);
      OnceInverse(Rotl(v, k - 1, w), w);
      RotrUndoesRotl(v, k - 1, w);
    }
  }

  // ----- Closed form and period -----

  /** One step of the closed form, for the word hi (2 e) + b e + lo rotated by log2(s) so far. */
  lemma ClosedStep(hi: nat, b: nat, lo: nat, e: nat, s: nat, w: nat)
    requires e > 0 && b <= 1 && lo < e && hi < s && Pow2(w) == 2 * (e * s)
    ensures (b * e + lo) * s + hi < Pow2(w)
    ensures RotlOnce((b * e + lo) * s + hi, w) == lo * (2 * s) + (2 * hi + b)
  {
    var es, ls := e * s, lo * s;
    assert (b * e + lo) * s == b * es + ls by {
      Distribute(e, b, lo, s);
    }
    assert 0 <= ls <= es - s by {
      assert ls <= (e - 1) * s;
    }
    assert lo * (2 * s) == 2 * ls;
    assert b * es == if b == 1 then es else 0;
  }

  lemma WordBound(hi: nat, lo: nat, k: nat, w: nat)
    requires k <= w && hi < Pow2(k) && lo < Pow2(w - k)
    ensures hi * Pow2(w - k) + lo < Pow2(w)
  {
    Pow2Add(k, w - k);
    DigitsBelow(hi, Pow2(k), lo, Pow2(w - k));
  }

  lemma DigitsBelow(hi: nat, p: int, lo: nat, d: int)
    requires hi < p && lo < d
    ensures hi * d + lo < p * d
  {
    MulAtLeast(d, p - hi);
    assert d * (p - hi) == p * d - hi * d;
  }

  lemma Regroup(h: nat, b: nat, e: nat, lo: nat)
    requires b <= 1
    ensures (2 * h + b) * e + lo == h * (2 * e) + (b * e + lo)
    ensures b * e == if b == 1 then e else 0
  {
  }

  /** Rotating left by k exchanges the top k bits with the other w - k. */
  lemma {:induction false} RotlClosed(hi: nat, lo: nat, k: nat, w: nat)
    requires k <= w && hi < Pow2(k) && lo < Pow2(w - k)
    ensures hi * Pow2(w - k) + lo < Pow2(w)
    ensures Rotl(hi * Pow2(w - k) + lo, k, w) == lo * Pow2(k) + hi
  {
    WordBound(hi, lo, k, w);
    if k > 0 {
      var e, s := Pow2(w - k), Pow2(k - 1);
      var h, b := hi / 2, hi % 2;
      Pow2Add(w - k, k - 1);
      Regroup(h, b, e, lo);
      RotlClosed(h, b * e + lo, k - 1, w);
      ClosedStep(h, b, lo, e, s, w);
    }
  }

  lemma FullTurn(v: nat, w: nat)
    requires v < Pow2(w)
    ensures Rotl(v, w, w) == v
  {
    RotlClosed(v, 0, w, w);
  }

  lemma {:induction false} RotlAdd(v: nat, j: nat, k: nat, w: nat)
    requires v < Pow2(w)
    ensures Rotl(v, j + k, w) == Rotl(Rotl(v, j, w), k, w)
  {
    if k > 0 {
      RotlAdd(v, j, k - 1, w);
    }
  }

  lemma {:induction false} RotrAdd(v: nat, j: nat, k: nat, w: nat)
    requires v < Pow2(w) && w > 0
    ensures Rotr(v, j + k, w) == Rotr(Rotr(v, j, w), k, w)
  {
    if k > 0 {
      RotrAdd(v, j, k - 1, w);
    }
  }

  lemma {:induction false} Turns(v: nat, q: nat, r: nat, w: nat)
    requires v < Pow2(w) && w > 0
    ensures q * w >= 0
    ensures Rotl(v, q * w + r, w) == Rotl(v, r, w)
    ensures Rotr(v, q * w + r, w) == Rotr(v, r, w)
  {
    if q > 0 {
      assert q * w == w + (q - 1) * w;
      Turns(v, q - 1, r, w);
      FullTurn(v, w);
      RotrUndoesRotl(v, w, w);
      RotlAdd(v, w, (q - 1) * w + r, w);
      RotrAdd(v, w, (q - 1) * w + r, w);
    }
  }

  /** Only the count modulo the width matters. */
  lemma RotPeriodic(v: nat, k: nat, w: nat)
    requires v < Pow2(w) && w > 0
    ensures Rotl(v, k, w) == Rotl(v, k % w, w)
    ensures Rotr(v, k, w) == Rotr(v, k % w, w)
  {
    DivShrinks(k, w);
    assert k == k / w * w + k % w;
    Turns(v, k / w, k % w, w);
  }

  // ----- The instructions -----

  lemma RorUndoesRol(v: u32, count: nat, n: Size)
    ensures RotateRight(RotateLeft(v, count, n).result, count, n).result == Low(v, n)
  {
    WidthModulus(n);
    var l := RotateLeft(v, count, n).result;
    assert Low(l, n) == l;
    RotrUndoesRotl(Low(v, n), count, 8 * n);
  }

  /** Splitting the (w + 1)-bit word and joining it again loses nothing. */
  lemma JoinSplit(w: nat, n: Size)
    requires w < Pow2(8 * n + 1)
    ensures var r := SplitX(w, n);
            r.result < Modulus(n) && Low(r.result, n) == r.result && WithX(r.result, r.ccr.x, n) == w
  {
    WidthModulus(n);
    var m := Modulus(n);
    assert w < 2 * m;
    ModStep(w, m);
    ModStep(SplitX(w, n).result, m);
  }

  /** ROXR with the X left behind by ROXL restores both the operand and X. */
  lemma RoxrUndoesRoxl(v: u32, count: nat, n: Size, ccr: Ccr)
    ensures var l := RotateLeftX(v, count, n, ccr);
            var r := RotateRightX(l.result, count, n, l.ccr);
            r.result == Low(v, n) && r.ccr.x == ccr.x
  {
    var w := WithX(Low(v, n), ccr.x, n);
    var rotated := Rotl(w, count, 8 * n + 1);
    JoinSplit(rotated, n);
    RotrUndoesRotl(w, count, 8 * n + 1);
    SplitWith(Low(v, n), ccr.x, n);
  }

  /** ROXL and ROXR are rotations of width 8 n + 1: congruent counts give the same value and flags. */
  lemma RoxPeriodic(v: u32, j: nat, k: nat, n: Size, ccr: Ccr)
    requires j % (8 * n + 1) == k % (8 * n + 1)
    ensures RotateLeftX(v, j, n, ccr) == RotateLeftX(v, k, n, ccr)
    ensures RotateRightX(v, j, n, ccr) == RotateRightX(v, k, n, ccr)
  {
    var w := WithX(Low(v, n), ccr.x, n);
    RotPeriodic(w, j, 8 * n + 1);
    RotPeriodic(w, k, 8 * n + 1);
  }

  // ----- Which way the instructions rotate -----

  /**
    ROL by k moves the top k bits of the operand to the bottom and the others up; C is the last bit to
    leave at the top.
  */
  lemma RolMoves(hi: nat, lo: nat, k: nat, n: Size)
    requires k <= 8 * n && hi < Pow2(k) && lo < Pow2(8 * n - k)
    ensures hi * Pow2(8 * n - k) + lo < Modulus(n)
    ensures var r := RotateLeft(hi * Pow2(8 * n - k) + lo, k, n);
            && r.result == lo * Pow2(k) + hi && (r.ccr.c <==> k > 0 && hi % 2 == 1)
            && (r.ccr.n <==> 2 * r.result >= Modulus(n)) && (r.ccr.z <==> r.result == 0) && !r.ccr.v && !r.ccr.x
  {
    hide Rotl;
    WidthModulus(n);
    RotlClosed(hi, lo, k, 8 * n);
    var v := hi * Pow2(8 * n - k) + lo;
    Fits(v, n);
    if k > 0 {
      EvenPart(lo, k, hi);
    }
    hide Pow2;
  }

  lemma Fits(v: nat, n: Size)
    requires v < Modulus(n)
    ensures Low(v, n) == v
  {
  }

  lemma EvenPart(lo: nat, k: nat, hi: nat)
    requires k > 0
    ensures (lo * Pow2(k) + hi) % 2 == hi % 2
  {
    var q := lo * Pow2(k - 1);
    assert lo * Pow2(k) == 2 * q;
  }

  /**
    ROR by k moves the bottom k bits of the operand to the top and the others down; C is the last bit
    to leave at the bottom.
  */
  lemma RorMoves(hi: nat, lo: nat, k: nat, n: Size)
    requires k <= 8 * n && hi < Pow2(8 * n - k) && lo < Pow2(k)
    ensures hi * Pow2(k) + lo < Modulus(n)
    ensures var r := RotateRight(hi * Pow2(k) + lo, k, n);
            && r.result == lo * Pow2(8 * n - k) + hi && (r.ccr.c <==> k > 0 && lo >= Pow2(k - 1))
            && (r.ccr.n <==> 2 * r.result >= Modulus(n)) && (r.ccr.z <==> r.result == 0) && !r.ccr.v && !r.ccr.x
  {
    hide Rotr, Rotl, Pow2, RotateRight;
    WordBound(lo, hi, k, 8 * n);
    WordBound(hi, lo, 8 * n - k, 8 * n);
    RotlClosed(lo, hi, k, 8 * n);
    RotrUndoesRotl(lo * Pow2(8 * n - k) + hi, k, 8 * n);
    RorWord(hi * Pow2(k) + lo, k, n, lo * Pow2(8 * n - k) + hi);
    if k > 0 {
      TopBitOf(lo, hi, k, n);
    }
  }

  lemma RorWord(v: nat, k: nat, n: Size, rotated: nat)
    requires v < Pow2(8 * n) && rotated < Pow2(8 * n) && Rotr(v, k, 8 * n) == rotated
    ensures v < Modulus(n)
    ensures var r := RotateRight(v, k, n);
            && r.result == rotated && (r.ccr.c <==> k > 0 && 2 * rotated >= Modulus(n))
            && (r.ccr.n <==> 2 * rotated >= Modulus(n)) && (r.ccr.z <==> rotated == 0) && !r.ccr.v && !r.ccr.x
  {
    hide Rotr, Pow2;
    WidthModulus(n);
    Fits(v, n);
  }

  /** The sign of the rotated word is the top bit of the part that was moved up. */
  lemma TopBitOf(lo: nat, hi: nat, k: nat, n: Size)
    requires 0 < k <= 8 * n && lo < Pow2(k) && hi < Pow2(8 * n - k)
    ensures 2 * (lo * Pow2(8 * n - k) + hi) >= Modulus(n) <==> lo >= Pow2(k - 1)
  {
    WidthModulus(n);
    hide Pow2;
    Pow2Add(k - 1, 8 * n - k);
    Pow2Double(8 * n - 1);
    TopHalfOf(lo, Pow2(k - 1), hi, Pow2(8 * n - k));
  }

  lemma Pow2Double(k: nat)
    ensures Pow2(k + 1) == 2 * Pow2(k)
  {
  }

  lemma TopHalfOf(lo: nat, p: int, hi: nat, d: int)
    requires hi < d
    ensures lo * d + hi >= p * d <==> lo >= p
  {
    if lo > p {
      MulAtLeast(d, lo - p);
      assert d * (lo - p) == lo * d - p * d;
    } else if lo < p {
      DigitsBelow(lo, p, hi, d);
    }
  }

  /** ROXL by k rotates X and the operand as one word: its top k bits move to the bottom. */
  lemma RoxlMoves(v: u32, ccr: Ccr, hi: nat, lo: nat, k: nat, n: Size)
    requires v < Modulus(n) && k <= 8 * n + 1 && hi < Pow2(k) && lo < Pow2(8 * n + 1 - k)
    requires v + (if ccr.x then Modulus(n) else 0) == hi * Pow2(8 * n + 1 - k) + lo
    ensures Rotated(RotateLeftX(v, k, n, ccr), lo * Pow2(k) + hi, n)
  {
    hide Rotl, Pow2, RotateLeftX;
    RotlClosed(hi, lo, k, 8 * n + 1);
    WordBound(lo, hi, 8 * n + 1 - k, 8 * n + 1);
    RoxlWord(v, ccr, k, n, hi * Pow2(8 * n + 1 - k) + lo, lo * Pow2(k) + hi);
  }

  lemma RoxlWord(v: u32, ccr: Ccr, k: nat, n: Size, word: nat, rotated: nat)
    requires v < Modulus(n) && word < Pow2(8 * n + 1) && rotated < Pow2(8 * n + 1)
    requires v + (if ccr.x then Modulus(n) else 0) == word && Rotl(word, k, 8 * n + 1) == rotated
    ensures Rotated(RotateLeftX(v, k, n, ccr), rotated, n)
  {
    hide Rotl, Pow2;
    Fits(v, n);
    JoinSplit(rotated, n);
  }

  /** The result of a rotation through X whose (w + 1)-bit word came out as given. */
  predicate Rotated(r: AluResult, word: nat, n: Size) {
    && r.result < Modulus(n) && r.ccr.c == r.ccr.x
    && r.result + (if r.ccr.x then Modulus(n) else 0) == word
    && (r.ccr.n <==> 2 * r.result >= Modulus(n)) && (r.ccr.z <==> r.result == 0) && !r.ccr.v
  }

  /** ROXR by k moves the bottom k bits of that word to the top. */
  lemma RoxrMoves(v: u32, ccr: Ccr, hi: nat, lo: nat, k: nat, n: Size)
    requires v < Modulus(n) && k <= 8 * n + 1 && hi < Pow2(8 * n + 1 - k) && lo < Pow2(k)
    requires v + (if ccr.x then Modulus(n) else 0) == hi * Pow2(k) + lo
    ensures Rotated(RotateRightX(v, k, n, ccr), lo * Pow2(8 * n + 1 - k) + hi, n)
  {
    hide Rotl, Rotr, Pow2, RotateRightX;
    RotlClosed(lo, hi, k, 8 * n + 1);
    WordBound(lo, hi, k, 8 * n + 1);
    WordBound(hi, lo, 8 * n + 1 - k, 8 * n + 1);
    RotrUndoesRotl(lo * Pow2(8 * n + 1 - k) + hi, k, 8 * n + 1);
    RoxrWord(v, ccr, k, n, hi * Pow2(k) + lo, lo * Pow2(8 * n + 1 - k) + hi);
  }

  lemma RoxrWord(v: u32, ccr: Ccr, k: nat, n: Size, word: nat, rotated: nat)
    requires v < Modulus(n) && word < Pow2(8 * n + 1) && rotated < Pow2(8 * n + 1)
    requires v + (if ccr.x then Modulus(n) else 0) == word && Rotr(word, k, 8 * n + 1) == rotated
    ensures Rotated(RotateRightX(v, k, n, ccr), rotated, n)
  {
    hide Rotr, Pow2;
    Fits(v, n);
    JoinSplit(rotated, n);
  }

  /** Of a count above the width only the remainder matters, to the value; any other full turn keeps C too. */
  lemma RoPeriodic(v: u32, j: nat, k: nat, n: Size)
    requires j % (8 * n) == k % (8 * n)
    ensures RotateLeft(v, j, n).result == RotateLeft(v, k, n).result
    ensures RotateRight(v, j, n).result == RotateRight(v, k, n).result
    ensures (j > 0) == (k > 0) ==> RotateLeft(v, j, n) == RotateLeft(v, k, n) && RotateRight(v, j, n) == RotateRight(v, k, n)
  {
    hide Rotl, Rotr;
    WidthModulus(n);
    RotPeriodic(Low(v, n), j, 8 * n);
    RotPeriodic(Low(v, n), k, 8 * n);
  }

  // ----- Which way the instructions shift -----

  /** A left shift by k drops the top k bits; C and X are the last bit dropped. */
  lemma ShiftLeftMoves(hi: nat, lo: nat, k: nat, n: Size)
    requires k <= 8 * n && hi < Pow2(k) && lo < Pow2(8 * n - k)
    ensures hi * Pow2(8 * n - k) + lo < Modulus(n)
    ensures var r := ShiftLeft(hi * Pow2(8 * n - k) + lo, k, n);
            r.result == lo * Pow2(k) && (r.ccr.c <==> k > 0 && hi % 2 == 1) && r.ccr.x == r.ccr.c
  {
    hide Pow2;
    WidthModulus(n);
    WordBound(hi, lo, k, 8 * n);
    Pow2Add(8 * n - k, k);
    DropTop(hi, lo, Pow2(8 * n - k), Pow2(k));
    DivModUnique(hi * Pow2(8 * n - k) + lo, Pow2(8 * n - k), hi, lo);
  }

  lemma DropTop(hi: nat, lo: nat, d: int, p: int)
    requires p > 0 && lo < d
    ensures d * p > 0 && (hi * d + lo) * p % (d * p) == lo * p
  {
    DigitsBelow(lo, d, 0, p);
    assert (hi * d + lo) * p == (d * p) * hi + lo * p;
    DivModUnique((hi * d + lo) * p, d * p, hi, lo * p);
  }

  /** A logical right shift by k drops the bottom k bits; C and X are the last bit dropped. */
  lemma ShiftRightMoves(hi: nat, lo: nat, k: nat, n: Size)
    requires k <= 8 * n && hi < Pow2(8 * n - k) && lo < Pow2(k)
    ensures hi * Pow2(k) + lo < Modulus(n)
    ensures var r := LogicalShiftRight(hi * Pow2(k) + lo, k, n);
            r.result == hi && (r.ccr.c <==> k > 0 && lo >= Pow2(k - 1)) && r.ccr.x == r.ccr.c
  {
    WidthModulus(n);
    WordBound(hi, lo, 8 * n - k, 8 * n);
    DivModUnique(hi * Pow2(k) + lo, Pow2(k), hi, lo);
    if k > 0 {
      BelowTop(hi, lo, k);
      OddPart(hi, lo >= Pow2(k - 1));
    }
    hide Pow2;
  }

  /** An arithmetic one does the same to the signed value. */
  lemma ArithShiftMoves(v: u32, h: int, lo: nat, k: nat, n: Size)
    requires v < Modulus(n) && lo < Pow2(k) && Signed(v, n) == h * Pow2(k) + lo
    ensures var r := ArithShiftRight(v, k, n);
            r.result == h % Modulus(n) && (r.ccr.c <==> k > 0 && lo >= Pow2(k - 1)) && r.ccr.x == r.ccr.c
  {
    hide Pow2, Signed;
    DivModUnique(Signed(v, n), Pow2(k), h, lo);
    if k > 0 {
      BelowTop(h, lo, k);
      OddPart(h, lo >= Pow2(k - 1));
    }
  }

  lemma OddPart(h: int, b: bool)
    ensures (2 * h + (if b then 1 else 0)) % 2 == if b then 1 else 0
  {
  }

  lemma BelowTop(h: int, lo: nat, k: nat)
    requires k > 0 && lo < Pow2(k)
    ensures (h * Pow2(k) + lo) / Pow2(k - 1) == 2 * h + (if lo >= Pow2(k - 1) then 1 else 0)
  {
    Pow2Double(k - 1);
    HalfDigit(h, lo, Pow2(k - 1));
    hide Pow2;
  }

  lemma HalfDigit(h: int, lo: nat, p: int)
    requires p > 0 && lo < 2 * p
    ensures (h * (2 * p) + lo) / p == 2 * h + (if lo >= p then 1 else 0)
  {
    var b := if lo >= p then 1 else 0;
    assert h * (2 * p) == p * (2 * h);
    assert p * (2 * h + b) == p * (2 * h) + b * p;
    DivModUnique(h * (2 * p) + lo, p, 2 * h + b, lo - b * p);
  }
}
