/** Packed decimal: ABCD and SBCD, and chains of them through X, least significant byte first. */
module Bcd {
  import opened Machine
  import opened Alu
  import opened Bits

  function AddBcd(src: u8, dst: u8, ccr: Ccr): (r: AluResult)
    ensures r.result < 0x100
  {
    var x := if ccr.x then 1 else 0;
    var lo := dst % 16 + src % 16 + x;
    var carry := if lo > 9 then 1 else 0;
    var lo' := if lo > 9 then lo - 10 else lo;
    var hi := dst / 16 + src / 16 + carry;
    var carry' := hi > 9;
    var hi' := if hi > 9 then hi - 10 else hi;
    Packed(hi', lo', carry', ccr)
  }

  function SubBcd(src: u8, dst: u8, ccr: Ccr): (r: AluResult)
    ensures r.result < 0x100
  {
    var x := if ccr.x then 1 else 0;
    var lo := dst % 16 - src % 16 - x;
    var borrow := if lo < 0 then 1 else 0;
    var lo' := if lo < 0 then lo + 10 else lo;
    var hi := dst / 16 - src / 16 - borrow;
    var borrow' := hi < 0;
    var hi' := if hi < 0 then hi + 10 else hi;
    Packed(hi', lo', borrow', ccr)
  }

  /** The result byte and its flags; Z is kept when the byte is zero and cleared otherwise. */
  function Packed(hi: int, lo: int, carry: bool, ccr: Ccr): (r: AluResult)
    ensures r.result < 0x100
  {
    var result := hi % 16 * 16 + lo % 16;
    AluResult(result, Ccr(carry, result >= 0x80, result == 0 && ccr.z, false, carry, 0))
  }

  predicate Decimal(b: u32) {
    b < 0x100 && b % 16 <= 9 && b / 16 <= 9
  }

  function Digits(b: u32): int {
    b / 16 * 10 + b % 16
  }

  function One(x: bool): int {
    if x then 1 else 0
  }

  lemma PackedDigits(hi: int, lo: int, carry: bool, ccr: Ccr)
    requires 0 <= hi <= 9 && 0 <= lo <= 9
    ensures var r := Packed(hi, lo, carry, ccr);
            Decimal(r.result) && Digits(r.result) == 10 * hi + lo
            && r.ccr.x == r.ccr.c == carry && r.ccr.z == (ccr.z && r.result == 0)
  {
    var v := hi * 16 + lo;
    assert v / 16 == hi && v % 16 == lo;
  }

  lemma AddByte(src: u8, dst: u8, ccr: Ccr)
    requires Decimal(src) && Decimal(dst)
    ensures var r := AddBcd(src, dst, ccr);
            Decimal(r.result) && r.ccr.c == r.ccr.x && r.ccr.z == (ccr.z && r.result == 0)
            && Digits(r.result) + 100 * One(r.ccr.x) == Digits(dst) + Digits(src) + One(ccr.x)
  {
    hide Packed;
    var lo := dst % 16 + src % 16 + One(ccr.x);
    var carry := if lo > 9 then 1 else 0;
    var hi := dst / 16 + src / 16 + carry;
    PackedDigits(if hi > 9 then hi - 10 else hi, if lo > 9 then lo - 10 else lo, hi > 9, ccr);
  }

  lemma SubByte(src: u8, dst: u8, ccr: Ccr)
    requires Decimal(src) && Decimal(dst)
    ensures var r := SubBcd(src, dst, ccr);
            Decimal(r.result) && r.ccr.c == r.ccr.x && r.ccr.z == (ccr.z && r.result == 0)
            && Digits(r.result) - 100 * One(r.ccr.x) == Digits(dst) - Digits(src) - One(ccr.x)
  {
    hide Packed;
    var lo := dst % 16 - src % 16 - One(ccr.x);
    var borrow := if lo < 0 then 1 else 0;
    var hi := dst / 16 - src / 16 - borrow;
    PackedDigits(if hi < 0 then hi + 10 else hi, if lo < 0 then lo + 10 else lo, hi < 0, ccr);
  }

  // ----- Chains -----

  datatype Chain = Chain(bytes: seq<u8>, ccr: Ccr)

  function AddChain(src: seq<u8>, dst: seq<u8>, ccr: Ccr): (r: Chain)
    requires |src| == |dst|
    ensures |r.bytes| == |src|
  {
    if src == [] then Chain([], ccr)
    else
      var r := AddBcd(src[0], dst[0], ccr);
      var rest := AddChain(src[1..], dst[1..], r.ccr);
      Chain([r.result] + rest.bytes, rest.ccr)
  }

  function SubChain(src: seq<u8>, dst: seq<u8>, ccr: Ccr): (r: Chain)
    requires |src| == |dst|
    ensures |r.bytes| == |src|
  {
    if src == [] then Chain([], ccr)
    else
      var r := SubBcd(src[0], dst[0], ccr);
      var rest := SubChain(src[1..], dst[1..], r.ccr);
      Chain([r.result] + rest.bytes, rest.ccr)
  }

  predicate AllDecimal(a: seq<u8>) {
    forall i :: 0 <= i < |a| ==> Decimal(a[i])
  }

  predicate AllZero(a: seq<u8>) {
    forall i :: 0 <= i < |a| ==> a[i] == 0
  }

  /** The number that packed decimal bytes denote. */
  function Number(a: seq<u8>): nat {
    if a == [] then 0 else Digits(a[0]) + 100 * Number(a[1..])
  }

  function Hundreds(k: nat): (p: int)
    ensures p > 0
  {
    if k == 0 then 1 else 100 * Hundreds(k - 1)
  }

  lemma NumberUnfold(a: seq<u8>)
    requires a != []
    ensures Number(a) == Digits(a[0]) + 100 * Number(a[1..])
  {
    hide Digits;
  }

  /** Adding a hundredfold place: the carry out of n + 1 bytes. */
  lemma Place(k: nat, x: int)
    ensures Hundreds(k + 1) * x == 100 * (Hundreds(k) * x)
  {
    assert Hundreds(k + 1) == 100 * Hundreds(k);
  }

  lemma NoBytes()
    ensures AllZero([]) && Number([]) == 0 && forall x :: Hundreds(0) * x == x
  {
  }

  lemma AllZeroSplit(a: seq<u8>)
    requires a != []
    ensures AllZero(a) == (a[0] == 0 && AllZero(a[1..]))
  {
  }

  /** ABCD over n bytes is addition modulo 10^(2n); X carries the overflow and Z the zero test. */
  lemma {:induction false} AddChainSum(src: seq<u8>, dst: seq<u8>, ccr: Ccr)
    requires |src| == |dst| && AllDecimal(src) && AllDecimal(dst)
    ensures var r := AddChain(src, dst, ccr);
            AllDecimal(r.bytes)
            && Number(r.bytes) + Hundreds(|src|) * One(r.ccr.x) == Number(dst) + Number(src) + One(ccr.x)
            && r.ccr.z == (ccr.z && AllZero(r.bytes))
            && (src != [] ==> r.ccr.c == r.ccr.x)
  {
    hide AddBcd, Digits, Decimal, AllZero, One, Number, Hundreds;
    if src == [] {
      NoBytes();
    } else {
      var r := AddBcd(src[0], dst[0], ccr);
      var rest := AddChain(src[1..], dst[1..], r.ccr);
      var bytes := AddChain(src, dst, ccr).bytes;
      AddByte(src[0], dst[0], ccr);
      AddChainSum(src[1..], dst[1..], r.ccr);
      assert bytes[1..] == rest.bytes;
      AllZeroSplit(bytes);
      NumberUnfold(src);
      NumberUnfold(dst);
      NumberUnfold(bytes);
      Place(|src| - 1, One(rest.ccr.x));
    }
  }

  lemma {:induction false} SubChainDifference(src: seq<u8>, dst: seq<u8>, ccr: Ccr)
    requires |src| == |dst| && AllDecimal(src) && AllDecimal(dst)
    ensures var r := SubChain(src, dst, ccr);
            AllDecimal(r.bytes)
            && Number(r.bytes) - Hundreds(|src|) * One(r.ccr.x) == Number(dst) - Number(src) - One(ccr.x)
            && r.ccr.z == (ccr.z && AllZero(r.bytes))
            && (src != [] ==> r.ccr.c == r.ccr.x)
  {
    hide SubBcd, Digits, Decimal, AllZero, One, Number, Hundreds;
    if src == [] {
      NoBytes();
    } else {
      var r := SubBcd(src[0], dst[0], ccr);
      var rest := SubChain(src[1..], dst[1..], r.ccr);
      var bytes := SubChain(src, dst, ccr).bytes;
      SubByte(src[0], dst[0], ccr);
      SubChainDifference(src[1..], dst[1..], r.ccr);
      assert bytes[1..] == rest.bytes;
      AllZeroSplit(bytes);
      NumberUnfold(src);
      NumberUnfold(dst);
      NumberUnfold(bytes);
      Place(|src| - 1, One(rest.ccr.x));
    }
  }

  lemma {:induction false} NumberBound(a: seq<u8>)
    requires AllDecimal(a)
    ensures Number(a) < Hundreds(|a|)
  {
    if a != [] {
      NumberBound(a[1..]);
    }
  }

  lemma DigitsInjective(a: u8, b: u8)
    requires Decimal(a) && Decimal(b)
    ensures 0 <= Digits(a) < 100 && 0 <= Digits(b) < 100 && (Digits(a) == Digits(b) ==> a == b)
  {
  }

  lemma {:induction false} NumberInjective(a: seq<u8>, b: seq<u8>)
    requires |a| == |b| && AllDecimal(a) && AllDecimal(b) && Number(a) == Number(b)
    ensures a == b
  {
    if a != [] {
      hide Number, Digits;
      NumberUnfold(a);
      NumberUnfold(b);
      DigitsInjective(a[0], b[0]);
      NumberInjective(a[1..], b[1..]);
      assert a == [a[0]] + a[1..] && b == [b[0]] + b[1..];
    }
  }

  /** SBCD with the same entry X undoes ABCD byte for byte and leaves the same X. */
  lemma SubUndoesAdd(src: seq<u8>, dst: seq<u8>, ccr: Ccr, entry: Ccr)
    requires |src| == |dst| && AllDecimal(src) && AllDecimal(dst) && entry.x == ccr.x
    ensures var sum := AddChain(src, dst, ccr);
            var back := SubChain(src, sum.bytes, entry);
            back.bytes == dst && (src != [] ==> back.ccr.x == sum.ccr.x)
  {
    hide AddChain, SubChain, Number, Digits, Decimal, AllZero;
    var sum := AddChain(src, dst, ccr);
    AddChainSum(src, dst, ccr);
    var back := SubChain(src, sum.bytes, entry);
    SubChainDifference(src, sum.bytes, entry);
    NumberBound(dst);
    NumberBound(back.bytes);
    NumberInjective(back.bytes, dst);
  }
}
