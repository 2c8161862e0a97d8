/** Which texts are numbers, registers and brackets in breakpoint conditions, and what they stand for. */
module ConditionLiterals {
  import opened Machine
  import opened ConditionSplit
  import opened ConditionValues

  // ----- Numbers -----

  const LOWER := "0123456789abcdef"
  const UPPER := "0123456789ABCDEF"

  /** The character c stands for the digit d. */
  predicate Stands(c: char, d: nat, base: nat) {
    d < base && d < 16 && (c == LOWER[d] || c == UPPER[d])
  }

  /** The digits ds are written as s. */
  predicate Written(s: string, ds: seq<nat>, base: nat) {
    |s| == |ds| && forall i :: 0 <= i < |s| ==> Stands(s[i], ds[i], base)
  }

  /** Digits with the least significant one first. */
  function FromLeast(ds: seq<nat>, base: nat): nat {
    if ds == [] then 0 else ds[0] + base * FromLeast(ds[1..], base)
  }

  function Backwards(ds: seq<nat>): (r: seq<nat>)
    ensures |r| == |ds|
  {
    seq(|ds|, i requires 0 <= i < |ds| => ds[|ds| - 1 - i])
  }

  /** The prefixes that announce a number in the given base. */
  predicate Announces(prefix: string, base: nat) {
    if base == 16 then prefix == "0x" || prefix == "0X" || prefix == "$" else base == 10 && prefix == ""
  }

  lemma DigitStands(c: char, d: nat, base: nat)
    requires base == 10 || base == 16
    ensures Stands(c, d, base) <==> Digit(c, base) == Some(d)
  {
  }

  lemma DigitsAreDigits(s: string, ds: seq<nat>, base: nat)
    requires (base == 10 || base == 16) && Written(s, ds, base)
    ensures forall i :: 0 <= i < |s| ==> IsDigit(s[i], base) && DigitOf(s[i], base) == ds[i]
  {
    hide Stands, Digit;
    forall i | 0 <= i < |s|
      ensures IsDigit(s[i], base) && DigitOf(s[i], base) == ds[i]
    {
      DigitStands(s[i], ds[i], base);
    }
  }

  lemma {:induction false} ValueOf(s: string, ds: seq<nat>, base: nat)
    requires (base == 10 || base == 16) && Written(s, ds, base)
    ensures DigitsValue(s, base) == FromLeast(Backwards(ds), base)
  {
    hide Stands, DigitOf, IsDigit;
    if s != "" {
      var k := |s| - 1;
      DigitsAreDigits(s, ds, base);
      ValueOf(s[..k], ds[..k], base);
      assert Backwards(ds)[1..] == Backwards(ds[..k]);
    }
  }

  lemma {:induction false} RunStops(s: string, rest: string, base: nat)
    requires (forall i :: 0 <= i < |s| ==> IsDigit(s[i], base)) && (rest == "" || !IsDigit(rest[0], base))
    ensures RunLength(s + rest, base) == |s|
  {
    hide IsDigit;
    if s == "" {
      assert s + rest == rest;
    } else {
      assert (s + rest)[1..] == s[1..] + rest;
      RunStops(s[1..], rest, base);
    }
  }

  /**
    A number is as many digits as there are, of either case; its value is kept modulo 2^32, and
    a number of more than 64 bits counts as 2^64 - 1.
  */
  lemma NumberMeans(prefix: string, s: string, ds: seq<nat>, base: nat, rest: string)
    requires Announces(prefix, base) && s != "" && Written(s, ds, base)
    requires rest == "" || !IsDigit(rest[0], base)
    requires base == 10 && s == "0" && rest != "" ==> rest[0] != 'x' && rest[0] != 'X'
    ensures var v := FromLeast(Backwards(ds), base);
            NumberPrefix(prefix + s + rest) ==
            Some(Parsed(|prefix| + |s|, if v < 0x1_0000_0000_0000_0000 then v % 0x1_0000_0000 else 0xFFFF_FFFF))
  {
    hide Written, DigitsValue, IsDigit, DigitPrefix, NumberPrefix, FromLeast, Backwards;
    DigitsAreDigits(s, ds, base);
    ValueOf(s, ds, base);
    RunStops(s, rest, base);
    assert (s + rest)[..|s|] == s;
    PrefixOfRun(s + rest, base);
    if base == 16 {
      Announced(prefix, s + rest);
      assert prefix + s + rest == prefix + (s + rest);
    } else {
      DigitsAreNoPrefix(s, rest);
      NotHexadecimal(s + rest);
      assert prefix + s + rest == s + rest;
    }
  }

  lemma PrefixOfRun(t: string, base: nat)
    requires RunLength(t, base) > 0
    ensures var v := DigitsValue(t[..RunLength(t, base)], base);
            DigitPrefix(t, base) ==
            Some(Parsed(RunLength(t, base), if v < 0x1_0000_0000_0000_0000 then v % 0x1_0000_0000 else 0xFFFF_FFFF))
  {
  }

  lemma Announced(prefix: string, t: string)
    requires Announces(prefix, 16) && DigitPrefix(t, 16).Some?
    ensures NumberPrefix(prefix + t)
         == Some(Parsed(|prefix| + DigitPrefix(t, 16).value.length, DigitPrefix(t, 16).value.value))
  {
    hide DigitPrefix;
    assert (prefix + t)[|prefix|..] == t;
    assert (prefix + t)[0] == prefix[0] && (|prefix| == 2 ==> (prefix + t)[1] == prefix[1]);
  }

  lemma DigitsAreNoPrefix(s: string, rest: string)
    requires s != "" && forall i :: 0 <= i < |s| ==> IsDigit(s[i], 10)
    requires s == "0" && rest != "" ==> rest[0] != 'x' && rest[0] != 'X'
    ensures var t := s + rest; t[0] != '$' && (|t| > 1 && t[0] == '0' ==> t[1] != 'x' && t[1] != 'X')
  {
    assert IsDigit(s[0], 10);
    if |s| > 1 {
      assert IsDigit(s[1], 10);
    }
  }

  lemma NotHexadecimal(t: string)
    requires t != "" && t[0] != '$' && (|t| > 1 && t[0] == '0' ==> t[1] != 'x' && t[1] != 'X')
    ensures NumberPrefix(t) == DigitPrefix(t, 10)
  {
  }

  // ----- Registers -----

  /** The spellings of a register: the letter in either case, but SP as one word only. */
  predicate Names(name: string, r: Registers, v: u32) {
    || (exists i: Reg :: NumberedName(name, 'D', 'd', i) && v == r.D[i])
    || (exists i: Reg :: NumberedName(name, 'A', 'a', i) && v == r.A[i])
    || (name in ["SR", "Sr", "sR", "sr"] && v == r.sr)
    || (name in ["PC", "Pc", "pC", "pc"] && v == r.pc)
    || (name in ["SP", "sp"] && v == r.A[7])
  }

  predicate NumberedName(name: string, upper: char, lower: char, i: Reg) {
    |name| == 2 && (name[0] == upper || name[0] == lower) && name[1] == "01234567"[i]
  }

  lemma RegisterExactly(name: string, r: Registers, v: u32)
    ensures RegisterValue(name, r) == Some(v) <==> Names(name, r, v)
  {
    if |name| == 2 {
      assert name == [name[0], name[1]];
      TwoLetters(name[0], name[1], r, v);
    }
  }

  lemma TwoLetters(a: char, b: char, r: Registers, v: u32)
    ensures RegisterValue([a, b], r) == Some(v) <==> Names([a, b], r, v)
  {
    var name := [a, b];
    if '0' <= b <= '7' {
      var i: Reg := b as int - '0' as int;
      assert "01234567"[i] == b;
      assert (a == 'D' || a == 'd') ==> NumberedName(name, 'D', 'd', i);
      assert (a == 'A' || a == 'a') ==> NumberedName(name, 'A', 'a', i);
    }
  }

  // ----- Lists -----

  /** After a printed list, the test goes on with what follows. */
  lemma {:induction false} SetGoesOn(items: seq<Listed>, tail: string, lhs: u32, r: Registers)
    requires WellSeparated(items) && EndsToken(tail)
    requires forall i :: 0 <= i < |items| ==> KnownElement(items[i].element, r)
    ensures InSet(PrintSet(items) + tail, lhs, r) == (Contains(items, lhs, r) || InSet(tail, lhs, r))
    decreases |items|
  {
    hide ElementPrefix, KnownElement, ElementValue, PrintElement, InSet;
    if items == [] {
      assert PrintSet(items) + tail == tail;
    } else {
      var e, sep, rest := items[0].element, items[0].separator, PrintSet(items[1..]) + tail;
      TailSeparated(items);
      PrintSetStarts(items[1..]);
      assert items[1..] == [] ==> rest == tail;
      PrintedElement(e, rest, r);
      SetGoesOn(items[1..], tail, lhs, r);
      FirstElement(sep, PrintElement(e), rest, lhs, r);
      assert PrintSet(items) + tail == sep + (PrintElement(e) + rest);
      ContainsUnfold(items, lhs, r);
    }
  }

  /** A list with an element that is neither a register nor a number accepts every value. */
  lemma BadElementAccepts(items: seq<Listed>, sep: string, c: char, rest: string, lhs: u32, r: Registers)
    requires WellSeparated(items) && forall i :: 0 <= i < |items| ==> KnownElement(items[i].element, r)
    requires sep != "" && forall i :: 0 <= i < |sep| ==> Separator(sep[i])
    requires !Alphanumeric(c) && !Separator(c) && c != '$'
    ensures InSet(PrintSet(items) + (sep + ([c] + rest)), lhs, r)
  {
    hide PrintSet, InSet, KnownElement, Contains;
    SetGoesOn(items, sep + ([c] + rest), lhs, r);
    SeparatorsOf(sep, [c] + rest);
    NoElement(c, rest, r);
    BadHead(sep, [c] + rest, lhs, r);
  }

  lemma BadHead(sep: string, t: string, lhs: u32, r: Registers)
    requires Separators(sep + t) == |sep| && t != "" && ElementPrefix(t, r) == None
    ensures InSet(sep + t, lhs, r)
  {
    hide ElementPrefix, Separators;
    assert (sep + t)[|sep|..] == t;
  }

  lemma NoElement(c: char, rest: string, r: Registers)
    requires !Alphanumeric(c) && c != '$'
    ensures ElementPrefix([c] + rest, r) == None
  {
    var t := [c] + rest;
    assert TokenLength(t) == 0 && t[..0] == "";
    assert t[0..] == t && RunLength(t, 10) == 0;
  }

  // ----- Brackets -----

  /** The three kinds of brackets. */
  predicate Pair(open: char, close: char) {
    [open, close] in ["[]", "{}", "()"]
  }

  predicate NoBracket(s: string) {
    forall i :: 0 <= i < |s| ==> s[i] !in "[]{}()"
  }

  /** Text without brackets keeps the depth, and is not split at a positive depth. */
  lemma {:induction false} FlatInside(s: string, op: char, depth: nat, close: char, rest: string)
    requires NoBracket(s) && depth > 0 && close in "]})" && op !in "[]{}()"
    ensures var t := s + [close] + rest;
            SplitFrom(t, op, op, depth) == Pending(s + [close], SplitFrom(rest, op, op, depth - 1))
    decreases |s|
  {
    hide Pending, SplitFrom;
    if s == "" {
      assert s + [close] + rest == [close] + rest && s + [close] == [close];
      CloseStep(rest, op, depth, close);
    } else {
      FlatInside(s[1..], op, depth, close, rest);
      assert s + [close] + rest == [s[0]] + (s[1..] + [close] + rest);
      FlatStep(s[0], s[1..] + [close] + rest, op, depth);
      PrependPending(s[0], s[1..] + [close], SplitFrom(rest, op, op, depth - 1));
      assert [s[0]] + (s[1..] + [close]) == s + [close];
    }
  }

  lemma FlatStep(c: char, t: string, op: char, depth: nat)
    requires c !in "[]{}()" && depth > 0
    ensures SplitFrom([c] + t, op, op, depth) == Prepend(c, SplitFrom(t, op, op, depth))
  {
    assert ([c] + t)[1..] == t;
  }

  lemma CloseStep(rest: string, op: char, depth: nat, close: char)
    requires depth > 0 && close in "]})"
    ensures SplitFrom([close] + rest, op, op, depth) == Pending([close], SplitFrom(rest, op, op, depth - 1))
  {
    assert ([close] + rest)[1..] == rest;
  }

  lemma PrependPending(c: char, text: string, parts: seq<string>)
    requires parts != []
    ensures Prepend(c, Pending(text, parts)) == Pending([c] + text, parts)
  {
    assert [c] + (text + parts[0]) == [c] + text + parts[0];
  }

  /** An operator between brackets of any kind does not split; the one after them does. */
  lemma BracketsProtect(open: char, inner: string, close: char, op: char, rest: string)
    requires Pair(open, close) && NoBracket(inner) && op !in "[]{}()"
    ensures var group := [open] + inner + [close];
            && Split(group, op, op) == [group]
            && Split(group + [op, op] + rest, op, op) == [group] + Split(rest, op, op)
  {
    hide SplitFrom, Pending;
    var group := [open] + inner + [close];
    Opened(open, inner, close, op, "");
    assert group + "" == group;
    EndOfText(group, op);
    Opened(open, inner, close, op, [op, op] + rest);
    assert group + ([op, op] + rest) == group + [op, op] + rest;
    AfterGroup(group, op, rest);
  }

  lemma Opened(open: char, inner: string, close: char, op: char, rest: string)
    requires Pair(open, close) && NoBracket(inner) && op !in "[]{}()"
    ensures Split([open] + inner + [close] + rest, op, op)
         == Pending([open] + inner + [close], Split(rest, op, op))
  {
    var t := inner + [close] + rest;
    FlatInside(inner, op, 1, close, rest);
    assert [open] + inner + [close] + rest == [open] + t;
    OpenStep(open, t, op);
    hide SplitFrom, Pending;
    PrependPending(open, inner + [close], Split(rest, op, op));
    assert [open] + (inner + [close]) == [open] + inner + [close];
  }

  lemma OpenStep(open: char, t: string, op: char)
    requires open in "[{(" && op !in "[]{}()"
    ensures SplitFrom([open] + t, op, op, 0) == Prepend(open, SplitFrom(t, op, op, 1))
  {
    assert ([open] + t)[1..] == t;
  }

  lemma EndOfText(group: string, op: char)
    ensures Pending(group, SplitFrom("", op, op, 0)) == [group]
  {
    assert group + "" == group;
  }

  lemma AfterGroup(group: string, op: char, rest: string)
    requires op !in "[]{}()"
    ensures Pending(group, SplitFrom([op, op] + rest, op, op, 0)) == [group] + SplitFrom(rest, op, op, 0)
  {
    assert ([op, op] + rest)[2..] == rest;
    assert group + "" == group;
  }
}
