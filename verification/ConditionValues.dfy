/** Numbers, registers and value sets in breakpoint conditions. */
module ConditionValues {
  import opened Machine

  // ----- Digits -----

  function Digit(c: char, base: nat): Option<nat> {
    if '0' <= c <= '9' then Some(c as int - '0' as int)
    else if base == 16 && 'a' <= c <= 'f' then Some(c as int - 'a' as int + 10)
    else if base == 16 && 'A' <= c <= 'F' then Some(c as int - 'A' as int + 10)
    else None
  }

  predicate IsDigit(c: char, base: nat) {
    Digit(c, base).Some?
  }

  /** How many digits t starts with. */
  function RunLength(t: string, base: nat): (n: nat)
    ensures n <= |t| && forall i :: 0 <= i < n ==> IsDigit(t[i], base)
  {
    if t != "" && IsDigit(t[0], base) then 1 + RunLength(t[1..], base) else 0
  }

  function DigitOf(c: char, base: nat): nat {
    if IsDigit(c, base) then Digit(c, base).value else 0
  }

  function DigitsValue(ds: string, base: nat): nat {
    if ds == "" then 0 else DigitsValue(ds[..|ds| - 1], base) * base + DigitOf(ds[|ds| - 1], base)
  }

  datatype Parsed = Parsed(length: nat, value: u32)

  /** strtoull on plain digits: the value saturates at 2^64 - 1, and the caller keeps its low 32 bits. */
  function DigitPrefix(t: string, base: nat): Option<Parsed> {
    var n := RunLength(t, base);
    if n == 0 then None
    else
      var v := DigitsValue(t[..n], base);
      Some(Parsed(n, Wrap(if v > 0xFFFF_FFFF_FFFF_FFFF then 0xFFFF_FFFF_FFFF_FFFF else v)))
  }

  /** The number that t starts with: decimal, or hexadecimal after 0x or $. */
  function NumberPrefix(t: string): (r: Option<Parsed>)
    ensures r.Some? ==> 0 < r.value.length <= |t|
  {
    var skip := if |t| > 1 && t[0] == '0' && (t[1] == 'x' || t[1] == 'X') then 2 else if t != "" && t[0] == '$' then 1 else 0;
    match DigitPrefix(t[skip..], if skip == 0 then 10 else 16)
    case None => None
    case Some(p) => Some(Parsed(skip + p.length, p.value))
  }

  method ParseNumber(s: string, pos: nat) returns (ok: bool, endPos: nat, outVal: u32)
    ensures ok == (pos < |s| && NumberPrefix(s[pos..]).Some?)
    ensures ok ==> var p := NumberPrefix(s[pos..]).value; endPos == pos + p.length && outVal == p.value
  {
    hide DigitPrefix;
    ok, endPos, outVal := false, 0, 0;
    if pos >= |s| {
      return;
    }
    var start, base := pos, 10;
    if pos + 1 < |s| && s[pos] == '0' && (s[pos + 1] == 'x' || s[pos + 1] == 'X') {
      base, start := 16, pos + 2;
    } else if s[pos] == '$' {
      base, start := 16, pos + 1;
    }
    assert s[pos..][start - pos..] == s[start..];
    NothingParsed(base);
    if start >= |s| {
      return;
    }
    var p := DigitPrefix(s[start..], base);
    if p.None? {
      return;
    }
    ok, endPos, outVal := true, start + p.value.length, p.value.value;
  }

  lemma NothingParsed(base: nat)
    ensures DigitPrefix("", base) == None
  {
  }

  // ----- Registers -----

  datatype Registers = Registers(D: Regs, A: Regs, pc: u32, sr: u16)

  function Upper(c: char): char {
    if 'a' <= c <= 'z' then c - 'a' + 'A' else c
  }

  function RegisterValue(name: string, r: Registers): Option<u32> {
    if |name| == 2 && Upper(name[0]) == 'D' && '0' <= name[1] <= '7' then Some(r.D[name[1] as int - '0' as int])
    else if |name| == 2 && Upper(name[0]) == 'A' && '0' <= name[1] <= '7' then Some(r.A[name[1] as int - '0' as int])
    else if |name| == 2 && Upper(name[0]) == 'S' && (name[1] == 'R' || name[1] == 'r') then Some(r.sr)
    else if |name| == 2 && Upper(name[0]) == 'P' && (name[1] == 'C' || name[1] == 'c') then Some(r.pc)
    else if name == "SP" || name == "sp" then Some(r.A[7])
    else None
  }

  // ----- IN {...} -----

  predicate Separator(c: char) {
    c == ' ' || c == ','
  }

  predicate Alphanumeric(c: char) {
    '0' <= c <= '9' || 'a' <= c <= 'z' || 'A' <= c <= 'Z'
  }

  function Separators(t: string): (n: nat)
    ensures n <= |t|
  {
    if t != "" && Separator(t[0]) then 1 + Separators(t[1..]) else 0
  }

  function TokenLength(t: string): (n: nat)
    ensures n <= |t|
  {
    if t != "" && Alphanumeric(t[0]) then 1 + TokenLength(t[1..]) else 0
  }

  /** The element that t starts with: a register name if the whole token is one, else a number. */
  function ElementPrefix(t: string, r: Registers): (p: Option<Parsed>)
    ensures p.Some? ==> 0 < p.value.length <= |t|
  {
    var token := t[..TokenLength(t)];
    match RegisterValue(token, r)
    case Some(v) => Some(Parsed(|token|, v))
    case None => NumberPrefix(t)
  }

  /** Whether lhs is one of the listed values; text that is no value makes the test succeed. */
  predicate InSet(t: string, lhs: u32, r: Registers)
    decreases |t|
  {
    var u := t[Separators(t)..];
    u != "" &&
    match ElementPrefix(u, r)
    case None => true
    case Some(p) => lhs == p.value || InSet(u[p.length..], lhs, r)
  }

  method MatchesSet(list: string, lhs: u32, r: Registers) returns (found: bool)
    ensures found == InSet(list, lhs, r)
  {
    hide ElementPrefix, InSet;
    var pos := 0;
    assert list[0..] == list;
    while pos < |list|
      invariant 0 <= pos <= |list| && InSet(list, lhs, r) == InSet(list[pos..], lhs, r)
      decreases |list| - pos
    {
      InSetUnfold(list, pos, lhs, r);
      ghost var from := pos;
      while pos < |list| && Separator(list[pos])
        invariant from <= pos <= |list|
        invariant Separators(list[from..]) == pos - from + Separators(list[pos..])
      {
        assert list[pos..][1..] == list[pos + 1..];
        pos := pos + 1;
      }
      if pos >= |list| {
        break;
      }
      var p := NextElement(list, pos, r);
      if p.None? {
        return true;
      }
      if lhs == p.value.value {
        return true;
      }
      pos := pos + p.value.length;
    }
    InSetEnd(lhs, r);
    assert list[|list|..] == "";
    found := false;
  }

  method NextElement(list: string, pos: nat, r: Registers) returns (p: Option<Parsed>)
    requires pos < |list|
    ensures p == ElementPrefix(list[pos..], r)
  {
    hide NumberPrefix, RegisterValue;
    var tokEnd := pos;
    while tokEnd < |list| && Alphanumeric(list[tokEnd])
      invariant pos <= tokEnd <= |list|
      invariant TokenLength(list[pos..]) == tokEnd - pos + TokenLength(list[tokEnd..])
    {
      assert list[tokEnd..][1..] == list[tokEnd + 1..];
      tokEnd := tokEnd + 1;
    }
    assert list[pos..][..tokEnd - pos] == list[pos..tokEnd];
    var v := RegisterValue(list[pos..tokEnd], r);
    if v.Some? {
      return Some(Parsed(tokEnd - pos, v.value));
    }
    var ok, end, val := ParseNumber(list, pos);
    p := if ok then Some(Parsed(end - pos, val)) else None;
  }

  lemma InSetUnfold(list: string, from: nat, lhs: u32, r: Registers)
    requires from <= |list|
    ensures var pos := from + Separators(list[from..]);
            InSet(list[from..], lhs, r) ==
            if pos == |list| then false
            else
              var p := ElementPrefix(list[pos..], r);
              p.None? || lhs == p.value.value || InSet(list[pos + p.value.length..], lhs, r)
  {
    hide ElementPrefix, Separators;
    var pos := from + Separators(list[from..]);
    assert list[from..][Separators(list[from..])..] == list[pos..];
    if pos < |list| && ElementPrefix(list[pos..], r).Some? {
      var n := ElementPrefix(list[pos..], r).value.length;
      assert list[pos..][n..] == list[pos + n..];
    }
  }

  lemma InSetEnd(lhs: u32, r: Registers)
    ensures !InSet("", lhs, r)
  {
  }

  // ----- Printed values -----

  function DigitChar(d: nat): char
    requires d < 16
  {
    if d < 10 then '0' + d as char else 'A' + (d - 10) as char
  }

  function PrintDigits(n: nat, base: nat): (s: string)
    requires base == 10 || base == 16
    ensures s != ""
  {
    (if n < base then "" else PrintDigits(n / base, base)) + [DigitChar(n % base)]
  }

  datatype Element = Register(name: string) | Decimal(n: u32) | Hex(n: u32)

  function PrintElement(e: Element): string {
    match e
    case Register(name) => name
    case Decimal(n) => PrintDigits(n, 10)
    case Hex(n) => "0x" + PrintDigits(n, 16)
  }

  predicate KnownElement(e: Element, r: Registers) {
    e.Register? ==> RegisterValue(e.name, r).Some?
  }

  function ElementValue(e: Element, r: Registers): u32
    requires KnownElement(e, r)
  {
    match e
    case Register(name) => RegisterValue(name, r).value
    case Decimal(n) => n
    case Hex(n) => n
  }

  /** Elements, each after its own separator text. */
  datatype Listed = Listed(separator: string, element: Element)

  function PrintSet(items: seq<Listed>): string {
    if items == [] then "" else items[0].separator + PrintElement(items[0].element) + PrintSet(items[1..])
  }

  /** Separators are blanks and commas; only the first may be empty. */
  predicate WellSeparated(items: seq<Listed>) {
    && (forall i, j | 0 <= i < |items| && 0 <= j < |items[i].separator| :: Separator(items[i].separator[j]))
    && (forall i | 0 < i < |items| :: items[i].separator != "")
  }

  /** t ends a token: it is empty or starts with a separator. */
  predicate EndsToken(t: string) {
    t == "" || Separator(t[0])
  }

  predicate Digits(s: string, base: nat) {
    forall i :: 0 <= i < |s| ==> IsDigit(s[i], base) && Alphanumeric(s[i])
  }

  lemma {:induction false} PrintedDigits(n: nat, base: nat)
    requires base == 10 || base == 16
    ensures var s := PrintDigits(n, base);
            Digits(s, base) && DigitsValue(s, base) == n && (base == 10 ==> s[0] == '0' ==> n == 0)
  {
    hide PrintDigits, Digits, DigitsValue, DigitOf, IsDigit, DigitChar;
    DigitBack(n % base, base);
    if n < base {
      PrintedShort(n, base);
    } else {
      PrintedDigits(n / base, base);
      PrintedLong(n, base);
    }
  }

  lemma PrintedShort(n: nat, base: nat)
    requires (base == 10 || base == 16) && n < base
    ensures var s := PrintDigits(n, base);
            Digits(s, base) && DigitsValue(s, base) == n && (base == 10 ==> s[0] == '0' ==> n == 0)
  {
    hide Digit, DigitChar, IsDigit, Alphanumeric, Digits;
    PrintOne(n, base);
    OneDigit(n, base);
  }

  lemma PrintOne(n: nat, base: nat)
    requires (base == 10 || base == 16) && n < base
    ensures PrintDigits(n, base) == [DigitChar(n)] && (base == 10 ==> DigitChar(n) == '0' ==> n == 0)
  {
  }

  lemma OneDigit(n: nat, base: nat)
    requires (base == 10 || base == 16) && n < base
    ensures Digits([DigitChar(n)], base) && DigitsValue([DigitChar(n)], base) == n
  {
  }

  lemma PrintedLong(n: nat, base: nat)
    requires (base == 10 || base == 16) && n >= base
    requires var s := PrintDigits(n / base, base);
             Digits(s, base) && DigitsValue(s, base) == n / base && (base == 10 ==> s[0] == '0' ==> n / base == 0)
    ensures var s := PrintDigits(n, base);
            Digits(s, base) && DigitsValue(s, base) == n && (base == 10 ==> s[0] == '0' ==> n == 0)
  {
    hide PrintDigits, Digits, DigitsValue, DigitChar, IsDigit, Alphanumeric;
    PrintUnfold(n, base);
    Snoc(PrintDigits(n / base, base), n % base, base);
    Whole(n, base);
  }

  lemma PrintUnfold(n: nat, base: nat)
    requires (base == 10 || base == 16) && n >= base
    ensures PrintDigits(n, base) == PrintDigits(n / base, base) + [DigitChar(n % base)]
  {
  }

  lemma Snoc(s: string, d: nat, base: nat)
    requires (base == 10 || base == 16) && d < base && Digits(s, base)
    ensures Digits(s + [DigitChar(d)], base) && DigitsValue(s + [DigitChar(d)], base) == DigitsValue(s, base) * base + d
  {
    hide Digit, DigitChar, Alphanumeric;
    DigitBack(d, base);
    assert (s + [DigitChar(d)])[..|s|] == s;
  }

  lemma Whole(n: nat, base: nat)
    requires base == 10 || base == 16
    ensures n / base * base + n % base == n && (n >= base ==> n / base > 0)
  {
  }

  lemma DigitBack(d: nat, base: nat)
    requires (base == 10 || base == 16) && d < base
    ensures Digit(DigitChar(d), base) == Some(d) && Alphanumeric(DigitChar(d))
  {
  }

  lemma {:induction false} RunOfDigits(s: string, rest: string, base: nat)
    requires (forall i :: 0 <= i < |s| ==> IsDigit(s[i], base)) && EndsToken(rest)
    ensures RunLength(s + rest, base) == |s|
  {
    if s == "" {
      assert s + rest == rest;
    } else {
      assert (s + rest)[1..] == s[1..] + rest;
      RunOfDigits(s[1..], rest, base);
    }
  }

  lemma {:induction false} TokenOf(s: string, rest: string)
    requires (forall i :: 0 <= i < |s| ==> Alphanumeric(s[i])) && EndsToken(rest)
    ensures TokenLength(s + rest) == |s|
  {
    if s == "" {
      assert s + rest == rest;
    } else {
      assert (s + rest)[1..] == s[1..] + rest;
      TokenOf(s[1..], rest);
    }
  }

  lemma {:induction false} SeparatorsOf(s: string, rest: string)
    requires (forall i :: 0 <= i < |s| ==> Separator(s[i])) && (rest == "" || !Separator(rest[0]))
    ensures Separators(s + rest) == |s|
  {
    if s == "" {
      assert s + rest == rest;
    } else {
      assert (s + rest)[1..] == s[1..] + rest;
      SeparatorsOf(s[1..], rest);
    }
  }

  /** A printed number is read back, in either base, whatever ends the token. */
  lemma PrintedDigitPrefix(n: u32, base: nat, rest: string)
    requires (base == 10 || base == 16) && EndsToken(rest)
    ensures DigitPrefix(PrintDigits(n, base) + rest, base) == Some(Parsed(|PrintDigits(n, base)|, n))
  {
    hide PrintDigits, DigitsValue, RunLength, IsDigit, Alphanumeric, EndsToken;
    var s := PrintDigits(n, base);
    PrintedDigits(n, base);
    RunOfDigits(s, rest, base);
    assert (s + rest)[..|s|] == s;
  }

  lemma PrintedNumberPrefix(e: Element, rest: string)
    requires !e.Register? && EndsToken(rest)
    ensures NumberPrefix(PrintElement(e) + rest) == Some(Parsed(|PrintElement(e)|, e.n))
  {
    hide PrintDigits, DigitPrefix, DigitsValue, Digits, EndsToken;
    if e.Hex? {
      PrintedDigitPrefix(e.n, 16, rest);
      HexPrefix(PrintDigits(e.n, 16), rest);
    } else {
      PrintedDigits(e.n, 10);
      PrintedDigitPrefix(e.n, 10, rest);
      FirstIsNoPrefix(PrintDigits(e.n, 10), rest);
      DecimalPrefix(PrintDigits(e.n, 10) + rest);
    }
  }

  lemma HexPrefix(s: string, rest: string)
    requires DigitPrefix(s + rest, 16).Some?
    ensures NumberPrefix("0x" + s + rest)
      == Some(Parsed(2 + DigitPrefix(s + rest, 16).value.length, DigitPrefix(s + rest, 16).value.value))
  {
    hide DigitPrefix;
    var t := "0x" + s + rest;
    assert t[2..] == s + rest && t[0] == '0' && t[1] == 'x';
  }

  lemma DecimalPrefix(t: string)
    requires t != "" && t[0] != '$' && (|t| > 1 ==> t[1] != 'x' && t[1] != 'X')
    ensures NumberPrefix(t) == DigitPrefix(t, 10)
  {
  }

  /** A decimal number does not look like the start of a hexadecimal one. */
  lemma FirstIsNoPrefix(s: string, rest: string)
    requires s != "" && Digits(s, 10) && EndsToken(rest)
    ensures (s + rest)[0] != '$' && (|s + rest| > 1 ==> (s + rest)[1] != 'x' && (s + rest)[1] != 'X')
  {
  }

  /** No number is spelled like a register. */
  lemma NumbersAreNoRegisters(e: Element, r: Registers)
    requires !e.Register?
    ensures RegisterValue(PrintElement(e), r) == None
    ensures PrintElement(e) != "" && forall i :: 0 <= i < |PrintElement(e)| ==> Alphanumeric(PrintElement(e)[i])
  {
    var base := if e.Hex? then 16 else 10;
    var s := PrintDigits(e.n, base);
    PrintedDigits(e.n, base);
    hide PrintDigits, DigitsValue;
    assert IsDigit(s[0], base);
  }

  lemma NamesAreTokens(name: string, r: Registers)
    requires RegisterValue(name, r).Some?
    ensures name != "" && forall i :: 0 <= i < |name| ==> Alphanumeric(name[i])
  {
  }

  /** A printed element is read back as a whole. */
  lemma PrintedElement(e: Element, rest: string, r: Registers)
    requires KnownElement(e, r) && EndsToken(rest)
    ensures PrintElement(e) != "" && !Separator(PrintElement(e)[0])
    ensures ElementPrefix(PrintElement(e) + rest, r) == Some(Parsed(|PrintElement(e)|, ElementValue(e, r)))
  {
    hide NumberPrefix, RegisterValue, PrintDigits, EndsToken;
    var s := PrintElement(e);
    if e.Register? {
      NamesAreTokens(e.name, r);
    } else {
      NumbersAreNoRegisters(e, r);
      PrintedNumberPrefix(e, rest);
    }
    TokenOf(s, rest);
    assert (s + rest)[..|s|] == s;
    assert Alphanumeric(s[0]);
  }

  predicate Contains(items: seq<Listed>, v: u32, r: Registers)
    requires forall i :: 0 <= i < |items| ==> KnownElement(items[i].element, r)
  {
    exists i :: 0 <= i < |items| && ElementValue(items[i].element, r) == v
  }

  /** For every printed list of registers and numbers, IN holds exactly for the values listed. */
  lemma {:induction false} PrintedSetMembership(items: seq<Listed>, lhs: u32, r: Registers)
    requires WellSeparated(items) && forall i :: 0 <= i < |items| ==> KnownElement(items[i].element, r)
    ensures InSet(PrintSet(items), lhs, r) == Contains(items, lhs, r)
    decreases |items|
  {
    hide ElementPrefix, KnownElement, ElementValue, PrintElement;
    if items == [] {
      InSetEnd(lhs, r);
    } else {
      var e, sep, rest := items[0].element, items[0].separator, PrintSet(items[1..]);
      TailSeparated(items);
      PrintSetStarts(items[1..]);
      PrintedElement(e, rest, r);
      PrintedSetMembership(items[1..], lhs, r);
      FirstElement(sep, PrintElement(e), rest, lhs, r);
      assert PrintSet(items) == sep + (PrintElement(e) + rest);
      ContainsUnfold(items, lhs, r);
    }
  }

  lemma FirstElement(sep: string, s: string, rest: string, lhs: u32, r: Registers)
    requires (forall i :: 0 <= i < |sep| ==> Separator(sep[i])) && s != "" && !Separator(s[0])
    requires ElementPrefix(s + rest, r).Some? && ElementPrefix(s + rest, r).value.length == |s|
    ensures InSet(sep + (s + rest), lhs, r) == (lhs == ElementPrefix(s + rest, r).value.value || InSet(rest, lhs, r))
  {
    hide ElementPrefix;
    SeparatorsOf(sep, s + rest);
    assert (sep + (s + rest))[|sep|..] == s + rest && (s + rest)[|s|..] == rest;
  }

  lemma TailSeparated(items: seq<Listed>)
    requires items != [] && WellSeparated(items)
    ensures WellSeparated(items[1..]) && (forall i :: 0 <= i < |items[0].separator| ==> Separator(items[0].separator[i]))
    ensures |items| > 1 ==> items[1].separator != "" && Separator(items[1].separator[0])
  {
  }

  lemma PrintSetStarts(items: seq<Listed>)
    requires items != [] ==> items[0].separator != "" && Separator(items[0].separator[0])
    ensures EndsToken(PrintSet(items))
  {
  }

  lemma ContainsUnfold(items: seq<Listed>, v: u32, r: Registers)
    requires items != [] && forall i :: 0 <= i < |items| ==> KnownElement(items[i].element, r)
    ensures Contains(items, v, r) == (ElementValue(items[0].element, r) == v || Contains(items[1..], v, r))
  {
  }
}
