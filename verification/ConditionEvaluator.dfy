/** Evaluation of breakpoint conditions with ||, && and parentheses. */
module ConditionEvaluator {
  import opened ConditionSplit

  // ----- Meaning -----

  function TrimLeft(s: string): (r: string)
    ensures |r| <= |s|
  {
    if s != "" && s[0] == ' ' then TrimLeft(s[1..]) else s
  }

  function TrimRight(s: string): (r: string)
    ensures |r| <= |s|
  {
    if s != "" && s[|s| - 1] == ' ' then TrimRight(s[..|s| - 1]) else s
  }

  function Trim(s: string): (r: string)
    ensures |r| <= |s|
  {
    TrimRight(TrimLeft(s))
  }

  /** Only round parentheses count here. */
  function ParenDelta(c: char): int {
    if c == '(' then 1 else if c == ')' then -1 else 0
  }

  /** No proper non-empty prefix of s closes all parentheses. */
  predicate OpenUntilLast(s: string, depth: int) {
    |s| <= 1 || (depth + ParenDelta(s[0]) != 0 && OpenUntilLast(s[1..], depth + ParenDelta(s[0])))
  }

  /** The clause is one parenthesised group. */
  predicate Wrapped(s: string): (w: bool)
    ensures w ==> |s| >= 2
  {
    |s| > 0 && s[0] == '(' && s[|s| - 1] == ')' && OpenUntilLast(s, 0)
  }

  /** A condition holds if all leaves of one of its alternatives hold; an empty condition holds. */
  predicate EvaluateCondition(cond: string, single: string -> bool)
    decreases |cond|, 2
  {
    var alternatives := Split(cond, '|', '|');
    cond == "" || exists i :: 0 <= i < |alternatives| && EvaluateAll(alternatives[i], single)
  }

  predicate EvaluateAll(clause: string, single: string -> bool)
    decreases |clause|, 1
  {
    var leaves := Split(clause, '&', '&');
    forall j :: 0 <= j < |leaves| ==> EvaluateLeaf(leaves[j], single)
  }

  predicate EvaluateLeaf(raw: string, single: string -> bool)
    decreases |raw|, 0
  {
    var clause := Trim(raw);
    clause == "" ||
    if Wrapped(clause) then EvaluateCondition(clause[1..|clause| - 1], single)
    else single(clause)
  }

  // ----- The evaluator -----

  method ConditionHolds(cond: string, single: string -> bool) returns (r: bool)
    ensures r == EvaluateCondition(cond, single)
    decreases |cond|, 2
  {
    if cond == "" {
      return true;
    }
    var alternatives := SplitOutsideNesting(cond, '|', '|');
    for i := 0 to |alternatives|
      invariant forall k :: 0 <= k < i ==> !EvaluateAll(alternatives[k], single)
    {
      var allTrue := AllHold(alternatives[i], single);
      if allTrue {
        return true;
      }
    }
    return false;
  }

  method AllHold(clause: string, single: string -> bool) returns (allTrue: bool)
    ensures allTrue == EvaluateAll(clause, single)
    decreases |clause|, 1
  {
    allTrue := true;
    var leaves := SplitOutsideNesting(clause, '&', '&');
    for j := 0 to |leaves|
      invariant allTrue && forall k :: 0 <= k < j ==> EvaluateLeaf(leaves[k], single)
    {
      var holds := LeafHolds(leaves[j], single);
      if !holds {
        allTrue := false;
        break;
      }
    }
  }

  method LeafHolds(raw: string, single: string -> bool) returns (r: bool)
    ensures r == EvaluateLeaf(raw, single)
    decreases |raw|, 0
  {
    var s, e := Bounds(raw);
    if s >= e {
      return true;
    }
    if raw[s] == '(' && raw[e - 1] == ')' {
      var matched := GroupMatched(raw, s, e);
      if matched {
        Slice(raw, s, e, 1, e - s - 1);
        r := ConditionHolds(raw[s + 1..e - 1], single);
        return;
      }
    }
    r := single(raw[s..e]);
  }

  lemma Slice(raw: string, s: nat, e: nat, i: nat, j: nat)
    requires s <= e <= |raw| && i <= j <= e - s
    ensures raw[s..e][i..j] == raw[s + i..s + j]
  {
    var a, b := raw[s..e][i..j], raw[s + i..s + j];
    forall k | 0 <= k < j - i
      ensures a[k] == b[k]
    {
      assert a[k] == raw[s..e][i + k];
    }
  }

  method Bounds(raw: string) returns (s: nat, e: nat)
    ensures s <= e <= |raw| && raw[s..e] == Trim(raw)
  {
    s, e := 0, |raw|;
    assert raw[0..] == raw;
    while s < e && raw[s] == ' '
      invariant s <= e == |raw| && TrimLeft(raw) == TrimLeft(raw[s..])
    {
      assert raw[s..][1..] == raw[s + 1..];
      s := s + 1;
    }
    assert raw[s..] == raw[s..e];
    while e > s && raw[e - 1] == ' '
      invariant s <= e <= |raw| && TrimRight(raw[s..e]) == Trim(raw)
    {
      Slice(raw, s, e, 0, e - s - 1);
      e := e - 1;
    }
  }

  method GroupMatched(raw: string, s: nat, e: nat) returns (matched: bool)
    requires s < e <= |raw|
    ensures matched == OpenUntilLast(raw[s..e], 0)
  {
    var depth := 0;
    for k := s to e
      invariant OpenUntilLast(raw[s..e], 0) == OpenUntilLast(raw[k..e], depth)
    {
      if raw[k] == '(' {
        depth := depth + 1;
      } else if raw[k] == ')' {
        depth := depth - 1;
      }
      if depth == 0 && k < e - 1 {
        return false;
      }
      Slice(raw, k, e, 1, e - k);
    }
    matched := true;
  }
}
