/** Splitting a breakpoint condition at a two-character operator outside brackets. */
module ConditionSplit {

  /** The three kinds of brackets share one nesting depth. */
  function Delta(c: char): int {
    if c == '[' || c == '{' || c == '(' then 1
    else if c == ']' || c == '}' || c == ')' then -1
    else 0
  }

  /** c becomes the first character of the first part. */
  function Prepend(c: char, parts: seq<string>): (r: seq<string>)
    requires parts != []
    ensures |r| == |parts|
  {
    [[c] + parts[0]] + parts[1..]
  }

  predicate Delimiter(s: string, d0: char, d1: char, depth: int) {
    depth == 0 && |s| >= 2 && s[0] == d0 && s[1] == d1 && Delta(d0) == 0
  }

  /** The parts of s when the text before it left the nesting at depth. */
  function SplitFrom(s: string, d0: char, d1: char, depth: int): (parts: seq<string>)
    ensures parts != [] && forall i :: 0 <= i < |parts| ==> |parts[i]| <= |s|
    decreases |s|
  {
    if s == "" then [""]
    else if Delimiter(s, d0, d1, depth) then [""] + SplitFrom(s[2..], d0, d1, depth)
    else Prepend(s[0], SplitFrom(s[1..], d0, d1, depth + Delta(s[0])))
  }

  function Split(s: string, d0: char, d1: char): (parts: seq<string>)
    ensures parts != [] && forall i :: 0 <= i < |parts| ==> |parts[i]| <= |s|
  {
    SplitFrom(s, d0, d1, 0)
  }

  // ----- The loop -----

  /** parts with the pending text in front of the first one. */
  function Pending(text: string, parts: seq<string>): (r: seq<string>)
    requires parts != []
  {
    [text + parts[0]] + parts[1..]
  }

  /** parts is done, s[start..k] is pending, and the rest is still to be split. */
  predicate Scanned(s: string, d0: char, d1: char, parts: seq<string>, start: int, k: int, depth: int) {
    && 0 <= start <= k <= |s|
    && Split(s, d0, d1) == parts + Pending(s[start..k], SplitFrom(s[k..], d0, d1, depth))
  }

  method SplitOutsideNesting(s: string, d0: char, d1: char) returns (parts: seq<string>)
    ensures parts == Split(s, d0, d1)
  {
    hide Delta, Split, Scanned;
    parts := [];
    var start, k, depth := 0, 0, 0;
    ScanStarts(s, d0, d1);
    while k < |s|
      invariant 0 <= start <= k <= |s| && Scanned(s, d0, d1, parts, start, k, depth)
      decreases |s| - k
    {
      var c := s[k];
      Brackets(c);
      ScanStep(s, d0, d1, parts, start, k, depth);
      if c == '[' || c == '{' || c == '(' {
        depth := depth + 1;
      } else if c == ']' || c == '}' || c == ')' {
        depth := depth - 1;
      } else if depth == 0 && k + 1 < |s| && c == d0 && s[k + 1] == d1 {
        parts := parts + [s[start..k]];
        k := k + 1;
        start := k + 1;
      }
      k := k + 1;
    }
    ScanEnds(s, d0, d1, parts, start, k, depth);
    parts := parts + [s[start..]];
  }

  lemma ScanStarts(s: string, d0: char, d1: char)
    ensures Scanned(s, d0, d1, [], 0, 0, 0)
  {
    hide SplitFrom;
    assert s[0..0] == "" && s[0..] == s;
    PendingNone(SplitFrom(s, d0, d1, 0));
  }

  lemma ScanStep(s: string, d0: char, d1: char, parts: seq<string>, start: int, k: int, depth: int)
    requires Scanned(s, d0, d1, parts, start, k, depth) && k < |s|
    ensures if Delta(s[k]) == 0 && depth == 0 && k + 1 < |s| && s[k] == d0 && s[k + 1] == d1
            then Scanned(s, d0, d1, parts + [s[start..k]], k + 2, k + 2, depth)
            else Scanned(s, d0, d1, parts, start, k + 1, depth + Delta(s[k]))
  {
    hide Delta, Split, SplitFrom, Pending;
    SplitStep(s[start..k], s[k..], d0, d1, depth);
    assert s[k..][1..] == s[k + 1..] && s[start..k] + [s[k]] == s[start..k + 1];
    if k + 1 < |s| {
      assert s[k..][2..] == s[k + 2..] && s[k + 2..k + 2] == "";
    }
  }

  lemma ScanEnds(s: string, d0: char, d1: char, parts: seq<string>, start: int, k: int, depth: int)
    requires Scanned(s, d0, d1, parts, start, k, depth) && k == |s|
    ensures parts + [s[start..]] == Split(s, d0, d1)
  {
    hide Split, SplitFrom, Pending;
    SplitEnd(s[start..k], d0, d1, depth);
    assert s[k..] == "" && s[start..k] == s[start..];
  }

  lemma PendingNone(parts: seq<string>)
    requires parts != []
    ensures Pending("", parts) == parts
  {
    assert "" + parts[0] == parts[0];
  }

  lemma SplitEnd(text: string, d0: char, d1: char, depth: int)
    ensures Pending(text, SplitFrom("", d0, d1, depth)) == [text]
  {
    assert text + "" == text;
  }

  /** One character of the scan: it ends the pending text if it starts an operator, else it joins it. */
  lemma SplitStep(text: string, rest: string, d0: char, d1: char, depth: int)
    requires rest != ""
    ensures Pending(text, SplitFrom(rest, d0, d1, depth)) ==
      if Delta(rest[0]) == 0 && depth == 0 && |rest| > 1 && rest[0] == d0 && rest[1] == d1
      then [text] + Pending("", SplitFrom(rest[2..], d0, d1, depth))
      else Pending(text + [rest[0]], SplitFrom(rest[1..], d0, d1, depth + Delta(rest[0])))
  {
    hide Delta;
    if Delimiter(rest, d0, d1, depth) {
      PendingNone(SplitFrom(rest[2..], d0, d1, depth));
      assert text + "" == text;
    } else {
      var parts := SplitFrom(rest[1..], d0, d1, depth + Delta(rest[0]));
      assert text + ([rest[0]] + parts[0]) == text + [rest[0]] + parts[0];
      assert Prepend(rest[0], parts)[1..] == parts[1..];
    }
  }

  lemma Brackets(c: char)
    ensures c == '[' || c == '{' || c == '(' <==> Delta(c) == 1
    ensures c == ']' || c == '}' || c == ')' <==> Delta(c) == -1
    ensures -1 <= Delta(c) <= 1
  {
  }

  // ----- Laws -----

  function Join(parts: seq<string>, d0: char, d1: char): string
    requires parts != []
  {
    if |parts| == 1 then parts[0] else parts[0] + [d0, d1] + Join(parts[1..], d0, d1)
  }

  /** Nothing is lost: joining the parts with the operator gives the text back. */
  lemma {:induction false} JoinSplit(s: string, d0: char, d1: char, depth: int)
    ensures Join(SplitFrom(s, d0, d1, depth), d0, d1) == s
    decreases |s|
  {
    if s != "" {
      if Delimiter(s, d0, d1, depth) {
        JoinSplit(s[2..], d0, d1, depth);
        var rest := SplitFrom(s[2..], d0, d1, depth);
        assert ([""] + rest)[1..] == rest;
        assert [d0, d1] + s[2..] == s;
      } else {
        var rest := SplitFrom(s[1..], d0, d1, depth + Delta(s[0]));
        JoinSplit(s[1..], d0, d1, depth + Delta(s[0]));
        assert Prepend(s[0], rest)[1..] == rest[1..];
        JoinPrepend(s[0], rest, d0, d1);
      }
    }
  }

  lemma JoinPrepend(c: char, parts: seq<string>, d0: char, d1: char)
    requires parts != []
    ensures Join(Prepend(c, parts), d0, d1) == [c] + Join(parts, d0, d1)
  {
  }

  /** The parts contain no further operator, whether or not the brackets balance. */
  lemma {:induction false} PartsDoNotSplit(s: string, d0: char, d1: char, depth: int, i: nat)
    requires i < |SplitFrom(s, d0, d1, depth)|
    ensures var p := SplitFrom(s, d0, d1, depth)[i]; SplitFrom(p, d0, d1, if i == 0 then depth else 0) == [p]
    decreases |s|
  {
    if s != "" {
      if Delimiter(s, d0, d1, depth) {
        if i > 0 {
          PartsDoNotSplit(s[2..], d0, d1, depth, i - 1);
        }
      } else {
        var after := depth + Delta(s[0]);
        PartsDoNotSplit(s[1..], d0, d1, after, i);
        if i == 0 {
          var p := SplitFrom(s[1..], d0, d1, after)[0];
          FirstPartIsPrefix(s[1..], d0, d1, after);
          assert ([s[0]] + p)[1..] == p;
          assert !Delimiter([s[0]] + p, d0, d1, depth);
        }
      }
    }
  }

  lemma {:induction false} FirstPartIsPrefix(s: string, d0: char, d1: char, depth: int)
    ensures SplitFrom(s, d0, d1, depth)[0] <= s
    decreases |s|
  {
    if s != "" && !Delimiter(s, d0, d1, depth) {
      FirstPartIsPrefix(s[1..], d0, d1, depth + Delta(s[0]));
    }
  }

  /** Both laws for whole texts. */
  lemma SplitLaws(s: string, d0: char, d1: char)
    ensures Join(Split(s, d0, d1), d0, d1) == s
    ensures forall i :: 0 <= i < |Split(s, d0, d1)| ==> Split(Split(s, d0, d1)[i], d0, d1) == [Split(s, d0, d1)[i]]
  {
    hide SplitFrom;
    JoinSplit(s, d0, d1, 0);
    forall i | 0 <= i < |Split(s, d0, d1)|
      ensures Split(Split(s, d0, d1)[i], d0, d1) == [Split(s, d0, d1)[i]]
    {
      PartsDoNotSplit(s, d0, d1, 0, i);
    }
  }

  // ----- Splitting a concatenation -----

  /** Nesting depth after s, for one way of counting brackets. */
  function Level(s: string, depth: int, delta: char -> int): int {
    if s == "" then depth else Level(s[1..], depth + delta(s[0]), delta)
  }

  /** The last part of p and the first of q are one. */
  function Glue(p: seq<string>, q: seq<string>): seq<string>
    requires p != [] && q != []
  {
    p[..|p| - 1] + [p[|p| - 1] + q[0]] + q[1..]
  }

  /** Provided that no operator straddles the seam, the parts of x + y are those of x and of y. */
  lemma {:induction false} SplitConcat(x: string, y: string, d0: char, d1: char, depth: int)
    requires Delta(d1) == 0 && (x == "" || y == "" || x[|x| - 1] != d0 || y[0] != d1)
    ensures SplitFrom(x + y, d0, d1, depth) == Glue(SplitFrom(x, d0, d1, depth), SplitFrom(y, d0, d1, Level(x, depth, Delta)))
    decreases |x|
  {
    hide Delta, SplitFrom, Delimiter, Glue, Prepend;
    SplitUnfold(x, d0, d1, depth);
    SplitUnfold(x + y, d0, d1, depth);
    if x == "" {
      assert x + y == y;
      GlueFirst(SplitFrom(y, d0, d1, depth));
    } else {
      SameDelimiter(x, y, d0, d1, depth);
      if Delimiter(x, d0, d1, depth) {
        LevelDelimiter(x, d0, d1, depth);
        assert (x + y)[2..] == x[2..] + y;
        SplitConcat(x[2..], y, d0, d1, depth);
        GlueMore(SplitFrom(x[2..], d0, d1, depth), SplitFrom(y, d0, d1, Level(x, depth, Delta)));
      } else {
        assert (x + y)[1..] == x[1..] + y;
        SplitConcat(x[1..], y, d0, d1, depth + Delta(x[0]));
        GluePrepend(x[0], SplitFrom(x[1..], d0, d1, depth + Delta(x[0])), SplitFrom(y, d0, d1, Level(x, depth, Delta)));
      }
    }
  }

  lemma SplitUnfold(s: string, d0: char, d1: char, depth: int)
    ensures s == "" ==> SplitFrom(s, d0, d1, depth) == [""]
    ensures Delimiter(s, d0, d1, depth) ==>
      |s| >= 2 && SplitFrom(s, d0, d1, depth) == [""] + SplitFrom(s[2..], d0, d1, depth)
    ensures s != "" && !Delimiter(s, d0, d1, depth) ==>
      SplitFrom(s, d0, d1, depth) == Prepend(s[0], SplitFrom(s[1..], d0, d1, depth + Delta(s[0])))
  {
  }

  lemma SameDelimiter(x: string, y: string, d0: char, d1: char, depth: int)
    requires x != "" && (y == "" || x[|x| - 1] != d0 || y[0] != d1)
    ensures Delimiter(x + y, d0, d1, depth) == Delimiter(x, d0, d1, depth)
  {
  }

  lemma GlueFirst(q: seq<string>)
    requires q != []
    ensures Glue([""], q) == q
  {
    assert "" + q[0] == q[0];
  }

  lemma GlueMore(p: seq<string>, q: seq<string>)
    requires p != [] && q != []
    ensures Glue([""] + p, q) == [""] + Glue(p, q)
  {
  }

  lemma GluePrepend(c: char, p: seq<string>, q: seq<string>)
    requires p != [] && q != []
    ensures Glue(Prepend(c, p), q) == Prepend(c, Glue(p, q))
  {
    if |p| == 1 {
      assert [c] + p[0] + q[0] == [c] + (p[0] + q[0]);
    } else {
      assert Prepend(c, p)[..|p| - 1] == Prepend(c, p[..|p| - 1]);
    }
  }

  lemma LevelDelimiter(x: string, d0: char, d1: char, depth: int)
    requires Delimiter(x, d0, d1, depth) && Delta(d1) == 0
    ensures |x| >= 2 && Level(x, depth, Delta) == Level(x[2..], depth, Delta)
  {
  }

  /** Two texts joined by an operator split into the parts of the one and the parts of the other. */
  lemma SplitAtOperator(x: string, y: string, d0: char, d1: char)
    requires Delta(d0) == Delta(d1) == 0 && Level(x, 0, Delta) == 0 && (x == "" || x[|x| - 1] != d0)
    ensures Split(x + [d0, d1] + y, d0, d1) == Split(x, d0, d1) + Split(y, d0, d1)
  {
    hide SplitFrom, Level, Glue, Delta;
    var tail := [d0, d1] + y;
    assert x + [d0, d1] + y == x + tail && tail[2..] == y;
    SplitUnfold(tail, d0, d1, 0);
    var p, q := Split(x, d0, d1), Split(y, d0, d1);
    if x == "" {
      assert x + tail == tail;
      SplitUnfold("", d0, d1, 0);
    } else {
      SplitConcat(x, tail, d0, d1, 0);
      GlueOperator(p, q);
    }
  }

  lemma GlueOperator(p: seq<string>, q: seq<string>)
    requires p != [] && q != []
    ensures Glue(p, [""] + q) == p + q
  {
    assert p[|p| - 1] + "" == p[|p| - 1];
  }

  /** A part that survives joining: unsplittable, with its brackets closed, and not ending in the operator. */
  predicate Piece(s: string, d0: char, d1: char) {
    Split(s, d0, d1) == [s] && Level(s, 0, Delta) == 0 && (s == "" || s[|s| - 1] != d0)
  }

  /** Splitting undoes joining. */
  lemma {:induction false} SplitJoin(parts: seq<string>, d0: char, d1: char)
    requires parts != [] && Delta(d0) == Delta(d1) == 0
    requires forall i :: 0 <= i < |parts| ==> Piece(parts[i], d0, d1)
    ensures Split(Join(parts, d0, d1), d0, d1) == parts
  {
    hide Split;
    assert Piece(parts[0], d0, d1);
    if |parts| > 1 {
      SplitJoin(parts[1..], d0, d1);
      SplitAtOperator(parts[0], Join(parts[1..], d0, d1), d0, d1);
    }
  }
}
