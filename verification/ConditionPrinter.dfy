/** Printed conditions evaluate to their truth value: && binds tighter than ||, parentheses group. */
module ConditionPrinter {
  import opened ConditionSplit
  import opened ConditionEvaluator

  /** An atom or a group may have any number of blanks on either side. */
  datatype Tree =
    | Atom(text: string, before: nat, after: nat)
    | Group(inner: Tree, before: nat, after: nat)
    | And(left: Tree, right: Tree)
    | Or(left: Tree, right: Tree)

  function Blanks(n: nat): (s: string)
    ensures |s| == n && forall i :: 0 <= i < n ==> s[i] == ' '
  {
    seq(n, _ => ' ')
  }

  function Padded(before: nat, text: string, after: nat): string {
    Blanks(before) + text + Blanks(after)
  }

  function Parenthesised(text: string): string {
    ['('] + text + [')']
  }

  function Print(t: Tree): string
    decreases t, 0
  {
    match t
    case Atom(text, before, after) => Padded(before, text, after)
    case Group(inner, before, after) => Padded(before, Parenthesised(Print(inner)), after)
    case And(left, right) => Factor(left) + ['&', '&'] + Factor(right)
    case Or(left, right) => Print(left) + ['|', '|'] + Print(right)
  }

  /** An operand of &&: only an Or needs parentheses. */
  function Factor(t: Tree): string
    decreases t, 1
  {
    if t.Or? then Parenthesised(Print(t)) else Print(t)
  }

  predicate Truth(t: Tree, single: string -> bool) {
    match t
    case Atom(text, _, _) => single(text)
    case Group(inner, _, _) => Truth(inner, single)
    case And(left, right) => Truth(left, single) && Truth(right, single)
    case Or(left, right) => Truth(left, single) || Truth(right, single)
  }

  // ----- Which atoms can be printed -----

  /** The depth never falls below floor in s. */
  predicate Stays(s: string, depth: int, floor: int, delta: char -> int) {
    depth >= floor && (s == "" || Stays(s[1..], depth + delta(s[0]), floor, delta))
  }

  predicate Closed(s: string, delta: char -> int) {
    Level(s, 0, delta) == 0 && Stays(s, 0, 0, delta)
  }

  /** Brackets close in s, and never close more than s opened; likewise the round ones by themselves. */
  predicate Balanced(s: string) {
    Closed(s, Delta) && Closed(s, ParenDelta)
  }

  predicate Operator(c: char) {
    c == '|' || c == '&'
  }

  predicate Trimmed(s: string) {
    s != "" && s[0] != ' ' && s[|s| - 1] != ' '
  }

  /** A comparison as users write it: balanced, without an operator outside brackets, not one whole group. */
  predicate GoodAtom(s: string) {
    && Trimmed(s) && Balanced(s) && !Operator(s[|s| - 1]) && !Wrapped(s)
    && Split(s, '|', '|') == [s] && Split(s, '&', '&') == [s]
  }

  predicate Good(t: Tree) {
    match t
    case Atom(text, _, _) => GoodAtom(text)
    case Group(inner, _, _) => Good(inner)
    case And(left, right) => Good(left) && Good(right)
    case Or(left, right) => Good(left) && Good(right)
  }

  // ----- Concatenation -----

  lemma {:induction false} LevelConcat(x: string, y: string, d: int, delta: char -> int)
    ensures Level(x + y, d, delta) == Level(y, Level(x, d, delta), delta)
    decreases |x|
  {
    if x == "" {
      assert x + y == y;
    } else {
      assert (x + y)[1..] == x[1..] + y;
      LevelConcat(x[1..], y, d + delta(x[0]), delta);
    }
  }

  lemma {:induction false} StaysConcat(x: string, y: string, d: int, floor: int, delta: char -> int)
    requires Stays(x, d, floor, delta) && Stays(y, Level(x, d, delta), floor, delta)
    ensures Stays(x + y, d, floor, delta)
    decreases |x|
  {
    if x == "" {
      assert x + y == y;
    } else {
      assert (x + y)[1..] == x[1..] + y;
      StaysConcat(x[1..], y, d + delta(x[0]), floor, delta);
    }
  }

  /** Starting deeper shifts everything. */
  lemma {:induction false} Shift(s: string, d: int, floor: int, k: int, delta: char -> int)
    ensures Level(s, d + k, delta) == Level(s, d, delta) + k
    ensures Stays(s, d + k, floor + k, delta) == Stays(s, d, floor, delta)
    decreases |s|
  {
    if s != "" {
      Shift(s[1..], d + delta(s[0]), floor, k, delta);
    }
  }

  lemma ClosedConcat(x: string, y: string, delta: char -> int)
    requires Closed(x, delta) && Closed(y, delta)
    ensures Closed(x + y, delta)
  {
    LevelConcat(x, y, 0, delta);
    StaysConcat(x, y, 0, 0, delta);
  }

  lemma BalancedConcat(x: string, y: string)
    requires Balanced(x) && Balanced(y)
    ensures Balanced(x + y)
  {
    hide Closed;
    ClosedConcat(x, y, Delta);
    ClosedConcat(x, y, ParenDelta);
  }

  /** A text of characters that are no brackets. */
  lemma {:induction false} FlatBalanced(s: string)
    requires forall i :: 0 <= i < |s| ==> s[i] == ' ' || Operator(s[i])
    ensures Balanced(s)
  {
    if s != "" {
      FlatBalanced(s[1..]);
    }
  }

  /** Within one more pair of parentheses, the depth is at least 1 until the last character. */
  lemma Inside(s: string, delta: char -> int)
    requires Closed(s, delta) && delta('(') == 1 && delta(')') == -1
    ensures Closed(Parenthesised(s), delta)
    ensures Level(s, 1, delta) == 1 && Stays(s, 1, 1, delta)
  {
    Shift(s, 0, 0, 1, delta);
    var tail := s + [')'];
    assert Parenthesised(s)[1..] == tail;
    LevelConcat(s, [')'], 1, delta);
    assert [')'][1..] == "";
    Weaken(s, 1, delta);
    StaysConcat(s, [')'], 1, 0, delta);
  }

  lemma {:induction false} Weaken(s: string, d: int, delta: char -> int)
    requires Stays(s, d, 1, delta)
    ensures Stays(s, d, 0, delta)
    decreases |s|
  {
    if s != "" {
      Weaken(s[1..], d + delta(s[0]), delta);
    }
  }

  lemma ParenthesisedBalanced(s: string)
    requires Balanced(s)
    ensures Balanced(Parenthesised(s))
  {
    hide Closed;
    Inside(s, Delta);
    Inside(s, ParenDelta);
  }

  lemma PaddedBalanced(before: nat, s: string, after: nat)
    requires Balanced(s)
    ensures Balanced(Padded(before, s, after))
  {
    hide Balanced;
    FlatBalanced(Blanks(before));
    FlatBalanced(Blanks(after));
    BalancedConcat(Blanks(before), s);
    BalancedConcat(Blanks(before) + s, Blanks(after));
  }

  // ----- Shape of printed text -----

  predicate EndsWell(s: string) {
    s != "" && !Operator(s[|s| - 1])
  }

  predicate Printed(s: string) {
    Balanced(s) && EndsWell(s)
  }

  lemma PaddedPrinted(before: nat, s: string, after: nat)
    requires Printed(s)
    ensures Printed(Padded(before, s, after))
  {
    hide Balanced;
    PaddedBalanced(before, s, after);
    var p := Padded(before, s, after);
    if after > 0 {
      assert p[|p| - 1] == Blanks(after)[after - 1];
    } else {
      assert p[|p| - 1] == s[|s| - 1];
    }
  }

  lemma ParenthesisedPrinted(s: string)
    requires Balanced(s)
    ensures Printed(Parenthesised(s))
  {
    hide Balanced;
    ParenthesisedBalanced(s);
  }

  lemma OperatorPrinted(x: string, c: char, y: string)
    requires Printed(x) && Printed(y) && Operator(c)
    ensures Printed(x + [c, c] + y)
  {
    hide Balanced;
    FlatBalanced([c, c]);
    BalancedConcat(x, [c, c]);
    BalancedConcat(x + [c, c], y);
  }

  lemma {:induction false} PrintsWell(t: Tree)
    requires Good(t)
    ensures Printed(Print(t)) && Printed(Factor(t))
  {
    hide Printed, Balanced, GoodAtom, Padded, Parenthesised;
    match t
    case Atom(text, before, after) =>
      AtomPrinted(text);
      PaddedPrinted(before, text, after);
    case Group(inner, before, after) =>
      PrintsWell(inner);
      PrintedIsBalanced(Print(inner));
      ParenthesisedPrinted(Print(inner));
      PaddedPrinted(before, Parenthesised(Print(inner)), after);
    case And(left, right) =>
      PrintsWell(left);
      PrintsWell(right);
      OperatorPrinted(Factor(left), '&', Factor(right));
    case Or(left, right) =>
      PrintsWell(left);
      PrintsWell(right);
      OperatorPrinted(Print(left), '|', Print(right));
      PrintedIsBalanced(Print(t));
      ParenthesisedPrinted(Print(t));
  }

  lemma AtomPrinted(s: string)
    requires GoodAtom(s)
    ensures Printed(s)
  {
  }

  lemma PrintedIsBalanced(s: string)
    requires Printed(s)
    ensures Balanced(s)
  {
  }

  // ----- Where printed text splits -----

  predicate Single(s: string, op: char) {
    Split(s, op, op) == [s]
  }

  lemma SingleConcat(x: string, y: string, op: char)
    requires Single(x, op) && Single(y, op) && Level(x, 0, Delta) == 0 && Delta(op) == 0
    requires x == "" || y == "" || x[|x| - 1] != op || y[0] != op
    ensures Single(x + y, op)
  {
    hide SplitFrom, Level, Delta;
    SplitConcat(x, y, op, op, 0);
  }

  lemma {:induction false} DeepSingle(s: string, op: char, depth: int)
    requires Stays(s, depth, 1, Delta)
    ensures SplitFrom(s, op, op, depth) == [s]
    decreases |s|
  {
    hide Delta;
    SplitUnfold(s, op, op, depth);
    if s != "" {
      DeepSingle(s[1..], op, depth + Delta(s[0]));
      assert [s[0]] + s[1..] == s;
    }
  }

  lemma ParenthesisedSingle(s: string, op: char)
    requires Balanced(s) && Operator(op)
    ensures Single(Parenthesised(s), op)
  {
    Inside(s, Delta);
    DeepSingle(s, op, 1);
    SplitConcat(s, [')'], op, op, 1);
    var tail := s + [')'];
    ClosingSingle(op);
    assert SplitFrom(tail, op, op, 1) == [tail];
    assert Parenthesised(s)[1..] == tail && ['('] + tail == Parenthesised(s);
    SplitUnfold(Parenthesised(s), op, op, 0);
    hide SplitFrom, Level, Stays;
  }

  lemma ClosingSingle(op: char)
    ensures SplitFrom([')'], op, op, 1) == [[')']]
  {
    assert [')'][1..] == "" && [')'] + "" == [')'];
    SplitUnfold([')'], op, op, 1);
    SplitUnfold("", op, op, 0);
  }

  lemma {:induction false} BlanksSingle(s: string, op: char, depth: int)
    requires Operator(op) && forall i :: 0 <= i < |s| ==> s[i] == ' '
    ensures SplitFrom(s, op, op, depth) == [s] && Level(s, depth, Delta) == depth
    decreases |s|
  {
    if s != "" {
      BlanksSingle(s[1..], op, depth);
      assert [s[0]] + s[1..] == s;
    }
  }

  lemma PaddedSingle(before: nat, s: string, after: nat, op: char)
    requires Balanced(s) && Single(s, op) && Operator(op)
    ensures Single(Padded(before, s, after), op)
  {
    hide Stays, SplitFrom;
    BlanksSingle(Blanks(before), op, 0);
    BlanksSingle(Blanks(after), op, 0);
    SingleConcat(Blanks(before), s, op);
    LevelConcat(Blanks(before), s, 0, Delta);
    SingleConcat(Blanks(before) + s, Blanks(after), op);
    hide Split, Level;
  }

  /** Operands of && have no || at the outer level. */
  lemma {:induction false} FactorSingle(t: Tree)
    requires Good(t)
    ensures Single(Factor(t), '|') && (!t.Or? ==> Single(Print(t), '|'))
  {
    hide Single, Balanced, Padded, Parenthesised, Split;
    PrintsWell(t);
    PrintedIsBalanced(Print(t));
    match t
    case Atom(text, before, after) =>
      AtomSingle(text);
      PaddedSingle(before, text, after, '|');
    case Group(inner, before, after) =>
      GroupSingle(Print(inner), inner, before, after, '|');
    case And(left, right) =>
      FactorSingle(left);
      FactorSingle(right);
      PrintsWell(left);
      PrintsWell(right);
      AndSingle(Factor(left), Factor(right));
    case Or(left, right) =>
      ParenthesisedSingle(Print(t), '|');
  }

  lemma AtomSingle(s: string)
    requires GoodAtom(s)
    ensures Balanced(s) && Single(s, '|') && Single(s, '&')
  {
  }

  lemma GroupSingle(s: string, inner: Tree, before: nat, after: nat, op: char)
    requires Good(inner) && s == Print(inner) && Operator(op)
    ensures Balanced(s) && Single(Padded(before, Parenthesised(s), after), op)
  {
    hide Balanced, Single, Padded, Parenthesised;
    PrintsWell(inner);
    PrintedIsBalanced(s);
    ParenthesisedBalanced(s);
    ParenthesisedSingle(s, op);
    PaddedSingle(before, Parenthesised(s), after, op);
  }

  lemma AndSingle(x: string, y: string)
    requires Single(x, '|') && Single(y, '|') && Printed(x) && Printed(y)
    ensures Single(x + ['&', '&'] + y, '|')
  {
    AmpersandsSingle();
    hide Single, Stays;
    SingleConcat(x, ['&', '&'], '|');
    LevelConcat(x, ['&', '&'], 0, Delta);
    SingleConcat(x + ['&', '&'], y, '|');
  }

  lemma AmpersandsSingle()
    ensures Single(['&', '&'], '|') && Level(['&', '&'], 0, Delta) == 0
  {
    assert ['&', '&'][1..] == ['&'] && ['&'][1..] == "" && ['&'] + "" == ['&'] && ['&'] + ['&'] == ['&', '&'];
    SplitUnfold(['&', '&'], '|', '|', 0);
    SplitUnfold(['&'], '|', '|', 0);
    SplitUnfold("", '|', '|', 0);
  }

  // ----- Evaluating leaves -----

  lemma {:induction false} TrimLeftBlanks(n: nat, s: string)
    requires s != "" && s[0] != ' '
    ensures TrimLeft(Blanks(n) + s) == s
  {
    if n == 0 {
      assert Blanks(0) + s == s;
    } else {
      assert (Blanks(n) + s)[1..] == Blanks(n - 1) + s;
      TrimLeftBlanks(n - 1, s);
    }
  }

  lemma {:induction false} TrimRightBlanks(s: string, n: nat)
    requires s != "" && s[|s| - 1] != ' '
    ensures TrimRight(s + Blanks(n)) == s
  {
    if n == 0 {
      assert s + Blanks(0) == s;
    } else {
      var p := s + Blanks(n);
      assert p[..|p| - 1] == s + Blanks(n - 1);
      TrimRightBlanks(s, n - 1);
    }
  }

  lemma TrimPadded(before: nat, s: string, after: nat)
    requires Trimmed(s)
    ensures Trim(Padded(before, s, after)) == s
  {
    var rest := s + Blanks(after);
    assert Padded(before, s, after) == Blanks(before) + rest;
    TrimLeftBlanks(before, rest);
    TrimRightBlanks(s, after);
  }

  lemma {:induction false} OpenInside(s: string, depth: int)
    requires Stays(s, depth, 1, ParenDelta)
    ensures OpenUntilLast(s + [')'], depth)
    decreases |s|
  {
    if s != "" {
      assert (s + [')'])[1..] == s[1..] + [')'];
      OpenInside(s[1..], depth + ParenDelta(s[0]));
    }
  }

  lemma ParenthesisedWrapped(s: string)
    requires Balanced(s)
    ensures Wrapped(Parenthesised(s)) && Trimmed(Parenthesised(s))
  {
    Inside(s, ParenDelta);
    OpenInside(s, 1);
    assert Parenthesised(s)[1..] == s + [')'];
    hide Stays, Level;
  }

  lemma GroupEvaluates(s: string, before: nat, after: nat, single: string -> bool)
    requires Balanced(s)
    ensures EvaluateLeaf(Padded(before, Parenthesised(s), after), single) == EvaluateCondition(s, single)
  {
    hide Trim, Padded, Wrapped, Balanced;
    ParenthesisedWrapped(s);
    TrimPadded(before, Parenthesised(s), after);
    assert Parenthesised(s)[1..|Parenthesised(s)| - 1] == s;
    hide EvaluateCondition;
  }

  lemma AtomEvaluates(s: string, before: nat, after: nat, single: string -> bool)
    requires GoodAtom(s)
    ensures EvaluateLeaf(Padded(before, s, after), single) == single(s)
  {
    hide Trim, Padded, EvaluateCondition;
    TrimPadded(before, s, after);
  }

  // ----- Printer and evaluator agree -----

  predicate AnyAlternative(s: string, single: string -> bool) {
    exists i :: 0 <= i < |Split(s, '|', '|')| && EvaluateAll(Split(s, '|', '|')[i], single)
  }

  lemma AnyOfOr(x: string, y: string, single: string -> bool)
    requires Printed(x)
    ensures AnyAlternative(x + ['|', '|'] + y, single) == (AnyAlternative(x, single) || AnyAlternative(y, single))
  {
    var z := x + ['|', '|'] + y;
    SplitAtOperator(x, y, '|', '|');
    hide Split, EvaluateAll, Stays, Level;
    var p, q := Split(x, '|', '|'), Split(y, '|', '|');
    if i :| 0 <= i < |p| && EvaluateAll(p[i], single) {
      assert Split(z, '|', '|')[i] == p[i];
    }
    if i :| 0 <= i < |q| && EvaluateAll(q[i], single) {
      assert Split(z, '|', '|')[|p| + i] == q[i];
    }
  }

  lemma AllOfAnd(x: string, y: string, single: string -> bool)
    requires Printed(x)
    ensures EvaluateAll(x + ['&', '&'] + y, single) == (EvaluateAll(x, single) && EvaluateAll(y, single))
  {
    var z := x + ['&', '&'] + y;
    SplitAtOperator(x, y, '&', '&');
    hide Split, EvaluateLeaf, Stays, Level;
    var p, q := Split(x, '&', '&'), Split(y, '&', '&');
    if EvaluateAll(z, single) {
      forall i | 0 <= i < |p| ensures EvaluateLeaf(p[i], single) { assert Split(z, '&', '&')[i] == p[i]; }
      forall i | 0 <= i < |q| ensures EvaluateLeaf(q[i], single) { assert Split(z, '&', '&')[|p| + i] == q[i]; }
    }
  }

  lemma AllOfSingle(s: string, single: string -> bool)
    requires Single(s, '&')
    ensures EvaluateAll(s, single) == EvaluateLeaf(s, single)
  {
    hide EvaluateLeaf, Split;
    assert Split(s, '&', '&')[0] == s;
  }

  lemma AnyOfSingle(s: string, single: string -> bool)
    requires Single(s, '|')
    ensures AnyAlternative(s, single) == EvaluateAll(s, single)
  {
    hide EvaluateAll, Split;
    assert Split(s, '|', '|')[0] == s;
  }

  lemma AnyIsCondition(s: string, single: string -> bool)
    requires s != ""
    ensures EvaluateCondition(s, single) == AnyAlternative(s, single)
  {
  }

  lemma {:induction false} AllOfTree(t: Tree, single: string -> bool)
    requires Good(t) && !t.Or?
    ensures EvaluateAll(Print(t), single) == Truth(t, single)
    decreases t, 0
  {
    hide EvaluateAll, EvaluateLeaf, EvaluateCondition, Padded, Parenthesised, Balanced, Single, GoodAtom, Printed;
    match t
    case Atom(text, before, after) =>
      AtomSingle(text);
      PaddedSingle(before, text, after, '&');
      AllOfSingle(Print(t), single);
      AtomEvaluates(text, before, after, single);
    case Group(inner, before, after) =>
      GroupSingle(Print(inner), inner, before, after, '&');
      AllOfSingle(Print(t), single);
      GroupEvaluates(Print(inner), before, after, single);
      PrintThenEvaluate(inner, single);
    case And(left, right) =>
      PrintsWell(left);
      AllOfAnd(Factor(left), Factor(right), single);
      AllOfFactor(left, single);
      AllOfFactor(right, single);
  }

  lemma {:induction false} AllOfFactor(t: Tree, single: string -> bool)
    requires Good(t)
    ensures EvaluateAll(Factor(t), single) == Truth(t, single)
    decreases t, 2
  {
    hide EvaluateAll, EvaluateLeaf, EvaluateCondition, Padded, Parenthesised, Balanced, Single, GoodAtom, Printed;
    if t.Or? {
      PrintsWell(t);
      PrintedIsBalanced(Print(t));
      ParenthesisedSingle(Print(t), '&');
      AllOfSingle(Factor(t), single);
      NoPadding(Parenthesised(Print(t)));
      GroupEvaluates(Print(t), 0, 0, single);
      PrintThenEvaluate(t, single);
    } else {
      AllOfTree(t, single);
    }
  }

  lemma NoPadding(s: string)
    ensures Padded(0, s, 0) == s
  {
  }

  /**
    For every tree over good atoms, evaluating the printed condition gives the truth value of the
    tree, whatever single comparisons mean.
  */
  lemma {:induction false} PrintThenEvaluate(t: Tree, single: string -> bool)
    requires Good(t)
    ensures EvaluateCondition(Print(t), single) == Truth(t, single)
    decreases t, 1
  {
    hide EvaluateCondition, EvaluateAll, AnyAlternative, Balanced, Single, GoodAtom;
    PrintsWell(t);
    AnyIsCondition(Print(t), single);
    if t.Or? {
      PrintsWell(t.left);
      PrintsWell(t.right);
      AnyOfOr(Print(t.left), Print(t.right), single);
      AnyIsCondition(Print(t.left), single);
      AnyIsCondition(Print(t.right), single);
      PrintThenEvaluate(t.left, single);
      PrintThenEvaluate(t.right, single);
    } else {
      FactorSingle(t);
      AnyOfSingle(Print(t), single);
      AllOfTree(t, single);
    }
  }
}
