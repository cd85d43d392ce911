/** Balanced text over the three brackets ( [ {, given once as a grammar and once as the plain
    stack matcher that knows nothing of angle brackets, statements or lines. */
module Dyck {
  import opened Lexical

  /** A derivation of balanced text. */
  datatype Tree =
    | Empty
    | Plain(c: char, rest: Tree)
    | Nest(open: char, inner: Tree, close: char, rest: Tree)
  {
    ghost predicate Valid() {
      match this
      case Empty => true
      case Plain(c, rest) => !IsBracket(c) && rest.Valid()
      case Nest(open, inner, close, rest) => Closes(open, close) && inner.Valid() && rest.Valid()
    }

    ghost function Yield(): string {
      match this
      case Empty => ""
      case Plain(c, rest) => [c] + rest.Yield()
      case Nest(open, inner, close, rest) => [open] + inner.Yield() + [close] + rest.Yield()
    }

    /** No ';' outside every bracket pair. */
    ghost predicate NoTopSemicolon() {
      match this
      case Empty => true
      case Plain(c, rest) => c != ';' && rest.NoTopSemicolon()
      case Nest(_, _, _, rest) => rest.NoTopSemicolon()
    }

    ghost function Size(): nat {
      match this
      case Empty => 0
      case Plain(_, rest) => 1 + rest.Size()
      case Nest(_, inner, _, rest) => 2 + inner.Size() + rest.Size()
    }

    /** The yield stands in t at position k. */
    ghost predicate At(t: string, k: nat) {
      && k + Size() <= |t|
      && match this
         case Empty => true
         case Plain(c, rest) => t[k] == c && rest.At(t, k + 1)
         case Nest(open, inner, close, rest) =>
           && t[k] == open && inner.At(t, k + 1)
           && t[k + 1 + inner.Size()] == close && rest.At(t, k + 2 + inner.Size())
    }

    ghost function Append(other: Tree): Tree {
      match this
      case Empty => other
      case Plain(c, rest) => Plain(c, rest.Append(other))
      case Nest(open, inner, close, rest) => Nest(open, inner, close, rest.Append(other))
    }

    lemma {:induction false} AppendAt(other: Tree, t: string, k: nat)
      requires Valid() && other.Valid() && At(t, k) && other.At(t, k + Size())
      ensures Append(other).Valid() && Append(other).Size() == Size() + other.Size() && Append(other).At(t, k)
    {
      match this
      case Empty =>
      case Plain(_, rest) => rest.AppendAt(other, t, k + 1);
      case Nest(_, inner, _, rest) => rest.AppendAt(other, t, k + 2 + inner.Size());
    }

    lemma {:induction false} AppendTop(other: Tree)
      ensures Append(other).NoTopSemicolon() <==> NoTopSemicolon() && other.NoTopSemicolon()
    {
      match this
      case Empty =>
      case Plain(_, rest) => rest.AppendTop(other);
      case Nest(_, _, _, rest) => rest.AppendTop(other);
    }

    lemma {:induction false} AtIsYield(t: string, k: nat)
      requires At(t, k)
      ensures t[k..k + Size()] == Yield()
    {
      match this
      case Empty =>
      case Plain(_, rest) => rest.AtIsYield(t, k + 1);
      case Nest(open, inner, close, rest) =>
        var m, e := k + 1 + inner.Size(), k + Size();
        inner.AtIsYield(t, k + 1);
        rest.AtIsYield(t, m + 1);
        hide At;
        SliceNest(t, k, m, e);
    }

    lemma {:induction false} YieldIsAt(t: string, k: nat)
      requires Same(t, k, Yield())
      ensures Size() == |Yield()| && At(t, k)
    {
      match this
      case Empty =>
      case Plain(c, rest) =>
        SameSplit(t, k, [c], rest.Yield());
        rest.YieldIsAt(t, k + 1);
      case Nest(open, inner, close, rest) =>
        var x, y := inner.Yield(), rest.Yield();
        SameSplit(t, k, [open] + x + [close], y);
        SameSplit(t, k, [open] + x, [close]);
        SameSplit(t, k, [open], x);
        inner.YieldIsAt(t, k + 1);
        rest.YieldIsAt(t, k + 2 + |x|);
    }
  }

  lemma SliceNest(t: string, a: nat, b: nat, e: nat)
    requires a < b < e <= |t|
    ensures t[a..e] == [t[a]] + t[a + 1..b] + [t[b]] + t[b + 1..e]
  {
  }

  /** s stands in t at position k, character by character. */
  ghost predicate Same(t: string, k: nat, s: string) {
    k + |s| <= |t| && forall j | 0 <= j < |s| :: t[k + j] == s[j]
  }

  lemma SameSplit(t: string, k: nat, x: string, y: string)
    requires Same(t, k, x + y)
    ensures Same(t, k, x) && Same(t, k + |x|, y) && (|x| > 0 ==> t[k] == x[0]) && (|y| > 0 ==> t[k + |x|] == y[0])
  {
    var s := x + y;
    forall j | 0 <= j < |x|
      ensures t[k + j] == x[j]
    {
      assert t[k + j] == s[j];
    }
    forall j | 0 <= j < |y|
      ensures t[k + |x| + j] == y[j]
    {
      assert t[k + (|x| + j)] == s[|x| + j];
    }
    assert |x| > 0 ==> t[k + 0] == x[0];
    assert |y| > 0 ==> t[k + |x| + 0] == y[0];
  }

  ghost predicate Balanced(s: string) {
    exists b: Tree :: b.Valid() && b.Yield() == s
  }

  /** Balanced, with no ';' outside the brackets. */
  ghost predicate BalancedExpression(s: string) {
    exists b: Tree :: b.Valid() && b.Yield() == s && b.NoTopSemicolon()
  }

  /** Positions a < b of t hold a bracket pair with balanced text between. */
  ghost predicate Group(t: string, a: int, b: int) {
    0 <= a < b < |t| && Closes(t[a], t[b]) && Balanced(t[a + 1..b])
  }

  /** Some balanced group of t starts at a, or ends at b. */
  ghost predicate Opens(t: string, a: int) {
    exists b :: Group(t, a, b)
  }

  ghost predicate Shuts(t: string, b: int) {
    exists a :: Group(t, a, b)
  }

  /** The tree derives what stands in t from a to b. */
  ghost predicate Spans(tree: Tree, t: string, a: int, b: int) {
    0 <= a <= b <= |t| && tree.Valid() && tree.At(t, a) && tree.Size() == b - a
  }

  lemma SpansNothing(t: string, a: nat)
    requires a <= |t|
    ensures Spans(Empty, t, a, a)
  {
  }

  lemma SpansPlain(t: string, a: nat, rest: Tree, b: nat)
    requires a < |t| && !IsBracket(t[a]) && Spans(rest, t, a + 1, b)
    ensures Spans(Plain(t[a], rest), t, a, b)
  {
  }

  lemma SpansNest(t: string, a: nat, inner: Tree, m: nat, rest: Tree, b: nat)
    requires a < |t| && m < |t| && Closes(t[a], t[m]) && Spans(inner, t, a + 1, m) && Spans(rest, t, m + 1, b)
    ensures Spans(Nest(t[a], inner, t[m], rest), t, a, b)
  {
  }

  /** A group is a bracket pair around a derivation. */
  lemma GroupTree(t: string, a: int, b: int) returns (tree: Tree)
    requires Group(t, a, b)
    ensures 0 <= a < b < |t| && Closes(t[a], t[b])
    ensures Spans(tree, t, a + 1, b)
  {
    tree :| tree.Valid() && tree.Yield() == t[a + 1..b];
    tree.YieldIsAt(t, a + 1);
  }

  lemma TreeGroup(t: string, a: nat, b: nat, tree: Tree)
    requires a < b < |t| && Closes(t[a], t[b]) && Spans(tree, t, a + 1, b)
    ensures Group(t, a, b)
  {
    tree.AtIsYield(t, a + 1);
  }

  /** One character for the plain matcher; None is a mismatch. */
  function Step(c: char, stack: string): Option<string> {
    if IsOpener(c) then Some(stack + [c])
    else if IsCloser(c) then
      if stack != "" && Closes(Last(stack), c) then Some(Init(stack)) else None
    else Some(stack)
  }

  /** Runs the plain matcher from position k; the result is just past the character that
      empties the stack. */
  function Run(t: string, k: nat, stack: string): (r: Option<nat>)
    requires k <= |t| && stack != ""
    ensures r.Some? ==> k < r.value <= |t|
    decreases |t| - k
  {
    if k == |t| then None
    else match Step(t[k], stack)
      case None => None
      case Some(s) => if s == "" then Some(k + 1) else Run(t, k + 1, s)
  }

  /** The mirror image of Step: the stack holds closing brackets. */
  function BackStep(c: char, stack: string): Option<string> {
    if IsCloser(c) then Some(stack + [c])
    else if IsOpener(c) then
      if stack != "" && Closes(c, Last(stack)) then Some(Init(stack)) else None
    else Some(stack)
  }

  /** Runs backwards over the first k characters; the result is the position that empties the
      stack. */
  function BackRun(t: string, k: nat, stack: string): (r: Option<nat>)
    requires k <= |t| && stack != ""
    ensures r.Some? ==> r.value < k
  {
    if k == 0 then None
    else match BackStep(t[k - 1], stack)
      case None => None
      case Some(s) => if s == "" then Some(k - 1) else BackRun(t, k - 1, s)
  }

  /** A successful run first closes its top bracket after balanced text. */
  lemma {:induction false} PeelRun(t: string, k: nat, stack: string) returns (m: nat, b: Tree)
    requires k <= |t| && stack != "" && Run(t, k, stack).Some?
    ensures k <= m < |t| && Spans(b, t, k, m) && Closes(Last(stack), t[m])
    ensures Run(t, k, stack) == if |stack| == 1 then Some(m + 1) else Run(t, m + 1, Init(stack))
    decreases |t| - k
  {
    hide Spans;
    var c := t[k];
    if IsOpener(c) {
      assert Init(stack + [c]) == stack;
      var m1, b1 := PeelRun(t, k + 1, stack + [c]);
      var b2;
      m, b2 := PeelRun(t, m1 + 1, stack);
      b := Nest(c, b1, t[m1], b2);
      SpansNest(t, k, b1, m1, b2, m);
    } else if IsCloser(c) {
      m, b := k, Empty;
      SpansNothing(t, k);
    } else {
      var b1;
      m, b1 := PeelRun(t, k + 1, stack);
      b := Plain(c, b1);
      SpansPlain(t, k, b1, m);
    }
  }

  /** Balanced text leaves the matcher where it was. */
  lemma {:induction false} SkipRun(t: string, k: nat, stack: string, b: Tree)
    requires b.Valid() && stack != "" && b.At(t, k)
    ensures Run(t, k, stack) == Run(t, k + b.Size(), stack)
    decreases b
  {
    match b
    case Empty =>
    case Plain(c, rest) => SkipRun(t, k + 1, stack, rest);
    case Nest(open, inner, close, rest) =>
      assert Init(stack + [open]) == stack;
      SkipRun(t, k + 1, stack + [open], inner);
      SkipRun(t, k + inner.Size() + 2, stack, rest);
  }

  lemma RunEnds(t: string, k: nat, open: char)
    requires k < |t| && Closes(open, t[k])
    ensures Run(t, k, [open]) == Some(k + 1)
  {
    assert Init([open]) == "";
  }

  lemma BackRunEnds(t: string, k: nat, close: char)
    requires k < |t| && Closes(t[k], close)
    ensures BackRun(t, k + 1, [close]) == Some(k)
  {
    assert Init([close]) == "";
  }

  /** The plain matcher recognises exactly the grammar. */
  lemma RunIsGroup(t: string, a: nat, e: nat)
    requires a < |t| && IsOpener(t[a])
    ensures Run(t, a + 1, [t[a]]) == Some(e) <==> Group(t, a, e - 1)
  {
    hide Run, Step, Balanced;
    if Run(t, a + 1, [t[a]]) == Some(e) {
      var m, b := PeelRun(t, a + 1, [t[a]]);
      TreeGroup(t, a, m, b);
    }
    if Group(t, a, e - 1) {
      var b := GroupTree(t, a, e - 1);
      SkipRun(t, a + 1, [t[a]], b);
      RunEnds(t, e - 1, t[a]);
    }
  }

  lemma AppendPlain(left: Tree, t: string, a: int, b: int) returns (tree: Tree)
    requires Spans(left, t, a, b) && b < |t| && !IsBracket(t[b])
    ensures Spans(tree, t, a, b + 1)
    ensures tree.NoTopSemicolon() <==> left.NoTopSemicolon() && t[b] != ';'
  {
    var tail := Plain(t[b], Empty);
    tree := left.Append(tail);
    left.AppendTop(tail);
    left.AppendAt(tail, t, a);
  }

  lemma AppendNest(left: Tree, t: string, a: int, b: int, inner: Tree, e: int) returns (tree: Tree)
    requires Spans(left, t, a, b) && b < e < |t| && Closes(t[b], t[e]) && Spans(inner, t, b + 1, e)
    ensures Spans(tree, t, a, e + 1)
    ensures tree.NoTopSemicolon() <==> left.NoTopSemicolon()
  {
    var tail := Nest(t[b], inner, t[e], Empty);
    tree := left.Append(tail);
    left.AppendTop(tail);
    left.AppendAt(tail, t, a);
  }

  /** The tree derives a balanced expression that stands in t from a to b. */
  ghost predicate Derives(tree: Tree, t: string, a: int, b: int) {
    Spans(tree, t, a, b) && tree.NoTopSemicolon()
  }

  lemma DerivesNothing(t: string, k: nat)
    requires k <= |t|
    ensures Derives(Empty, t, k, k)
  {
  }

  lemma GrowPlain(left: Tree, t: string, a: int, b: int) returns (tree: Tree)
    requires Derives(left, t, a, b) && b < |t| && !IsBracket(t[b]) && t[b] != ';'
    ensures Derives(tree, t, a, b + 1)
  {
    hide Spans;
    tree := AppendPlain(left, t, a, b);
  }

  lemma GrowGroup(left: Tree, t: string, a: int, b: int, e: int) returns (tree: Tree)
    requires Derives(left, t, a, b) && Group(t, b, e)
    ensures Derives(tree, t, a, e + 1)
  {
    hide Spans, Group;
    var inner := GroupTree(t, b, e);
    tree := AppendNest(left, t, a, b, inner, e);
  }

  lemma DerivedExpression(tree: Tree, t: string, a: int, b: int)
    requires Derives(tree, t, a, b)
    ensures 0 <= a <= b <= |t| && BalancedExpression(t[a..b])
  {
    tree.AtIsYield(t, a);
  }

  /** A successful backward run first opens its top bracket before balanced text. */
  lemma {:induction false} PeelBackRun(t: string, k: nat, stack: string) returns (m: nat, b: Tree)
    requires k <= |t| && stack != "" && BackRun(t, k, stack).Some?
    ensures m < k && Spans(b, t, m + 1, k) && Closes(t[m], Last(stack))
    ensures BackRun(t, k, stack) == if |stack| == 1 then Some(m) else BackRun(t, m, Init(stack))
  {
    hide Spans;
    var c := t[k - 1];
    if IsCloser(c) {
      assert Init(stack + [c]) == stack;
      var m1, b1 := PeelBackRun(t, k - 1, stack + [c]);
      m, b := PeelBackRun(t, m1, stack);
      b := AppendNest(b, t, m + 1, m1, b1, k - 1);
    } else if IsOpener(c) {
      m, b := k - 1, Empty;
      SpansNothing(t, k);
    } else {
      m, b := PeelBackRun(t, k - 1, stack);
      b := AppendPlain(b, t, m + 1, k - 1);
    }
  }

  /** Balanced text leaves the backward matcher where it was. */
  lemma {:induction false} SkipBackRun(t: string, k: nat, stack: string, b: Tree)
    requires b.Valid() && stack != "" && b.At(t, k)
    ensures BackRun(t, k + b.Size(), stack) == BackRun(t, k, stack)
    decreases b
  {
    match b
    case Empty =>
    case Plain(c, rest) => SkipBackRun(t, k + 1, stack, rest);
    case Nest(open, inner, close, rest) =>
      assert Init(stack + [close]) == stack;
      SkipBackRun(t, k + inner.Size() + 2, stack, rest);
      SkipBackRun(t, k + 1, stack + [close], inner);
  }

  /** The backward matcher recognises exactly the grammar. */
  lemma BackRunIsGroup(t: string, a: nat, b: nat)
    requires b < |t| && IsCloser(t[b])
    ensures BackRun(t, b, [t[b]]) == Some(a) <==> Group(t, a, b)
  {
    hide BackRun, BackStep, Balanced;
    if BackRun(t, b, [t[b]]) == Some(a) {
      var m, tree := PeelBackRun(t, b, [t[b]]);
      TreeGroup(t, m, b, tree);
    }
    if Group(t, a, b) {
      var tree := GroupTree(t, a, b);
      SkipBackRun(t, a + 1, [t[b]], tree);
      BackRunEnds(t, a, t[b]);
    }
  }
}
