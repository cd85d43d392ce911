/** What each character does to the two bracket matchers, in plain words, and what an arrow or an operator
    means for a whole search. */
module AngleLaws {
  import opened Lexical
  import opened Lines
  import F = Forward
  import B = Reverse

  // ---------------------------------------------------------------------------------------
  // Forwards

  /** '<' is a bracket, unless it comes after the word operator; a second '<' in a row takes the first
      back, and then a lone '<' at the start was no bracket at all. */
  lemma ForwardLess(line: string, i: nat, stack: string)
    requires i < |line| && line[i] == '<'
    ensures var next := F.ScanLine(line, i, stack);
            if i > 0 && line[i - 1] == '<' then
              if stack == "" || Last(stack) != '<' then next == F.ScanLine(line, i + 1, stack)
              else if |stack| == 1 then next == F.Failed
              else next == F.ScanLine(line, i + 1, Init(stack))
            else if i > 0 && AfterOperator(line[..i]) then next == F.ScanLine(line, i + 1, stack)
            else next == F.ScanLine(line, i + 1, stack + "<")
  {
    hide OperatorBefore, AfterOperator;
    OperatorBeforeForm(line[..i]);
  }

  /** '>' closes a '<' on top of the stack, and nothing else; in "->" and one character after the word
      operator it does nothing. */
  lemma ForwardGreater(line: string, i: nat, stack: string)
    requires i < |line| && line[i] == '>'
    ensures var next := F.ScanLine(line, i, stack);
            if i > 0 && (line[i - 1] == '-' || AfterOperator(line[..i - 1])) then next == F.ScanLine(line, i + 1, stack)
            else if stack == "" || Last(stack) != '<' then next == F.ScanLine(line, i + 1, stack)
            else if |stack| == 1 then next == F.Found(i + 1)
            else next == F.ScanLine(line, i + 1, Init(stack))
  {
    hide OperatorBefore, AfterOperator;
    if i > 0 {
      OperatorBeforeForm(line[..i - 1]);
    }
  }

  /** A stack with some open angle brackets on top of what lies below. */
  predicate Topped(base: string, stack: string, angle: char) {
    && |base| <= |stack| && stack[..|base|] == base && (base == "" || Last(base) != angle)
    && forall k | |base| <= k < |stack| :: stack[k] == angle
  }

  lemma {:induction false} DropTopped(base: string, stack: string, angle: char)
    requires Topped(base, stack, angle)
    ensures F.DropTop(stack, angle) == base
    decreases |stack|
  {
    if |stack| == |base| {
      assert stack == base;
    } else {
      assert Init(stack)[..|base|] == base;
      DropTopped(base, Init(stack), angle);
    }
  }

  /** A closing bracket, whatever '<' are open, closes the last ( [ or { if it is of its kind, and fails
      the search if not; an opening bracket is put on the stack; ';' takes the open '<' back; no other
      character counts. */
  lemma ForwardOther(line: string, i: nat, base: string, stack: string)
    requires i < |line| && line[i] != '<' && line[i] != '>' && Topped(base, stack, '<')
    ensures var c, next := line[i], F.ScanLine(line, i, stack);
            if c in "([{" then next == F.ScanLine(line, i + 1, stack + [c])
            else if c in ")]}" then
              if base == "" || [Last(base), c] !in ["()", "[]", "{}"] then next == F.Failed
              else if |base| == 1 then next == F.Found(i + 1)
              else next == F.ScanLine(line, i + 1, Init(base))
            else if c == ';' then
              if base == "" then next == F.Failed else next == F.ScanLine(line, i + 1, base)
            else next == F.ScanLine(line, i + 1, stack)
  {
    hide OperatorBefore, F.DropTop, Topped, Closes, IsOpener, IsCloser;
    DropTopped(base, stack, '<');
    Classes(line[i]);
    if base != "" {
      Pairs(Last(base), line[i]);
    }
  }

  /** A search starts at ( [ { and at a '<' that does not begin "<<" or "<=", and nowhere else. */
  lemma ForwardStarts(lines: seq<string>, l: nat, p: nat)
    requires l < |lines| && p < |lines[l]|
    ensures var line := lines[l];
            if line[p] in "([{" || (line[p] == '<' && !(p + 1 < |line| && line[p + 1] in "<=")) then
              F.Close(lines, l, p) == match F.ScanLine(line, p, "")
                                      case Found(e) => Some(Spot(l, e))
                                      case Failed => None
                                      case Carry(s) => F.ScanFrom(lines, l + 1, s)
            else F.Close(lines, l, p) == None
  {
    hide F.ScanLine, F.ScanFrom;
    Classes(lines[l][p]);
  }

  /** "<<" leaves the stack as it was. */
  lemma ShiftLeft(line: string, i: nat, stack: string)
    requires i + 1 < |line| && line[i] == '<' && line[i + 1] == '<' && stack != ""
    requires i == 0 || (line[i - 1] != '<' && !AfterOperator(line[..i]))
    ensures F.ScanLine(line, i, stack) == F.ScanLine(line, i + 2, stack)
  {
    hide F.ScanLine, AfterOperator;
    ForwardLess(line, i, stack);
    ForwardLess(line, i + 1, stack + "<");
    assert Init(stack + "<") == stack;
  }

  /** The '>' right after the word operator is not ignored: the look-back stops one character early. */
  lemma OperatorCloses(x: string, rest: string)
    ensures F.ScanLine(x + "operator" + ">" + rest, |x| + 8, "<") == F.Found(|x| + 9)
  {
    hide F.ScanLine, AfterOperator;
    var line, i := x + "operator" + ">" + rest, |x| + 8;
    assert line[i] == '>' && line[i - 1] == 'r';
    assert line[..i - 1] == x + "operato";
    Unfinished(x);
    ForwardGreater(line, i, "<");
  }

  lemma Unfinished(x: string)
    ensures !AfterOperator(x + "operato")
  {
    var s := x + "operato";
    OperatorBeforeForm(s);
    hide AfterOperator;
    assert Last(s) == 'o';
    if OperatorBefore(s) {
      OperatorEnd(s);
    }
  }

  // ---------------------------------------------------------------------------------------
  // Backwards

  /** The '>' of "->", of ">=" between white space and after the word operator does nothing, and the
      character before is passed over with it; any other '>' is a bracket. */
  lemma BackwardGreater(line: string, i: nat, stack: string)
    requires i < |line| && line[i] == '>'
    ensures var next := B.ScanLine(line, i + 1, stack);
            if i > 0 && (line[i - 1] == '-' || SpacedAt(line, i) || AfterOperator(line[..i])) then
              next == B.ScanLine(line, i - 1, stack)
            else next == B.ScanLine(line, i, stack + ">")
  {
    hide OperatorBefore, AfterOperator, SpacedGreaterEqual;
    OperatorBeforeForm(line[..i]);
    if i > 0 {
      SpacedForm(line, i);
    }
  }

  predicate SpacedAt(line: string, i: nat)
    requires 0 < i < |line|
  {
    i + 2 < |line| && IsSpace(line[i - 1]) && line[i..i + 2] == ">=" && IsSpace(line[i + 2])
  }

  /** "<<" is passed over; any other '<' closes a '>' on top of the stack, and nothing else. */
  lemma BackwardLess(line: string, i: nat, stack: string)
    requires i < |line| && line[i] == '<'
    ensures var next := B.ScanLine(line, i + 1, stack);
            if i > 0 && line[i - 1] == '<' then next == B.ScanLine(line, i - 1, stack)
            else if stack == "" || Last(stack) != '>' then next == B.ScanLine(line, i, stack)
            else if |stack| == 1 then next == B.Found(i)
            else next == B.ScanLine(line, i, Init(stack))
  {
    hide OperatorBefore, SpacedGreaterEqual;
  }

  /** The other characters, in the mirror image of the forward search. */
  lemma BackwardOther(line: string, i: nat, base: string, stack: string)
    requires i < |line| && line[i] != '<' && line[i] != '>' && Topped(base, stack, '>')
    ensures var c, next := line[i], B.ScanLine(line, i + 1, stack);
            if c in ")]}" then next == B.ScanLine(line, i, stack + [c])
            else if c in "([{" then
              if base == "" || [c, Last(base)] !in ["()", "[]", "{}"] then next == B.Failed
              else if |base| == 1 then next == B.Found(i)
              else next == B.ScanLine(line, i, Init(base))
            else if c == ';' then
              if base == "" then next == B.Failed else next == B.ScanLine(line, i, base)
            else next == B.ScanLine(line, i, stack)
  {
    hide OperatorBefore, SpacedGreaterEqual, F.DropTop, Topped, Closes, IsOpener, IsCloser;
    DropTopped(base, stack, '>');
    Classes(line[i]);
    if base != "" {
      Pairs(line[i], Last(base));
    }
  }

  lemma BackwardStarts(lines: seq<string>, l: nat, p: nat)
    requires l < |lines| && p < |lines[l]|
    ensures if lines[l][p] in ")]}>" then
              B.Open(lines, l, p) == match B.ScanLine(lines[l], p + 1, "")
                                     case Found(s) => Some(Spot(l, s))
                                     case Failed => None
                                     case Carry(s) => B.ScanFrom(lines, l, s)
            else B.Open(lines, l, p) == None
  {
    hide B.ScanLine, B.ScanFrom;
    Classes(lines[l][p]);
  }

  // ---------------------------------------------------------------------------------------
  // Whole searches: an ignored '>' might as well be a full stop

  /** The same text, but for some '>' that became full stops. */
  predicate Alike(s: string, t: string) {
    |s| == |t| && forall i | 0 <= i < |s| :: s[i] == t[i] || (s[i] == '>' && t[i] == '.')
  }

  lemma {:induction false} AlikeTrim(s: string, t: string)
    requires Alike(s, t)
    ensures |TrimEnd(s)| == |TrimEnd(t)| <= |s| && TrimEnd(s) == s[..|TrimEnd(s)|] && TrimEnd(t) == t[..|TrimEnd(t)|]
    decreases |s|
  {
    if s == "" {
    } else {
      AlikeTrim(Init(s), Init(t));
      var n := |TrimEnd(Init(s))|;
      assert Init(s)[..n] == s[..n] && Init(t)[..n] == t[..n];
    }
  }

  lemma AlikeOperator(s: string, t: string)
    requires Alike(s, t)
    ensures OperatorBefore(s) <==> OperatorBefore(t)
  {
    AlikeTrim(s, t);
    var n := |TrimEnd(s)|;
    if n >= 8 {
      var u, v := s[n - 8..n], t[n - 8..n];
      assert TrimEnd(s)[n - 8..] == u && TrimEnd(t)[n - 8..] == v;
      assert forall k | 0 <= k < 8 :: "operator"[k] != '>' && "operator"[k] != '.';
      assert forall k | 0 <= k < 8 :: u[k] == s[n - 8 + k] && v[k] == t[n - 8 + k];
      assert u == "operator" <==> v == "operator";
    }
  }

  /** Some '>' that the forward search ignores became full stops. */
  ghost predicate ForwardDulls(line: string, dull: string) {
    && |line| == |dull|
    && forall i | 0 <= i < |line| ::
         || dull[i] == line[i]
         || (dull[i] == '.' && line[i] == '>' && i > 0 && (line[i - 1] == '-' || AfterOperator(line[..i - 1])))
  }

  lemma ForwardLookDull(line: string, dull: string, i: nat)
    requires ForwardDulls(line, dull) && i < |line|
    ensures F.LookAt(line, i) == F.LookAt(dull, i)
  {
    hide AfterOperator, OperatorBefore;
    assert Alike(line[..i], dull[..i]);
    AlikeOperator(line[..i], dull[..i]);
    if i > 0 {
      AlikeOperator(line[..i - 1], dull[..i - 1]);
    }
  }

  lemma {:induction false} ForwardScanDull(line: string, dull: string, i: nat, stack: string)
    requires ForwardDulls(line, dull) && i <= |line|
    ensures F.ScanLine(line, i, stack) == F.ScanLine(dull, i, stack)
    decreases |line| - i
  {
    hide AfterOperator, OperatorBefore, F.LookAt, F.StepBy;
    if i == |line| {
    } else {
      ForwardLookDull(line, dull, i);
      if dull[i] == line[i] {
        var step := F.StepAt(line, i, stack);
        if step.Go? {
          ForwardScanDull(line, dull, i + 1, step.stack);
        }
      } else {
        ForwardGreater(line, i, stack);
        assert dull[..0] == "";
        Plain(dull, i, stack);
        ForwardScanDull(line, dull, i + 1, stack);
      }
    }
  }

  lemma Plain(dull: string, i: nat, stack: string)
    requires i < |dull| && dull[i] == '.'
    ensures F.ScanLine(dull, i, stack) == F.ScanLine(dull, i + 1, stack)
    ensures B.ScanLine(dull, i + 1, stack) == B.ScanLine(dull, i, stack)
  {
    hide F.LookAt, B.LookAt;
  }

  lemma {:induction false} ForwardFromDull(lines: seq<string>, dulls: seq<string>, l: nat, stack: string)
    requires |lines| == |dulls| && forall k | 0 <= k < |lines| :: ForwardDulls(lines[k], dulls[k])
    ensures F.ScanFrom(lines, l, stack) == F.ScanFrom(dulls, l, stack)
    decreases |lines| - l
  {
    hide F.ScanLine, ForwardDulls;
    if stack == "" || l >= |lines| {
    } else {
      ForwardScanDull(lines[l], dulls[l], 0, stack);
      var scan := F.ScanLine(lines[l], 0, stack);
      if scan.Carry? {
        ForwardFromDull(lines, dulls, l + 1, scan.stack);
      }
    }
  }

  /** In any file, a '>' that comes after '-', or one character after the word operator, has no part in any
      forward search: with any of them replaced by full stops, every search ends as before. */
  lemma ArrowsAreNoBrackets(lines: seq<string>, dulls: seq<string>, l: nat, p: nat)
    requires |lines| == |dulls| && forall k | 0 <= k < |lines| :: ForwardDulls(lines[k], dulls[k])
    requires l < |lines| && p < |lines[l]|
    ensures p < |dulls[l]| && F.Close(lines, l, p) == F.Close(dulls, l, p)
  {
    hide F.ScanLine, F.ScanFrom, AfterOperator;
    assert ForwardDulls(lines[l], dulls[l]);
    assert F.Candidate(lines[l], p) <==> F.Candidate(dulls[l], p);
    ForwardScanDull(lines[l], dulls[l], p, "");
    var scan := F.ScanLine(lines[l], p, "");
    if scan.Carry? {
      ForwardFromDull(lines, dulls, l + 1, scan.stack);
    }
  }

  /** The line with every arrow head replaced. */
  function WithoutArrows(line: string): (r: string)
    ensures |r| == |line|
  {
    seq(|line|, i requires 0 <= i < |line| => if i > 0 && line[i - 1] == '-' && line[i] == '>' then '.' else line[i])
  }

  function AllWithoutArrows(lines: seq<string>): (r: seq<string>)
    ensures |r| == |lines| && forall k | 0 <= k < |lines| :: r[k] == WithoutArrows(lines[k])
  {
    seq(|lines|, k requires 0 <= k < |lines| => WithoutArrows(lines[k]))
  }

  /** For every file: with the head of every "->" replaced, every forward search ends as before, and so does
      every backward search that does not start at such a head. */
  lemma SearchesWithoutArrows(lines: seq<string>, l: nat, p: nat)
    requires l < |lines| && p < |lines[l]|
    ensures var dulls := AllWithoutArrows(lines);
            && F.Close(dulls, l, p) == F.Close(lines, l, p)
            && (dulls[l][p] == lines[l][p] ==> B.Open(dulls, l, p) == B.Open(lines, l, p))
  {
    hide AfterOperator, F.Close, B.Open;
    var dulls := AllWithoutArrows(lines);
    assert forall k | 0 <= k < |lines| :: ForwardDulls(lines[k], dulls[k]) && BackwardDulls(lines[k], dulls[k]);
    ArrowsAreNoBrackets(lines, dulls, l, p);
    if dulls[l][p] == lines[l][p] {
      BackwardArrowsAreNoBrackets(lines, dulls, l, p);
    }
  }

  /** Some '>' that the backward search ignores became full stops. */
  ghost predicate BackwardDulls(line: string, dull: string) {
    && |line| == |dull|
    && forall i | 0 <= i < |line| ::
         || dull[i] == line[i]
         || (&& dull[i] == '.' && line[i] == '>' && i > 0
             && (line[i - 1] == '-' || SpacedAt(line, i) || AfterOperator(line[..i])))
  }

  lemma BackwardLookDull(line: string, dull: string, i: nat)
    requires BackwardDulls(line, dull) && i < |line| && dull[i] == line[i]
    ensures B.LookAt(line, i) == B.LookAt(dull, i)
  {
    hide AfterOperator, OperatorBefore, SpacedAt;
    assert Alike(line[..i], dull[..i]);
    AlikeOperator(line[..i], dull[..i]);
    if i + 2 < |line| {
      assert dull[i + 1] == line[i + 1] || (dull[i + 1] == '.' && line[i + 1] == '>');
      assert dull[i + 2] == line[i + 2] || (dull[i + 2] == '.' && line[i + 2] == '>');
    }
  }

  /** What a dull '>' passes over is a plain character. */
  lemma BackwardDullStep(line: string, dull: string, i: nat, stack: string)
    requires BackwardDulls(line, dull) && i < |line| && dull[i] != line[i]
    ensures i > 0 && B.ScanLine(line, i + 1, stack) == B.ScanLine(line, i - 1, stack)
    ensures B.ScanLine(dull, i + 1, stack) == B.ScanLine(dull, i - 1, stack)
  {
    hide AfterOperator, OperatorBefore, B.ScanLine;
    BackwardGreater(line, i, stack);
    Plain(dull, i, stack);
    if AfterOperator(line[..i]) {
      OperatorBeforeForm(line[..i]);
      OperatorEnd(line[..i]);
    }
    PlainBefore(dull, i - 1, stack);
  }

  lemma PlainBefore(dull: string, i: nat, stack: string)
    requires i < |dull| && !IsBracket(dull[i]) && dull[i] !in "<>;"
    ensures B.ScanLine(dull, i + 1, stack) == B.ScanLine(dull, i, stack)
  {
    hide B.LookAt;
  }

  lemma {:induction false} BackwardScanDull(line: string, dull: string, n: nat, stack: string)
    requires BackwardDulls(line, dull) && n <= |line|
    ensures B.ScanLine(line, n, stack) == B.ScanLine(dull, n, stack)
  {
    hide AfterOperator, OperatorBefore, B.LookAt, B.StepBy;
    if n == 0 {
    } else if dull[n - 1] == line[n - 1] {
      BackwardLookDull(line, dull, n - 1);
      var step := B.StepAt(line, n - 1, stack);
      if step.Go? {
        BackwardScanDull(line, dull, if step.skip then n - 2 else n - 1, step.stack);
      }
    } else {
      BackwardDullStep(line, dull, n - 1, stack);
      BackwardScanDull(line, dull, n - 2, stack);
    }
  }

  lemma {:induction false} BackwardFromDull(lines: seq<string>, dulls: seq<string>, l: nat, stack: string)
    requires |lines| == |dulls| && forall k | 0 <= k < |lines| :: BackwardDulls(lines[k], dulls[k])
    requires l <= |lines|
    ensures B.ScanFrom(lines, l, stack) == B.ScanFrom(dulls, l, stack)
  {
    hide B.ScanLine, BackwardDulls;
    if stack == "" || l == 0 {
    } else {
      assert BackwardDulls(lines[l - 1], dulls[l - 1]);
      SameLength(lines[l - 1], dulls[l - 1]);
      BackwardScanDull(lines[l - 1], dulls[l - 1], |lines[l - 1]|, stack);
      var scan := B.ScanLine(lines[l - 1], |lines[l - 1]|, stack);
      if scan.Carry? {
        BackwardFromDull(lines, dulls, l - 1, scan.stack);
      }
    }
  }

  lemma SameLength(line: string, dull: string)
    requires BackwardDulls(line, dull)
    ensures |line| == |dull|
  {
  }

  /** In any file, a '>' after '-', in a spaced ">=" or after the word operator has no part in any backward
      search that does not start there. */
  lemma BackwardArrowsAreNoBrackets(lines: seq<string>, dulls: seq<string>, l: nat, p: nat)
    requires |lines| == |dulls| && forall k | 0 <= k < |lines| :: BackwardDulls(lines[k], dulls[k])
    requires l < |lines| && p < |lines[l]| == |dulls[l]| && dulls[l][p] == lines[l][p]
    ensures B.Open(lines, l, p) == B.Open(dulls, l, p)
  {
    hide B.ScanLine, B.ScanFrom, AfterOperator, SpacedAt;
    BackwardScanDull(lines[l], dulls[l], p + 1, "");
    var scan := B.ScanLine(lines[l], p + 1, "");
    if scan.Carry? {
      BackwardFromDull(lines, dulls, l, scan.stack);
    }
  }
}
