/** The two bracket matchers against each other on '<' and '>'. */
module Angles {
  import opened Lexical
  import opened Lines
  import Dyck
  import F = Forward
  import B = Reverse

  /** Neither matcher takes the character at offset k, if it is an angle bracket, for part of an operator. */
  predicate Clear(lines: seq<string>, cells: seq<Spot>, t: string, k: nat)
    requires Layout(lines, cells, t) && k < |t|
  {
    t[k] == '<' || t[k] == '>' ==>
      && F.LookAt(lines[cells[k].line], cells[k].column) == F.Look(false, false, false)
      && B.LookAt(lines[cells[k].line], cells[k].column) == B.Look(false, false)
  }

  ghost predicate ClearBetween(lines: seq<string>, cells: seq<Spot>, t: string, a: nat, b: nat)
    requires Layout(lines, cells, t) && b < |t|
  {
    forall k: nat | a <= k <= b :: Clear(lines, cells, t, k)
  }

  /** The same in a whole file, between two offsets of its joined text. */
  ghost predicate ClearIn(lines: seq<string>, a: nat, b: nat) {
    LayoutJoin(lines);
    a < b < |Join(lines)| && ClearBetween(lines, Cells(lines), Join(lines), a, b)
  }

  /** One clear step forward that does not end the search is undone by one step backward. */
  lemma StepBack(lines: seq<string>, cells: seq<Spot>, t: string, k: nat, d: nat)
    requires Layout(lines, cells, t) && k < |t| && d > 0 && Clear(lines, cells, t, k)
    requires !IsBracket(t[k]) && t[k] != ';' && !(t[k] == '>' && d == 1)
    ensures var e := if t[k] == '<' then d + 1 else if t[k] == '>' then d - 1 else d;
            && e > 0 && F.AngleRun(lines, cells, t, k, d) == F.AngleRun(lines, cells, t, k + 1, e)
            && B.AngleRun(lines, cells, t, k + 1, e) == B.AngleRun(lines, cells, t, k, d)
  {
    hide F.LookAt, B.LookAt, Layout;
  }

  /** A jump forward over a group is undone by a jump backward. */
  lemma JumpBack(lines: seq<string>, cells: seq<Spot>, t: string, k: nat, e: nat, d: nat)
    requires Layout(lines, cells, t) && d > 0 && Dyck.Group(t, k, e)
    ensures F.AngleRun(lines, cells, t, k, d) == F.AngleRun(lines, cells, t, e + 1, d)
    ensures B.AngleRun(lines, cells, t, e + 1, d) == B.AngleRun(lines, cells, t, k, d)
  {
    hide F.LookAt, B.LookAt, Layout, Dyck.Run, Dyck.BackRun;
    Dyck.RunIsGroup(t, k, e + 1);
    Dyck.BackRunIsGroup(t, k, e);
  }

  /** Where the forward count stands, the backward count from its end comes by, at the same depth. */
  lemma {:induction false} ForwardThenBack(lines: seq<string>, cells: seq<Spot>, t: string, k: nat, d: nat, b: nat)
    requires Layout(lines, cells, t) && k <= |t| && d > 0 && F.AngleRun(lines, cells, t, k, d) == Some(b + 1)
    requires b < |t| && ClearBetween(lines, cells, t, k, b)
    ensures k <= b && B.AngleRun(lines, cells, t, b, 1) == B.AngleRun(lines, cells, t, k, d)
    decreases |t| - k
  {
    hide F.LookAt, B.LookAt, Layout, Dyck.Group, Dyck.Run, B.AngleRun, Clear;
    Ahead(lines, cells, t, k, d);
    var c := t[k];
    if IsOpener(c) {
      var e := Dyck.Run(t, k + 1, [c]).value;
      Dyck.RunIsGroup(t, k, e);
      JumpBack(lines, cells, t, k, e - 1, d);
      Ahead(lines, cells, t, e, d);
      ForwardThenBack(lines, cells, t, e, d, b);
    } else if c == '>' && d == 1 {
      ClearEnd(lines, cells, t, k);
    } else {
      StepBack(lines, cells, t, k, d);
      ForwardThenBack(lines, cells, t, k + 1, if c == '<' then d + 1 else if c == '>' then d - 1 else d, b);
    }
  }

  lemma Ahead(lines: seq<string>, cells: seq<Spot>, t: string, k: nat, d: nat)
    requires Layout(lines, cells, t) && k <= |t| && d > 0 && F.AngleRun(lines, cells, t, k, d).Some?
    ensures k < |t| && !IsCloser(t[k]) && t[k] != ';' && k < F.AngleRun(lines, cells, t, k, d).value <= |t|
  {
    var tree := F.AngleRunTree(lines, cells, t, k, d);
  }

  lemma ClearEnd(lines: seq<string>, cells: seq<Spot>, t: string, k: nat)
    requires Layout(lines, cells, t) && k < |t| && Clear(lines, cells, t, k)
    ensures t[k] == '>' ==> F.AngleRun(lines, cells, t, k, 1) == Some(k + 1)
    ensures t[k] == '<' ==> B.AngleRun(lines, cells, t, k + 1, 1) == Some(k)
  {
    hide F.LookAt, B.LookAt, Layout;
  }

  /** The mirror image. */
  lemma {:induction false} BackThenForward(lines: seq<string>, cells: seq<Spot>, t: string, k: nat, d: nat, a: nat)
    requires Layout(lines, cells, t) && k <= |t| && d > 0 && B.AngleRun(lines, cells, t, k, d) == Some(a)
    requires k > 0 && ClearBetween(lines, cells, t, a, k - 1)
    ensures F.AngleRun(lines, cells, t, a + 1, 1) == F.AngleRun(lines, cells, t, k, d)
  {
    hide F.LookAt, B.LookAt, Layout, Dyck.Group, Dyck.BackRun, F.AngleRun, Clear;
    var c := t[k - 1];
    if IsCloser(c) {
      var e := Dyck.BackRun(t, k - 1, [c]).value;
      Dyck.BackRunIsGroup(t, e, k - 1);
      JumpBack(lines, cells, t, e, k - 1, d);
      BackThenForward(lines, cells, t, e, d, a);
    } else {
      assert Clear(lines, cells, t, k - 1);
      BackStep(lines, cells, t, k, d);
      if c == '<' && d == 1 {
      } else {
        var e := if c == '<' then d - 1 else if c == '>' then d + 1 else d;
        StepBack(lines, cells, t, k - 1, e);
        BackThenForward(lines, cells, t, k - 1, e, a);
      }
    }
  }

  lemma BackStep(lines: seq<string>, cells: seq<Spot>, t: string, k: nat, d: nat)
    requires Layout(lines, cells, t) && 0 < k <= |t| && d > 0 && !IsCloser(t[k - 1]) && Clear(lines, cells, t, k - 1)
    ensures B.AngleRun(lines, cells, t, k, d).Some? ==>
              && !IsOpener(t[k - 1]) && t[k - 1] != ';'
              && (t[k - 1] == '<' && d == 1 ==> B.AngleRun(lines, cells, t, k, d) == Some(k - 1))
  {
    hide F.LookAt, B.LookAt, Layout;
  }

  /** Between a '<' and a '>' with no operator look-alike on the way, the two searches are inverse: the
      forward one ends past the '>' if and only if it starts at all and the backward one ends at the '<'. */
  lemma AnglesAreInverse(lines: seq<string>, from: Spot, to: Spot)
    requires from.line < |lines| && from.column < |lines[from.line]| && lines[from.line][from.column] == '<'
    requires to.line < |lines| && to.column < |lines[to.line]| && lines[to.line][to.column] == '>'
    requires ClearIn(lines, Start(lines, from.line) + from.column, Start(lines, to.line) + to.column)
    ensures F.Close(lines, from.line, from.column) == Some(Spot(to.line, to.column + 1))
            <==> F.Candidate(lines[from.line], from.column) && B.Open(lines, to.line, to.column) == Some(from)
  {
    hide F.Close, B.Open, F.AngleRun, B.AngleRun, Join, Cells, Layout, Start, F.Candidate, F.LookAt, B.LookAt;
    LayoutJoin(lines);
    var cells, t := Cells(lines), Join(lines);
    var a, b := Start(lines, from.line) + from.column, Start(lines, to.line) + to.column;
    CellAt(lines, from);
    CellAt(lines, to);
    assert Clear(lines, cells, t, a) && Clear(lines, cells, t, b);
    B.OpenIsAngleRun(lines, to.line, to.column);
    BackEnds(lines, from, to);
    if F.Candidate(lines[from.line], from.column) {
      F.CloseIsAngleRun(lines, from.line, from.column);
      ForwardEnds(lines, from, to);
      ClearEnd(lines, cells, t, a);
      ClearEnd(lines, cells, t, b);
      if F.AngleRun(lines, cells, t, a + 1, 1) == Some(b + 1) {
        ForwardThenBack(lines, cells, t, a + 1, 1, b);
      }
      if B.AngleRun(lines, cells, t, b, 1) == Some(a) {
        BackThenForward(lines, cells, t, b, 1, a);
      }
    } else {
      NoCandidate(lines, from);
    }
  }

  lemma NoCandidate(lines: seq<string>, from: Spot)
    requires from.line < |lines| && from.column < |lines[from.line]| && !F.Candidate(lines[from.line], from.column)
    ensures F.Close(lines, from.line, from.column) == None
  {
  }

  /** Offsets tell spots apart. */
  lemma ForwardEnds(lines: seq<string>, from: Spot, to: Spot)
    requires from.line < |lines| && from.column < |lines[from.line]|
    requires to.line < |lines| && to.column < |lines[to.line]|
    requires F.PastColumn(lines, F.Close(lines, from.line, from.column))
    ensures var found := F.Close(lines, from.line, from.column);
            found == Some(Spot(to.line, to.column + 1))
            <==> F.Offset(lines, found) == Some(Start(lines, to.line) + to.column + 1)
  {
    hide F.Close, Cells, Join, Start;
    var found := F.Close(lines, from.line, from.column);
    CellAt(lines, to);
    if found.Some? {
      CellAt(lines, Spot(found.value.line, found.value.column - 1));
    }
  }

  lemma BackEnds(lines: seq<string>, from: Spot, to: Spot)
    requires from.line < |lines| && from.column < |lines[from.line]|
    requires to.line < |lines| && to.column < |lines[to.line]|
    requires B.OnColumn(lines, B.Open(lines, to.line, to.column))
    ensures var found := B.Open(lines, to.line, to.column);
            found == Some(from) <==> F.Offset(lines, found) == Some(Start(lines, from.line) + from.column)
  {
    hide B.Open, Cells, Join, Start;
    var found := B.Open(lines, to.line, to.column);
    CellAt(lines, from);
    if found.Some? {
      CellAt(lines, found.value);
    }
  }

  // ---------------------------------------------------------------------------------------
  // Without that condition they are not

  const SPACED := "a < b >= c"

  lemma {:induction false} TrimShortens(s: string)
    ensures |TrimEnd(s)| <= |s|
    decreases |s|
  {
    if s == "" {
    } else {
      TrimShortens(Init(s));
    }
  }

  lemma NoOperatorIn(s: string)
    requires |s| < 8
    ensures !OperatorBefore(s)
  {
    TrimShortens(s);
  }

  /** Forwards, the '>' of a spaced ">=" closes a '<'; backwards it is ignored. */
  lemma SpacedIsOneWay()
    ensures F.Close([SPACED], 0, 2) == Some(Spot(0, 7)) && B.Open([SPACED], 0, 6) == None
  {
    SpacedForward();
    SpacedBackward();
  }

  lemma SpacedForward()
    ensures F.ScanLine(SPACED, 2, "") == F.Found(7)
  {
    hide OperatorBefore;
    NoOperatorIn(SPACED[..2]);
    NoOperatorIn(SPACED[..5]);
    assert F.StepAt(SPACED, 2, "") == F.Go("<");
    assert F.StepAt(SPACED, 3, "<") == F.Go("<");
    assert F.StepAt(SPACED, 4, "<") == F.Go("<");
    assert F.StepAt(SPACED, 5, "<") == F.Go("<");
    assert F.StepAt(SPACED, 6, "<") == F.Done;
    assert F.ScanLine(SPACED, 6, "<") == F.Found(7);
    assert F.ScanLine(SPACED, 4, "<") == F.Found(7);
  }

  lemma SpacedBackward()
    ensures B.ScanLine(SPACED, 7, "") == B.Carry("")
  {
    hide OperatorBefore;
    assert SpacedGreaterEqual(SPACED, 6);
    assert B.StepAt(SPACED, 6, "") == B.Go("", true);
    assert B.StepAt(SPACED, 4, "") == B.Go("", false);
    assert B.StepAt(SPACED, 3, "") == B.Go("", false);
    assert B.StepAt(SPACED, 2, "") == B.Go("", false);
    assert B.StepAt(SPACED, 1, "") == B.Go("", false);
    assert B.StepAt(SPACED, 0, "") == B.Go("", false);
    assert B.ScanLine(SPACED, 0, "") == B.Carry("");
    assert B.ScanLine(SPACED, 2, "") == B.Carry("");
    assert B.ScanLine(SPACED, 4, "") == B.Carry("");
  }
}
