/** FindStartOfExpressionInLine and ReverseCloseExpression: the backward bracket matcher. It holds
    each '>' as a bracket until earlier text disproves it, and steps over one more character
    after an operator. */
module Reverse {
  import opened Lexical
  import opened Lines
  import Dyck
  import F = Forward

  datatype Step = Go(stack: string, skip: bool) | Done | Lost

  datatype Scan = Found(start: nat) | Failed | Carry(stack: string)

  /** What the text around a character on its line says: `ignored` for a '>' that belongs to "->",
      " >= " or `operator>`, `shift` for a '<' after a '<'. Either also skips the character before. */
  datatype Look = Look(ignored: bool, shift: bool)

  function LookAt(line: string, i: nat): Look
    requires i < |line|
  {
    if i == 0 then Look(false, false)
    else Look(line[i - 1] == '-' || SpacedGreaterEqual(line, i) || OperatorBefore(line[..i]),
              line[i - 1] == '<')
  }

  function StepBy(c: char, look: Look, stack: string): Step {
    if IsCloser(c) then Go(stack + [c], false)
    else if c == '>' then
      if look.ignored then Go(stack, true) else Go(stack + ">", false)
    else if c == '<' then
      if look.shift then Go(stack, true)
      else if stack == "" || Last(stack) != '>' then Go(stack, false)
      else if |stack| == 1 then Done
      else Go(Init(stack), false)
    else if IsOpener(c) then
      var s := F.DropTop(stack, '>');
      if s == "" || !Closes(c, Last(s)) then Lost
      else if |s| == 1 then Done
      else Go(Init(s), false)
    else if c == ';' then
      var s := F.DropTop(stack, '>');
      if s == "" then Lost else Go(s, false)
    else Go(stack, false)
  }

  function StepAt(line: string, i: nat, stack: string): (r: Step)
    requires i < |line|
    ensures r.Go? && r.skip ==> i > 0
  {
    StepBy(line[i], LookAt(line, i), stack)
  }

  /** Scans the first n characters of a line, last one first. */
  function ScanLine(line: string, n: nat, stack: string): Scan
    requires n <= |line|
  {
    if n == 0 then Carry(stack)
    else match StepAt(line, n - 1, stack)
      case Go(s, skip) => ScanLine(line, if skip then n - 2 else n - 1, s)
      case Done => Found(n - 1)
      case Lost => Failed
  }

  /** Goes on with the l lines before line l while the stack is not empty. */
  function ScanFrom(lines: seq<string>, l: nat, stack: string): Option<Spot>
    requires l <= |lines|
  {
    if stack == "" || l == 0 then None
    else match ScanLine(lines[l - 1], |lines[l - 1]|, stack)
      case Found(s) => Some(Spot(l - 1, s))
      case Failed => None
      case Carry(s) => ScanFrom(lines, l - 1, s)
  }

  predicate Candidate(line: string, p: nat)
    requires p < |line|
  {
    IsCloser(line[p]) || line[p] == '>'
  }

  function Open(lines: seq<string>, l: nat, p: nat): Option<Spot>
    requires l < |lines| && p < |lines[l]|
  {
    if !Candidate(lines[l], p) then None
    else match ScanLine(lines[l], p + 1, "")
      case Found(s) => Some(Spot(l, s))
      case Failed => None
      case Carry(s) => ScanFrom(lines, l, s)
  }

  method FindStartOfExpressionInLine(line: string, endpos: int, initial: string)
    returns (start: int, carry: Option<string>)
    requires -1 <= endpos < |line|
    ensures match ScanLine(line, endpos + 1, initial)
            case Found(s) => start == s && carry == None
            case Failed => start == -1 && carry == None
            case Carry(s) => start == -1 && carry == Some(s)
  {
    var stack, i := initial, endpos;
    while i >= 0
      invariant -1 <= i <= endpos
      invariant ScanLine(line, endpos + 1, initial) == ScanLine(line, i + 1, stack)
    {
      var c := line[i];
      if IsCloser(c) {
        stack := stack + [c];
      } else if c == '>' {
        if i > 0 && (line[i - 1] == '-' || SpacedGreaterEqual(line, i) || OperatorBefore(line[..i])) {
          i := i - 1;
        } else {
          stack := stack + ">";
        }
      } else if c == '<' {
        if i > 0 && line[i - 1] == '<' {
          i := i - 1;
        } else if stack != "" && Last(stack) == '>' {
          stack := Init(stack);
          if stack == "" {
            return i, None;
          }
        }
      } else if IsOpener(c) {
        stack := F.PopWhile(stack, '>');
        if stack == "" {
          return -1, None;
        }
        if Closes(c, Last(stack)) {
          stack := Init(stack);
          if stack == "" {
            return i, None;
          }
        } else {
          return -1, None;
        }
      } else if c == ';' {
        stack := F.PopWhile(stack, '>');
        if stack == "" {
          return -1, None;
        }
      }
      i := i - 1;
    }
    return -1, Some(stack);
  }

  /** Returns the line holding the start, its number and the position; or line number 0 and -1. */
  method ReverseCloseExpression(lines: seq<string>, linenum: nat, pos: nat)
    returns (line: string, startLine: nat, startPos: int)
    requires linenum < |lines| && pos < |lines[linenum]|
    ensures match Open(lines, linenum, pos)
            case Some(s) => startLine == s.line < |lines| && line == lines[startLine] && startPos == s.column
            case None => startLine == 0 && startPos == -1
  {
    line := lines[linenum];
    if !Candidate(line, pos) {
      return line, 0, -1;
    }
    var start, carry := FindStartOfExpressionInLine(line, pos, "");
    if start > -1 {
      return line, linenum, start;
    }
    var l := linenum;
    while carry.Some? && carry.value != "" && l > 0
      invariant l <= linenum
      invariant Open(lines, linenum, pos) == if carry.None? then None else ScanFrom(lines, l, carry.value)
      decreases l
    {
      l := l - 1;
      line := lines[l];
      start, carry := FindStartOfExpressionInLine(line, |line| - 1, carry.value);
      if start > -1 {
        return line, l, start;
      }
    }
    return line, 0, -1;
  }

  // ---------------------------------------------------------------------------------------
  // Line by line against the joined text

  /** One character back, or two when the character before is skipped. */
  function Back(k: nat, skip: bool): nat
    requires k > 0
  {
    if skip && k > 1 then k - 2 else k - 1
  }

  /** The matcher run once, backwards, over the first k characters of the joined text; only its
      look-around is cut at line ends. */
  function RunJoined(lines: seq<string>, cells: seq<Spot>, k: nat, stack: string): Option<nat>
    requires k <= |cells|
    requires forall j | 0 <= j < |cells| :: cells[j].line < |lines| && cells[j].column < |lines[cells[j].line]|
  {
    if k == 0 then None
    else match StepAt(lines[cells[k - 1].line], cells[k - 1].column, stack)
      case Go(s, skip) => RunJoined(lines, cells, Back(k, skip), s)
      case Done => Some(k - 1)
      case Lost => None
  }

  predicate Pushed(line: string, p: nat)
    requires p < |line|
  {
    StepAt(line, p, "") == Go([line[p]], false)
  }

  lemma StepNonempty(c: char, look: Look, stack: string)
    requires stack != ""
    ensures var s := StepBy(c, look, stack); s.Go? ==> s.stack != ""
  {
  }

  lemma {:induction false} LineIsJoined(lines: seq<string>, cells: seq<Spot>, text: string,
                                        l: nat, k: nat, n: nat, stack: string)
    requires Layout(lines, cells, text) && l < |lines| && Row(cells, l, k, |lines[l]|)
    requires n <= |lines[l]| && stack != ""
    ensures var r := RunJoined(lines, cells, k + n, stack);
            match ScanLine(lines[l], n, stack)
            case Found(s) => s < |lines[l]| && r == Some(k + s)
            case Failed => r == None
            case Carry(s) => s != "" && r == RunJoined(lines, cells, k, s)
  {
    hide LookAt, StepBy;
    if n == 0 {
    } else {
      assert cells[k + n - 1] == Spot(l, n - 1);
      StepNonempty(lines[l][n - 1], LookAt(lines[l], n - 1), stack);
      var step := StepAt(lines[l], n - 1, stack);
      if step.Go? {
        LineIsJoined(lines, cells, text, l, k, if step.skip then n - 2 else n - 1, step.stack);
      }
    }
  }

  ghost predicate OnColumn(lines: seq<string>, s: Option<Spot>) {
    s.Some? ==> s.value.line < |lines| && s.value.column < |lines[s.value.line]|
  }

  lemma {:induction false} CarriedIsJoined(lines: seq<string>, l: nat, stack: string)
    requires l <= |lines| && stack != ""
    ensures var s := ScanFrom(lines, l, stack);
            && Layout(lines, Cells(lines), Join(lines)) && Start(lines, l) <= |Cells(lines)|
            && OnColumn(lines, s)
            && F.Offset(lines, s) == RunJoined(lines, Cells(lines), Start(lines, l), stack)
  {
    hide StepAt, ScanLine, Cells, Layout, Row;
    LayoutJoin(lines);
    if l == 0 {
    } else {
      RowAt(lines, l - 1);
      LineIsJoined(lines, Cells(lines), Join(lines), l - 1, Start(lines, l - 1), |lines[l - 1]|, stack);
      var scan := ScanLine(lines[l - 1], |lines[l - 1]|, stack);
      if scan.Carry? {
        CarriedIsJoined(lines, l - 1, scan.stack);
      }
    }
  }

  /** Matching backwards line by line with a carried stack is matching once over the joined text. */
  lemma OpenIsJoined(lines: seq<string>, l: nat, p: nat)
    requires l < |lines| && p < |lines[l]| && Candidate(lines[l], p) && Pushed(lines[l], p)
    ensures Layout(lines, Cells(lines), Join(lines)) && Start(lines, l) + p < |Cells(lines)|
    ensures var s := Open(lines, l, p);
            && OnColumn(lines, s)
            && F.Offset(lines, s) == RunJoined(lines, Cells(lines), Start(lines, l) + p, [lines[l][p]])
  {
    hide StepAt, ScanLine, ScanFrom, RunJoined, Cells, Join;
    LayoutJoin(lines);
    RowAt(lines, l);
    var stack := [lines[l][p]];
    LineIsJoined(lines, Cells(lines), Join(lines), l, Start(lines, l), p, stack);
    OpenPushed(lines, l, p);
    var scan := ScanLine(lines[l], p, stack);
    if scan.Carry? {
      CarriedIsJoined(lines, l, scan.stack);
    }
  }

  lemma OpenPushed(lines: seq<string>, l: nat, p: nat)
    requires l < |lines| && p < |lines[l]| && Candidate(lines[l], p) && Pushed(lines[l], p)
    ensures Open(lines, l, p) == match ScanLine(lines[l], p, [lines[l][p]])
                                 case Found(s) => Some(Spot(l, s))
                                 case Failed => None
                                 case Carry(s) => ScanFrom(lines, l, s)
  {
  }

  // ---------------------------------------------------------------------------------------
  // Angle brackets, statements and skipped characters never change the answer for ) ] }

  /** The extra character stepped over is never a bracket, nor a semicolon. */
  lemma SkippedIsPlain(line: string, i: nat, stack: string)
    requires i < |line| && StepAt(line, i, stack).Go? && StepAt(line, i, stack).skip
    ensures i > 0 && !IsBracket(line[i - 1]) && line[i - 1] != ';'
  {
    hide OperatorBefore;
    if line[i] == '>' && OperatorBefore(line[..i]) {
      OperatorEnd(line[..i]);
    }
  }

  /** An opening bracket meets the top of the erased stack. */
  lemma StepOpener(c: char, look: Look, stack: string)
    requires IsOpener(c) && stack != "" && stack[0] != '>'
    ensures var e := F.Erase(stack, '>');
            match StepBy(c, look, stack)
            case Lost => e == "" || !Closes(c, Last(e))
            case Done => |e| == 1 && Closes(c, Last(e))
            case Go(s, _) => e != "" && Closes(c, Last(e)) && F.Erase(s, '>') == Init(e) && s != "" && s[0] == stack[0]
  {
    hide F.DropTop;
    F.EraseDrop(stack, '>');
    var s := F.DropTop(stack, '>');
    if s != "" && |s| == 1 {
      assert Init(s) == "";
    }
  }

  /** No other character but a closing bracket touches the erased stack. */
  lemma StepOther(c: char, look: Look, stack: string)
    requires !IsBracket(c) && stack != "" && stack[0] != '>'
    ensures var s := StepBy(c, look, stack);
            s.Go? && F.Erase(s.stack, '>') == F.Erase(stack, '>') && s.stack != "" && s.stack[0] == stack[0]
  {
    hide F.DropTop;
    F.EraseBottom(stack, '>');
    if c == ';' {
      F.EraseDrop(stack, '>');
    } else if c == '>' {
      F.ErasePush(stack, '>', '>');
    }
  }

  /** With its '>' entries erased, a stack on a bracket moves as the plain matcher's. */
  lemma StepIsPlain(c: char, look: Look, stack: string)
    requires stack != "" && stack[0] != '>'
    ensures var e := F.Erase(stack, '>');
            match StepBy(c, look, stack)
            case Go(s, skip) => s != "" && s[0] == stack[0] && Dyck.BackStep(c, e) == Some(F.Erase(s, '>'))
            case Done => Dyck.BackStep(c, e) == Some("")
            case Lost => Dyck.BackStep(c, e) == None
  {
    F.EraseBottom(stack, '>');
    if IsCloser(c) {
      F.ErasePush(stack, c, '>');
    } else if IsOpener(c) {
      StepOpener(c, look, stack);
    } else {
      StepOther(c, look, stack);
    }
  }

  lemma {:induction false} JoinedIsPlain(lines: seq<string>, cells: seq<Spot>, text: string, k: nat, stack: string)
    requires Layout(lines, cells, text) && Contiguous(cells) && k <= |text| && stack != "" && stack[0] != '>'
    ensures F.Erase(stack, '>') != ""
    ensures RunJoined(lines, cells, k, stack) == Dyck.BackRun(text, k, F.Erase(stack, '>'))
  {
    hide LookAt, StepBy, F.Erase;
    F.EraseBottom(stack, '>');
    if k == 0 {
    } else {
      var at := cells[k - 1];
      var look := LookAt(lines[at.line], at.column);
      StepIsPlain(text[k - 1], look, stack);
      var step := StepBy(text[k - 1], look, stack);
      if step.Go? {
        F.EraseBottom(step.stack, '>');
        if step.skip {
          SkippedIsPlain(lines[at.line], at.column, stack);
          assert cells[k - 2] == Spot(at.line, at.column - 1);
          JoinedIsPlain(lines, cells, text, k - 2, step.stack);
        } else {
          JoinedIsPlain(lines, cells, text, k - 1, step.stack);
        }
      }
    }
  }

  lemma OpenPushedIsJoined(lines: seq<string>, l: nat, p: nat)
    requires l < |lines| && p < |lines[l]| && IsCloser(lines[l][p])
    ensures Layout(lines, Cells(lines), Join(lines)) && Contiguous(Cells(lines))
    ensures Start(lines, l) + p < |Cells(lines)| && OnColumn(lines, Open(lines, l, p))
    ensures F.Offset(lines, Open(lines, l, p))
            == RunJoined(lines, Cells(lines), Start(lines, l) + p, [lines[l][p]])
  {
    OpenIsJoined(lines, l, p);
    LayoutJoin(lines);
  }

  lemma OpenIsRun(lines: seq<string>, l: nat, p: nat)
    requires l < |lines| && p < |lines[l]| && IsCloser(lines[l][p])
    ensures Start(lines, l) + p < |Join(lines)| && OnColumn(lines, Open(lines, l, p))
    ensures F.Offset(lines, Open(lines, l, p)) == Dyck.BackRun(Join(lines), Start(lines, l) + p, [lines[l][p]])
  {
    OpenPushedIsJoined(lines, l, p);
    F.EraseOne(lines[l][p], '>');
    hide Open, RunJoined, Dyck.BackRun, Join, Cells, F.Erase;
    JoinedIsPlain(lines, Cells(lines), Join(lines), Start(lines, l) + p, [lines[l][p]]);
  }

  /** From a ) ] }, ReverseCloseExpression succeeds exactly on a balanced group of the joined text. */
  lemma OpenIsGroup(lines: seq<string>, l: nat, p: nat, s: Spot)
    requires l < |lines| && p < |lines[l]| && IsCloser(lines[l][p])
    requires s.line < |lines| && s.column < |lines[s.line]|
    ensures Open(lines, l, p) == Some(s)
            <==> Dyck.Group(Join(lines), Start(lines, s.line) + s.column, Start(lines, l) + p)
  {
    hide Open, Dyck.BackRun, Dyck.Group, Join, Cells;
    OpenIsRun(lines, l, p);
    CellAt(lines, Spot(l, p));
    CellAt(lines, s);
    Dyck.BackRunIsGroup(Join(lines), Start(lines, s.line) + s.column, Start(lines, l) + p);
    var found := Open(lines, l, p);
    if found.Some? {
      CellAt(lines, found.value);
    }
  }

  /** A failed search means that no balanced group ends there. */
  lemma OpenFails(lines: seq<string>, l: nat, p: nat)
    requires l < |lines| && p < |lines[l]| && IsCloser(lines[l][p])
    ensures Open(lines, l, p) == None <==> !Dyck.Shuts(Join(lines), Start(lines, l) + p)
  {
    hide Open, Dyck.BackRun, Dyck.Group, Join, Cells;
    var b, t := Start(lines, l) + p, Join(lines);
    OpenIsRun(lines, l, p);
    CellAt(lines, Spot(l, p));
    if Open(lines, l, p).Some? {
      Dyck.BackRunIsGroup(t, F.Offset(lines, Open(lines, l, p)).value, b);
    } else if Dyck.Shuts(t, b) {
      var a :| Dyck.Group(t, a, b);
      var inner := Dyck.GroupTree(t, a, b);
      Dyck.BackRunIsGroup(t, a, b);
    }
  }

  // ---------------------------------------------------------------------------------------
  // A start at '>'

  /** The simple form of a search that starts at a pushed '>': a count of open '>' and, at each
      ) ] }, a jump over its balanced group. */
  function AngleRun(lines: seq<string>, cells: seq<Spot>, t: string, k: nat, depth: nat): (r: Option<nat>)
    requires Layout(lines, cells, t) && k <= |t| && depth > 0
    ensures r.Some? ==> r.value < k
  {
    if k == 0 then None
    else
      var c, look := t[k - 1], LookAt(lines[cells[k - 1].line], cells[k - 1].column);
      if IsCloser(c) then
        var e := Dyck.BackRun(t, k - 1, [c]);
        if e.None? then None else AngleRun(lines, cells, t, e.value, depth)
      else if IsOpener(c) || c == ';' then None
      else if (c == '>' && look.ignored) || (c == '<' && look.shift) then
        AngleRun(lines, cells, t, Back(k, true), depth)
      else if c == '>' then AngleRun(lines, cells, t, k - 1, depth + 1)
      else if c == '<' then
        if depth == 1 then Some(k - 1) else AngleRun(lines, cells, t, k - 1, depth - 1)
      else AngleRun(lines, cells, t, k - 1, depth)
  }

  /** What lies below a bracket on the stack has no say until that bracket is gone. */
  lemma StepFrame(c: char, look: Look, base: string, top: string)
    requires base != "" && top != "" && top[0] != '>'
    ensures StepBy(c, look, base + top) == match StepBy(c, look, top)
                                           case Go(s, skip) => Go(base + s, skip)
                                           case Done => Go(base, false)
                                           case Lost => Lost
  {
    hide F.DropTop;
    F.DropFrame(base, top, '>');
    var s := F.DropTop(top, '>');
    assert Last(base + top) == Last(top) && Init(base + top) == base + Init(top);
    assert Last(base + s) == Last(s) && Init(base + s) == base + Init(s);
    Associate(base, top, [c]);
    assert base + "" == base;
  }

  lemma StepBottom(c: char, look: Look, stack: string)
    requires stack != "" && stack[0] != '>'
    ensures var step := StepBy(c, look, stack); step.Go? ==> step.stack != "" && step.stack[0] == stack[0]
  {
    StepIsPlain(c, look, stack);
  }

  lemma {:induction false} RunFrame(lines: seq<string>, cells: seq<Spot>, t: string, k: nat, base: string, top: string)
    requires Layout(lines, cells, t) && k <= |t| && base != "" && top != "" && top[0] != '>'
    ensures match RunJoined(lines, cells, k, top)
            case None => RunJoined(lines, cells, k, base + top) == None
            case Some(e) => e < k && RunJoined(lines, cells, k, base + top) == RunJoined(lines, cells, e, base)
  {
    hide LookAt, StepBy;
    if k == 0 {
    } else {
      var look := LookAt(lines[cells[k - 1].line], cells[k - 1].column);
      StepFrame(t[k - 1], look, base, top);
      StepBottom(t[k - 1], look, top);
      var step := StepBy(t[k - 1], look, top);
      if step.Go? {
        RunFrame(lines, cells, t, Back(k, step.skip), base, step.stack);
      }
    }
  }

  /** One character on a stack of nothing but '>'. */
  lemma StepAngles(c: char, look: Look, depth: nat)
    requires depth > 0
    ensures var st := F.Angles(depth, '>');
            StepBy(c, look, st) ==
            if IsCloser(c) then Go(st + [c], false)
            else if IsOpener(c) || c == ';' then Lost
            else if (c == '>' && look.ignored) || (c == '<' && look.shift) then Go(st, true)
            else if c == '>' then Go(F.Angles(depth + 1, '>'), false)
            else if c == '<' then (if depth == 1 then Done else Go(F.Angles(depth - 1, '>'), false))
            else Go(st, false)
  {
    hide F.DropTop;
    F.DropAngles(depth, '>');
    assert Init(F.Angles(depth, '>')) == F.Angles(depth - 1, '>');
    assert F.Angles(depth, '>') + ">" == F.Angles(depth + 1, '>');
  }

  /** The backward stack matcher on open '>' is the count with jumps. */
  lemma {:induction false} JoinedIsAngleRun(lines: seq<string>, cells: seq<Spot>, t: string, k: nat, depth: nat)
    requires Layout(lines, cells, t) && Contiguous(cells) && k <= |t| && depth > 0
    ensures RunJoined(lines, cells, k, F.Angles(depth, '>')) == AngleRun(lines, cells, t, k, depth)
  {
    hide LookAt, StepBy, Dyck.BackRun, F.Erase, Layout, Contiguous;
    if k == 0 {
    } else {
      Laid(lines, cells, t, k - 1);
      var c, look := t[k - 1], LookAt(lines[cells[k - 1].line], cells[k - 1].column);
      var st := F.Angles(depth, '>');
      StepAngles(c, look, depth);
      if IsCloser(c) {
        RunFrame(lines, cells, t, k - 1, st, [c]);
        JoinedIsPlain(lines, cells, t, k - 1, [c]);
        F.EraseOne(c, '>');
        var e := Dyck.BackRun(t, k - 1, [c]);
        if e.Some? {
          JoinedIsAngleRun(lines, cells, t, e.value, depth);
        }
      } else {
        var step := StepBy(c, look, st);
        if step.Go? {
          var d := if step.stack == st then depth
                   else if step.stack == F.Angles(depth + 1, '>') then depth + 1
                   else depth - 1;
          assert |F.Angles(depth + 1, '>')| == depth + 1;
          JoinedIsAngleRun(lines, cells, t, Back(k, step.skip), d);
        }
      }
    }
  }

  lemma Laid(lines: seq<string>, cells: seq<Spot>, t: string, k: nat)
    requires Layout(lines, cells, t) && k < |t|
    ensures |cells| == |t| && cells[k].line < |lines| && cells[k].column < |lines[cells[k].line]|
    ensures t[k] == lines[cells[k].line][cells[k].column]
  {
  }

  /** From a pushed '>', ReverseCloseExpression is the count of '>' with jumps over balanced groups of
      the joined text. */
  lemma OpenIsAngleRun(lines: seq<string>, l: nat, p: nat)
    requires l < |lines| && p < |lines[l]| && lines[l][p] == '>' && Pushed(lines[l], p)
    ensures Layout(lines, Cells(lines), Join(lines)) && Contiguous(Cells(lines)) && Start(lines, l) + p < |Join(lines)|
    ensures OnColumn(lines, Open(lines, l, p))
    ensures F.Offset(lines, Open(lines, l, p)) == AngleRun(lines, Cells(lines), Join(lines), Start(lines, l) + p, 1)
  {
    hide Open, RunJoined, AngleRun, Join, Cells, StepBy;
    OpenIsJoined(lines, l, p);
    LayoutJoin(lines);
    assert F.Angles(1, '>') == ">";
    JoinedIsAngleRun(lines, Cells(lines), Join(lines), Start(lines, l) + p, 1);
  }

  /** What a skip passes over. */
  lemma SkippedInside(lines: seq<string>, cells: seq<Spot>, t: string, k: nat)
    requires Layout(lines, cells, t) && Contiguous(cells) && k < |t|
    requires var look := LookAt(lines[cells[k].line], cells[k].column);
             (t[k] == '>' && look.ignored) || (t[k] == '<' && look.shift)
    ensures k > 0 && !IsBracket(t[k - 1]) && t[k - 1] != ';'
  {
    hide LookAt;
    var at := cells[k];
    assert StepAt(lines[at.line], at.column, "").skip;
    SkippedIsPlain(lines[at.line], at.column, "");
    assert cells[k - 1] == Spot(at.line, at.column - 1);
  }

  /** A successful count ends at a '<' before a balanced expression. */
  lemma {:induction false} AngleRunTree(lines: seq<string>, cells: seq<Spot>, t: string, k: nat, depth: nat)
    returns (b: Dyck.Tree)
    requires Layout(lines, cells, t) && Contiguous(cells) && k <= |t| && depth > 0
    requires AngleRun(lines, cells, t, k, depth).Some?
    ensures var m := AngleRun(lines, cells, t, k, depth).value;
            t[m] == '<' && Dyck.Derives(b, t, m + 1, k)
  {
    hide LookAt, Dyck.BackRun, Dyck.Group, Dyck.Derives, Layout, Contiguous;
    Laid(lines, cells, t, k - 1);
    var c, m := t[k - 1], AngleRun(lines, cells, t, k, depth).value;
    var look := LookAt(lines[cells[k - 1].line], cells[k - 1].column);
    if IsCloser(c) {
      var e := Dyck.BackRun(t, k - 1, [c]).value;
      Dyck.BackRunIsGroup(t, e, k - 1);
      b := AngleRunTree(lines, cells, t, e, depth);
      b := Dyck.GrowGroup(b, t, m + 1, e, k - 1);
    } else if (c == '>' && look.ignored) || (c == '<' && look.shift) {
      SkippedInside(lines, cells, t, k - 1);
      b := AngleRunTree(lines, cells, t, k - 2, depth);
      b := Dyck.GrowPlain(b, t, m + 1, k - 2);
      b := Dyck.GrowPlain(b, t, m + 1, k - 1);
    } else if c == '<' && depth == 1 {
      b := Dyck.Empty;
      assert Dyck.Derives(b, t, k, k) by { Dyck.DerivesNothing(t, k); }
    } else {
      var d := if c == '>' then depth + 1 else if c == '<' then depth - 1 else depth;
      b := AngleRunTree(lines, cells, t, k - 1, d);
      b := Dyck.GrowPlain(b, t, m + 1, k - 1);
    }
  }

  /** A pushed '>' that ReverseCloseExpression opens is opened by a '<', with balanced brackets and no
      top-level ';' between. */
  lemma OpenFromAngle(lines: seq<string>, l: nat, p: nat)
    requires l < |lines| && p < |lines[l]| && lines[l][p] == '>' && Pushed(lines[l], p) && Open(lines, l, p).Some?
    ensures var s := Open(lines, l, p).value;
            && s.line < |lines| && s.column < |lines[s.line]| && lines[s.line][s.column] == '<'
            && var a, b := Start(lines, s.line) + s.column, Start(lines, l) + p;
               a < b < |Join(lines)| && Dyck.BalancedExpression(Join(lines)[a + 1..b])
  {
    hide Open, AngleRun, Join, Cells, Pushed, Layout, Contiguous, Dyck.Derives, Dyck.BalancedExpression;
    OpenIsAngleRun(lines, l, p);
    var s, b := Open(lines, l, p).value, Start(lines, l) + p;
    var tree := AngleRunTree(lines, Cells(lines), Join(lines), b, 1);
    CellAt(lines, s);
    Dyck.DerivedExpression(tree, Join(lines), Start(lines, s.line) + s.column + 1, b);
  }

  // ---------------------------------------------------------------------------------------
  // The two directions together

  /** CloseExpression from a ( [ { ends past s exactly when s is a bracket from which
      ReverseCloseExpression returns the start. */
  lemma CloseAndOpenAreInverse(lines: seq<string>, from: Spot, to: Spot)
    requires from.line < |lines| && from.column < |lines[from.line]| && IsOpener(lines[from.line][from.column])
    requires to.line < |lines| && to.column < |lines[to.line]|
    ensures F.Close(lines, from.line, from.column) == Some(Spot(to.line, to.column + 1))
            <==> IsCloser(lines[to.line][to.column]) && Open(lines, to.line, to.column) == Some(from)
  {
    F.CloseIsGroup(lines, from.line, from.column, to);
    CellAt(lines, from);
    CellAt(lines, to);
    if IsCloser(lines[to.line][to.column]) {
      OpenIsGroup(lines, to.line, to.column, from);
    }
  }

  /** Every balanced group of the joined text is found from either end: the two searches are total on
      groups, and their results are the spots of the group's brackets. */
  lemma EveryGroupIsFound(lines: seq<string>, a: int, b: int)
    requires Dyck.Group(Join(lines), a, b)
    ensures 0 <= a < b < |Join(lines)| == |Cells(lines)|
    ensures var from, to := Cells(lines)[a], Cells(lines)[b];
            && from.line < |lines| && from.column < |lines[from.line]|
            && to.line < |lines| && to.column < |lines[to.line]|
            && F.Close(lines, from.line, from.column) == Some(Spot(to.line, to.column + 1))
            && Open(lines, to.line, to.column) == Some(from)
  {
    hide Dyck.Group, Join, Cells, F.Close, Open;
    var inner := Dyck.GroupTree(Join(lines), a, b);
    CellOffset(lines, a);
    CellOffset(lines, b);
    var from, to := Cells(lines)[a], Cells(lines)[b];
    CellAt(lines, from);
    CellAt(lines, to);
    F.CloseIsGroup(lines, from.line, from.column, to);
    OpenIsGroup(lines, to.line, to.column, from);
  }

  /** Every ) ] } that ReverseCloseExpression resolves leads to a ( [ { that CloseExpression takes
      back to it. */
  lemma OpenThenClose(lines: seq<string>, l: nat, p: nat)
    requires l < |lines| && p < |lines[l]| && IsCloser(lines[l][p]) && Open(lines, l, p).Some?
    ensures var s := Open(lines, l, p).value;
            && s.line < |lines| && s.column < |lines[s.line]| && Closes(lines[s.line][s.column], lines[l][p])
            && F.Close(lines, s.line, s.column) == Some(Spot(l, p + 1))
  {
    OpenIsRun(lines, l, p);
    var s := Open(lines, l, p).value;
    OpenIsGroup(lines, l, p, s);
    CellAt(lines, s);
    CellAt(lines, Spot(l, p));
    CloseAndOpenAreInverse(lines, s, Spot(l, p));
  }

  /** Every ( [ { that CloseExpression resolves is resolved back by ReverseCloseExpression from the
      character before the returned position. */
  lemma CloseThenOpen(lines: seq<string>, l: nat, p: nat)
    requires l < |lines| && p < |lines[l]| && IsOpener(lines[l][p]) && F.Close(lines, l, p).Some?
    ensures var s := F.Close(lines, l, p).value;
            && s.line < |lines| && 0 < s.column <= |lines[s.line]|
            && Closes(lines[l][p], lines[s.line][s.column - 1])
            && Open(lines, s.line, s.column - 1) == Some(Spot(l, p))
  {
    F.CloseIsRun(lines, l, p);
    var s := F.Close(lines, l, p).value;
    var to := Spot(s.line, s.column - 1);
    F.CloseIsGroup(lines, l, p, to);
    CellAt(lines, Spot(l, p));
    CellAt(lines, to);
    CloseAndOpenAreInverse(lines, Spot(l, p), to);
  }
}
