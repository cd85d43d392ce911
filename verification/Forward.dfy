/** FindEndOfExpressionInLine and CloseExpression: the forward bracket matcher, which carries a
    stack from line to line and holds each '<' as a bracket until later text disproves it. */
module Forward {
  import opened Lexical
  import opened Lines
  import Dyck

  /** What one character does to the stack. */
  datatype Step = Go(stack: string) | Done | Lost

  /** What one line does: the end was found, the search failed, or the stack goes on. */
  datatype Scan = Found(end: nat) | Failed | Carry(stack: string)

  function DropTop(stack: string, angle: char): string {
    if stack != "" && Last(stack) == angle then DropTop(Init(stack), angle) else stack
  }

  /** What the look-back on the current line says about a character: `shift` for a '<' after a
      '<', `op` for a '<' after the word operator, `arrow` for a '>' to be ignored. */
  datatype Look = Look(shift: bool, op: bool, arrow: bool)

  function LookAt(line: string, i: nat): Look
    requires i < |line|
  {
    if i == 0 then Look(false, false, false)
    else Look(line[i - 1] == '<',
              OperatorBefore(line[..i]),
              line[i - 1] == '-' || OperatorBefore(line[..i - 1]))
  }

  function StepBy(c: char, look: Look, stack: string): Step {
    if IsOpener(c) then Go(stack + [c])
    else if c == '<' then
      if look.shift then
        if stack == "" || Last(stack) != '<' then Go(stack)
        else if |stack| == 1 then Lost
        else Go(Init(stack))
      else if look.op then Go(stack)
      else Go(stack + "<")
    else if IsCloser(c) then
      var s := DropTop(stack, '<');
      if s == "" || !Closes(Last(s), c) then Lost
      else if |s| == 1 then Done
      else Go(Init(s))
    else if c == '>' then
      if look.arrow then Go(stack)
      else if stack == "" || Last(stack) != '<' then Go(stack)
      else if |stack| == 1 then Done
      else Go(Init(stack))
    else if c == ';' then
      var s := DropTop(stack, '<');
      if s == "" then Lost else Go(s)
    else Go(stack)
  }

  function StepAt(line: string, i: nat, stack: string): Step
    requires i < |line|
  {
    StepBy(line[i], LookAt(line, i), stack)
  }

  function ScanLine(line: string, i: nat, stack: string): Scan
    requires i <= |line|
    decreases |line| - i
  {
    if i == |line| then Carry(stack)
    else match StepAt(line, i, stack)
      case Go(s) => ScanLine(line, i + 1, s)
      case Done => Found(i + 1)
      case Lost => Failed
  }

  /** Goes on with line l while the stack is not empty. */
  function ScanFrom(lines: seq<string>, l: nat, stack: string): Option<Spot>
    decreases |lines| - l
  {
    if stack == "" || l >= |lines| then None
    else match ScanLine(lines[l], 0, stack)
      case Found(e) => Some(Spot(l, e))
      case Failed => None
      case Carry(s) => ScanFrom(lines, l + 1, s)
  }

  /** The first test of CloseExpression: a bracket that does not start `<<` or `<=`. */
  predicate Candidate(line: string, p: nat)
    requires p < |line|
  {
    IsOpener(line[p])
    || (line[p] == '<' && !(p + 1 < |line| && (line[p + 1] == '<' || line[p + 1] == '=')))
  }

  function Close(lines: seq<string>, l: nat, p: nat): Option<Spot>
    requires l < |lines| && p < |lines[l]|
  {
    if !Candidate(lines[l], p) then None
    else match ScanLine(lines[l], p, "")
      case Found(e) => Some(Spot(l, e))
      case Failed => None
      case Carry(s) => ScanFrom(lines, l + 1, s)
  }

  method FindEndOfExpressionInLine(line: string, startpos: nat, initial: string)
    returns (end: int, carry: Option<string>)
    requires startpos <= |line|
    ensures match ScanLine(line, startpos, initial)
            case Found(e) => end == e && carry == None
            case Failed => end == -1 && carry == None
            case Carry(s) => end == -1 && carry == Some(s)
  {
    var stack := initial;
    for i := startpos to |line|
      invariant ScanLine(line, startpos, initial) == ScanLine(line, i, stack)
    {
      var c := line[i];
      if IsOpener(c) {
        stack := stack + [c];
      } else if c == '<' {
        if i > 0 && line[i - 1] == '<' {
          if stack != "" && Last(stack) == '<' {
            stack := Init(stack);
            if stack == "" {
              return -1, None;
            }
          }
        } else if i > 0 && OperatorBefore(line[..i]) {
          continue;
        } else {
          stack := stack + "<";
        }
      } else if IsCloser(c) {
        stack := PopWhile(stack, '<');
        if stack == "" {
          return -1, None;
        }
        if Closes(Last(stack), c) {
          stack := Init(stack);
          if stack == "" {
            return i + 1, None;
          }
        } else {
          return -1, None;
        }
      } else if c == '>' {
        if i > 0 && (line[i - 1] == '-' || OperatorBefore(line[..i - 1])) {
          continue;
        }
        if stack != "" && Last(stack) == '<' {
          stack := Init(stack);
          if stack == "" {
            return i + 1, None;
          }
        }
      } else if c == ';' {
        stack := PopWhile(stack, '<');
        if stack == "" {
          return -1, None;
        }
      }
    }
    return -1, Some(stack);
  }

  /** The inner loop `while stack and stack[-1] == angle: stack.pop()`. */
  method PopWhile(initial: string, angle: char) returns (stack: string)
    ensures stack == DropTop(initial, angle)
  {
    stack := initial;
    while stack != "" && Last(stack) == angle
      invariant DropTop(stack, angle) == DropTop(initial, angle)
      decreases |stack|
    {
      stack := Init(stack);
    }
  }

  /** Returns the line holding the end, its number and the position past the end; or the number
      of lines and -1. */
  method CloseExpression(lines: seq<string>, linenum: nat, pos: nat)
    returns (line: string, endLine: nat, endPos: int)
    requires linenum < |lines| && pos < |lines[linenum]|
    ensures match Close(lines, linenum, pos)
            case Some(s) => endLine == s.line < |lines| && line == lines[endLine] && endPos == s.column
            case None => endLine == |lines| && endPos == -1
  {
    line := lines[linenum];
    if !Candidate(line, pos) {
      return line, |lines|, -1;
    }
    var end, carry := FindEndOfExpressionInLine(line, pos, "");
    if end > -1 {
      return line, linenum, end;
    }
    var l := linenum;
    while carry.Some? && carry.value != "" && l < |lines| - 1
      invariant linenum <= l < |lines|
      invariant Close(lines, linenum, pos) == if carry.None? then None else ScanFrom(lines, l + 1, carry.value)
      decreases |lines| - l
    {
      l := l + 1;
      line := lines[l];
      end, carry := FindEndOfExpressionInLine(line, 0, carry.value);
      if end > -1 {
        return line, l, end;
      }
    }
    return line, |lines|, -1;
  }

  // ---------------------------------------------------------------------------------------
  // Line by line against the joined text

  /** The matcher run once over the joined text, whose characters lie at cells; only its look-back
      is cut at line starts. The result is the offset past the end. */
  function RunJoined(lines: seq<string>, cells: seq<Spot>, k: nat, stack: string): (r: Option<nat>)
    requires k <= |cells|
    requires forall j | 0 <= j < |cells| :: cells[j].line < |lines| && cells[j].column < |lines[cells[j].line]|
    ensures r.Some? ==> k < r.value <= |cells|
    decreases |cells| - k
  {
    if k == |cells| then None
    else match StepAt(lines[cells[k].line], cells[k].column, stack)
      case Go(s) => RunJoined(lines, cells, k + 1, s)
      case Done => Some(k + 1)
      case Lost => None
  }

  /** The bracket at p is put on the stack, not taken for an operator. */
  predicate Pushed(line: string, p: nat)
    requires p < |line|
  {
    StepAt(line, p, "") == Go([line[p]])
  }

  lemma StepNonempty(c: char, look: Look, stack: string)
    requires stack != ""
    ensures var s := StepBy(c, look, stack); s.Go? ==> s.stack != ""
  {
  }

  lemma {:induction false} LineIsJoined(lines: seq<string>, cells: seq<Spot>, text: string,
                                        l: nat, k: nat, i: nat, stack: string)
    requires Layout(lines, cells, text) && l < |lines| && Row(cells, l, k, |lines[l]|)
    requires i <= |lines[l]| && stack != ""
    ensures var r := RunJoined(lines, cells, k + i, stack);
            match ScanLine(lines[l], i, stack)
            case Found(e) => i < e <= |lines[l]| && r == Some(k + e)
            case Failed => r == None
            case Carry(s) => s != "" && r == RunJoined(lines, cells, k + |lines[l]|, s)
    decreases |lines[l]| - i
  {
    hide LookAt, StepBy;
    if i == |lines[l]| {
    } else {
      assert cells[k + i] == Spot(l, i);
      StepNonempty(lines[l][i], LookAt(lines[l], i), stack);
      var step := StepAt(lines[l], i, stack);
      if step.Go? {
        LineIsJoined(lines, cells, text, l, k, i + 1, step.stack);
      }
    }
  }

  /** A spot past the first column of some line. */
  ghost predicate PastColumn(lines: seq<string>, s: Option<Spot>) {
    s.Some? ==> s.value.line < |lines| && 0 < s.value.column <= |lines[s.value.line]|
  }

  /** The offset of an optional spot. */
  function Offset(lines: seq<string>, s: Option<Spot>): Option<nat>
    requires s.Some? ==> s.value.line < |lines|
  {
    if s.None? then None else Some(Start(lines, s.value.line) + s.value.column)
  }

  lemma {:induction false} CarriedIsJoined(lines: seq<string>, l: nat, stack: string)
    requires l <= |lines| && stack != ""
    ensures var s := ScanFrom(lines, l, stack);
            && Layout(lines, Cells(lines), Join(lines)) && Start(lines, l) <= |Cells(lines)|
            && PastColumn(lines, s)
            && Offset(lines, s) == RunJoined(lines, Cells(lines), Start(lines, l), stack)
    decreases |lines| - l
  {
    hide StepAt, ScanLine, Cells, Layout, Row;
    LayoutJoin(lines);
    if l < |lines| {
      RowAt(lines, l);
      LineIsJoined(lines, Cells(lines), Join(lines), l, Start(lines, l), 0, stack);
      var scan := ScanLine(lines[l], 0, stack);
      if scan.Carry? {
        CarriedIsJoined(lines, l + 1, scan.stack);
      }
    } else {
      assert lines[..l] == lines;
    }
  }

  /** Matching line by line with a carried stack is matching once over the joined text. */
  lemma CloseIsJoined(lines: seq<string>, l: nat, p: nat)
    requires l < |lines| && p < |lines[l]| && Candidate(lines[l], p) && Pushed(lines[l], p)
    ensures Layout(lines, Cells(lines), Join(lines)) && Start(lines, l) + p < |Cells(lines)|
    ensures var s := Close(lines, l, p);
            && PastColumn(lines, s)
            && Offset(lines, s) == RunJoined(lines, Cells(lines), Start(lines, l) + p + 1, [lines[l][p]])
  {
    hide StepAt, ScanLine, ScanFrom, RunJoined, Cells, Join;
    LayoutJoin(lines);
    RowAt(lines, l);
    var stack := [lines[l][p]];
    LineIsJoined(lines, Cells(lines), Join(lines), l, Start(lines, l), p + 1, stack);
    ClosePushed(lines, l, p);
    var scan := ScanLine(lines[l], p + 1, stack);
    if scan.Carry? {
      CarriedIsJoined(lines, l + 1, scan.stack);
    }
  }

  lemma ClosePushed(lines: seq<string>, l: nat, p: nat)
    requires l < |lines| && p < |lines[l]| && Candidate(lines[l], p) && Pushed(lines[l], p)
    ensures Close(lines, l, p) == match ScanLine(lines[l], p + 1, [lines[l][p]])
                                  case Found(e) => Some(Spot(l, e))
                                  case Failed => None
                                  case Carry(s) => ScanFrom(lines, l + 1, s)
  {
  }

  // ---------------------------------------------------------------------------------------
  // Angle brackets and statements never change the answer for ( [ {

  function Erase(stack: string, angle: char): string {
    if stack == "" then ""
    else if Last(stack) == angle then Erase(Init(stack), angle)
    else Erase(Init(stack), angle) + [Last(stack)]
  }

  lemma {:induction false} ErasePush(stack: string, c: char, angle: char)
    ensures Erase(stack + [c], angle) == Erase(stack, angle) + if c == angle then "" else [c]
  {
    assert Init(stack + [c]) == stack;
  }

  lemma {:induction false} EraseDrop(stack: string, angle: char)
    ensures var s := DropTop(stack, angle);
            && Erase(s, angle) == Erase(stack, angle)
            && (s == "" <==> Erase(stack, angle) == "")
            && (s != "" ==> s[0] == stack[0] && Last(s) != angle && Last(s) == Last(Erase(stack, angle))
                            && Erase(Init(s), angle) == Init(Erase(stack, angle)))
    decreases |stack|
  {
    if stack != "" && Last(stack) == angle {
      EraseDrop(Init(stack), angle);
    } else if stack != "" {
      assert Init(Erase(stack, angle)) == Erase(Init(stack), angle);
    }
  }

  lemma {:induction false} EraseBottom(stack: string, angle: char)
    requires stack != "" && stack[0] != angle
    ensures Erase(stack, angle) != "" && Erase(stack, angle)[0] == stack[0]
    decreases |stack|
  {
    if |stack| <= 1 {
    } else {
      EraseBottom(Init(stack), angle);
    }
  }

  lemma StepOpener(c: char, look: Look, stack: string)
    requires IsOpener(c)
    ensures StepBy(c, look, stack) == Go(stack + [c]) && Erase(stack + [c], '<') == Erase(stack, '<') + [c]
  {
    ErasePush(stack, c, '<');
  }

  /** A closing bracket meets the top of the erased stack. */
  lemma StepCloser(c: char, look: Look, stack: string)
    requires IsCloser(c) && stack != ""
    ensures var e := Erase(stack, '<');
            match StepBy(c, look, stack)
            case Lost => e == "" || !Closes(Last(e), c)
            case Done => |e| == 1 && Closes(Last(e), c) && stack[0] != '<'
            case Go(s) => e != "" && Closes(Last(e), c) && Erase(s, '<') == Init(e) && s != "" && s[0] == stack[0]
  {
    hide DropTop;
    EraseDrop(stack, '<');
    var s := DropTop(stack, '<');
    if s != "" && |s| == 1 {
      assert Init(s) == "";
    }
  }

  /** No other character touches the erased stack; only a bare '>' on a lone '<' ends a search. */
  lemma StepOther(c: char, look: Look, stack: string)
    requires !IsBracket(c) && stack != ""
    ensures var e := Erase(stack, '<');
            match StepBy(c, look, stack)
            case Lost => e == "" && stack[0] == '<'
            case Done => e == "" && stack[0] == '<' && c == '>'
            case Go(s) => Erase(s, '<') == e && s != "" && s[0] == stack[0] && (e == "" ==> c != ';')
  {
    hide DropTop;
    if stack[0] != '<' {
      EraseBottom(stack, '<');
    }
    if c == ';' {
      EraseDrop(stack, '<');
    } else if c == '<' && !look.shift {
      ErasePush(stack, '<', '<');
    } else if |stack| == 1 {
      assert Init(stack) == "";
    }
  }

  lemma EraseOne(c: char, angle: char)
    requires c != angle
    ensures Erase([c], angle) == [c]
  {
    assert Init([c]) == "";
  }

  /** With its '<' entries erased, a stack on a bracket moves as the plain matcher's. */
  lemma StepIsPlain(c: char, look: Look, stack: string)
    requires stack != "" && stack[0] != '<'
    ensures match StepBy(c, look, stack)
            case Go(s) => s != "" && s[0] == stack[0] && Dyck.Step(c, Erase(stack, '<')) == Some(Erase(s, '<'))
            case Done => Dyck.Step(c, Erase(stack, '<')) == Some("")
            case Lost => Dyck.Step(c, Erase(stack, '<')) == None
  {
    EraseBottom(stack, '<');
    if IsOpener(c) {
      StepOpener(c, look, stack);
    } else if IsCloser(c) {
      StepCloser(c, look, stack);
    } else {
      StepOther(c, look, stack);
    }
  }

  lemma {:induction false} JoinedIsPlain(lines: seq<string>, cells: seq<Spot>, text: string, k: nat, stack: string)
    requires Layout(lines, cells, text) && k <= |text| && stack != "" && stack[0] != '<'
    ensures Erase(stack, '<') != ""
    ensures RunJoined(lines, cells, k, stack) == Dyck.Run(text, k, Erase(stack, '<'))
    decreases |text| - k
  {
    EraseBottom(stack, '<');
    if k == |text| {
    } else {
      var look := LookAt(lines[cells[k].line], cells[k].column);
      StepIsPlain(text[k], look, stack);
      var step := StepBy(text[k], look, stack);
      if step.Go? {
        EraseBottom(step.stack, '<');
        JoinedIsPlain(lines, cells, text, k + 1, step.stack);
      }
    }
  }

  /** From a ( [ {, CloseExpression succeeds exactly on a balanced group of the joined text,
      whatever '<', '>', "<<", "->", `operator` and ';' it holds. */
  lemma CloseIsGroup(lines: seq<string>, l: nat, p: nat, s: Spot)
    requires l < |lines| && p < |lines[l]| && IsOpener(lines[l][p])
    requires s.line < |lines| && s.column < |lines[s.line]|
    ensures Close(lines, l, p) == Some(Spot(s.line, s.column + 1))
            <==> Dyck.Group(Join(lines), Start(lines, l) + p, Start(lines, s.line) + s.column)
  {
    hide Close, Dyck.Run, Dyck.Group, Join, Cells;
    var a, e := Start(lines, l) + p, Start(lines, s.line) + s.column + 1;
    CloseIsRun(lines, l, p);
    CellAt(lines, Spot(l, p));
    CellAt(lines, s);
    Dyck.RunIsGroup(Join(lines), a, e);
    var found := Close(lines, l, p);
    if found.Some? {
      CellAt(lines, Spot(found.value.line, found.value.column - 1));
    }
  }

  lemma CloseIsRun(lines: seq<string>, l: nat, p: nat)
    requires l < |lines| && p < |lines[l]| && IsOpener(lines[l][p])
    ensures Start(lines, l) + p < |Join(lines)| && PastColumn(lines, Close(lines, l, p))
    ensures Offset(lines, Close(lines, l, p)) == Dyck.Run(Join(lines), Start(lines, l) + p + 1, [lines[l][p]])
  {
    CloseIsJoined(lines, l, p);
    EraseOne(lines[l][p], '<');
    hide Close, RunJoined, Dyck.Run, Join, Cells, Erase;
    JoinedIsPlain(lines, Cells(lines), Join(lines), Start(lines, l) + p + 1, [lines[l][p]]);
  }

  /** A failed search means that no balanced group starts there. */
  lemma CloseFails(lines: seq<string>, l: nat, p: nat)
    requires l < |lines| && p < |lines[l]| && IsOpener(lines[l][p])
    ensures Close(lines, l, p) == None <==> !Dyck.Opens(Join(lines), Start(lines, l) + p)
  {
    hide Close, Dyck.Run, Dyck.Group, Join, Cells;
    var a, t := Start(lines, l) + p, Join(lines);
    CloseIsRun(lines, l, p);
    CellAt(lines, Spot(l, p));
    if Close(lines, l, p).Some? {
      Dyck.RunIsGroup(t, a, Offset(lines, Close(lines, l, p)).value);
    } else if Dyck.Opens(t, a) {
      var b :| Dyck.Group(t, a, b);
      var inner := Dyck.GroupTree(t, a, b);
      Dyck.RunIsGroup(t, a, b + 1);
    }
  }

  // ---------------------------------------------------------------------------------------
  // A start at '<'

  /** The simple form of a search that starts at a pushed '<': a count of open '<' and, at each
      ( [ {, a jump over its balanced group. */
  function AngleRun(lines: seq<string>, cells: seq<Spot>, t: string, k: nat, depth: nat): Option<nat>
    requires Layout(lines, cells, t) && k <= |t| && depth > 0
    decreases |t| - k
  {
    if k == |t| then None
    else
      var c, look := t[k], LookAt(lines[cells[k].line], cells[k].column);
      if IsOpener(c) then
        var e := Dyck.Run(t, k + 1, [c]);
        if e.None? then None else AngleRun(lines, cells, t, e.value, depth)
      else if IsCloser(c) || c == ';' then None
      else if c == '<' && look.shift then
        if depth == 1 then None else AngleRun(lines, cells, t, k + 1, depth - 1)
      else if c == '<' && !look.op then AngleRun(lines, cells, t, k + 1, depth + 1)
      else if c == '>' && !look.arrow then
        if depth == 1 then Some(k + 1) else AngleRun(lines, cells, t, k + 1, depth - 1)
      else AngleRun(lines, cells, t, k + 1, depth)
  }

  lemma {:induction false} DropFrame(base: string, top: string, angle: char)
    requires top != "" && top[0] != angle
    ensures DropTop(base + top, angle) == base + DropTop(top, angle) && DropTop(top, angle) != ""
    decreases |top|
  {
    assert Last(base + top) == Last(top) && Init(base + top) == base + Init(top);
    if Last(top) == angle {
      DropFrame(base, Init(top), angle);
    }
  }

  /** What lies below a bracket on the stack has no say until that bracket is gone. */
  lemma StepFrame(c: char, look: Look, base: string, top: string)
    requires base != "" && top != "" && top[0] != '<'
    ensures StepBy(c, look, base + top) == match StepBy(c, look, top)
                                           case Go(s) => Go(base + s)
                                           case Done => Go(base)
                                           case Lost => Lost
  {
    hide DropTop;
    DropFrame(base, top, '<');
    var s := DropTop(top, '<');
    assert Last(base + top) == Last(top) && Init(base + top) == base + Init(top);
    assert Last(base + s) == Last(s) && Init(base + s) == base + Init(s);
    assert base + (top + [c]) == (base + top) + [c];
    assert base + "" == base;
  }

  lemma StepBottom(c: char, look: Look, stack: string)
    requires stack != "" && stack[0] != '<'
    ensures var step := StepBy(c, look, stack); step.Go? ==> step.stack != "" && step.stack[0] == stack[0]
  {
    StepIsPlain(c, look, stack);
  }

  lemma {:induction false} RunFrame(lines: seq<string>, cells: seq<Spot>, t: string, k: nat, base: string, top: string)
    requires Layout(lines, cells, t) && k <= |t| && base != "" && top != "" && top[0] != '<'
    ensures RunJoined(lines, cells, k, base + top) == match RunJoined(lines, cells, k, top)
                                                      case None => None
                                                      case Some(e) => RunJoined(lines, cells, e, base)
    decreases |t| - k
  {
    hide LookAt, StepBy;
    if k == |t| {
    } else {
      var look := LookAt(lines[cells[k].line], cells[k].column);
      StepFrame(t[k], look, base, top);
      StepBottom(t[k], look, top);
      var step := StepBy(t[k], look, top);
      if step.Go? {
        RunFrame(lines, cells, t, k + 1, base, step.stack);
      }
    }
  }

  function Angles(depth: nat, angle: char): string {
    seq(depth, _ => angle)
  }

  lemma {:induction false} DropAngles(depth: nat, angle: char)
    ensures DropTop(Angles(depth, angle), angle) == ""
  {
    if depth == 0 {
    } else {
      assert Init(Angles(depth, angle)) == Angles(depth - 1, angle);
      DropAngles(depth - 1, angle);
    }
  }

  /** One character on a stack of nothing but '<'. */
  lemma StepAngles(c: char, look: Look, depth: nat)
    requires depth > 0
    ensures var st := Angles(depth, '<');
            StepBy(c, look, st) ==
            if IsOpener(c) then Go(st + [c])
            else if IsCloser(c) || c == ';' then Lost
            else if c == '<' && look.shift then (if depth == 1 then Lost else Go(Angles(depth - 1, '<')))
            else if c == '<' && !look.op then Go(Angles(depth + 1, '<'))
            else if c == '>' && !look.arrow then (if depth == 1 then Done else Go(Angles(depth - 1, '<')))
            else Go(st)
  {
    hide DropTop;
    DropAngles(depth, '<');
    assert Init(Angles(depth, '<')) == Angles(depth - 1, '<') && Angles(depth, '<') + "<" == Angles(depth + 1, '<');
  }

  /** The stack matcher on open '<' is the count with jumps. */
  lemma {:induction false} JoinedIsAngleRun(lines: seq<string>, cells: seq<Spot>, t: string, k: nat, depth: nat)
    requires Layout(lines, cells, t) && k <= |t| && depth > 0
    ensures RunJoined(lines, cells, k, Angles(depth, '<')) == AngleRun(lines, cells, t, k, depth)
    decreases |t| - k
  {
    hide LookAt, StepBy, Dyck.Run, Erase;
    if k == |t| {
    } else {
      var c, look := t[k], LookAt(lines[cells[k].line], cells[k].column);
      var st := Angles(depth, '<');
      StepAngles(c, look, depth);
      if IsOpener(c) {
        RunFrame(lines, cells, t, k + 1, st, [c]);
        JoinedIsPlain(lines, cells, t, k + 1, [c]);
        EraseOne(c, '<');
        var e := Dyck.Run(t, k + 1, [c]);
        if e.Some? {
          JoinedIsAngleRun(lines, cells, t, e.value, depth);
        }
      } else {
        var step := StepBy(c, look, st);
        if step.Go? {
          var d := if step.stack == st then depth
                   else if step.stack == Angles(depth + 1, '<') then depth + 1
                   else depth - 1;
          assert |Angles(depth + 1, '<')| == depth + 1;
          JoinedIsAngleRun(lines, cells, t, k + 1, d);
        }
      }
    }
  }

  /** From a pushed '<', CloseExpression is the count of '<' with jumps over balanced groups of the
      joined text. */
  lemma CloseIsAngleRun(lines: seq<string>, l: nat, p: nat)
    requires l < |lines| && p < |lines[l]| && lines[l][p] == '<' && Candidate(lines[l], p) && Pushed(lines[l], p)
    ensures Layout(lines, Cells(lines), Join(lines)) && Start(lines, l) + p < |Join(lines)|
    ensures PastColumn(lines, Close(lines, l, p))
    ensures Offset(lines, Close(lines, l, p))
            == AngleRun(lines, Cells(lines), Join(lines), Start(lines, l) + p + 1, 1)
  {
    hide Close, RunJoined, AngleRun, Join, Cells, StepBy;
    CloseIsJoined(lines, l, p);
    assert Angles(1, '<') == "<";
    JoinedIsAngleRun(lines, Cells(lines), Join(lines), Start(lines, l) + p + 1, 1);
  }

  /** A successful count ends at a '>' after a balanced expression. */
  lemma {:induction false} AngleRunTree(lines: seq<string>, cells: seq<Spot>, t: string, k: nat, depth: nat)
    returns (b: Dyck.Tree)
    requires Layout(lines, cells, t) && k <= |t| && depth > 0 && AngleRun(lines, cells, t, k, depth).Some?
    ensures var m := AngleRun(lines, cells, t, k, depth).value - 1;
            && k <= m < |t| && t[m] == '>'
            && b.Valid() && b.At(t, k) && b.Size() == m - k && b.NoTopSemicolon()
    decreases |t| - k
  {
    hide LookAt, Dyck.Run, Dyck.Group;
    var c := t[k];
    if IsOpener(c) {
      var e := Dyck.Run(t, k + 1, [c]).value;
      Dyck.RunIsGroup(t, k, e);
      var inner := Dyck.GroupTree(t, k, e - 1);
      var rest := AngleRunTree(lines, cells, t, e, depth);
      b := Dyck.Nest(c, inner, t[e - 1], rest);
    } else {
      var look := LookAt(lines[cells[k].line], cells[k].column);
      if c == '>' && !look.arrow && depth == 1 {
        b := Dyck.Empty;
      } else {
        var d := if (c == '<' && look.shift) || (c == '>' && !look.arrow) then depth - 1
                 else if c == '<' && !look.op then depth + 1
                 else depth;
        var rest := AngleRunTree(lines, cells, t, k + 1, d);
        b := Dyck.Plain(c, rest);
      }
    }
  }

  /** A pushed '<' that CloseExpression closes is closed by a '>', with balanced brackets and no
      top-level ';' between. */
  lemma CloseFromAngle(lines: seq<string>, l: nat, p: nat)
    requires l < |lines| && p < |lines[l]| && lines[l][p] == '<'
    requires Candidate(lines[l], p) && Pushed(lines[l], p) && Close(lines, l, p).Some?
    ensures var s := Close(lines, l, p).value;
            && s.line < |lines| && 0 < s.column <= |lines[s.line]| && lines[s.line][s.column - 1] == '>'
            && var a, b := Start(lines, l) + p, Start(lines, s.line) + s.column - 1;
               a < b < |Join(lines)| && Dyck.BalancedExpression(Join(lines)[a + 1..b])
  {
    hide Close, AngleRun, Join, Cells, Pushed, Candidate;
    CloseIsAngleRun(lines, l, p);
    var s, a := Close(lines, l, p).value, Start(lines, l) + p;
    var b := AngleRunTree(lines, Cells(lines), Join(lines), a + 1, 1);
    CellAt(lines, Spot(s.line, s.column - 1));
    b.AtIsYield(Join(lines), a + 1);
  }
}
