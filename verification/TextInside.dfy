/** _GetTextInside: a second matcher, which stacks the closing brackets it expects. */
module TextInside {
  import opened Lexical
  import Dyck
  import Lines
  import F = Forward

  function CloserOf(open: char): char {
    if open == '(' then ')' else if open == '{' then '}' else ']'
  }

  /** The position past the bracket that empties the stack of expected closers. */
  function Scan(text: string, position: nat, expected: string): (r: Option<nat>)
    requires position <= |text|
    ensures r.Some? ==> position <= r.value <= |text| && (expected != "" ==> position < r.value)
    decreases |text| - position
  {
    if expected == "" then Some(position)
    else if position == |text| then None
    else
      var c := text[position];
      if c == Last(expected) then Scan(text, position + 1, Init(expected))
      else if IsCloser(c) then None
      else if IsOpener(c) then Scan(text, position + 1, expected + [CloserOf(c)])
      else Scan(text, position + 1, expected)
  }

  /** The text between the bracket before start and the bracket that closes it. */
  function Inside(text: string, start: nat): Option<string>
    requires 0 < start <= |text|
  {
    match Scan(text, start, [CloserOf(text[start - 1])])
    case None => None
    case Some(end) => Some(text[start..end - 1])
  }

  /** What a call does: an assertion fails, or it returns a text or None. */
  datatype Result = Raised | Returned(inside: Option<string>)

  /** matched is where the search for the start pattern ended, if it found one. */
  method GetTextInside(text: string, matched: Option<nat>) returns (r: Result)
    requires matched.Some? ==> matched.value <= |text|
    ensures r == match matched
                 case None => Returned(None)
                 case Some(start) =>
                   if start > 0 && IsOpener(text[start - 1]) then Returned(Inside(text, start)) else Raised
  {
    if matched.None? {
      return Returned(None);
    }
    var start := matched.value;
    if start == 0 || !IsOpener(text[start - 1]) {
      return Raised;
    }
    var stack, position := [CloserOf(text[start - 1])], start;
    while stack != "" && position < |text|
      invariant start <= position <= |text| && (stack == "" ==> start < position)
      invariant Scan(text, position, stack) == Scan(text, start, [CloserOf(text[start - 1])])
      decreases |text| - position
    {
      if text[position] == Last(stack) {
        stack := Init(stack);
      } else if IsCloser(text[position]) {
        return Returned(None);
      } else if IsOpener(text[position]) {
        stack := stack + [CloserOf(text[position])];
      }
      position := position + 1;
    }
    if stack != "" {
      return Returned(None);
    }
    return Returned(Some(text[start..position - 1]));
  }

  /** The expected closers of a stack of openers. */
  ghost predicate Expects(openers: string, expected: string) {
    && |openers| == |expected|
    && forall i | 0 <= i < |openers| :: IsOpener(openers[i]) && expected[i] == CloserOf(openers[i])
  }

  lemma {:induction false} ScanIsRun(text: string, k: nat, openers: string, expected: string)
    requires k <= |text| && openers != "" && Expects(openers, expected)
    ensures Scan(text, k, expected) == Dyck.Run(text, k, openers)
    decreases |text| - k
  {
    if k == |text| {
    } else {
      var c := text[k];
      assert Closes(Last(openers), c) <==> c == Last(expected);
      if IsOpener(c) {
        ScanIsRun(text, k + 1, openers + [c], expected + [CloserOf(c)]);
      } else if IsCloser(c) {
        if c == Last(expected) && |openers| > 1 {
          ScanIsRun(text, k + 1, Init(openers), Init(expected));
        }
      } else {
        ScanIsRun(text, k + 1, openers, expected);
      }
    }
  }

  /** From the same ( [ {, this matcher and FindEndOfExpressionInLine succeed together, and the text
      returned is what lies between the bracket and the returned end. */
  lemma AgreesWithFindEnd(text: string, p: nat)
    requires p < |text| && IsOpener(text[p])
    ensures match F.ScanLine(text, p, "")
            case Found(e) => p + 1 < e <= |text| && Inside(text, p + 1) == Some(text[p + 1..e - 1])
            case _ => Inside(text, p + 1) == None
  {
    CloseOneLine(text, p);
    ScanIsRun(text, p + 1, [text[p]], [CloserOf(text[p])]);
  }

  lemma CloseOneLine(text: string, p: nat)
    requires p < |text| && IsOpener(text[p])
    ensures Dyck.Run(text, p + 1, [text[p]]) == match F.ScanLine(text, p, "")
                                                case Found(e) => Some(e)
                                                case _ => None
  {
    hide F.ScanLine, Dyck.Run;
    var lines := [text];
    F.CloseIsRun(lines, 0, p);
    assert Init(lines) == [] && Lines.Join([]) == "" && Lines.Join(lines) == text;
    assert lines[..0] == [];
  }
}
