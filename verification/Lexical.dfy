/** Character classes, string helpers and the look-back tests that cpplint.py writes as
    regular expressions. */
module Lexical {

  datatype Option<+T> = None | Some(value: T)

  /** `\s` without re.UNICODE: space and the five control characters from tab to return. */
  predicate IsSpace(c: char) {
    c == ' ' || 9 <= c as int <= 13
  }

  /** `\w` without re.UNICODE. */
  predicate IsWord(c: char) {
    'a' <= c <= 'z' || 'A' <= c <= 'Z' || '0' <= c <= '9' || c == '_'
  }

  predicate IsOpener(c: char) {
    c == '(' || c == '[' || c == '{'
  }

  predicate IsCloser(c: char) {
    c == ')' || c == ']' || c == '}'
  }

  predicate IsBracket(c: char) {
    IsOpener(c) || IsCloser(c)
  }

  predicate Closes(open: char, close: char) {
    (open == '(' && close == ')') || (open == '[' && close == ']') || (open == '{' && close == '}')
  }

  function Last<T>(s: seq<T>): T
    requires s != []
  {
    s[|s| - 1]
  }

  function Init<T>(s: seq<T>): seq<T>
    requires s != []
  {
    s[..|s| - 1]
  }

  lemma Associate<T>(x: seq<T>, y: seq<T>, z: seq<T>)
    ensures x + (y + z) == (x + y) + z
  {
  }

  function TrimEnd(s: string): string {
    if s != "" && IsSpace(Last(s)) then TrimEnd(Init(s)) else s
  }

  /** Search(r'\boperator\s*$', s). */
  predicate OperatorBefore(s: string) {
    var t := TrimEnd(s);
    |t| >= 8 && t[|t| - 8..] == "operator" && (|t| == 8 || !IsWord(t[|t| - 9]))
  }

  /** Match(r'\s>=\s', line[i - 1:]) for a position i > 0. */
  predicate SpacedGreaterEqual(line: string, i: nat)
    requires 0 < i < |line|
  {
    i + 2 < |line| && IsSpace(line[i - 1]) && line[i] == '>' && line[i + 1] == '=' && IsSpace(line[i + 2])
  }

  /** The text before an `operator` match ends in a space or in the keyword's own last letter. */
  lemma OperatorEnd(s: string)
    requires OperatorBefore(s)
    ensures s != "" && (Last(s) == 'r' || IsSpace(Last(s)))
  {
    var t := TrimEnd(s);
    if t == s {
      assert Last(s) == t[|t| - 8..][7];
    }
  }

  // ---------------------------------------------------------------------------------------
  // The same in plain words

  /** The character classes, written out. */
  lemma Classes(c: char)
    ensures IsSpace(c) <==> c in [' ', '\t', '\n', '\r', 11 as char, 12 as char]
    ensures var n := c as int; IsWord(c) <==> 48 <= n <= 57 || 65 <= n <= 90 || 97 <= n <= 122 || n == 95
    ensures (IsOpener(c) <==> c in "([{") && (IsCloser(c) <==> c in ")]}")
  {
  }

  lemma Pairs(open: char, close: char)
    ensures Closes(open, close) <==> [open, close] in ["()", "[]", "{}"]
  {
    assert [open, close][0] == open && [open, close][1] == close;
  }

  ghost predicate AllSpace(s: string) {
    forall c | c in s :: IsSpace(c)
  }

  /** The text ends in the whole word operator and white space. */
  ghost predicate AfterOperator(s: string) {
    exists x, space :: AllSpace(space) && s == x + "operator" + space && (x == "" || !IsWord(Last(x)))
  }

  lemma {:induction false} TrimEndAt(s: string, space: string)
    requires AllSpace(space) && (s == "" || !IsSpace(Last(s)))
    ensures TrimEnd(s + space) == s
    decreases |space|
  {
    if space == "" {
      assert s + space == s;
    } else {
      assert Init(s + space) == s + Init(space) && Last(s + space) == Last(space) && Last(space) in space;
      assert forall c | c in Init(space) :: c in space;
      TrimEndAt(s, Init(space));
    }
  }

  lemma {:induction false} TrimEndSplits(s: string) returns (space: string)
    ensures AllSpace(space) && s == TrimEnd(s) + space
    decreases |s|
  {
    space := "";
    if s != "" && IsSpace(Last(s)) {
      space := TrimEndSplits(Init(s));
      space := space + [Last(s)];
      assert s == Init(s) + [Last(s)];
    }
  }

  lemma OperatorBeforeForm(s: string)
    ensures OperatorBefore(s) <==> AfterOperator(s)
  {
    hide OperatorBefore, TrimEnd, IsSpace, IsWord;
    if OperatorBefore(s) {
      OperatorSplits(s);
    }
    if x, space :| AllSpace(space) && s == x + "operator" + space && (x == "" || !IsWord(Last(x))) {
      OperatorAt(x, space);
    }
  }

  lemma OperatorSplits(s: string)
    requires OperatorBefore(s)
    ensures AfterOperator(s)
  {
    hide TrimEnd, IsWord, AllSpace;
    var space := TrimEndSplits(s);
    var t := TrimEnd(s);
    var x := t[..|t| - 8];
    assert t == x + "operator";
    assert x != "" ==> Last(x) == t[|t| - 9];
    assert s == x + "operator" + space;
  }

  lemma OperatorAt(x: string, space: string)
    requires AllSpace(space) && (x == "" || !IsWord(Last(x)))
    ensures OperatorBefore(x + "operator" + space)
  {
    hide TrimEnd, IsWord;
    var t := x + "operator";
    assert Last(t) == 'r';
    TrimEndAt(t, space);
    assert t[|t| - 8..] == "operator";
  }

  lemma SpacedForm(line: string, i: nat)
    requires 0 < i < |line|
    ensures SpacedGreaterEqual(line, i)
            <==> i + 2 < |line| && IsSpace(line[i - 1]) && line[i..i + 2] == ">=" && IsSpace(line[i + 2])
  {
    if i + 2 < |line| {
      assert line[i..i + 2] == [line[i], line[i + 1]];
      assert ">="[0] == '>' && ">="[1] == '=';
    }
  }
}
