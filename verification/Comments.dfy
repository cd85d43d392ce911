/** RemoveMultiLineComments: an in-place pass that blanks the lines of multi-line comments. */
module Comments {
  import opened Lexical

  const BLANK := "/**/"

  /** What str.strip() removes from a unicode string. */
  predicate IsBlank(c: char) {
    var n := c as int;
    || 0x09 <= n <= 0x0D || 0x1C <= n <= 0x20 || n == 0x85 || n == 0xA0 || n == 0x1680 || n == 0x180E
    || 0x2000 <= n <= 0x200A || n == 0x2028 || n == 0x2029 || n == 0x202F || n == 0x205F || n == 0x3000
  }

  function Strip(s: string): string {
    if s != "" && IsBlank(s[0]) then Strip(s[1..])
    else if s != "" && IsBlank(Last(s)) then Strip(Init(s))
    else s
  }

  /** s.find("*" + "/", from) >= 0. */
  predicate HasCloser(s: string, from: nat)
    decreases |s| - from
  {
    from + 1 < |s| && ((s[from] == '*' && s[from + 1] == '/') || HasCloser(s, from + 1))
  }

  /** The line starts a comment that it does not close. */
  predicate Starts(line: string) {
    var s := Strip(line);
    |s| >= 2 && s[0] == '/' && s[1] == '*' && !HasCloser(s, 2)
  }

  predicate Ends(line: string) {
    var s := Strip(line);
    |s| >= 2 && s[|s| - 2] == '*' && s[|s| - 1] == '/'
  }

  // ---------------------------------------------------------------------------------------
  // The reference: a scan with two states

  /** After the first n lines: outside, or in the comment that began at a line. */
  function Within(lines: seq<string>, n: nat): (r: Option<nat>)
    requires n <= |lines|
    ensures r.Some? ==> r.value < n
  {
    if n == 0 then None
    else
      var line := lines[n - 1];
      match Within(lines, n - 1)
      case None => if Starts(line) && !Ends(line) then Some(n - 1) else None
      case Some(b) => if Ends(line) then None else Some(b)
  }

  /** Line i is in a comment. */
  predicate Covered(lines: seq<string>, i: nat)
    requires i < |lines|
  {
    Within(lines, i).Some? || Starts(lines[i])
  }

  /** The start of the comment that is never closed, or the number of lines. */
  function Unclosed(lines: seq<string>): (r: nat)
    ensures r <= |lines|
  {
    match Within(lines, |lines|)
    case None => |lines|
    case Some(b) => b
  }

  /** Comment lines before the unclosed comment are blanked; all others stay. */
  function Cleaned(lines: seq<string>): (r: seq<string>)
    ensures |r| == |lines|
  {
    seq(|lines|, i requires 0 <= i < |lines| =>
      if i < Unclosed(lines) && Covered(lines, i) then BLANK else lines[i])
  }

  // ---------------------------------------------------------------------------------------
  // The pass

  /** No line of a range starts a comment, or ends one. */
  ghost predicate NoStart(lines: seq<string>, from: nat, end: nat)
    requires end <= |lines|
  {
    forall i | from <= i < end :: !Starts(lines[i])
  }

  ghost predicate NoEnd(lines: seq<string>, from: nat, end: nat)
    requires end <= |lines|
  {
    forall i | from <= i < end :: !Ends(lines[i])
  }

  method FindNextMultiLineCommentStart(lines: array<string>, from: nat) returns (r: nat)
    requires from <= lines.Length
    ensures from <= r <= lines.Length
    ensures NoStart(lines[..], from, r)
    ensures r < lines.Length ==> Starts(lines[r])
  {
    r := from;
    while r < lines.Length
      invariant from <= r <= lines.Length
      invariant forall i | from <= i < r :: !Starts(lines[i])
    {
      if Starts(lines[r]) {
        return;
      }
      r := r + 1;
    }
  }

  method FindNextMultiLineCommentEnd(lines: array<string>, from: nat) returns (r: nat)
    requires from <= lines.Length
    ensures from <= r <= lines.Length
    ensures NoEnd(lines[..], from, r)
    ensures r < lines.Length ==> Ends(lines[r])
  {
    r := from;
    while r < lines.Length
      invariant from <= r <= lines.Length
      invariant forall i | from <= i < r :: !Ends(lines[i])
    {
      if Ends(lines[r]) {
        return;
      }
      r := r + 1;
    }
  }

  /** The lines of a range are dummy comments, the others as they were. */
  function Blanked(lines: seq<string>, begin: nat, end: nat): (r: seq<string>)
    ensures |r| == |lines| && forall i | 0 <= i < |lines| :: r[i] == if begin <= i < end then "/**/" else lines[i]
  {
    seq(|lines|, i requires 0 <= i < |lines| => if begin <= i < end then BLANK else lines[i])
  }

  method RemoveMultiLineCommentsFromRange(lines: array<string>, begin: nat, end: nat)
    requires begin <= end <= lines.Length
    modifies lines
    ensures lines[..] == Blanked(old(lines[..]), begin, end)
  {
    for i := begin to end
      invariant forall j | 0 <= j < lines.Length :: lines[j] == if begin <= j < i then BLANK else old(lines[j])
    {
      lines[i] := BLANK;
    }
  }

  /** What the pass leaves. */
  ghost predicate Removed(was: seq<string>, now: seq<string>, error: Option<nat>) {
    && now == Cleaned(was)
    && error == if Unclosed(was) == |was| then None else Some(Unclosed(was) + 1)
  }

  /** Returns the number of the line reported for an unclosed comment, counted from 1. */
  method RemoveMultiLineComments(lines: array<string>) returns (error: Option<nat>)
    modifies lines
    ensures Removed(old(lines[..]), lines[..], error)
  {
    ghost var was, now := lines[..], lines[..];
    var l := 0;
    hide *;
    NothingYet(was);
    while l < lines.Length
      invariant l <= lines.Length && Within(was, l) == None
      invariant now == lines[..] && CleanedUpTo(was, now, l)
    {
      var begin := FindNextMultiLineCommentStart(lines, l);
      if begin >= lines.Length {
        NoMoreStart(was, now, l);
        return None;
      }
      var end := FindNextMultiLineCommentEnd(lines, begin);
      if end >= lines.Length {
        NoMoreEnd(was, now, l, begin);
        return Some(begin + 1);
      }
      NextComment(was, now, l, begin, end);
      RemoveMultiLineCommentsFromRange(lines, begin, end + 1);
      now := Blanked(now, begin, end + 1);
      l := end + 1;
    }
    NothingMore(was, now);
    return None;
  }

  /** The pass is done with the first l lines of was and has not touched the others. */
  ghost predicate CleanedUpTo(was: seq<string>, now: seq<string>, l: nat)
    requires l <= |was|
  {
    && |now| == |was|
    && (forall i | 0 <= i < l :: now[i] == if Covered(was, i) then BLANK else was[i])
    && (forall i | l <= i < |was| :: now[i] == was[i])
  }

  lemma NothingYet(was: seq<string>)
    ensures Within(was, 0) == None && CleanedUpTo(was, was, 0)
  {
  }

  lemma OneComment(was: seq<string>, before: seq<string>, now: seq<string>, l: nat, begin: nat, end: nat)
    requires l <= begin <= end < |was| && CleanedUpTo(was, before, l)
    requires forall i | l <= i <= begin :: Within(was, i) == None
    requires forall i | l <= i < begin :: !Starts(was[i])
    requires Starts(was[begin]) && forall i | begin < i <= end :: Within(was, i) == Some(begin)
    requires now == Blanked(before, begin, end + 1)
    ensures CleanedUpTo(was, now, end + 1)
  {
    hide Starts, Ends, Within;
  }

  lemma NothingLeft(was: seq<string>, now: seq<string>, l: nat, unclosed: nat)
    requires l <= unclosed <= |was| && CleanedUpTo(was, now, l) && Unclosed(was) == unclosed
    requires forall i | l <= i <= unclosed :: Within(was, i) == None
    requires forall i | l <= i < unclosed :: !Starts(was[i])
    ensures now == Cleaned(was)
  {
    hide Starts, Ends, Within, Unclosed;
  }

  lemma NothingMore(was: seq<string>, now: seq<string>)
    requires CleanedUpTo(was, now, |was|) && Within(was, |was|) == None
    ensures Removed(was, now, None)
  {
    hide Starts, Ends;
  }

  lemma NoMoreStart(was: seq<string>, now: seq<string>, l: nat)
    requires l <= |was| == |now| && CleanedUpTo(was, now, l) && Within(was, l) == None && NoStart(now, l, |now|)
    ensures Removed(was, now, None)
  {
    hide Starts, Ends, Within, Unclosed, Cleaned;
    assert forall i | l <= i < |was| :: now[i] == was[i];
    OutsideUntil(was, l, |was|);
    NothingLeft(was, now, l, |was|);
  }

  lemma NoMoreEnd(was: seq<string>, now: seq<string>, l: nat, begin: nat)
    requires l <= begin < |was| == |now| && CleanedUpTo(was, now, l) && Within(was, l) == None
    requires NoStart(now, l, begin) && Starts(now[begin]) && NoEnd(now, begin, |now|)
    ensures Removed(was, now, Some(begin + 1))
  {
    hide Starts, Ends, Within, Unclosed, Cleaned;
    assert forall i | l <= i < |was| :: now[i] == was[i];
    OutsideUntil(was, l, begin);
    InsideUntil(was, begin, |was|);
    NothingLeft(was, now, l, begin);
  }

  lemma NextComment(was: seq<string>, now: seq<string>, l: nat, begin: nat, end: nat)
    requires l <= begin <= end < |was| == |now| && CleanedUpTo(was, now, l) && Within(was, l) == None
    requires NoStart(now, l, begin) && Starts(now[begin]) && NoEnd(now, begin, end) && Ends(now[end])
    ensures Within(was, end + 1) == None && CleanedUpTo(was, Blanked(now, begin, end + 1), end + 1)
  {
    hide Starts, Ends, Within;
    assert forall i | l <= i < |was| :: now[i] == was[i];
    OutsideUntil(was, l, begin);
    InsideUntil(was, begin, end);
    OneComment(was, now, Blanked(now, begin, end + 1), l, begin, end);
  }

  /** Without a start, the scan stays outside. */
  lemma {:induction false} OutsideUntil(lines: seq<string>, l: nat, n: nat)
    requires l <= n <= |lines| && Within(lines, l) == None
    requires forall i | l <= i < n :: !Starts(lines[i])
    ensures forall i | l <= i <= n :: Within(lines, i) == None
    ensures n == |lines| ==> Unclosed(lines) == |lines|
    decreases n - l
  {
    hide Starts, Ends;
    if l == n {
    } else {
      assert Within(lines, l + 1) == None;
      OutsideUntil(lines, l + 1, n);
    }
  }

  /** Without an end, the scan stays in the comment. */
  lemma {:induction false} InsideUntil(lines: seq<string>, begin: nat, n: nat)
    requires begin <= n <= |lines| && begin < |lines| && Within(lines, begin) == None && Starts(lines[begin])
    requires forall i | begin <= i < n :: !Ends(lines[i])
    ensures forall i | begin < i <= n :: Within(lines, i) == Some(begin)
    ensures n < |lines| && Ends(lines[n]) ==> Within(lines, n + 1) == None
    ensures n == |lines| ==> Unclosed(lines) == begin
    decreases n
  {
    hide Starts, Ends;
    if n == begin {
    } else {
      InsideUntil(lines, begin, n - 1);
      assert !Ends(lines[n - 1]);
      assert Within(lines, n) == Some(begin);
    }
  }

  // ---------------------------------------------------------------------------------------
  // A second pass

  /** The comment open after n lines began at a start, outside, and did not end since. */
  lemma {:induction false} WithinBegins(lines: seq<string>, n: nat)
    requires n <= |lines| && Within(lines, n).Some?
    ensures var b := Within(lines, n).value;
            && Within(lines, b) == None && Starts(lines[b]) && (forall i | b <= i < n :: !Ends(lines[i]))
  {
    hide Starts, Ends;
    if Within(lines, n - 1).Some? {
      WithinBegins(lines, n - 1);
    }
  }

  lemma BlankNeverStarts()
    ensures !Starts(BLANK)
  {
    assert Strip(BLANK) == BLANK;
    assert HasCloser(BLANK, 2);
  }

  /** Up to the unclosed comment nothing starts in the cleaned lines. */
  lemma {:induction false} CleanedOutside(lines: seq<string>, n: nat)
    requires n <= Unclosed(lines)
    ensures Within(Cleaned(lines), n) == None
  {
    hide Starts, Ends, Unclosed;
    BlankNeverStarts();
    if n == 0 {
    } else {
      CleanedOutside(lines, n - 1);
      assert Cleaned(lines)[n - 1] == if Covered(lines, n - 1) then BLANK else lines[n - 1];
    }
  }

  lemma {:induction false} CloserIsFound(s: string, k: nat)
    requires k + 2 <= |s| && s[|s| - 2] == '*' && s[|s| - 1] == '/'
    ensures HasCloser(s, k)
    decreases |s| - k
  {
    if k + 2 == |s| {
    } else {
      CloserIsFound(s, k + 1);
    }
  }

  /** The one line that starts a comment and also ends it: the star counts for both. */
  lemma StartsAndEnds(line: string)
    ensures Starts(line) && Ends(line) <==> Strip(line) == "/*/"
  {
    var s := Strip(line);
    if |s| >= 4 && Ends(line) {
      CloserIsFound(s, 2);
    }
  }

  /** A comment that starts is closed on its own line if and only if that line is slash, star, slash. */
  lemma OneLineComment(lines: seq<string>, i: nat)
    requires i < |lines| && Within(lines, i) == None && Starts(lines[i])
    ensures Within(lines, i + 1) == None <==> Strip(lines[i]) == "/*/"
  {
    hide Starts, Ends, Strip;
    StartsAndEnds(lines[i]);
  }

  /** Such a line therefore hides itself alone: the text of the comment and its end stay. */
  lemma TextIsLeft(x: string)
    requires !Starts(x)
    ensures Cleaned(["/*/", x, "*/"]) == ["/**/", x, "*/"]
  {
    hide Starts, Ends, Strip;
    var lines := ["/*/", x, "*/"];
    SlashStarSlash();
    assert Within(lines, 0) == None;
    assert Within(lines, 1) == None;
    assert Within(lines, 2) == None;
    assert Within(lines, 3) == None;
    assert Covered(lines, 0) && !Covered(lines, 1) && !Covered(lines, 2);
  }

  lemma SlashStarSlash()
    ensures Starts("/*/") && Ends("/*/") && !Starts("*/")
  {
    assert Strip("/*/") == "/*/" && Strip("*/") == "*/";
    StartsAndEnds("/*/");
  }

  /** A second pass reports the same and changes nothing. */
  lemma CleanedTwice(lines: seq<string>)
    ensures Unclosed(Cleaned(lines)) == Unclosed(lines) && Cleaned(Cleaned(lines)) == Cleaned(lines)
  {
    var c, u := Cleaned(lines), Unclosed(lines);
    CleanedOutside(lines, u);
    if u < |lines| {
      WithinBegins(lines, |lines|);
      assert forall i | u <= i < |lines| :: c[i] == lines[i];
      InsideUntil(c, u, |lines|);
    }
    BlankNeverStarts();
    forall i | 0 <= i < u
      ensures Covered(c, i) ==> c[i] == BLANK
    {
      CleanedOutside(lines, i);
    }
  }

  /** Lines change only to the dummy comment, and those are the comment lines before the unclosed one. */
  lemma CleanedIs(lines: seq<string>, i: nat)
    requires i < |lines|
    ensures Cleaned(lines)[i] == if i < Unclosed(lines) && Covered(lines, i) then "/**/" else lines[i]
  {
    hide Unclosed, Covered;
  }

  /** A line is in a comment when, of the lines up to it, one starts a comment and none after that start, or
      at it, ends it; the start is outside any other comment. */
  lemma CoveredMeans(lines: seq<string>, i: nat)
    requires i < |lines|
    ensures Covered(lines, i) <==>
              exists b: nat :: b <= i && Reaches(lines, b, i)
  {
    hide Starts, Ends, Within, Reaches;
    if Within(lines, i).Some? {
      WithinBegins(lines, i);
      IsReached(lines, Within(lines, i).value, i);
    } else if Starts(lines[i]) {
      IsReached(lines, i, i);
    }
    if b: nat :| b <= i && Reaches(lines, b, i) {
      ReachedIsCovered(lines, b, i);
    }
  }

  /** A comment that starts at b, outside any other, goes on up to line i. */
  ghost predicate Reaches(lines: seq<string>, b: nat, i: nat)
    requires b <= i < |lines|
  {
    Within(lines, b) == None && Starts(lines[b]) && forall j | b <= j < i :: !Ends(lines[j])
  }

  lemma IsReached(lines: seq<string>, b: nat, i: nat)
    requires b <= i < |lines| && Within(lines, b) == None && Starts(lines[b])
    requires forall j | b <= j < i :: !Ends(lines[j])
    ensures Reaches(lines, b, i)
  {
  }

  lemma ReachedIsCovered(lines: seq<string>, b: nat, i: nat)
    requires b <= i < |lines| && Reaches(lines, b, i)
    ensures Covered(lines, i)
  {
    hide Starts, Ends, Within;
    InsideUntil(lines, b, i);
    assert b < i ==> Within(lines, i) == Some(b);
  }

  /** The unclosed comment starts outside any other, and no line from there on ends one; without one, the scan
      is outside at the end. */
  lemma UnclosedMeans(lines: seq<string>)
    ensures var u := Unclosed(lines);
            && Within(lines, u) == None
            && (u < |lines| ==> Starts(lines[u]) && forall j | u <= j < |lines| :: !Ends(lines[j]))
  {
    if Within(lines, |lines|).Some? {
      WithinBegins(lines, |lines|);
    }
  }

  // ---------------------------------------------------------------------------------------
  // Starts and ends in plain words

  ghost predicate AllBlank(s: string) {
    forall c | c in s :: IsBlank(c)
  }

  /** Of the ASCII characters: the space, the five control characters from tab to return, and the four
      information separators. */
  lemma Blanks(c: char)
    requires c as int < 128
    ensures IsBlank(c)
            <==> c in [' ', '\t', '\n', '\r']
                 || c in [11 as char, 12 as char, 28 as char, 29 as char, 30 as char, 31 as char]
  {
  }

  ghost predicate Bare(s: string) {
    s == "" || (!IsBlank(s[0]) && !IsBlank(Last(s)))
  }

  lemma {:induction false} StripSplits(line: string) returns (a: string, b: string)
    ensures line == a + Strip(line) + b && AllBlank(a) && AllBlank(b) && Bare(Strip(line))
    decreases |line|
  {
    hide IsBlank;
    if line != "" && IsBlank(line[0]) {
      a, b := StripSplits(line[1..]);
      a := [line[0]] + a;
      assert line == [line[0]] + line[1..];
    } else if line != "" && IsBlank(Last(line)) {
      a, b := StripSplits(Init(line));
      b := b + [Last(line)];
      assert line == Init(line) + [Last(line)];
    } else {
      a, b := "", "";
    }
  }

  lemma {:induction false} StripAt(a: string, s: string, b: string)
    requires AllBlank(a) && AllBlank(b) && Bare(s)
    ensures Strip(a + s + b) == s
    decreases |a| + |b|
  {
    hide IsBlank;
    var line := a + s + b;
    if a != "" {
      assert line[0] == a[0] && a[0] in a && line[1..] == a[1..] + s + b;
      assert forall c | c in a[1..] :: c in a;
      StripAt(a[1..], s, b);
    } else if b != "" && s != "" {
      assert line[0] == s[0] && Last(line) == Last(b) && Last(b) in b && Init(line) == a + s + Init(b);
      assert forall c | c in Init(b) :: c in b;
      StripAt(a, s, Init(b));
    } else if b != "" {
      assert line == b && b[0] in b;
      assert line[1..] == a + s + b[1..];
      assert forall c | c in b[1..] :: c in b;
      StripAt(a, s, b[1..]);
    } else {
      assert line == s;
    }
  }

  /** The closing mark stands somewhere in s from a position on. */
  lemma {:induction false} HasCloserMeans(s: string, from: nat)
    ensures HasCloser(s, from) <==> exists k :: from <= k < |s| - 1 && s[k] == '*' && s[k + 1] == '/'
    decreases |s| - from
  {
    if from + 1 < |s| {
      HasCloserMeans(s, from + 1);
    }
  }

  ghost predicate Closing(s: string) {
    exists k :: 0 <= k < |s| - 1 && s[k] == '*' && s[k + 1] == '/'
  }

  ghost predicate StartsWith(line: string, a: string, y: string) {
    AllBlank(a) && line == a + "/*" + y && !Closing(y)
  }

  ghost predicate EndsWith(line: string, x: string, b: string) {
    AllBlank(b) && line == x + "*/" + b
  }

  /** A line starts a comment when, after white space, it opens one and does not close it. */
  lemma StartsMeans(line: string)
    ensures Starts(line) <==> exists a, y :: StartsWith(line, a, y)
  {
    hide IsBlank, Strip, HasCloser, StartsWith;
    if Starts(line) {
      var a, b := StripSplits(line);
      var s := Strip(line);
      assert s == "/*" + s[2..];
      assert line == a + "/*" + (s[2..] + b);
      NoCloser(s, b);
      assert StartsWith(line, a, s[2..] + b) by { WrittenStart(line, a, s[2..] + b); }
    }
    if a, y :| StartsWith(line, a, y) {
      StartIsWritten(line, a, y);
    }
  }

  lemma WrittenStart(line: string, a: string, y: string)
    requires AllBlank(a) && line == a + "/*" + y && !Closing(y)
    ensures StartsWith(line, a, y)
  {
  }

  lemma BlankFront(c: string, rest: string)
    requires AllBlank(c) && c != ""
    ensures IsBlank((c + rest)[0])
  {
    assert c[0] in c;
  }

  lemma BlankBack(rest: string, b: string, k: nat)
    requires AllBlank(b) && |rest| <= k < |rest + b|
    ensures IsBlank((rest + b)[k])
  {
    assert b[k - |rest|] in b;
  }

  lemma BlankSecond(s: string, b: string)
    requires AllBlank(b) && |s| < 2 <= |s + b|
    ensures IsBlank((s + b)[1])
  {
    BlankBack(s, b, 1);
  }

  lemma NoCloser(s: string, b: string)
    requires |s| >= 2 && !HasCloser(s, 2) && AllBlank(b) && Bare(s)
    ensures !Closing(s[2..] + b)
  {
    hide HasCloser, IsBlank;
    HasCloserMeans(s, 2);
    NotBlank();
    var y := s[2..] + b;
    forall k | 0 <= k < |y| - 1
      ensures !(y[k] == '*' && y[k + 1] == '/')
    {
      if k + 1 < |s| - 2 {
        assert y[k] == s[k + 2] && y[k + 1] == s[k + 2 + 1];
      } else {
        BlankBack(s[2..], b, k + 1);
      }
    }
  }

  lemma StartIsWritten(line: string, a: string, y: string)
    requires StartsWith(line, a, y)
    ensures Starts(line)
  {
    hide IsBlank, Strip, HasCloser, Closing;
    var t := "/*" + y;
    NotBlank();
    var c, b := StripSplits(t);
    var s := Strip(t);
    assert t[0] == '/' && t[1] == '*';
    Associate(c, s, b);
    if c != "" {
      BlankFront(c, s + b);
    }
    assert t == s + b;
    if |s| < 2 {
      BlankSecond(s, b);
    }
    StartOfStripped(s, b, y);
    assert line == a + t && a + t == a + s + b;
    StripAt(a, s, b);
  }

  lemma StartOfStripped(s: string, b: string, y: string)
    requires |s| >= 2 && "/*" + y == s + b && !Closing(y)
    ensures s[0] == '/' && s[1] == '*' && !HasCloser(s, 2)
  {
    hide HasCloser;
    var t := "/*" + y;
    assert s[0] == t[0] && s[1] == t[1];
    HasCloserMeans(s, 2);
    forall k | 2 <= k < |s| - 1
      ensures !(s[k] == '*' && s[k + 1] == '/')
    {
      assert t[k] == y[k - 2] && t[k + 1] == y[k - 2 + 1];
    }
  }

  lemma NotBlank()
    ensures !IsBlank('/') && !IsBlank('*')
  {
  }

  /** A line ends a comment when, before white space, it closes one. */
  lemma EndsMeans(line: string)
    ensures Ends(line) <==> exists x, b :: EndsWith(line, x, b)
  {
    hide IsBlank, Strip;
    if Ends(line) {
      var a, b := StripSplits(line);
      var s := Strip(line);
      assert s == s[..|s| - 2] + "*/";
      assert line == (a + s[..|s| - 2]) + "*/" + b;
      assert EndsWith(line, a + s[..|s| - 2], b);
    }
    if x, b :| EndsWith(line, x, b) {
      EndIsWritten(line, x, b);
    }
  }

  lemma EndIsWritten(line: string, x: string, b: string)
    requires EndsWith(line, x, b)
    ensures Ends(line)
  {
    hide IsBlank, Strip;
    var t := x + "*/";
    NotBlank();
    var a, c := StripSplits(t);
    var s := Strip(t);
    assert t[|t| - 1] == '/' && t[|t| - 2] == '*';
    if c != "" {
      BlankBack(a + s, c, |t| - 1);
    }
    assert t == a + s;
    if |s| < 2 {
      BlankAt(a, s, |t| - 2);
    }
    assert s[|s| - 1] == t[|t| - 1] && s[|s| - 2] == t[|t| - 2];
    assert line == t + b && t + b == a + s + b;
    StripAt(a, s, b);
  }

  lemma BlankAt(a: string, s: string, k: nat)
    requires AllBlank(a) && k < |a|
    ensures IsBlank((a + s)[k])
  {
    assert a[k] in a;
  }
}
