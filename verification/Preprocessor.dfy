/** NestingState and its preprocessor checkpoints: text under #else and #elif never reaches the
    nesting stack. The rest of Update is an arbitrary deterministic step on the stack. */
module Preprocessor {
  import opened Lexical

  // ---------------------------------------------------------------------------------------
  // Directives

  datatype Directive = If | Else | Endif | Text

  function TrimStart(s: string): string {
    if s != "" && IsSpace(s[0]) then TrimStart(s[1..]) else s
  }

  /** The longest prefix of word characters. */
  function Word(s: string): string {
    if s != "" && IsWord(s[0]) then [s[0]] + Word(s[1..]) else ""
  }

  function KeywordOf(word: string): Directive {
    if word == "if" || word == "ifdef" || word == "ifndef" then If
    else if word == "else" || word == "elif" then Else
    else if word == "endif" then Endif
    else Text
  }

  /** The three patterns `^\s*#\s*(...)\b`. */
  function DirectiveOf(line: string): Directive {
    var s := TrimStart(line);
    if s == "" || s[0] != '#' then Text else KeywordOf(Word(TrimStart(s[1..])))
  }

  lemma {:induction false} TrimStartAt(space: string, s: string)
    requires forall c | c in space :: IsSpace(c)
    requires s == "" || !IsSpace(s[0])
    ensures TrimStart(space + s) == s
    decreases |space|
  {
    if space == "" {
      assert space + s == s;
    } else {
      assert (space + s)[1..] == space[1..] + s && space[0] in space;
      assert forall c | c in space[1..] :: c in space;
      TrimStartAt(space[1..], s);
    }
  }

  lemma {:induction false} WordAt(word: string, s: string)
    requires forall c | c in word :: IsWord(c)
    requires s == "" || !IsWord(s[0])
    ensures Word(word + s) == word
    decreases |word|
  {
    if word == "" {
      assert word + s == s;
    } else {
      assert (word + s)[1..] == word[1..] + s && word[0] in word;
      assert forall c | c in word[1..] :: c in word;
      WordAt(word[1..], s);
      assert word == [word[0]] + word[1..];
    }
  }

  /** A line is the directive of its keyword when it is white space, a hash, white space, the keyword,
      and no further word character. */
  lemma DirectiveForm(indent: string, gap: string, word: string, tail: string)
    requires forall c | c in indent + gap :: IsSpace(c)
    requires word != "" && forall c | c in word :: IsWord(c)
    requires tail == "" || !IsWord(tail[0])
    ensures DirectiveOf(indent + "#" + gap + word + tail) == KeywordOf(word)
  {
    hide KeywordOf;
    var rest := gap + (word + tail);
    assert indent + "#" + gap + word + tail == indent + (['#'] + rest);
    assert (['#'] + rest)[1..] == rest && word[0] in word;
    assert forall c | c in indent :: c in indent + gap;
    assert forall c | c in gap :: c in indent + gap;
    TrimStartAt(indent, ['#'] + rest);
    TrimStartAt(gap, word + tail);
    WordAt(word, tail);
  }

  lemma {:induction false} TrimStartSplits(s: string) returns (space: string)
    ensures s == space + TrimStart(s) && forall c | c in space :: IsSpace(c)
    ensures TrimStart(s) == "" || !IsSpace(TrimStart(s)[0])
    decreases |s|
  {
    space := "";
    if s != "" && IsSpace(s[0]) {
      space := TrimStartSplits(s[1..]);
      space := [s[0]] + space;
      assert s == [s[0]] + s[1..];
    }
  }

  lemma {:induction false} WordSplits(s: string) returns (tail: string)
    ensures s == Word(s) + tail && (tail == "" || !IsWord(tail[0])) && forall c | c in Word(s) :: IsWord(c)
    decreases |s|
  {
    hide IsWord;
    tail := s;
    if s != "" && IsWord(s[0]) {
      tail := WordSplits(s[1..]);
      Associate([s[0]], Word(s[1..]), tail);
      assert s == [s[0]] + s[1..];
    }
  }

  /** Every line that is not text has that form. */
  lemma DirectiveHasForm(line: string) returns (indent: string, gap: string, word: string, tail: string)
    requires DirectiveOf(line) != Text
    ensures line == indent + "#" + gap + word + tail && KeywordOf(word) == DirectiveOf(line)
    ensures (forall c | c in indent + gap :: IsSpace(c)) && (forall c | c in word :: IsWord(c))
    ensures tail == "" || !IsWord(tail[0])
  {
    hide KeywordOf, TrimStart, Word;
    indent := TrimStartSplits(line);
    var s := TrimStart(line)[1..];
    gap := TrimStartSplits(s);
    word := Word(TrimStart(s));
    tail := WordSplits(TrimStart(s));
    assert TrimStart(line) == "#" + s;
    Associate(gap, word, tail);
    Associate(indent, "#", s);
    Associate(indent + "#", gap, word + tail);
    Associate(indent + "#" + gap, word, tail);
  }

  // ---------------------------------------------------------------------------------------
  // The state on values. V is what a block on the nesting stack holds.

  datatype Checkpoint<V> = Checkpoint(beforeIf: seq<V>, beforeElse: seq<V>, seenElse: bool)

  datatype State<V> = State(stack: seq<V>, pp: seq<Checkpoint<V>>)

  /** UpdatePreprocessor. */
  function Preprocess<V>(s: State<V>, d: Directive): State<V> {
    match d
    case If => s.(pp := s.pp + [Checkpoint(s.stack, [], false)])
    case Else =>
      if s.pp == [] then s
      else
        var top := Last(s.pp);
        var marked := if top.seenElse then top else Checkpoint(top.beforeIf, s.stack, true);
        State(top.beforeIf, Init(s.pp) + [marked])
    case Endif =>
      if s.pp == [] then s
      else
        var top := Last(s.pp);
        State(if top.seenElse then top.beforeElse else s.stack, Init(s.pp))
    case Text => s
  }

  /** What the rest of Update makes of the stack at a line of a fixed file. */
  type Rest<!V> = (nat, seq<V>) -> seq<V>

  function Update<V>(s: State<V>, line: string, n: nat, rest: Rest<V>): State<V> {
    var t := Preprocess(s, DirectiveOf(line));
    t.(stack := rest(n, t.stack))
  }

  /** Update on each line from number n on. */
  function Run<V>(s: State<V>, lines: seq<string>, n: nat, rest: Rest<V>): State<V>
    decreases |lines|
  {
    if lines == [] then s else Run(Update(s, lines[0], n, rest), lines[1..], n + 1, rest)
  }

  // ---------------------------------------------------------------------------------------
  // The reference: which lines count at all

  predicate Live(seen: seq<bool>) {
    true !in seen
  }

  /** The conditionals open after a line; an entry tells whether its #else was seen. */
  function Track(seen: seq<bool>, d: Directive): seq<bool> {
    match d
    case If => seen + [false]
    case Else => if seen == [] then [] else Init(seen) + [true]
    case Endif => if seen == [] then [] else Init(seen)
    case Text => seen
  }

  /** The numbers of the lines outside every #else and #elif branch: #if lines, first branches and
      #endif lines of conditionals that are themselves outside. */
  function Kept(seen: seq<bool>, lines: seq<string>, n: nat): seq<nat>
    decreases |lines|
  {
    if lines == [] then []
    else
      var next := Track(seen, DirectiveOf(lines[0]));
      (if Live(next) then [n] else []) + Kept(next, lines[1..], n + 1)
  }

  function Steps<V>(stack: seq<V>, numbers: seq<nat>, rest: Rest<V>): seq<V>
    decreases |numbers|
  {
    if numbers == [] then stack else Steps(rest(numbers[0], stack), numbers[1..], rest)
  }

  /** The conditionals open at the end. */
  function Open(seen: seq<bool>, lines: seq<string>): seq<bool>
    decreases |lines|
  {
    if lines == [] then seen else Open(Track(seen, DirectiveOf(lines[0])), lines[1..])
  }

  /** No #else or #endif belongs to a conditional opened before the lines. */
  predicate Inner(seen: seq<bool>, lines: seq<string>)
    decreases |lines|
  {
    lines == [] ||
    (var d := DirectiveOf(lines[0]);
     (seen == [] ==> d != Else && d != Endif) && Inner(Track(seen, d), lines[1..]))
  }

  /** Every #if has its #endif and every #else its #if. */
  predicate WellNested(lines: seq<string>) {
    Inner([], lines) && Open([], lines) == []
  }

  // ---------------------------------------------------------------------------------------
  // The proof

  /** One checkpoint for each open conditional; the reference stack is the current one, or what
      the outermost seen #else put away. */
  ghost predicate Related<V(!new)>(s: State<V>, seen: seq<bool>, reference: seq<V>) {
    && |s.pp| == |seen|
    && (forall i | 0 <= i < |seen| :: s.pp[i].seenElse == seen[i])
    && (Live(seen) ==> s.stack == reference)
    && (forall i | 0 <= i < |seen| && seen[i] && Live(seen[..i]) :: s.pp[i].beforeElse == reference)
  }

  lemma PreprocessRelated<V(!new)>(s: State<V>, seen: seq<bool>, reference: seq<V>, d: Directive)
    requires Related(s, seen, reference)
    ensures Related(Preprocess(s, d), Track(seen, d), reference)
  {
    match d
    case If =>
      forall i | 0 <= i < |seen|
        ensures (seen + [false])[..i] == seen[..i]
      {
      }
    case Else =>
      if seen != [] {
        ElseRelated(s, seen, reference);
      }
    case Endif =>
      if seen != [] {
        EndifRelated(s, seen, reference);
      }
    case Text =>
  }

  lemma ElseRelated<V(!new)>(s: State<V>, seen: seq<bool>, reference: seq<V>)
    requires Related(s, seen, reference) && seen != []
    ensures Related(Preprocess(s, Else), Init(seen) + [true], reference)
  {
    var next, m := Init(seen) + [true], |seen| - 1;
    assert next[m] in next;
    assert seen == seen[..m] + [seen[m]];
    forall i | 0 <= i <= m
      ensures next[..i] == seen[..i]
    {
    }
  }

  lemma EndifRelated<V(!new)>(s: State<V>, seen: seq<bool>, reference: seq<V>)
    requires Related(s, seen, reference) && seen != []
    ensures Related(Preprocess(s, Endif), Init(seen), reference)
  {
    var next, m := Init(seen), |seen| - 1;
    assert seen[..m] == next && seen == next + [seen[m]];
    forall i | 0 <= i < m
      ensures next[..i] == seen[..i]
    {
    }
  }

  lemma UpdateRelated<V(!new)>(s: State<V>, seen: seq<bool>, reference: seq<V>, line: string, n: nat, rest: Rest<V>)
    requires Related(s, seen, reference)
    ensures var next := Track(seen, DirectiveOf(line));
            Related(Update(s, line, n, rest), next, if Live(next) then rest(n, reference) else reference)
  {
    hide DirectiveOf;
    PreprocessRelated(s, seen, reference, DirectiveOf(line));
    var next, t := Track(seen, DirectiveOf(line)), Preprocess(s, DirectiveOf(line));
    forall i | 0 <= i < |next| && next[i] && Live(next[..i])
      ensures !Live(next)
    {
      assert next[i] in next;
    }
  }

  lemma {:induction false} RunRelated<V(!new)>(s: State<V>, seen: seq<bool>, reference: seq<V>,
                                               lines: seq<string>, n: nat, rest: Rest<V>)
    requires Related(s, seen, reference)
    ensures Related(Run(s, lines, n, rest), Open(seen, lines), Steps(reference, Kept(seen, lines, n), rest))
    decreases |lines|
  {
    hide DirectiveOf, Related;
    if lines == [] {
    } else {
      var next := Track(seen, DirectiveOf(lines[0]));
      UpdateRelated(s, seen, reference, lines[0], n, rest);
      var reference' := if Live(next) then rest(n, reference) else reference;
      RunRelated(Update(s, lines[0], n, rest), next, reference', lines[1..], n + 1, rest);
      if Live(next) {
        assert Kept(seen, lines, n)[0] == n && Kept(seen, lines, n)[1..] == Kept(next, lines[1..], n + 1);
      } else {
        assert Kept(seen, lines, n) == Kept(next, lines[1..], n + 1);
      }
    }
  }

  /** Lines that only close what they open do not see the checkpoints below. */
  lemma {:induction false} RunFrame<V(!new)>(base: seq<Checkpoint<V>>, s: State<V>, seen: seq<bool>,
                                             lines: seq<string>, n: nat, rest: Rest<V>)
    requires Inner(seen, lines) && |s.pp| == |seen|
    ensures var r := Run(s, lines, n, rest);
            && Run(State(s.stack, base + s.pp), lines, n, rest) == State(r.stack, base + r.pp)
            && |r.pp| == |Open(seen, lines)|
    decreases |lines|
  {
    hide DirectiveOf;
    if lines == [] {
    } else {
      var d := DirectiveOf(lines[0]);
      if s.pp != [] {
        assert Init(base + s.pp) == base + Init(s.pp) && Last(base + s.pp) == Last(s.pp);
      }
      var t := Preprocess(s, d);
      assert Preprocess(State(s.stack, base + s.pp), d).pp == base + t.pp;
      RunFrame(base, Update(s, lines[0], n, rest), Track(seen, d), lines[1..], n + 1, rest);
    }
  }

  /** Well-nested lines leave every checkpoint as it was, and the stack as if only the kept lines
      had been stepped, wherever they stand and whatever the other lines did. */
  lemma WellNestedLines<V(!new)>(s: State<V>, lines: seq<string>, n: nat, rest: Rest<V>)
    requires WellNested(lines)
    ensures Run(s, lines, n, rest) == State(Steps(s.stack, Kept([], lines, n), rest), s.pp)
  {
    var s0 := State(s.stack, []);
    RunFrame(s.pp, s0, [], lines, n, rest);
    RunRelated(s0, [], s.stack, lines, n, rest);
    assert s.pp + [] == s.pp;
  }

  /** On any file at all, stray #else and #endif lines included: outside every #else branch the
      stack is that of the kept lines, and inside one the outermost checkpoint keeps it. */
  lemma AnyFile<V(!new)>(lines: seq<string>, rest: Rest<V>)
    ensures var s, seen := Run(State([], []), lines, 0, rest), Open([], lines);
            var kept := Steps([], Kept([], lines, 0), rest);
            && |s.pp| == |seen|
            && (Live(seen) ==> s.stack == kept)
            && (forall i | 0 <= i < |seen| && seen[i] && Live(seen[..i]) :: s.pp[i].beforeElse == kept)
  {
    RunRelated(State([], []), [], [], lines, 0, rest);
  }

  // ---------------------------------------------------------------------------------------
  // What is kept of a conditional

  lemma KeptCons(seen: seq<bool>, line: string, tail: seq<string>, n: nat)
    ensures var next := Track(seen, DirectiveOf(line));
            && Kept(seen, [line] + tail, n) == (if Live(next) then [n] else []) + Kept(next, tail, n + 1)
            && Open(seen, [line] + tail) == Open(next, tail)
  {
    hide DirectiveOf;
    assert ([line] + tail)[1..] == tail;
  }

  /** Kept and Open split at the seam of a and b. */
  ghost predicate Splits(seen: seq<bool>, a: seq<string>, b: seq<string>, n: nat) {
    && Kept(seen, a + b, n) == Kept(seen, a, n) + Kept(Open(seen, a), b, n + |a|)
    && Open(seen, a + b) == Open(Open(seen, a), b)
  }

  lemma {:induction false} KeptAppend(seen: seq<bool>, a: seq<string>, b: seq<string>, n: nat)
    ensures Splits(seen, a, b, n)
    decreases |a|
  {
    hide DirectiveOf, Track;
    if a == [] {
      assert a + b == b;
    } else {
      KeptAppend(Track(seen, DirectiveOf(a[0])), a[1..], b, n + 1);
      hide Splits;
      SplitsCons(seen, a[0], a[1..], b, n);
      assert a == [a[0]] + a[1..];
    }
  }

  lemma SplitsCons(seen: seq<bool>, line: string, a: seq<string>, b: seq<string>, n: nat)
    requires Splits(Track(seen, DirectiveOf(line)), a, b, n + 1)
    ensures Splits(seen, [line] + a, b, n)
  {
    hide DirectiveOf, Kept, Open, Track, Live;
    var next := Track(seen, DirectiveOf(line));
    Associate([line], a, b);
    KeptCons(seen, line, a, n);
    KeptCons(seen, line, a + b, n);
    assert n + |[line] + a| == n + 1 + |a|;
    Associate(if Live(next) then [n] else [], Kept(next, a, n + 1), Kept(Open(next, a), b, n + 1 + |a|));
  }

  /** Well-nested lines inside a live or dead context keep what they keep alone, or nothing. */
  lemma {:induction false} KeptInside(outer: seq<bool>, seen: seq<bool>, lines: seq<string>, n: nat)
    requires Inner(seen, lines)
    ensures Open(outer + seen, lines) == outer + Open(seen, lines)
    ensures Kept(outer + seen, lines, n) == if Live(outer) then Kept(seen, lines, n) else []
    decreases |lines|
  {
    hide DirectiveOf;
    if lines == [] {
    } else {
      var d := DirectiveOf(lines[0]);
      var next := Track(seen, d);
      if seen != [] {
        assert Init(outer + seen) == outer + Init(seen);
      }
      assert Track(outer + seen, d) == outer + next;
      KeptInside(outer, next, lines[1..], n + 1);
    }
  }

  /** A branch that starts with #else or #elif. */
  predicate Alternative(lines: seq<string>) {
    lines != [] && DirectiveOf(lines[0]) == Else && WellNested(lines[1..])
  }

  /** The lines of the alternatives one after the other. */
  function Flatten(alternatives: seq<seq<string>>): seq<string> {
    if alternatives == [] then [] else alternatives[0] + Flatten(alternatives[1..])
  }

  lemma {:induction false} AlternativesKeepNothing(seen: bool, alternatives: seq<seq<string>>, n: nat)
    requires forall a | a in alternatives :: Alternative(a)
    ensures Kept([seen], Flatten(alternatives), n) == []
    ensures Open([seen], Flatten(alternatives)) == [seen || alternatives != []]
    decreases |alternatives|
  {
    hide DirectiveOf;
    if alternatives == [] {
    } else {
      var a := alternatives[0];
      assert Alternative(a);
      KeptInside([true], [], a[1..], n + 1);
      assert Track([seen], Else) == [true] && [true] + [] == [true];
      KeptCons([seen], a[0], a[1..], n);
      assert a == [a[0]] + a[1..];
      hide Kept, Open, Track, Inner;
      KeptAppend([seen], a, Flatten(alternatives[1..]), n);
      AlternativesKeepNothing(true, alternatives[1..], n + |a|);
    }
  }

  /** Of a conditional with any number of #else and #elif branches, the #if line, what its first
      branch keeps and the #endif line are kept. */
  lemma KeptOfConditional(first: string, branch: seq<string>, alternatives: seq<seq<string>>, end: string, n: nat)
    requires DirectiveOf(first) == If && DirectiveOf(end) == Endif && WellNested(branch)
    requires forall a | a in alternatives :: Alternative(a)
    ensures var others := Flatten(alternatives);
            Kept([], [first] + branch + others + [end], n)
            == [n] + Kept([], branch, n + 1) + [n + 1 + |branch| + |others|]
  {
    hide DirectiveOf, Kept, Open, Track;
    var others := Flatten(alternatives);
    var front := [first] + branch;
    KeptAppend([], front + others, [end], n);
    KeptAppend([], front, others, n);
    KeptAppend([], [first], branch, n);
    KeptOne([], first, n);
    assert [false] + [] == [false];
    KeptInside([false], [], branch, n + 1);
    AlternativesKeepNothing(false, alternatives, n + 1 + |branch|);
    KeptOne([alternatives != []], end, n + 1 + |branch| + |others|);
  }

  lemma KeptOne(seen: seq<bool>, line: string, n: nat)
    ensures Open(seen, [line]) == Track(seen, DirectiveOf(line))
    ensures Kept(seen, [line], n) == if Live(Track(seen, DirectiveOf(line))) then [n] else []
    ensures |seen| == 1 ==> Track(seen, Endif) == []
    ensures Track([], If) == [false]
  {
    hide DirectiveOf;
    assert [line][1..] == [] && [] + [false] == [false];
  }

  // ---------------------------------------------------------------------------------------
  // The other branches: each is parsed from the stack before the conditional

  lemma {:induction false} RunAppend<V(!new)>(s: State<V>, a: seq<string>, b: seq<string>, n: nat, rest: Rest<V>)
    ensures Run(s, a + b, n, rest) == Run(Run(s, a, n, rest), b, n + |a|, rest)
    decreases |a|
  {
    hide Update;
    if a == [] {
      assert a + b == b;
    } else {
      assert (a + b)[0] == a[0] && (a + b)[1..] == a[1..] + b;
      RunAppend(Update(s, a[0], n, rest), a[1..], b, n + 1, rest);
    }
  }

  lemma RunOne<V(!new)>(s: State<V>, line: string, n: nat, rest: Rest<V>)
    ensures Run(s, [line], n, rest) == Update(s, line, n, rest)
  {
    hide Update;
    assert [line][1..] == [];
  }

  /** On top of the checkpoints below there is one that keeps this stack. */
  ghost predicate Keeps<V>(s: State<V>, below: seq<Checkpoint<V>>, before: seq<V>) {
    s.pp != [] && Init(s.pp) == below && Last(s.pp).beforeIf == before
  }

  lemma IfKeeps<V(!new)>(s: State<V>, first: string, n: nat, rest: Rest<V>)
    requires DirectiveOf(first) == If
    ensures Keeps(Update(s, first, n, rest), s.pp, s.stack)
  {
    hide DirectiveOf;
    assert Init(s.pp + [Checkpoint(s.stack, [], false)]) == s.pp;
  }

  lemma ElseKeeps<V(!new)>(s: State<V>, below: seq<Checkpoint<V>>, before: seq<V>, head: string, n: nat, rest: Rest<V>)
    requires DirectiveOf(head) == Else && Keeps(s, below, before)
    ensures var t := Update(s, head, n, rest); Keeps(t, below, before) && t.stack == rest(n, before)
  {
    hide DirectiveOf;
  }

  lemma {:induction false} AlternativesKeep<V(!new)>(s: State<V>, below: seq<Checkpoint<V>>, before: seq<V>,
                                                     alternatives: seq<seq<string>>, n: nat, rest: Rest<V>)
    requires Keeps(s, below, before) && forall a | a in alternatives :: Alternative(a)
    ensures Keeps(Run(s, Flatten(alternatives), n, rest), below, before)
    decreases |alternatives|
  {
    hide DirectiveOf, Update, Keeps, WellNested;
    if alternatives == [] {
    } else {
      var a := alternatives[0];
      assert Alternative(a) && a == [a[0]] + a[1..];
      ElseKeeps(s, below, before, a[0], n, rest);
      RunOne(s, a[0], n, rest);
      var t := Update(s, a[0], n, rest);
      NestedKeeps(t, below, before, a[1..], n + 1, rest);
      hide Run;
      RunAppend(s, [a[0]], a[1..], n, rest);
      RunAppend(s, a, Flatten(alternatives[1..]), n, rest);
      AlternativesKeep(Run(s, a, n, rest), below, before, alternatives[1..], n + |a|, rest);
    }
  }

  lemma NestedKeeps<V(!new)>(s: State<V>, below: seq<Checkpoint<V>>, before: seq<V>, lines: seq<string>, n: nat,
                             rest: Rest<V>)
    requires Keeps(s, below, before) && WellNested(lines)
    ensures Keeps(Run(s, lines, n, rest), below, before)
  {
    hide DirectiveOf, WellNested, Run;
    WellNestedLines(s, lines, n, rest);
  }

  /** Inside any #else or #elif branch the stack is the one before the conditional, with the branch's own
      lines on it: the #else or #elif line and what is kept of the lines after it. Nothing of the branches
      before is seen. */
  lemma BranchStartsBefore<V(!new)>(s: State<V>, first: string, branch: seq<string>, alternatives: seq<seq<string>>,
                                    head: string, lines: seq<string>, n: nat, rest: Rest<V>)
    requires DirectiveOf(first) == If && WellNested(branch) && DirectiveOf(head) == Else && WellNested(lines)
    requires forall a | a in alternatives :: Alternative(a)
    ensures var before := [first] + branch + Flatten(alternatives);
            var m := n + |before|;
            Run(s, before + [head] + lines, n, rest).stack == Steps(rest(m, s.stack), Kept([], lines, m + 1), rest)
  {
    hide DirectiveOf, WellNested, Run, Update, Keeps, Kept, Steps, Flatten;
    var others := Flatten(alternatives);
    var front := [first] + branch;
    IfKeeps(s, first, n, rest);
    RunOne(s, first, n, rest);
    NestedKeeps(Run(s, [first], n, rest), s.pp, s.stack, branch, n + 1, rest);
    RunAppend(s, [first], branch, n, rest);
    AlternativesKeep(Run(s, front, n, rest), s.pp, s.stack, alternatives, n + |front|, rest);
    RunAppend(s, front, others, n, rest);
    var t, m := Run(s, front + others, n, rest), n + |front + others|;
    ElseKeeps(t, s.pp, s.stack, head, m, rest);
    RunOne(t, head, m, rest);
    RunAppend(s, front + others, [head], n, rest);
    RunAppend(s, front + others + [head], lines, n, rest);
    WellNestedLines(Run(t, [head], m, rest), lines, m + 1, rest);
  }

  // ---------------------------------------------------------------------------------------
  // The same for lines as they are written

  /** The line is white space, a hash, white space, one of the words, and no further word character. */
  ghost predicate Written(line: string, words: set<string>) {
    exists indent, gap, word, tail ::
      && WrittenAs(line, indent, gap, word, tail) && word in words
  }

  ghost predicate WrittenAs(line: string, indent: string, gap: string, word: string, tail: string) {
    && line == indent + "#" + gap + word + tail
    && AllSpace(indent) && AllSpace(gap) && word != "" && (forall c | c in word :: IsWord(c))
    && (tail == "" || !IsWord(tail[0]))
  }

  lemma WrittenKeyword(line: string, indent: string, gap: string, word: string, tail: string)
    requires WrittenAs(line, indent, gap, word, tail)
    ensures DirectiveOf(line) == KeywordOf(word)
  {
    hide DirectiveOf, KeywordOf;
    assert forall c | c in indent + gap :: c in indent || c in gap;
    DirectiveForm(indent, gap, word, tail);
  }

  lemma Keywords(word: string)
    ensures KeywordOf(word) == If <==> word in {"if", "ifdef", "ifndef"}
    ensures KeywordOf(word) == Else <==> word in {"else", "elif"}
    ensures KeywordOf(word) == Endif <==> word in {"endif"}
  {
  }

  lemma WrittenDirective(line: string, words: set<string>, d: Directive)
    requires d != Text && forall word :: KeywordOf(word) == d <==> word in words
    ensures DirectiveOf(line) == d <==> Written(line, words)
  {
    hide DirectiveOf, KeywordOf, WrittenAs;
    if DirectiveOf(line) == d {
      var indent, gap, word, tail := DirectiveHasForm(line);
      assert WrittenAs(line, indent, gap, word, tail) by { IsWritten(line, indent, gap, word, tail); }
    }
    if indent, gap, word, tail :| WrittenAs(line, indent, gap, word, tail) && word in words {
      WrittenKeyword(line, indent, gap, word, tail);
    }
  }

  lemma IsWritten(line: string, indent: string, gap: string, word: string, tail: string)
    requires line == indent + "#" + gap + word + tail && KeywordOf(word) != Text
    requires (forall c | c in indent + gap :: IsSpace(c)) && (forall c | c in word :: IsWord(c))
    requires tail == "" || !IsWord(tail[0])
    ensures WrittenAs(line, indent, gap, word, tail)
  {
    assert forall c | c in indent :: c in indent + gap;
    assert forall c | c in gap :: c in indent + gap;
  }

  /** Which lines are which directive: if, ifdef and ifndef begin a conditional, else and elif start another
      branch, endif ends it, and every other line is text. */
  lemma Directives(line: string)
    ensures DirectiveOf(line) == If <==> Written(line, {"if", "ifdef", "ifndef"})
    ensures DirectiveOf(line) == Else <==> Written(line, {"else", "elif"})
    ensures DirectiveOf(line) == Endif <==> Written(line, {"endif"})
  {
    hide DirectiveOf, Written, KeywordOf;
    forall word
      ensures KeywordOf(word) == If <==> word in {"if", "ifdef", "ifndef"}
      ensures KeywordOf(word) == Else <==> word in {"else", "elif"}
      ensures KeywordOf(word) == Endif <==> word in {"endif"}
    {
      Keywords(word);
    }
    WrittenDirective(line, {"if", "ifdef", "ifndef"}, If);
    WrittenDirective(line, {"else", "elif"}, Else);
    WrittenDirective(line, {"endif"}, Endif);
  }

  /** A line that is none of the directives. */
  ghost predicate Ordinary(line: string) {
    !Written(line, {"if", "ifdef", "ifndef", "else", "elif", "endif"})
  }

  lemma OrdinaryIsText(line: string)
    ensures DirectiveOf(line) == Text <==> Ordinary(line)
  {
    hide DirectiveOf, WrittenAs, KeywordOf;
    var words := {"if", "ifdef", "ifndef", "else", "elif", "endif"};
    if DirectiveOf(line) != Text {
      var indent, gap, word, tail := DirectiveHasForm(line);
      IsWritten(line, indent, gap, word, tail);
      Keywords(word);
      assert word in words;
    }
    if indent, gap, word, tail :| WrittenAs(line, indent, gap, word, tail) && word in words {
      WrittenKeyword(line, indent, gap, word, tail);
      Keywords(word);
    }
  }

  /** A file as it is written: ordinary lines, and conditionals with a first branch and any number of other
      branches, each of them again such a file. */
  datatype Part = Line(text: string) | Conditional(first: string, branch: seq<Part>, others: seq<Branch>, last: string)
  datatype Branch = Branch(head: string, parts: seq<Part>)

  ghost predicate WellWritten(parts: seq<Part>) {
    forall part | part in parts :: WellWrittenPart(part)
  }

  ghost predicate WellWrittenPart(part: Part) {
    match part
    case Line(text) => Ordinary(text)
    case Conditional(first, branch, others, last) =>
      && Written(first, {"if", "ifdef", "ifndef"}) && Written(last, {"endif"}) && WellWritten(branch)
      && forall other | other in others :: Written(other.head, {"else", "elif"}) && WellWritten(other.parts)
  }

  function LinesOf(parts: seq<Part>): seq<string> {
    if parts == [] then [] else LinesOfPart(parts[0]) + LinesOf(parts[1..])
  }

  function LinesOfPart(part: Part): seq<string> {
    match part
    case Line(text) => [text]
    case Conditional(first, branch, others, last) => [first] + LinesOf(branch) + LinesOfBranches(others) + [last]
  }

  function LinesOfBranches(others: seq<Branch>): seq<string> {
    if others == [] then [] else [others[0].head] + LinesOf(others[0].parts) + LinesOfBranches(others[1..])
  }

  /** The numbers of the lines that count: ordinary lines outside conditionals, and of a conditional its
      first line, what counts of its first branch, and its last line. */
  function Counting(parts: seq<Part>, n: nat): seq<nat> {
    if parts == [] then [] else CountingOfPart(parts[0], n) + Counting(parts[1..], n + |LinesOfPart(parts[0])|)
  }

  function CountingOfPart(part: Part, n: nat): seq<nat> {
    match part
    case Line(_) => [n]
    case Conditional(_, branch, others, _) =>
      [n] + Counting(branch, n + 1) + [n + 1 + |LinesOf(branch)| + |LinesOfBranches(others)|]
  }

  lemma {:induction false} InnerAppend(seen: seq<bool>, a: seq<string>, b: seq<string>)
    requires Inner(seen, a) && Inner(Open(seen, a), b)
    ensures Inner(seen, a + b)
    decreases |a|
  {
    hide DirectiveOf, Track;
    if a == [] {
      assert a + b == b;
    } else {
      assert (a + b)[0] == a[0] && (a + b)[1..] == a[1..] + b;
      InnerAppend(Track(seen, DirectiveOf(a[0])), a[1..], b);
    }
  }

  lemma {:induction false} InnerInside(outer: seq<bool>, seen: seq<bool>, lines: seq<string>)
    requires Inner(seen, lines)
    ensures Inner(outer + seen, lines)
    decreases |lines|
  {
    hide DirectiveOf;
    if lines == [] {
    } else {
      var d := DirectiveOf(lines[0]);
      if seen != [] {
        assert Init(outer + seen) == outer + Init(seen);
      }
      assert Track(outer + seen, d) == outer + Track(seen, d);
      InnerInside(outer, Track(seen, d), lines[1..]);
    }
  }

  lemma InnerOne(seen: seq<bool>, line: string)
    ensures Inner(seen, [line]) <==> seen != [] || (DirectiveOf(line) != Else && DirectiveOf(line) != Endif)
  {
    hide DirectiveOf, Track;
    assert [line][1..] == [];
  }

  lemma {:induction false} AlternativesInner(seen: bool, alternatives: seq<seq<string>>)
    requires forall a | a in alternatives :: Alternative(a)
    ensures Inner([seen], Flatten(alternatives))
    decreases |alternatives|
  {
    hide DirectiveOf, Open, Track;
    if alternatives == [] {
    } else {
      var a := alternatives[0];
      assert Alternative(a) && a == [a[0]] + a[1..];
      InnerOne([seen], a[0]);
      KeptOne([seen], a[0], 0);
      assert Track([seen], Else) == [true] by { TrackElse(seen); }
      InnerInside([true], [], a[1..]);
      assert [true] + [] == [true];
      InnerAppend([seen], [a[0]], a[1..]);
      KeptAppend([seen], [a[0]], a[1..], 0);
      KeptInside([true], [], a[1..], 0);
      AlternativesInner(true, alternatives[1..]);
      InnerAppend([seen], a, Flatten(alternatives[1..]));
    }
  }

  lemma TrackElse(seen: bool)
    ensures Track([seen], Else) == [true]
  {
  }

  /** A conditional of well-nested branches is well nested. */
  lemma ConditionalNested(first: string, branch: seq<string>, alternatives: seq<seq<string>>, end: string)
    requires DirectiveOf(first) == If && DirectiveOf(end) == Endif && WellNested(branch)
    requires forall a | a in alternatives :: Alternative(a)
    ensures WellNested([first] + branch + Flatten(alternatives) + [end])
  {
    hide DirectiveOf, Kept, Open, Track, Inner, Flatten;
    var others := Flatten(alternatives);
    var front := [first] + branch;
    KeptOne([], first, 0);
    InnerOne([], first);
    KeptInside([false], [], branch, 0);
    InnerInside([false], [], branch);
    assert [false] + [] == [false];
    InnerAppend([], [first], branch);
    KeptAppend([], [first], branch, 0);
    AlternativesInner(false, alternatives);
    AlternativesKeepNothing(false, alternatives, 0);
    InnerAppend([], front, others);
    KeptAppend([], front, others, 0);
    InnerOne([alternatives != []], end);
    KeptOne([alternatives != []], end, 0);
    InnerAppend([], front + others, [end]);
    KeptAppend([], front + others, [end], 0);
  }

  function Alternatives(others: seq<Branch>): (r: seq<seq<string>>)
    ensures |r| == |others|
  {
    if others == [] then [] else [[others[0].head] + LinesOf(others[0].parts)] + Alternatives(others[1..])
  }

  lemma {:induction false} FlattenAlternatives(others: seq<Branch>)
    ensures Flatten(Alternatives(others)) == LinesOfBranches(others)
    ensures forall k | 0 <= k < |others| :: Alternatives(others)[k] == [others[k].head] + LinesOf(others[k].parts)
    decreases |others|
  {
    hide LinesOf;
    if others == [] {
    } else {
      FlattenAlternatives(others[1..]);
      assert Alternatives(others)[1..] == Alternatives(others[1..]);
    }
  }

  /** The lines keep exactly what counts, and close what they open. */
  ghost predicate AsWritten(parts: seq<Part>) {
    WellNested(LinesOf(parts)) && forall n: nat :: Kept([], LinesOf(parts), n) == Counting(parts, n)
  }

  lemma WrittenLine(line: string)
    requires Ordinary(line)
    ensures WellNested([line]) && forall n: nat :: Kept([], [line], n) == [n]
  {
    hide DirectiveOf, Ordinary, Track, Live, Inner;
    OrdinaryIsText(line);
    InnerOne([], line);
    forall n: nat
      ensures Kept([], [line], n) == [n]
    {
      KeptOne([], line, n);
      TrackText();
    }
    KeptOne([], line, 0);
    TrackText();
  }

  lemma TrackText()
    ensures Track([], Text) == [] && Live([])
  {
  }

  lemma WrittenConditional(first: string, branch: seq<Part>, others: seq<Branch>, last: string)
    requires Written(first, {"if", "ifdef", "ifndef"}) && Written(last, {"endif"}) && AsWritten(branch)
    requires forall other | other in others :: Written(other.head, {"else", "elif"}) && AsWritten(other.parts)
    ensures var lines := [first] + LinesOf(branch) + LinesOfBranches(others) + [last];
            && WellNested(lines)
            && forall n: nat :: Kept([], lines, n)
                           == [n] + Counting(branch, n + 1) + [n + 1 + |LinesOf(branch)| + |LinesOfBranches(others)|]
  {
    hide DirectiveOf, Written, WellNested, Kept, Counting, LinesOf, LinesOfBranches, Flatten, Alternatives;
    Directives(first);
    Directives(last);
    FlattenAlternatives(others);
    var alternatives := Alternatives(others);
    forall k | 0 <= k < |others|
      ensures Alternative(alternatives[k])
    {
      assert others[k] in others;
      Directives(others[k].head);
      assert ([others[k].head] + LinesOf(others[k].parts))[1..] == LinesOf(others[k].parts);
    }
    ConditionalNested(first, LinesOf(branch), alternatives, last);
    forall n: nat
      ensures Kept([], [first] + LinesOf(branch) + LinesOfBranches(others) + [last], n)
              == [n] + Counting(branch, n + 1) + [n + 1 + |LinesOf(branch)| + |LinesOfBranches(others)|]
    {
      KeptOfConditional(first, LinesOf(branch), alternatives, last, n);
    }
  }

  lemma NestedAppend(a: seq<string>, b: seq<string>)
    requires WellNested(a) && WellNested(b)
    ensures WellNested(a + b) && forall n: nat :: Kept([], a + b, n) == Kept([], a, n) + Kept([], b, n + |a|)
  {
    hide DirectiveOf, Kept, Open, Inner;
    InnerAppend([], a, b);
    forall n: nat
      ensures Kept([], a + b, n) == Kept([], a, n) + Kept([], b, n + |a|) && Open([], a + b) == []
    {
      KeptAppend([], a, b, n);
    }
    KeptAppend([], a, b, 0);
  }

  lemma {:induction false} WrittenPart(part: Part)
    requires WellWrittenPart(part)
    ensures WellNested(LinesOfPart(part)) && forall n: nat :: Kept([], LinesOfPart(part), n) == CountingOfPart(part, n)
    decreases part, 1
  {
    hide DirectiveOf, Written, Ordinary, WellNested, Kept, Counting, LinesOf, LinesOfBranches, AsWritten;
    match part
    case Line(text) => WrittenLine(text);
    case Conditional(first, branch, others, last) =>
      WrittenFile(branch);
      forall other | other in others
        ensures AsWritten(other.parts)
      {
        WrittenFile(other.parts);
      }
      WrittenConditional(first, branch, others, last);
  }

  /** Every file put together from ordinary lines and conditionals is well nested, and keeps what counts. */
  lemma {:induction false} WrittenFile(parts: seq<Part>)
    requires WellWritten(parts)
    ensures AsWritten(parts)
    decreases parts, 0
  {
    hide DirectiveOf, Written, Ordinary, WellNested, Kept, LinesOfPart, CountingOfPart, WellWrittenPart;
    if parts == [] {
      NothingWritten();
    } else {
      var part, tail := parts[0], parts[1..];
      assert part in parts && forall other | other in tail :: other in parts;
      WrittenFile(tail);
      WrittenPart(part);
      NestedAppend(LinesOfPart(part), LinesOf(tail));
    }
  }

  lemma NothingWritten()
    ensures AsWritten([])
  {
  }

  /** The theorem for files as they are written: whatever the other branches hold, and whatever one line does
      to the stack, the stack ends as if only the counting lines had been there. */
  lemma UpdateAsWritten<V(!new)>(s: State<V>, parts: seq<Part>, n: nat, rest: Rest<V>)
    requires WellWritten(parts)
    ensures Run(s, LinesOf(parts), n, rest) == State(Steps(s.stack, Counting(parts, n), rest), s.pp)
  {
    hide WellNested, Kept, Run, Steps, Counting, LinesOf;
    WrittenFile(parts);
    WellNestedLines(s, LinesOf(parts), n, rest);
  }

  lemma WrittenAt(word: string, tail: string, words: set<string>)
    requires word in words && word != "" && (forall c | c in word :: IsWord(c)) && (tail == "" || !IsWord(tail[0]))
    ensures Written("#" + word + tail, words)
  {
    assert WrittenAs("#" + word + tail, "", "", word, tail) by {
      assert "" + "#" + "" + word + tail == "#" + word + tail;
    }
  }

  lemma WrittenStarts(line: string, words: set<string>)
    ensures Written(line, words) ==> line != "" && (line[0] == '#' || IsSpace(line[0]))
  {
    if indent, gap, word, tail :| WrittenAs(line, indent, gap, word, tail) && word in words {
      assert line[0] == (indent + "#")[0];
      assert indent == "" || indent[0] in indent;
    }
  }

  const PLAIN := "struct A {"
  const DERIVED := "struct A : B {"

  /** A struct with one head or another: only the first of the two heads counts. */
  lemma TwoHeads(n: nat)
    ensures Kept([], ["#ifdef SWIG", PLAIN, "#else", DERIVED, "#endif"], n) == [n, n + 1, n + 4]
  {
    hide Written, Kept;
    var words := {"if", "ifdef", "ifndef"};
    assert "#" + "ifdef" + " SWIG" == "#ifdef SWIG" && "#" + "else" + "" == "#else" && "#" + "endif" + "" == "#endif";
    WrittenAt("ifdef", " SWIG", words);
    WrittenAt("else", "", {"else", "elif"});
    WrittenAt("endif", "", {"endif"});
    WrittenStarts(PLAIN, {"if", "ifdef", "ifndef", "else", "elif", "endif"});
    WrittenStarts(DERIVED, {"if", "ifdef", "ifndef", "else", "elif", "endif"});
    Directives("#ifdef SWIG");
    Directives("#else");
    Directives("#endif");
    WrittenLine(PLAIN);
    WrittenLine(DERIVED);
    TwoBranches("#ifdef SWIG", PLAIN, "#else", DERIVED, "#endif", n);
  }

  lemma TwoBranches(first: string, a: string, other: string, b: string, last: string, n: nat)
    requires DirectiveOf(first) == If && DirectiveOf(other) == Else && DirectiveOf(last) == Endif
    requires WellNested([a]) && WellNested([b]) && Kept([], [a], n + 1) == [n + 1]
    ensures Kept([], [first, a, other, b, last], n) == [n, n + 1, n + 4]
  {
    hide DirectiveOf, Kept, WellNested;
    var alternatives := [[other, b]];
    assert [other, b][1..] == [b] && alternatives[1..] == [];
    assert Flatten(alternatives) == [other, b];
    assert [first] + [a] + [other, b] + [last] == [first, a, other, b, last];
    KeptOfConditional(first, [a], alternatives, last, n);
  }
}
