/** NestingState on the heap: the blocks of the nesting stack are objects changed in place, and the
    deep copies in the checkpoints keep those changes out of what #else and #endif bring back. */
module Nesting {
  import opened Lexical
  import P = Preprocessor

  class Block<V> {
    var info: V

    constructor (info: V)
      ensures this.info == info
    {
      this.info := info;
    }
  }

  class PreprocessorInfo<V> {
    var stackBeforeIf: seq<Block<V>>
    var stackBeforeElse: seq<Block<V>>
    var seenElse: bool

    constructor (stackBeforeIf: seq<Block<V>>)
      ensures this.stackBeforeIf == stackBeforeIf && stackBeforeElse == [] && !seenElse
    {
      this.stackBeforeIf := stackBeforeIf;
      stackBeforeElse := [];
      seenElse := false;
    }
  }

  ghost predicate Distinct<T>(s: seq<T>) {
    forall i, j | 0 <= i < j < |s| :: s[i] != s[j]
  }

  ghost predicate Apart<T>(s: seq<T>, t: seq<T>) {
    forall x | x in s :: x !in t
  }

  /** The blocks hold these values, in order. */
  ghost predicate Hold<V(!new)>(blocks: seq<Block<V>>, values: seq<V>)
    reads blocks
  {
    |blocks| == |values| && forall i | 0 <= i < |blocks| :: blocks[i].info == values[i]
  }

  ghost predicate Within<T>(s: seq<T>, all: set<T>) {
    forall x | x in s :: x in all
  }

  /** New blocks for these values. */
  method NewBlocks<V(!new)>(values: seq<V>) returns (blocks: seq<Block<V>>)
    ensures forall b | b in blocks :: fresh(b)
    ensures Distinct(blocks) && Hold(blocks, values)
  {
    blocks := [];
    for i := 0 to |values|
      invariant |blocks| == i && Distinct(blocks) && Hold(blocks, values[..i])
      invariant forall k | 0 <= k < i :: fresh(blocks[k])
    {
      var b := new Block(values[i]);
      blocks := blocks + [b];
    }
  }

  /** What the blocks hold. */
  method Read<V(!new)>(blocks: seq<Block<V>>) returns (values: seq<V>)
    ensures Hold(blocks, values)
  {
    values := [];
    for i := 0 to |blocks|
      invariant |values| == i && forall k | 0 <= k < i :: blocks[k].info == values[k]
    {
      values := values + [blocks[i].info];
    }
  }

  /** copy.deepcopy of a stack. */
  method DeepCopy<V(!new)>(blocks: seq<Block<V>>, ghost values: seq<V>) returns (copy: seq<Block<V>>)
    requires Hold(blocks, values)
    ensures forall b | b in copy :: fresh(b)
    ensures Distinct(copy) && Hold(copy, values)
  {
    var infos := Read(blocks);
    assert infos == values;
    copy := NewBlocks(infos);
  }

  /** Changes the blocks in place. */
  method Write<V(!new)>(blocks: seq<Block<V>>, values: seq<V>)
    requires Distinct(blocks) && |blocks| == |values|
    modifies blocks
    ensures Hold(blocks, values)
  {
    for i := 0 to |blocks|
      invariant forall k | 0 <= k < i :: blocks[k].info == values[k]
    {
      blocks[i].info := values[i];
    }
  }

  class NestingState<V(!new)> {
    var stack: seq<Block<V>>
    var ppStack: seq<PreprocessorInfo<V>>

    ghost var model: P.State<V>         // the state on values
    ghost var blocks: set<Block<V>>     // every block in use

    /** A checkpoint stands for its value; no block on the stack is in it, and the blocks it put away
        at an #else are in no older checkpoint. */
    ghost predicate Saved(i: nat)
      requires i < |ppStack| == |model.pp|
      reads this, ppStack, blocks
    {
      var info, value := ppStack[i], model.pp[i];
      && Within(info.stackBeforeIf, blocks) && Within(info.stackBeforeElse, blocks)
      && Hold(info.stackBeforeIf, value.beforeIf) && Hold(info.stackBeforeElse, value.beforeElse)
      && info.seenElse == value.seenElse
      && Distinct(info.stackBeforeElse)
      && Apart(stack, info.stackBeforeIf) && Apart(stack, info.stackBeforeElse)
    }

    ghost predicate Valid()
      reads this, ppStack, blocks
    {
      && Distinct(stack) && Within(stack, blocks) && Hold(stack, model.stack)
      && Distinct(ppStack) && |ppStack| == |model.pp|
      && (forall i: nat | i < |ppStack| :: Saved(i))
      && (forall i, j | 0 <= i < j < |ppStack| ::
            && Apart(ppStack[j].stackBeforeElse, ppStack[i].stackBeforeIf)
            && Apart(ppStack[j].stackBeforeElse, ppStack[i].stackBeforeElse))
    }

    constructor ()
      ensures Valid() && model == P.State([], []) && blocks == {}
    {
      stack, ppStack := [], [];
      model, blocks := P.State([], []), {};
    }

    method OnIf()
      requires Valid()
      modifies this
      ensures Valid() && model == P.Preprocess(old(model), P.If)
      ensures fresh(blocks - old(blocks)) && fresh(set info | info in ppStack && info !in old(ppStack))
    {
      var copy := DeepCopy(stack, model.stack);
      var info := new PreprocessorInfo(copy);
      ppStack := ppStack + [info];
      model := P.Preprocess(model, P.If);
      blocks := blocks + set b | b in copy;
      forall i: nat | i < |ppStack|
        ensures Saved(i)
      {
        if i < |ppStack| - 1 {
          assert old(Saved(i));
        }
      }
    }

    /** The first #else: remember a copy of the whole stack up to this point. */
    method PutAway(copy: seq<Block<V>>)
      requires Valid() && ppStack != []
      requires Distinct(copy) && Hold(copy, model.stack) && forall b | b in copy :: b !in blocks
      modifies this, Last(ppStack)
      ensures Valid() && ppStack == old(ppStack) && stack == old(stack) && blocks == old(blocks) + set b | b in copy
      ensures var pp := old(model.pp);
              model == P.State(old(model.stack), Init(pp) + [P.Checkpoint(Last(pp).beforeIf, old(model.stack), true)])
    {
      var top := Last(ppStack);
      forall i: nat | i < |ppStack|
        ensures Apart(copy, ppStack[i].stackBeforeIf) && Apart(copy, ppStack[i].stackBeforeElse)
      {
        assert Saved(i);
      }
      top.seenElse := true;
      top.stackBeforeElse := copy;
      var pp := model.pp;
      model := P.State(model.stack, Init(pp) + [P.Checkpoint(Last(pp).beforeIf, model.stack, true)]);
      blocks := blocks + set b | b in copy;
      forall i: nat | i < |ppStack|
        ensures Saved(i)
      {
        assert old(Saved(i));
      }
    }

    /** Back to how the stack was before the #if. */
    method Restore()
      requires Valid() && ppStack != []
      modifies this
      ensures Valid() && ppStack == old(ppStack) && fresh(blocks - old(blocks))
      ensures model == P.State(Last(old(model.pp)).beforeIf, old(model.pp))
    {
      var top := Last(ppStack);
      assert Saved(|ppStack| - 1);
      stack := DeepCopy(top.stackBeforeIf, Last(model.pp).beforeIf);
      model := P.State(Last(model.pp).beforeIf, model.pp);
      blocks := blocks + set b | b in stack;
      forall i: nat | i < |ppStack|
        ensures Saved(i)
      {
        assert old(Saved(i));
      }
    }

    method OnElse()
      requires Valid()
      modifies this, ppStack
      ensures Valid() && model == P.Preprocess(old(model), P.Else)
      ensures fresh(blocks - old(blocks)) && ppStack == old(ppStack)
    {
      if ppStack != [] {
        assert Saved(|ppStack| - 1);
        if !Last(ppStack).seenElse {
          var copy := DeepCopy(stack, model.stack);
          PutAway(copy);
        } else {
          assert model.pp == Init(model.pp) + [Last(model.pp)];
        }
        Restore();
      }
    }

    method OnEndif()
      requires Valid()
      modifies this
      ensures Valid() && model == P.Preprocess(old(model), P.Endif)
      ensures blocks == old(blocks) && ppStack == if old(ppStack) == [] then [] else old(Init(ppStack))
    {
      if ppStack != [] {
        var top := Last(ppStack);
        assert Saved(|ppStack| - 1);
        if top.seenElse {
          stack := top.stackBeforeElse;
        }
        ppStack := Init(ppStack);
        model := P.Preprocess(model, P.Endif);
        forall i: nat | i < |ppStack|
          ensures Saved(i)
        {
          assert old(Saved(i));
        }
      }
    }

    method UpdatePreprocessor(line: string)
      requires Valid()
      modifies this, ppStack
      ensures Valid() && model == P.Preprocess(old(model), P.DirectiveOf(line))
      ensures fresh(blocks - old(blocks)) && forall info | info in ppStack && info !in old(ppStack) :: fresh(info)
    {
      hide P.DirectiveOf;
      match P.DirectiveOf(line)
      case If => OnIf();
      case Else => OnElse();
      case Endif => OnEndif();
      case Text =>
    }

    /** Changes the blocks of the stack in place, and pops those that have no value. */
    method WriteStack(values: seq<V>)
      requires Valid() && |values| <= |stack|
      modifies this, stack
      ensures Valid() && ppStack == old(ppStack) && blocks == old(blocks)
      ensures model == old(model).(stack := values)
    {
      stack := stack[..|values|];
      assert forall b | b in stack :: b in old(stack);
      Write(stack, values);
      model := model.(stack := values);
      forall i: nat | i < |ppStack|
        ensures Saved(i)
      {
        assert old(Saved(i));
        var info := ppStack[i];
        assert forall k | 0 <= k < |info.stackBeforeIf| :: info.stackBeforeIf[k] !in stack;
        assert forall k | 0 <= k < |info.stackBeforeElse| :: info.stackBeforeElse[k] !in stack;
      }
    }

    /** Pushes blocks. */
    method Push(values: seq<V>)
      requires Valid()
      modifies this
      ensures Valid() && ppStack == old(ppStack)
      ensures model == old(model).(stack := old(model.stack) + values)
      ensures fresh(blocks - old(blocks))
    {
      var added := NewBlocks(values);
      assert Apart(stack, added);
      forall i: nat | i < |ppStack|
        ensures Apart(added, ppStack[i].stackBeforeIf) && Apart(added, ppStack[i].stackBeforeElse)
      {
        assert Saved(i);
      }
      assert forall k | 0 <= k < |added| :: added[k] in added;
      stack := stack + added;
      model := model.(stack := model.stack + values);
      blocks := blocks + set b | b in added;
      forall i: nat | i < |ppStack|
        ensures Saved(i)
      {
        assert old(Saved(i));
      }
    }

    /** The rest of Update at its most intrusive: every block that stays on the stack is changed in
        place. */
    method UpdateStack(n: nat, rest: P.Rest<V>)
      requires Valid()
      modifies this, stack
      ensures Valid() && model == old(model).(stack := rest(n, old(model.stack)))
      ensures ppStack == old(ppStack) && fresh(blocks - old(blocks))
    {
      var values := Read(stack);
      assert values == model.stack;
      values := rest(n, values);
      var kept := if |values| < |stack| then |values| else |stack|;
      WriteStack(values[..kept]);
      Push(values[kept..]);
      assert values[..kept] + values[kept..] == values;
    }

    method Update(line: string, n: nat, rest: P.Rest<V>)
      requires Valid()
      modifies this, ppStack, blocks
      ensures Valid() && model == P.Update(old(model), line, n, rest)
      ensures fresh(blocks - old(blocks)) && forall info | info in ppStack && info !in old(ppStack) :: fresh(info)
    {
      UpdatePreprocessor(line);
      assert Within(stack, blocks);
      UpdateStack(n, rest);
    }

    /** Update on each line, numbered from n on. Well-nested lines leave the checkpoints as they were and
        the stack as if only the kept lines had been stepped. */
    method UpdateLines(lines: seq<string>, n: nat, rest: P.Rest<V>)
      requires Valid()
      modifies this, ppStack, blocks
      ensures Valid() && model == P.Run(old(model), lines, n, rest)
      ensures fresh(blocks - old(blocks)) && forall info | info in ppStack && info !in old(ppStack) :: fresh(info)
      ensures P.WellNested(lines) ==>
                && model.pp == old(model.pp)
                && Hold(stack, P.Steps(old(model.stack), P.Kept([], lines, n), rest))
    {
      hide P.DirectiveOf, P.Preprocess;
      ghost var was, infos, all := model, ppStack, blocks;
      assert lines[0..] == lines;
      for i := 0 to |lines|
        invariant Valid() && P.Run(model, lines[i..], n + i, rest) == P.Run(was, lines, n, rest)
        invariant fresh(blocks - all) && forall k | 0 <= k < |ppStack| :: ppStack[k] in infos || fresh(ppStack[k])
      {
        assert lines[i..][0] == lines[i] && lines[i..][1..] == lines[i + 1..];
        ghost var before := ppStack;
        assert forall info | info in before :: info in infos || fresh(info);
        Update(lines[i], n + i, rest);
        assert forall k | 0 <= k < |ppStack| :: ppStack[k] in before || fresh(ppStack[k]);
      }
      if P.WellNested(lines) {
        P.WellNestedLines(was, lines, n, rest);
      }
    }
  }

  /** A whole file, from a new state: for well-nested lines the stack holds what the kept lines alone
      make of it, and no checkpoint is left. */
  method UpdateFile<V(!new)>(lines: seq<string>, rest: P.Rest<V>) returns (s: NestingState<V>)
    ensures fresh(s) && s.Valid() && s.model == P.Run(P.State([], []), lines, 0, rest)
    ensures P.WellNested(lines) ==> s.ppStack == [] && Hold(s.stack, P.Steps([], P.Kept([], lines, 0), rest))
    ensures forall parts | P.WellWritten(parts) && P.LinesOf(parts) == lines ::
              s.ppStack == [] && Hold(s.stack, P.Steps([], P.Counting(parts, 0), rest))
  {
    s := new NestingState();
    s.UpdateLines(lines, 0, rest);
    forall parts | P.WellWritten(parts) && P.LinesOf(parts) == lines
      ensures s.ppStack == [] && Hold(s.stack, P.Steps([], P.Counting(parts, 0), rest))
    {
      P.WrittenFile(parts);
    }
  }
}
