/**
 `NestingState` as cpplint keeps it: block objects that are changed in place, a stack of references to
 them, and checkpoints that are deep copies of that stack. Every method is proved to do to the objects
 what the value-level machine does to values, which is true only because no two lists share a block.
 */
module NestingState {
  import opened Wrappers
  import opened NestingModel

  class BlockInfo {
    /** The number of the list this block is on: 0 for the live stack. */
    ghost var home: nat
    const kind: BlockKind
    const startingLine: nat
    var seenOpenBrace: bool
    var openParentheses: int
    var inlineAsm: AsmState
    var access: string
    var isDerived: bool

    function Value(): Block
      reads this
    {
      Block(kind, startingLine, seenOpenBrace, openParentheses, inlineAsm, access, isDerived)
    }

    constructor (b: Block, ghost home: nat)
      ensures Value() == b && this.home == home
    {
      this.home := home;
      kind, startingLine, seenOpenBrace := b.kind, b.startingLine, b.seenOpenBrace;
      openParentheses, inlineAsm, access, isDerived := b.openParentheses, b.inlineAsm, b.access, b.isDerived;
    }

    method Assign(b: Block)
      requires b.kind == kind && b.startingLine == startingLine
      modifies this
      ensures Value() == b && home == old(home)
    {
      seenOpenBrace, openParentheses, inlineAsm := b.seenOpenBrace, b.openParentheses, b.inlineAsm;
      access, isDerived := b.access, b.isDerived;
    }
  }

  /** `blocks` is a list of its own, number `home`, that holds `values`. */
  ghost predicate Holds(blocks: seq<BlockInfo>, home: nat, values: Stack)
    reads blocks
  {
    && |blocks| == |values|
    && (forall i, j :: 0 <= i < j < |blocks| ==> blocks[i] != blocks[j])
    && forall i :: 0 <= i < |blocks| ==> blocks[i].home == home && blocks[i].Value() == values[i]
  }

  ghost predicate Inside(blocks: seq<BlockInfo>, Repr: set<object>) {
    forall i :: 0 <= i < |blocks| ==> blocks[i] in Repr
  }

  /** `copy.deepcopy` of a list of blocks that are all different. */
  method DeepCopy(blocks: seq<BlockInfo>, ghost home: nat) returns (copy: seq<BlockInfo>)
    ensures |copy| == |blocks|
    ensures forall i, j :: 0 <= i < j < |copy| ==> copy[i] != copy[j]
    ensures forall i :: 0 <= i < |copy| ==>
              fresh(copy[i]) && copy[i].home == home && copy[i].Value() == blocks[i].Value()
  {
    copy := [];
    for i := 0 to |blocks|
      invariant |copy| == i
      invariant forall k, l :: 0 <= k < l < i ==> copy[k] != copy[l]
      invariant forall k :: 0 <= k < i ==>
                  fresh(copy[k]) && copy[k].home == home && copy[k].Value() == blocks[k].Value()
    {
      var b := new BlockInfo(blocks[i].Value(), home);
      copy := copy + [b];
    }
  }

  /** A saved list is declared to be the live one; nothing but its number changes. */
  ghost method Relabel(blocks: seq<BlockInfo>, home: nat, values: Stack)
    requires Holds(blocks, home, values)
    modifies blocks
    ensures Holds(blocks, 0, values)
  {
    forall i | 0 <= i < |blocks| {
      blocks[i].home := 0;
    }
  }

  class PreprocessorInfo {
    /** The depth of this conditional; its two saved lists have the numbers `2 * depth + 1` and
        `2 * depth + 2`. */
    ghost const depth: nat
    const stackBeforeIf: seq<BlockInfo>
    var stackBeforeElse: seq<BlockInfo>
    var seenElse: bool

    constructor (stackBeforeIf: seq<BlockInfo>, ghost depth: nat)
      ensures this.stackBeforeIf == stackBeforeIf && stackBeforeElse == [] && !seenElse
      ensures this.depth == depth
    {
      this.depth := depth;
      this.stackBeforeIf, stackBeforeElse, seenElse := stackBeforeIf, [], false;
    }

    method Remember(kept: seq<BlockInfo>, ghost c: Checkpoint, ghost values: Stack)
      requires Saves(c) && Holds(kept, 2 * depth + 2, values)
      modifies this
      ensures stackBeforeElse == kept && seenElse
      ensures Saves(c.(stackBeforeElse := values, seenElse := true))
    {
      seenElse := true;
      stackBeforeElse := kept;
    }

    ghost predicate Saves(c: Checkpoint)
      reads this, stackBeforeIf, stackBeforeElse
    {
      && Holds(stackBeforeIf, 2 * depth + 1, c.stackBeforeIf)
      && Holds(stackBeforeElse, 2 * depth + 2, c.stackBeforeElse)
      && seenElse == c.seenElse
    }
  }

  class NestingState {
    var stack: seq<BlockInfo>
    var previousStackTop: BlockInfo?
    var ppStack: seq<PreprocessorInfo>

    /** The state of the value-level machine that the objects represent. */
    ghost var model: State
    ghost var Repr: set<object>

    ghost predicate Valid()
      reads this, Repr
      ensures Valid() ==> this in Repr
    {
      Represents(model)
    }

    ghost predicate Represents(m: State)
      reads this, Repr
    {
      && this in Repr
      && Inside(stack, Repr) && Holds(stack, 0, m.stack)
      && |ppStack| == |m.checkpoints|
      && forall k :: 0 <= k < |ppStack| ==>
           && ppStack[k] in Repr && ppStack[k].depth == k
           && Inside(ppStack[k].stackBeforeIf, Repr) && Inside(ppStack[k].stackBeforeElse, Repr)
           && ppStack[k].Saves(m.checkpoints[k])
    }

    /** Along every run the live stack and all the saved stacks are made of different objects. */
    lemma CheckpointsAreSeparate(k: nat, l: nat)
      requires Valid() && k < |ppStack| && l < |ppStack|
      ensures forall b :: b in stack ==> b !in ppStack[k].stackBeforeIf && b !in ppStack[k].stackBeforeElse
      ensures forall b :: b in ppStack[k].stackBeforeIf ==> b !in ppStack[l].stackBeforeElse
      ensures k != l ==> forall b :: b in ppStack[k].stackBeforeIf ==> b !in ppStack[l].stackBeforeIf
      ensures k != l ==> forall b :: b in ppStack[k].stackBeforeElse ==> b !in ppStack[l].stackBeforeElse
    {
      assert ppStack[k].Saves(model.checkpoints[k]) && ppStack[l].Saves(model.checkpoints[l]);
    }

    constructor ()
      ensures Valid() && fresh(Repr)
      ensures model == State([], [])
    {
      stack, previousStackTop, ppStack := [], null, [];
      model := State([], []);
      Repr := {this};
    }

    // ----- in-place changes of the live stack

    /** Assigns to fields of the innermost block. */
    method SetTop(b: Block)
      requires Valid() && stack != []
      requires b.kind == Top(model.stack).kind && b.startingLine == Top(model.stack).startingLine
      modifies Repr
      ensures Valid() && Repr == old(Repr)
      ensures model == old(model).(stack := WithTop(old(model).stack, b))
      ensures stack == old(stack) && previousStackTop == old(previousStackTop)
    {
      stack[|stack| - 1].Assign(b);
      forall k | 0 <= k < |ppStack|
        ensures ppStack[k].Saves(model.checkpoints[k])
      {
        assert old(ppStack[k].Saves(model.checkpoints[k]));
      }
      model := model.(stack := WithTop(model.stack, b));
    }

    method Push(b: Block)
      requires Valid()
      modifies Repr
      ensures Valid() && fresh(Repr - old(Repr))
      ensures model == old(model).(stack := old(model).stack + [b])
      ensures previousStackTop == old(previousStackTop)
    {
      var block := new BlockInfo(b, 0);
      stack := stack + [block];
      model := model.(stack := model.stack + [b]);
      Repr := Repr + {block};
      forall k | 0 <= k < |ppStack|
        ensures ppStack[k].Saves(model.checkpoints[k])
      {
        assert old(ppStack[k].Saves(model.checkpoints[k]));
      }
    }

    method Pop()
      requires Valid() && stack != []
      modifies Repr
      ensures Valid() && Repr == old(Repr)
      ensures model == old(model).(stack := Popped(old(model).stack))
      ensures previousStackTop == old(previousStackTop)
    {
      stack := stack[..|stack| - 1];
      model := model.(stack := Popped(model.stack));
    }

    // ----- checkpoints

    method UpdatePreprocessor(directive: Directive)
      requires Valid()
      modifies Repr
      ensures Valid() && fresh(Repr - old(Repr))
      ensures model == Preprocess(directive, old(model))
      ensures previousStackTop == old(previousStackTop)
    {
      match directive
      case NoDirective =>
      case IfLine => SaveBeforeIf();
      case ElseLine =>
        if ppStack != [] {
          SwitchToElse();
        }
      case EndifLine =>
        if ppStack != [] {
          DropCheckpoint();
        }
    }

    /** A deep copy that the state owns but that is on no list yet. */
    method CopyBlocks(blocks: seq<BlockInfo>, ghost from: nat, ghost values: Stack, ghost home: nat)
      returns (copy: seq<BlockInfo>)
      requires Valid() && Holds(blocks, from, values)
      modifies this`Repr
      ensures Valid() && old(Repr) <= Repr && fresh(Repr - old(Repr))
      ensures Inside(copy, Repr) && Holds(copy, home, values)
    {
      copy := DeepCopy(blocks, home);
      Repr := Repr + (set b | b in copy);
      forall k | 0 <= k < |ppStack|
        ensures ppStack[k].Saves(model.checkpoints[k])
      {
        assert old(ppStack[k].Saves(model.checkpoints[k]));
      }
    }

    method SaveBeforeIf()
      requires Valid()
      modifies Repr
      ensures Valid() && fresh(Repr - old(Repr))
      ensures model == Preprocess(IfLine, old(model))
      ensures previousStackTop == old(previousStackTop)
    {
      var copy := CopyBlocks(stack, 0, model.stack, 2 * |ppStack| + 1);
      var info := new PreprocessorInfo(copy, |ppStack|);
      AddCheckpoint(info);
    }

    method AddCheckpoint(info: PreprocessorInfo)
      requires Valid() && info !in Repr && Inside(info.stackBeforeIf, Repr) && info.stackBeforeElse == []
      requires info.Saves(Checkpoint(model.stack, [], false))
      requires info.depth == |ppStack|
      modifies this
      ensures Valid() && Repr == old(Repr) + {info}
      ensures model == Preprocess(IfLine, old(model))
      ensures previousStackTop == old(previousStackTop)
    {
      Repr := Repr + {info};
      forall k | 0 <= k < |ppStack|
        ensures ppStack[k].Saves(model.checkpoints[k])
      {
        assert old(ppStack[k].Saves(model.checkpoints[k]));
      }
      ppStack := ppStack + [info];
      model := Preprocess(IfLine, model);
    }

    method SwitchToElse()
      requires Valid() && ppStack != []
      modifies Repr
      ensures Valid() && fresh(Repr - old(Repr))
      ensures model == Preprocess(ElseLine, old(model))
      ensures previousStackTop == old(previousStackTop)
    {
      if !ppStack[|ppStack| - 1].seenElse {
        KeepBeforeElse();
      }
      RestoreBeforeIf();
    }

    /** The first `#else`: the live stack up to here is what the matching `#endif` brings back. */
    method KeepBeforeElse()
      requires Valid() && ppStack != [] && !ppStack[|ppStack| - 1].seenElse
      modifies Repr
      ensures Valid() && fresh(Repr - old(Repr)) && ppStack == old(ppStack)
      ensures model == NoteElse(old(model))
      ensures previousStackTop == old(previousStackTop)
    {
      var kept := CopyBlocks(stack, 0, model.stack, 2 * |ppStack|);
      RememberBeforeElse(kept);
    }

    /** Makes a list of blocks the live one. */
    method SetStack(blocks: seq<BlockInfo>, ghost values: Stack)
      requires Valid() && Inside(blocks, Repr) && Holds(blocks, 0, values)
      modifies this`stack, this`model
      ensures Valid() && model == old(model).(stack := values)
    {
      stack := blocks;
      model := model.(stack := values);
    }

    method RestoreBeforeIf()
      requires Valid() && ppStack != []
      modifies this
      ensures Valid() && fresh(Repr - old(Repr))
      ensures ppStack == old(ppStack) && previousStackTop == old(previousStackTop)
      ensures model.checkpoints == old(model).checkpoints
      ensures |model.checkpoints| == |ppStack| && model.stack == model.checkpoints[|ppStack| - 1].stackBeforeIf
    {
      var info := ppStack[|ppStack| - 1];
      ghost var values := model.checkpoints[|ppStack| - 1].stackBeforeIf;
      var copy := CopyBlocks(info.stackBeforeIf, 2 * |ppStack| - 1, values, 0);
      SetStack(copy, values);
    }

    method RememberBeforeElse(kept: seq<BlockInfo>)
      requires Valid() && ppStack != [] && !ppStack[|ppStack| - 1].seenElse
      requires Inside(kept, Repr) && Holds(kept, 2 * |ppStack|, model.stack)
      modifies this`model, ppStack[|ppStack| - 1]
      ensures Valid()
      ensures model == NoteElse(old(model))
    {
      RememberInLast(kept);
      model := NoteElse(model);
    }

    /** The checkpoint of the innermost conditional takes over the kept list. */
    method RememberInLast(kept: seq<BlockInfo>)
      requires Valid() && ppStack != [] && Inside(kept, Repr) && Holds(kept, 2 * |ppStack|, model.stack)
      modifies ppStack[|ppStack| - 1]
      ensures Represents(NoteElse(model))
    {
      ghost var n := |ppStack| - 1;
      ppStack[|ppStack| - 1].Remember(kept, model.checkpoints[n], model.stack);
      NoteElseChangesLast(model);
      forall k | 0 <= k < n
        ensures ppStack[k].Saves(model.checkpoints[k])
      {
        assert old(ppStack[k].Saves(model.checkpoints[k]));
      }
    }

    /** The end of a conditional: with an `#else`, the stack saved before it becomes the live one
        without a copy, its checkpoint being the last reference to it. */
    method DropCheckpoint()
      requires Valid() && ppStack != []
      modifies Repr
      ensures Valid() && Repr == old(Repr)
      ensures model == Preprocess(EndifLine, old(model))
      ensures previousStackTop == old(previousStackTop)
    {
      var info := ppStack[|ppStack| - 1];
      ghost var n := |ppStack| - 1;
      ghost var saved := model.checkpoints[n].stackBeforeElse;
      assert info.Saves(model.checkpoints[n]);
      RemoveCheckpoint();
      if info.seenElse {
        Adopt(info.stackBeforeElse, 2 * n + 2, saved);
      }
    }

    method RemoveCheckpoint()
      requires Valid() && ppStack != []
      modifies this`ppStack, this`model
      ensures Valid() && ppStack == old(ppStack)[..|old(ppStack)| - 1]
      ensures |old(model).checkpoints| == |old(ppStack)|
      ensures model == old(model).(checkpoints := old(model).checkpoints[..|ppStack|])
    {
      ppStack := ppStack[..|ppStack| - 1];
      model := model.(checkpoints := model.checkpoints[..|ppStack|]);
    }

    method Adopt(blocks: seq<BlockInfo>, ghost home: nat, ghost values: Stack)
      requires Valid() && Inside(blocks, Repr) && Holds(blocks, home, values) && home > 2 * |ppStack|
      modifies this`stack, this`model, blocks
      ensures Valid() && model == old(model).(stack := values)
    {
      Relabel(blocks, home, values);
      forall k | 0 <= k < |ppStack|
        ensures ppStack[k].Saves(model.checkpoints[k])
      {
        assert old(ppStack[k].Saves(model.checkpoints[k]));
      }
      stack := blocks;
      model := model.(stack := values);
    }

    // ----- a whole line

    function TopIsOpen(): bool
      requires Valid()
      reads this, Repr
      ensures TopIsOpen() == SeenOpenBrace(model.stack)
    {
      stack == [] || stack[|stack| - 1].seenOpenBrace
    }

    method UpdateParentheses(line: Line)
      requires Valid()
      modifies Repr
      ensures Valid() && fresh(Repr - old(Repr))
      ensures model == old(model).(stack := CountInTop(old(model).stack, line))
      ensures previousStackTop == old(previousStackTop)
    {
      if stack == [] {
        return;
      }
      var inner := stack[|stack| - 1];
      var open := inner.openParentheses + line.depthChange;
      var asm := inner.inlineAsm;
      if asm == NoAsm || asm == EndAsm {
        if line.depthChange != 0 && open == 1 && line.matchesAsm {
          asm := InsideAsm;
        } else {
          asm := NoAsm;
        }
      } else if asm == InsideAsm && open == 0 {
        asm := EndAsm;
      }
      SetTop(inner.Value().(openParentheses := open, inlineAsm := asm));
    }

    method EnterNamespace(number: nat, decl: NamespaceDecl)
      requires Valid()
      modifies Repr
      ensures Valid() && fresh(Repr - old(Repr))
      ensures model == old(model).(stack := old(model).stack +
                [NewBlock(Namespace(decl.name), number).(seenOpenBrace := decl.braceFollows)])
      ensures previousStackTop == old(previousStackTop)
    {
      Push(NewBlock(Namespace(decl.name), number));
      if decl.braceFollows {
        SetTop(stack[|stack| - 1].Value().(seenOpenBrace := true));
      }
    }

    method EnterNamespaces(number: nat, decls: seq<NamespaceDecl>)
      requires Valid()
      modifies Repr
      ensures Valid() && fresh(Repr - old(Repr))
      ensures model == old(model).(stack := PushNamespaces(old(model).stack, number, decls))
      ensures previousStackTop == old(previousStackTop)
    {
      var i := 0;
      while i < |decls|
        invariant i <= |decls|
        invariant Valid() && fresh(Repr - old(Repr))
        invariant model.checkpoints == old(model).checkpoints
        invariant PushNamespaces(model.stack, number, decls[i..]) == PushNamespaces(old(model).stack, number, decls)
        invariant previousStackTop == old(previousStackTop)
      {
        EnterNamespace(number, decls[i]);
        i := i + 1;
      }
    }

    method EnterClass(line: Line) returns (tail: Tail)
      requires Valid()
      modifies Repr
      ensures Valid() && fresh(Repr - old(Repr))
      ensures model == old(model).(stack := PushClass(old(model).stack, line))
      ensures tail == if AcceptsClass(old(model).stack, line) then line.tailAfterClass else line.tail
      ensures previousStackTop == old(previousStackTop)
    {
      tail := line.tail;
      if line.classDecl.Some? && (stack == [] || stack[|stack| - 1].openParentheses == 0) {
        if !line.classDecl.value.inTemplateArguments {
          Push(NewBlock(line.classDecl.value.kind, line.number));
          tail := line.tailAfterClass;
        }
      }
    }

    method NoteClass(line: Line, access: Option<string>)
      requires Valid()
      modifies Repr
      ensures Valid() && fresh(Repr - old(Repr))
      ensures model == old(model).(stack := UpdateAccess(CheckBegin(old(model).stack, line), access))
      ensures previousStackTop == old(previousStackTop)
    {
      if !TopIsOpen() {
        var top := stack[|stack| - 1];
        if top.kind.Class? && line.bareColon {
          SetTop(top.Value().(isDerived := true));
        }
      }
      if stack != [] && stack[|stack| - 1].kind.Class? && access.Some? {
        SetTop(stack[|stack| - 1].Value().(access := access.value));
      }
    }

    method Consume(number: nat, token: Token)
      requires Valid()
      modifies Repr
      ensures Valid() && fresh(Repr - old(Repr))
      ensures model == old(model).(stack := ConsumeToken(old(model).stack, number, token))
      ensures previousStackTop == old(previousStackTop)
    {
      match token
      case OpenBrace(externC, asm) =>
        if !TopIsOpen() {
          SetTop(stack[|stack| - 1].Value().(seenOpenBrace := true));
        } else if externC {
          Push(NewBlock(ExternC, number));
        } else {
          Push(NewBlock(PlainBlock, number));
          if asm {
            SetTop(stack[|stack| - 1].Value().(inlineAsm := BlockAsm));
          }
        }
      case SemicolonOrParenthesis =>
        if !TopIsOpen() {
          Pop();
        }
      case CloseBrace =>
        if stack != [] {
          Pop();
        }
    }

    method ConsumeAll(number: nat, tokens: seq<Token>)
      requires Valid()
      modifies Repr
      ensures Valid() && fresh(Repr - old(Repr))
      ensures model == old(model).(stack := ConsumeTokens(old(model).stack, number, tokens))
      ensures previousStackTop == old(previousStackTop)
    {
      var i := 0;
      while i < |tokens|
        invariant i <= |tokens|
        invariant Valid() && fresh(Repr - old(Repr))
        invariant model.checkpoints == old(model).checkpoints
        invariant ConsumeTokens(model.stack, number, tokens[i..]) == ConsumeTokens(old(model).stack, number, tokens)
        invariant previousStackTop == old(previousStackTop)
      {
        Consume(number, tokens[i]);
        i := i + 1;
      }
    }

    method EnterDeclarations(line: Line) returns (tail: Tail)
      requires Valid()
      modifies Repr
      ensures Valid() && fresh(Repr - old(Repr))
      ensures var inNamespaces := PushNamespaces(CountInTop(old(model).stack, line), line.number, line.namespaces);
              && model == old(model).(stack := PushClass(inNamespaces, line))
              && tail == if AcceptsClass(inNamespaces, line) then line.tailAfterClass else line.tail
      ensures previousStackTop == old(previousStackTop)
    {
      UpdateParentheses(line);
      EnterNamespaces(line.number, line.namespaces);
      tail := EnterClass(line);
    }

    /** Everything in a line but its directive. */
    method UpdateStack(line: Line)
      requires Valid()
      modifies Repr
      ensures Valid() && fresh(Repr - old(Repr))
      ensures model == old(model).(stack := StepLine(line, old(model).stack))
      ensures previousStackTop == old(previousStackTop)
    {
      var tail := EnterDeclarations(line);
      NoteClass(line, tail.access);
      ConsumeAll(line.number, tail.tokens);
    }

    method Update(line: Line)
      requires Valid()
      modifies Repr
      ensures Valid() && fresh(Repr - old(Repr))
      ensures model == NestingModel.Update(StepLine, old(model), line)
      ensures previousStackTop == if old(stack) == [] then null else old(stack)[|old(stack)| - 1]
    {
      previousStackTop := if stack != [] then stack[|stack| - 1] else null;
      UpdatePreprocessor(line.directive);
      UpdateStack(line);
    }

    /** A whole file: the objects end up representing what the value-level machine computes. */
    method UpdateAll(lines: seq<Line>)
      requires Valid()
      modifies Repr
      ensures Valid() && fresh(Repr - old(Repr))
      ensures model == Run(StepLine, old(model), lines)
    {
      for i := 0 to |lines|
        invariant Valid() && fresh(Repr - old(Repr))
        invariant model == Run(StepLine, old(model), lines[..i])
      {
        Update(lines[i]);
        assert lines[..i + 1][..i] == lines[..i];
      }
      assert lines[..|lines|] == lines;
    }

    /** A file with well-nested conditionals: the live blocks end up as the first branches alone, read
        without any preprocessor, would leave them. */
    method UpdateText(t: Text)
      requires Valid() && Proper(t)
      modifies Repr
      ensures Valid() && fresh(Repr - old(Repr))
      ensures model == State(Fold(StepLine, old(model).stack, FirstBranches(t)), old(model).checkpoints)
    {
      Flattening(StepLine, model, t);
      UpdateAll(AllLines(t));
    }
  }
}
