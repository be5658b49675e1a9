/**
 What the features of a line come to on the stack of blocks: namespaces, classes, plain blocks, and, over
 lines that only go on, parentheses, inline assembly, access labels and base classes.
 */
module LineTheorems {
  import opened Wrappers
  import opened NestingModel

  // ----- namespaces

  /** One block per namespace, in order; it is open if its brace is on the line. */
  function NamespaceBlocks(number: nat, decls: seq<NamespaceDecl>): (blocks: Stack)
    ensures |blocks| == |decls|
  {
    seq(|decls|, i requires 0 <= i < |decls| =>
      Block(Namespace(decls[i].name), number, decls[i].braceFollows, 0, NoAsm, "", false))
  }

  lemma {:induction false} NamespacesArePushed(stack: Stack, number: nat, decls: seq<NamespaceDecl>)
    ensures PushNamespaces(stack, number, decls) == stack + NamespaceBlocks(number, decls)
    decreases |decls|
  {
    if decls != [] {
      var b := NamespaceBlocks(number, decls)[0];
      NamespacesArePushed(stack + [b], number, decls[1..]);
      assert NamespaceBlocks(number, decls) == [b] + NamespaceBlocks(number, decls[1..]);
      assert stack + ([b] + NamespaceBlocks(number, decls[1..])) == (stack + [b]) + NamespaceBlocks(number, decls[1..]);
    }
  }

  predicate AllOpen(decls: seq<NamespaceDecl>) {
    forall i :: 0 <= i < |decls| ==> decls[i].braceFollows
  }

  /** A line without a class: before its tokens, the declared namespaces are on the stack and that is all,
      for an access label or a bare colon means nothing to a namespace. */
  lemma DeclaredNamespaces(line: Line, stack: Stack)
    requires line.namespaces != [] && line.classDecl.None?
    ensures StepLine(line, stack) ==
            ConsumeTokens(CountInTop(stack, line) + NamespaceBlocks(line.number, line.namespaces),
                          line.number, line.tail.tokens)
  {
    NamespacesArePushed(CountInTop(stack, line), line.number, line.namespaces);
  }

  /** Namespaces that all have their brace, and a balanced rest: the stack has one open block more for every
      name, in order. */
  lemma OpenedNamespacesStay(line: Line, stack: Stack, b: Braces)
    requires line.namespaces != [] && AllOpen(line.namespaces) && line.classDecl.None?
    requires line.tail.tokens == TokensOf(b)
    ensures StepLine(line, stack) == CountInTop(stack, line) + NamespaceBlocks(line.number, line.namespaces)
  {
    DeclaredNamespaces(line, stack);
    BalancedBracesRestore(CountInTop(stack, line) + NamespaceBlocks(line.number, line.namespaces), line.number, b);
  }

  /** Only closing braces. */
  predicate AllClose(tokens: seq<Token>) {
    forall i :: 0 <= i < |tokens| ==> tokens[i] == CloseBrace
  }

  lemma {:induction false} ClosingBracesPop(stack: Stack, number: nat, tokens: seq<Token>)
    requires AllClose(tokens) && |tokens| <= |stack|
    ensures ConsumeTokens(stack, number, tokens) == stack[..|stack| - |tokens|]
    decreases |tokens|
  {
    if tokens != [] {
      ClosingBracesPop(Popped(stack), number, tokens[1..]);
    }
  }

  /** As many closing braces, on a later line, give the old stack back. */
  lemma NamespacesAreClosed(line: Line, stack: Stack, number: nat, decls: seq<NamespaceDecl>)
    requires decls != [] && AllOpen(decls)
    requires line.namespaces == [] && line.classDecl.None?
    requires AllClose(line.tail.tokens) && |line.tail.tokens| == |decls|
    ensures StepLine(line, stack + NamespaceBlocks(number, decls)) == stack
  {
    var all := stack + NamespaceBlocks(number, decls);
    var counted := CountInTop(all, line);
    assert Top(all) == NamespaceBlocks(number, decls)[|decls| - 1];
    assert counted[..|stack|] == stack;
    ClosingBracesPop(counted, line.number, line.tail.tokens);
  }

  lemma OneMoreNamespace(number: nat, open: seq<NamespaceDecl>, name: string)
    ensures NamespaceBlocks(number, open + [NamespaceDecl(name, false)]) ==
            NamespaceBlocks(number, open) + [Block(Namespace(name), number, false, 0, NoAsm, "", false)]
  {
  }

  lemma SemicolonDrops(stack: Stack, pending: Block, number: nat)
    requires !pending.seenOpenBrace
    ensures ConsumeTokens(stack + [pending], number, [SemicolonOrParenthesis]) == stack
  {
    ConsumeOne(stack + [pending], number, SemicolonOrParenthesis);
    assert Popped(stack + [pending]) == stack;
  }

  /** A namespace without a brace, behind others that have theirs, is taken off by a semicolon on its line. */
  lemma UnopenedNamespaceIsDropped(line: Line, stack: Stack, open: seq<NamespaceDecl>, name: string)
    requires line.namespaces == open + [NamespaceDecl(name, false)] && line.classDecl.None?
    requires line.tail.tokens == [SemicolonOrParenthesis]
    ensures StepLine(line, stack) == CountInTop(stack, line) + NamespaceBlocks(line.number, open)
  {
    var base, blocks := CountInTop(stack, line), NamespaceBlocks(line.number, open);
    var pending := Block(Namespace(name), line.number, false, 0, NoAsm, "", false);
    DeclaredNamespaces(line, stack);
    OneMoreNamespace(line.number, open, name);
    assert base + (blocks + [pending]) == (base + blocks) + [pending];
    SemicolonDrops(base + blocks, pending, line.number);
  }

  /** A namespace or class without its brace is taken off by a semicolon on a later line, and nothing else
      changes: what that line counts and labels is lost with it. */
  lemma NextSemicolonDrops(line: Line, stack: Stack, pending: Block)
    requires line.namespaces == [] && line.classDecl.None? && line.tail.tokens == [SemicolonOrParenthesis]
    requires !pending.seenOpenBrace
    ensures StepLine(line, stack + [pending]) == stack
  {
    LineWithoutDeclarations(line, stack + [pending]);
    var changed := QuietTop(pending, line);
    assert WithTop(stack + [pending], changed) == stack + [changed];
    SemicolonDrops(stack, changed, line.number);
  }

  // ----- classes

  /** What is on the stack before the class of a line. */
  function BeforeClass(line: Line, stack: Stack): Stack {
    CountInTop(stack, line) + NamespaceBlocks(line.number, line.namespaces)
  }

  /** The class of a line counts exactly if it is no template argument and stands outside parentheses, which
      it does behind a namespace of the same line. */
  lemma WhichClassIsAccepted(line: Line, stack: Stack)
    ensures AcceptsClass(BeforeClass(line, stack), line) <==>
            && line.classDecl.Some? && !line.classDecl.value.inTemplateArguments
            && (line.namespaces != [] || stack == [] || Top(stack).openParentheses + line.depthChange == 0)
  {
    if line.namespaces == [] {
      assert BeforeClass(line, stack) == CountInTop(stack, line);
    } else {
      var blocks := NamespaceBlocks(line.number, line.namespaces);
      assert Top(BeforeClass(line, stack)) == blocks[|blocks| - 1];
    }
  }

  /** A class whose brace is on its line and stays open, behind any namespaces of the line: its access is the
      label on it, or else what `class` and `struct` start with, and it is derived if there is a bare colon. */
  lemma OpenedClassStays(line: Line, stack: Stack, b: Braces, externC: bool, asm: bool)
    requires AcceptsClass(BeforeClass(line, stack), line) && line.classDecl.value.kind.Class?
    requires line.tailAfterClass.tokens == [OpenBrace(externC, asm)] + TokensOf(b)
    ensures var kind, word := line.classDecl.value.kind, line.tailAfterClass.access;
            var access := if word.Some? then word.value else if kind.isStruct then "public" else "private";
            StepLine(line, stack) ==
            BeforeClass(line, stack) + [Block(kind, line.number, true, 0, NoAsm, access, line.bareColon)]
  {
    var kind, word := line.classDecl.value.kind, line.tailAfterClass.access;
    var access := if word.Some? then word.value else if kind.isStruct then "public" else "private";
    PendingClass(line, stack);
    OpenedAndBalanced(BeforeClass(line, stack), Block(kind, line.number, false, 0, NoAsm, access, line.bareColon),
                      line.number, b, externC, asm);
  }

  /** A declared class, before the rest of its line. */
  lemma PendingClass(line: Line, stack: Stack)
    requires AcceptsClass(BeforeClass(line, stack), line) && line.classDecl.value.kind.Class?
    ensures var kind, word := line.classDecl.value.kind, line.tailAfterClass.access;
            var access := if word.Some? then word.value else if kind.isStruct then "public" else "private";
            StepLine(line, stack) ==
            ConsumeTokens(
              BeforeClass(line, stack) + [Block(kind, line.number, false, 0, NoAsm, access, line.bareColon)],
              line.number, line.tailAfterClass.tokens)
  {
    NamespacesArePushed(CountInTop(stack, line), line.number, line.namespaces);
    var before, kind, word := BeforeClass(line, stack), line.classDecl.value.kind, line.tailAfterClass.access;
    var declared := NewBlock(kind, line.number);
    var checked := declared.(isDerived := line.bareColon);
    assert CheckBegin(before + [declared], line) == before + [checked];
    assert UpdateAccess(before + [checked], word) ==
           before + [if word.Some? then checked.(access := word.value) else checked];
  }

  lemma OpenedAndBalanced(stack: Stack, pending: Block, number: nat, b: Braces, externC: bool, asm: bool)
    requires !pending.seenOpenBrace
    ensures ConsumeTokens(stack + [pending], number, [OpenBrace(externC, asm)] + TokensOf(b)) ==
            stack + [pending.(seenOpenBrace := true)]
  {
    var open := pending.(seenOpenBrace := true);
    ConsumeConcat(stack + [pending], number, [OpenBrace(externC, asm)], TokensOf(b));
    ConsumeOne(stack + [pending], number, OpenBrace(externC, asm));
    assert WithTop(stack + [pending], open) == stack + [open];
    BalancedBracesRestore(stack + [open], number, b);
  }

  /** Within parentheses, or among template arguments, `class` declares nothing. */
  lemma ArgumentClassIsIgnored(line: Line, stack: Stack)
    requires line.namespaces == [] && line.classDecl.Some?
    requires || line.classDecl.value.inTemplateArguments
             || (stack != [] && Top(stack).openParentheses + line.depthChange != 0)
    ensures StepLine(line, stack) == StepLine(line.(classDecl := None), stack)
  {
  }

  // ----- blocks that stay open

  /** A block that stays open, and balanced text behind its brace. */
  datatype Staying = Staying(externC: bool, asm: bool, rest: Braces)

  function OpenedTokens(staying: seq<Staying>): seq<Token> {
    if staying == [] then []
    else [OpenBrace(staying[0].externC, staying[0].asm)] + TokensOf(staying[0].rest) + OpenedTokens(staying[1..])
  }

  function OpenedBlocks(number: nat, staying: seq<Staying>): (blocks: Stack)
    ensures |blocks| == |staying|
  {
    seq(|staying|, i requires 0 <= i < |staying| =>
      if staying[i].externC then Block(ExternC, number, true, 0, NoAsm, "", false)
      else Block(PlainBlock, number, true, 0, if staying[i].asm then BlockAsm else NoAsm, "", false))
  }

  /** Inside an open block every brace that is not closed leaves one block: of `extern "C"`, of inline
      assembly, or a plain one. */
  lemma {:induction false} OpenedBlocksStay(stack: Stack, number: nat, staying: seq<Staying>)
    requires SeenOpenBrace(stack)
    ensures ConsumeTokens(stack, number, OpenedTokens(staying)) == stack + OpenedBlocks(number, staying)
    decreases |staying|
  {
    if staying == [] {
      assert stack + OpenedBlocks(number, staying) == stack;
    } else {
      var o, rest, block := staying[0], staying[1..], OpenedBlocks(number, staying)[0];
      var open := OpenBrace(o.externC, o.asm);
      ConsumeConcat(stack, number, [open] + TokensOf(o.rest), OpenedTokens(rest));
      ConsumeConcat(stack, number, [open], TokensOf(o.rest));
      ConsumeOne(stack, number, open);
      BalancedBracesRestore(stack + [block], number, o.rest);
      OpenedBlocksStay(stack + [block], number, rest);
      OneMoreBlock(stack, number, staying);
    }
  }

  lemma OneMoreBlock(stack: Stack, number: nat, staying: seq<Staying>)
    requires staying != []
    ensures (stack + [OpenedBlocks(number, staying)[0]]) + OpenedBlocks(number, staying[1..]) ==
            stack + OpenedBlocks(number, staying)
  {
  }

  // ----- lines that open and close nothing

  /** Neither a declaration nor a brace, a semicolon or a closing parenthesis. */
  predicate Quiet(line: Line) {
    line.namespaces == [] && line.classDecl.None? && line.tail.tokens == []
  }

  predicate AllQuiet(lines: seq<Line>) {
    forall i :: 0 <= i < |lines| ==> Quiet(lines[i])
  }

  function DepthSum(lines: seq<Line>): int {
    if lines == [] then 0 else DepthSum(lines[..|lines| - 1]) + lines[|lines| - 1].depthChange
  }

  /** The parentheses that are open after line `i`. */
  function OpenAfter(b: Block, lines: seq<Line>, i: nat): int
    requires i < |lines|
  {
    b.openParentheses + DepthSum(lines[..i + 1])
  }

  /** Line `i` begins an assembly block: it opens the first parenthesis, and looks like one. */
  predicate EntersAsm(b: Block, lines: seq<Line>, i: nat)
    requires i < |lines|
  {
    lines[i].depthChange != 0 && OpenAfter(b, lines, i) == 1 && lines[i].matchesAsm
  }

  /** No line from `i` on closes all parentheses. */
  ghost predicate NeverCloses(b: Block, lines: seq<Line>, i: nat) {
    forall j {:trigger OpenAfter(b, lines, j)} :: i <= j < |lines| ==> OpenAfter(b, lines, j) != 0
  }

  /** Inside an assembly block: it was entered, or was going on, and the parentheses were never all closed
      since. */
  ghost predicate IsInsideAsm(b: Block, lines: seq<Line>) {
    || (b.inlineAsm == InsideAsm && NeverCloses(b, lines, 0))
    || (exists i :: 0 <= i < |lines| && EntersAsm(b, lines, i) && NeverCloses(b, lines, i + 1))
  }

  /** The last access label, or what it was. */
  function LastAccess(access: string, lines: seq<Line>): string {
    if lines == [] then access
    else if lines[|lines| - 1].tail.access.Some? then lines[|lines| - 1].tail.access.value
    else LastAccess(access, lines[..|lines| - 1])
  }

  ghost predicate HasBareColon(lines: seq<Line>) {
    exists i :: 0 <= i < |lines| && lines[i].bareColon
  }

  /** The block `b` after these lines. */
  ghost predicate IsAfter(b: Block, lines: seq<Line>, c: Block) {
    && c.kind == b.kind && c.startingLine == b.startingLine && c.seenOpenBrace == b.seenOpenBrace
    && c.openParentheses == b.openParentheses + DepthSum(lines)
    && c.access == (if b.kind.Class? then LastAccess(b.access, lines) else b.access)
    && (c.isDerived <==> b.isDerived || (b.kind.Class? && !b.seenOpenBrace && HasBareColon(lines)))
  }

  /** Inline assembly after these lines: a block of it stays one; otherwise the innermost block is inside
      exactly if that was entered and not left, and just behind its end if it was inside up to the last
      line and that closed all parentheses. */
  ghost predicate IsAsmAfter(b: Block, lines: seq<Line>, asm: AsmState) {
    if b.inlineAsm == BlockAsm || lines == [] then asm == b.inlineAsm
    else
      && asm != BlockAsm && (asm == InsideAsm <==> IsInsideAsm(b, lines))
      && (asm == EndAsm <==>
            IsInsideAsm(b, lines[..|lines| - 1]) && OpenAfter(b, lines, |lines| - 1) == 0)
  }

  /** The innermost block after one such line. */
  function QuietTop(b: Block, line: Line): Block {
    var counted := CountParentheses(b, line);
    var checked :=
      if !b.seenOpenBrace && b.kind.Class? && line.bareColon then counted.(isDerived := true) else counted;
    if b.kind.Class? && line.tail.access.Some? then checked.(access := line.tail.access.value) else checked
  }

  /** A line without declarations: its features change the innermost block, before its tokens are read. */
  lemma LineWithoutDeclarations(line: Line, stack: Stack)
    requires line.namespaces == [] && line.classDecl.None? && stack != []
    ensures StepLine(line, stack) ==
            ConsumeTokens(WithTop(stack, QuietTop(Top(stack), line)), line.number, line.tail.tokens)
  {
    var counted := CountInTop(stack, line);
    var checked := CheckBegin(counted, line);
    assert Top(checked).kind == Top(stack).kind;
    assert UpdateAccess(checked, line.tail.access) == WithTop(stack, QuietTop(Top(stack), line));
  }

  lemma OpenOneMore(b: Block, lines: seq<Line>, line: Line)
    ensures OpenAfter(b, lines + [line], |lines|) == b.openParentheses + DepthSum(lines) + line.depthChange
    ensures forall i {:trigger OpenAfter(b, lines + [line], i)} ::
              0 <= i < |lines| ==> OpenAfter(b, lines + [line], i) == OpenAfter(b, lines, i)
  {
    var all := lines + [line];
    assert all[..|all|] == all && all[..|lines|] == lines;
    forall i {:trigger OpenAfter(b, all, i)} | 0 <= i < |lines|
      ensures OpenAfter(b, all, i) == OpenAfter(b, lines, i)
    {
      assert all[..i + 1] == lines[..i + 1];
    }
  }

  lemma NeverClosesOneMore(b: Block, lines: seq<Line>, line: Line, i: nat)
    requires i <= |lines|
    ensures NeverCloses(b, lines + [line], i) <==>
            NeverCloses(b, lines, i) && OpenAfter(b, lines + [line], |lines|) != 0
  {
    OpenOneMore(b, lines, line);
    if NeverCloses(b, lines + [line], i) {
      forall j {:trigger OpenAfter(b, lines, j)} | i <= j < |lines|
        ensures OpenAfter(b, lines, j) != 0
      {
        assert OpenAfter(b, lines + [line], j) == OpenAfter(b, lines, j);
      }
    }
  }

  lemma EntersOneMore(b: Block, lines: seq<Line>, line: Line, i: nat)
    requires i < |lines|
    ensures EntersAsm(b, lines + [line], i) <==> EntersAsm(b, lines, i)
  {
    OpenOneMore(b, lines, line);
    assert (lines + [line])[i] == lines[i];
  }

  lemma InsideStays(b: Block, lines: seq<Line>, line: Line)
    requires IsInsideAsm(b, lines) && OpenAfter(b, lines + [line], |lines|) != 0
    ensures IsInsideAsm(b, lines + [line])
  {
    if b.inlineAsm == InsideAsm && NeverCloses(b, lines, 0) {
      NeverClosesOneMore(b, lines, line, 0);
    } else {
      var i :| 0 <= i < |lines| && EntersAsm(b, lines, i) && NeverCloses(b, lines, i + 1);
      EntersOneMore(b, lines, line, i);
      NeverClosesOneMore(b, lines, line, i + 1);
    }
  }

  lemma InsideWas(b: Block, lines: seq<Line>, line: Line)
    requires IsInsideAsm(b, lines + [line]) && !EntersAsm(b, lines + [line], |lines|)
    ensures IsInsideAsm(b, lines) && OpenAfter(b, lines + [line], |lines|) != 0
  {
    var all := lines + [line];
    if b.inlineAsm == InsideAsm && NeverCloses(b, all, 0) {
      NeverClosesOneMore(b, lines, line, 0);
    } else {
      var i :| 0 <= i < |all| && EntersAsm(b, all, i) && NeverCloses(b, all, i + 1);
      EntersOneMore(b, lines, line, i);
      NeverClosesOneMore(b, lines, line, i + 1);
    }
  }

  lemma InsideOneMore(b: Block, lines: seq<Line>, line: Line)
    ensures var all, open := lines + [line], b.openParentheses + DepthSum(lines) + line.depthChange;
            IsInsideAsm(b, all) <==>
              || (IsInsideAsm(b, lines) && open != 0)
              || (line.depthChange != 0 && open == 1 && line.matchesAsm)
  {
    var all := lines + [line];
    OpenOneMore(b, lines, line);
    if EntersAsm(b, all, |lines|) {
      assert NeverCloses(b, all, |lines| + 1);
    } else if IsInsideAsm(b, all) {
      InsideWas(b, lines, line);
    }
    if IsInsideAsm(b, lines) && OpenAfter(b, all, |lines|) != 0 { InsideStays(b, lines, line); }
  }

  /** Assembly after one such line. */
  lemma NextAsm(c: Block, line: Line)
    ensures var open := c.openParentheses + line.depthChange;
            QuietTop(c, line).inlineAsm ==
            match c.inlineAsm
            case BlockAsm => BlockAsm
            case InsideAsm => if open == 0 then EndAsm else InsideAsm
            case _ => if line.depthChange != 0 && open == 1 && line.matchesAsm then InsideAsm else NoAsm
  {
  }

  lemma AsmOneMore(b: Block, lines: seq<Line>, line: Line, asm: AsmState, c: Block)
    requires c.openParentheses == b.openParentheses + DepthSum(lines) && IsAsmAfter(b, lines, c.inlineAsm)
    requires asm == QuietTop(c, line).inlineAsm
    ensures IsAsmAfter(b, lines + [line], asm)
  {
    NextAsm(c, line);
    InsideAtStart(b, lines);
    InsideOneMore(b, lines, line);
    OpenOneMore(b, lines, line);
    assert (lines + [line])[..|lines|] == lines && (lines + [line])[|lines|] == line;
  }

  lemma InsideAtStart(b: Block, lines: seq<Line>)
    ensures lines == [] ==> (IsInsideAsm(b, lines) <==> b.inlineAsm == InsideAsm)
  {
  }

  lemma AfterOneMore(b: Block, lines: seq<Line>, line: Line, c: Block)
    requires IsAfter(b, lines, c)
    ensures IsAfter(b, lines + [line], QuietTop(c, line))
  {
    var all := lines + [line];
    assert all[..|lines|] == lines && all[|lines|] == line;
    if HasBareColon(lines) {
      var i :| 0 <= i < |lines| && lines[i].bareColon;
      assert all[i].bareColon;
    }
    if HasBareColon(all) {
      var i :| 0 <= i < |all| && all[i].bareColon;
      assert i < |lines| ==> lines[i].bareColon;
    }
  }

  /** `after` is what these lines make of the stack: its innermost block is changed, and nothing else. */
  ghost predicate AddsUp(stack: Stack, lines: seq<Line>, after: Stack) {
    && stack != [] && |after| == |stack| && Popped(after) == Popped(stack)
    && IsAfter(Top(stack), lines, Top(after)) && IsAsmAfter(Top(stack), lines, Top(after).inlineAsm)
  }

  lemma AddsUpOneMore(stack: Stack, lines: seq<Line>, line: Line, before: Stack)
    requires AddsUp(stack, lines, before) && Quiet(line)
    ensures AddsUp(stack, lines + [line], StepLine(line, before))
  {
    var top := QuietTop(Top(before), line);
    LineWithoutDeclarations(line, before);
    assert StepLine(line, before) == WithTop(before, top);
    AfterOneMore(Top(stack), lines, line, Top(before));
    AsmOneMore(Top(stack), lines, line, top.inlineAsm, Top(before));
  }

  /** Lines that open and close nothing change the innermost block only: its parentheses are the sum of what
      the lines change, its access is the last label, a class that waits for its brace is derived once there
      is a bare colon, and assembly is followed from the line that enters it to the one that leaves it. */
  lemma {:induction false} QuietLinesAddUp(stack: Stack, lines: seq<Line>)
    requires stack != [] && AllQuiet(lines)
    ensures AddsUp(stack, lines, Fold(StepLine, stack, lines))
  {
    if lines != [] {
      var init, line := lines[..|lines| - 1], lines[|lines| - 1];
      QuietLinesAddUp(stack, init);
      AddsUpOneMore(stack, init, line, Fold(StepLine, stack, init));
      assert init + [line] == lines;
    }
  }
}
