/**
 The nesting machine of cpplint on plain values: what one line does to the stack of open blocks, and
 what `#if`, `#else`, `#elif` and `#endif` do with checkpoints of that stack. The regular expressions
 that look at a line are replaced by the features they extract from it.
 */
module NestingModel {
  import opened Wrappers

  datatype AsmState = NoAsm | InsideAsm | EndAsm | BlockAsm

  datatype BlockKind =
    | PlainBlock
    | ExternC
    | Namespace(name: string)
    | Class(name: string, isStruct: bool, indent: nat, lastLine: nat)

  datatype Block = Block(
    kind: BlockKind,
    startingLine: nat,
    seenOpenBrace: bool,
    openParentheses: int,
    inlineAsm: AsmState,
    access: string,
    isDerived: bool)

  type Stack = seq<Block>

  function NewBlock(kind: BlockKind, line: nat): Block {
    var access := if !kind.Class? then "" else if kind.isStruct then "public" else "private";
    Block(kind, line, kind.PlainBlock? || kind.ExternC?, 0, NoAsm, access, false)
  }

  // ----- the features of a line

  datatype Directive = NoDirective | IfLine | ElseLine | EndifLine

  /** A namespace declared at the front of the line, and whether a brace follows on the line. */
  datatype NamespaceDecl = NamespaceDecl(name: string, braceFollows: bool)

  /** A class declared on the line, and whether it sits in a template argument list. */
  datatype ClassDecl = ClassDecl(kind: BlockKind, inTemplateArguments: bool)

  datatype Token = OpenBrace(externC: bool, asm: bool) | SemicolonOrParenthesis | CloseBrace

  /** What is left of the line once the declarations are consumed. */
  datatype Tail = Tail(access: Option<string>, tokens: seq<Token>)

  datatype Line = Line(
    number: nat,
    directive: Directive,
    depthChange: int,
    matchesAsm: bool,
    namespaces: seq<NamespaceDecl>,
    classDecl: Option<ClassDecl>,
    bareColon: bool,
    tail: Tail,
    tailAfterClass: Tail)

  // ----- what a line does to the stack

  function Top(stack: Stack): Block
    requires stack != []
  {
    stack[|stack| - 1]
  }

  function Popped(stack: Stack): Stack
    requires stack != []
  {
    stack[..|stack| - 1]
  }

  function WithTop(stack: Stack, b: Block): Stack
    requires stack != []
  {
    stack[|stack| - 1 := b]
  }

  predicate SeenOpenBrace(stack: Stack) {
    stack == [] || Top(stack).seenOpenBrace
  }

  /** Counts parentheses in the innermost block and follows inline assembly. */
  function CountParentheses(b: Block, line: Line): Block {
    var open := b.openParentheses + line.depthChange;
    var asm :=
      if b.inlineAsm == NoAsm || b.inlineAsm == EndAsm then
        if line.depthChange != 0 && open == 1 && line.matchesAsm then InsideAsm else NoAsm
      else if b.inlineAsm == InsideAsm && open == 0 then EndAsm
      else b.inlineAsm;
    b.(openParentheses := open, inlineAsm := asm)
  }

  function CountInTop(stack: Stack, line: Line): Stack {
    if stack == [] then stack else WithTop(stack, CountParentheses(Top(stack), line))
  }

  function PushNamespaces(stack: Stack, number: nat, decls: seq<NamespaceDecl>): Stack
    decreases |decls|
  {
    if decls == [] then stack
    else
      var b := NewBlock(Namespace(decls[0].name), number).(seenOpenBrace := decls[0].braceFollows);
      PushNamespaces(stack + [b], number, decls[1..])
  }

  predicate AcceptsClass(stack: Stack, line: Line) {
    && line.classDecl.Some?
    && (stack == [] || Top(stack).openParentheses == 0)
    && !line.classDecl.value.inTemplateArguments
  }

  function PushClass(stack: Stack, line: Line): Stack {
    if AcceptsClass(stack, line) then stack + [NewBlock(line.classDecl.value.kind, line.number)] else stack
  }

  /** The checks a class runs before its opening brace: it notes whether it derives. */
  function CheckBegin(stack: Stack, line: Line): Stack {
    if !SeenOpenBrace(stack) && Top(stack).kind.Class? && line.bareColon
    then WithTop(stack, Top(stack).(isDerived := true)) else stack
  }

  function UpdateAccess(stack: Stack, access: Option<string>): Stack {
    if stack != [] && Top(stack).kind.Class? && access.Some?
    then WithTop(stack, Top(stack).(access := access.value)) else stack
  }

  function ConsumeToken(stack: Stack, number: nat, token: Token): Stack {
    match token
    case OpenBrace(externC, asm) =>
      if !SeenOpenBrace(stack) then WithTop(stack, Top(stack).(seenOpenBrace := true))
      else if externC then stack + [NewBlock(ExternC, number)]
      else stack + [NewBlock(PlainBlock, number).(inlineAsm := if asm then BlockAsm else NoAsm)]
    case SemicolonOrParenthesis =>
      if !SeenOpenBrace(stack) then Popped(stack) else stack
    case CloseBrace =>
      if stack != [] then Popped(stack) else stack
  }

  function ConsumeTokens(stack: Stack, number: nat, tokens: seq<Token>): Stack
    decreases |tokens|
  {
    if tokens == [] then stack
    else ConsumeTokens(ConsumeToken(stack, number, tokens[0]), number, tokens[1..])
  }

  function StepLine(line: Line, stack: Stack): Stack {
    var inNamespaces := PushNamespaces(CountInTop(stack, line), line.number, line.namespaces);
    var inClass := PushClass(inNamespaces, line);
    var tail := if AcceptsClass(inNamespaces, line) then line.tailAfterClass else line.tail;
    var checked := UpdateAccess(CheckBegin(inClass, line), tail.access);
    ConsumeTokens(checked, line.number, tail.tokens)
  }

  // ----- braces balance

  /** What braces, semicolons and parentheses with balanced braces look like. */
  datatype Braces =
    | NoBraces
    | Separator(rest: Braces)
    | Braced(externC: bool, asm: bool, inner: Braces, rest: Braces)

  function TokensOf(b: Braces): seq<Token> {
    match b
    case NoBraces => []
    case Separator(rest) => [SemicolonOrParenthesis] + TokensOf(rest)
    case Braced(externC, asm, inner, rest) =>
      [OpenBrace(externC, asm)] + TokensOf(inner) + [CloseBrace] + TokensOf(rest)
  }

  lemma {:induction false} ConsumeConcat(stack: Stack, number: nat, a: seq<Token>, b: seq<Token>)
    ensures ConsumeTokens(stack, number, a + b) == ConsumeTokens(ConsumeTokens(stack, number, a), number, b)
    decreases |a|
  {
    if a == [] {
      assert a + b == b;
    } else {
      assert (a + b)[1..] == a[1..] + b;
      ConsumeConcat(ConsumeToken(stack, number, a[0]), number, a[1..], b);
    }
  }

  lemma ConsumeOne(stack: Stack, number: nat, token: Token)
    ensures ConsumeTokens(stack, number, [token]) == ConsumeToken(stack, number, token)
  {
    assert [token][1..] == [];
  }

  /** Inside a block whose brace has been seen, balanced braces push and pop in step: the stack is
      what it was. */
  lemma {:induction false} BalancedBracesRestore(stack: Stack, number: nat, b: Braces)
    requires SeenOpenBrace(stack)
    ensures ConsumeTokens(stack, number, TokensOf(b)) == stack
    decreases b
  {
    match b
    case NoBraces =>
    case Separator(rest) =>
      ConsumeConcat(stack, number, [SemicolonOrParenthesis], TokensOf(rest));
      ConsumeOne(stack, number, SemicolonOrParenthesis);
      BalancedBracesRestore(stack, number, rest);
    case Braced(externC, asm, inner, rest) =>
      var open := OpenBrace(externC, asm);
      var entered := ConsumeToken(stack, number, open);
      ConsumeConcat(stack, number, [open] + TokensOf(inner) + [CloseBrace], TokensOf(rest));
      ConsumeConcat(stack, number, [open] + TokensOf(inner), [CloseBrace]);
      ConsumeConcat(stack, number, [open], TokensOf(inner));
      ConsumeOne(stack, number, open);
      ConsumeOne(entered, number, CloseBrace);
      BalancedBracesRestore(entered, number, inner);
      BalancedBracesRestore(stack, number, rest);
      assert Popped(entered) == stack;
  }

  /** A declaration is open until its first brace. If that comes and is closed again, or a semicolon
      comes first, the declaration is off the stack and nothing else has changed. */
  lemma DeclarationIsClosed(stack: Stack, number: nat, b: Braces, externC: bool, asm: bool)
    requires stack != [] && !Top(stack).seenOpenBrace
    ensures ConsumeTokens(stack, number, [SemicolonOrParenthesis]) == Popped(stack)
    ensures ConsumeTokens(stack, number, [OpenBrace(externC, asm)] + TokensOf(b) + [CloseBrace]) == Popped(stack)
  {
    var open := OpenBrace(externC, asm);
    var entered := WithTop(stack, Top(stack).(seenOpenBrace := true));
    ConsumeOne(stack, number, SemicolonOrParenthesis);
    ConsumeConcat(stack, number, [open] + TokensOf(b), [CloseBrace]);
    ConsumeConcat(stack, number, [open], TokensOf(b));
    ConsumeOne(stack, number, open);
    BalancedBracesRestore(entered, number, b);
    ConsumeOne(entered, number, CloseBrace);
    assert Popped(entered) == Popped(stack);
  }

  /** A line that declares a class and closes it, or only announces it, leaves no trace on the stack but
      the parentheses it counts. */
  lemma ClosedClassLeavesNoTrace(line: Line, stack: Stack, b: Braces, externC: bool, asm: bool)
    requires line.namespaces == [] && AcceptsClass(CountInTop(stack, line), line)
    requires line.classDecl.value.kind.Class?
    requires || line.tailAfterClass.tokens == [SemicolonOrParenthesis]
             || line.tailAfterClass.tokens == [OpenBrace(externC, asm)] + TokensOf(b) + [CloseBrace]
    ensures StepLine(line, stack) == CountInTop(stack, line)
  {
    var counted := CountInTop(stack, line);
    var declared := UpdateAccess(CheckBegin(PushClass(counted, line), line), line.tailAfterClass.access);
    assert Popped(declared) == counted && !Top(declared).seenOpenBrace;
    DeclarationIsClosed(declared, line.number, b, externC, asm);
  }

  // ----- checkpoints

  datatype Checkpoint = Checkpoint(stackBeforeIf: Stack, stackBeforeElse: Stack, seenElse: bool)

  datatype State = State(stack: Stack, checkpoints: seq<Checkpoint>)

  /** The first `#else` of the innermost conditional: its checkpoint takes the stack reached so far. */
  function NoteElse(st: State): State
    requires st.checkpoints != []
  {
    var n := |st.checkpoints|;
    st.(checkpoints := st.checkpoints[n - 1 := st.checkpoints[n - 1].(seenElse := true, stackBeforeElse := st.stack)])
  }

  lemma NoteElseChangesLast(st: State)
    requires st.checkpoints != []
    ensures var after, n := NoteElse(st).checkpoints, |st.checkpoints| - 1;
            && |after| == n + 1 && after[n] == st.checkpoints[n].(seenElse := true, stackBeforeElse := st.stack)
            && forall k :: 0 <= k < n ==> after[k] == st.checkpoints[k]
  {
  }

  function Preprocess(directive: Directive, st: State): State {
    var n := |st.checkpoints|;
    match directive
    case NoDirective => st
    case IfLine => st.(checkpoints := st.checkpoints + [Checkpoint(st.stack, [], false)])
    case ElseLine =>
      if n == 0 then st
      else
        var noted := if st.checkpoints[n - 1].seenElse then st else NoteElse(st);
        noted.(stack := st.checkpoints[n - 1].stackBeforeIf)
    case EndifLine =>
      if n == 0 then st
      else
        var c := st.checkpoints[n - 1];
        State(if c.seenElse then c.stackBeforeElse else st.stack, st.checkpoints[..n - 1])
  }

  /** What a line does to the stack of blocks; the results below hold whatever it does. */
  type Step = (Line, Stack) -> Stack

  function Update(step: Step, st: State, line: Line): State {
    var p := Preprocess(line.directive, st);
    p.(stack := step(line, p.stack))
  }

  function Run(step: Step, st: State, lines: seq<Line>): State {
    if lines == [] then st else Update(step, Run(step, st, lines[..|lines| - 1]), lines[|lines| - 1])
  }

  /** The same lines with no preprocessor at all. */
  function Fold(step: Step, stack: Stack, lines: seq<Line>): Stack {
    if lines == [] then stack
    else step(lines[|lines| - 1], Fold(step, stack, lines[..|lines| - 1]))
  }

  lemma {:induction false} RunConcat(step: Step, st: State, a: seq<Line>, b: seq<Line>)
    ensures Run(step, st, a + b) == Run(step, Run(step, st, a), b)
  {
    if b == [] {
      assert a + b == a;
    } else {
      assert (a + b)[..|a + b| - 1] == a + b[..|b| - 1];
      RunConcat(step, st, a, b[..|b| - 1]);
    }
  }

  lemma {:induction false} FoldConcat(step: Step, stack: Stack, a: seq<Line>, b: seq<Line>)
    ensures Fold(step, stack, a + b) == Fold(step, Fold(step, stack, a), b)
  {
    if b == [] {
      assert a + b == a;
    } else {
      assert (a + b)[..|a + b| - 1] == a + b[..|b| - 1];
      FoldConcat(step, stack, a, b[..|b| - 1]);
    }
  }

  // ----- flattening: well-nested conditionals

  /** Lines with well-nested conditionals. */
  datatype Text =
    | Done
    | OneLine(line: Line, rest: Text)
    | Conditional(ifLine: Line, first: Text, others: Branches, endifLine: Line, rest: Text)

  /** The `#else` and `#elif` branches of a conditional. */
  datatype Branches = NoMore | Branch(elseLine: Line, body: Text, next: Branches)

  predicate Proper(t: Text) {
    match t
    case Done => true
    case OneLine(line, rest) => line.directive == NoDirective && Proper(rest)
    case Conditional(ifLine, first, others, endifLine, rest) =>
      && ifLine.directive == IfLine && Proper(first) && ProperBranches(others)
      && endifLine.directive == EndifLine && Proper(rest)
  }

  predicate ProperBranches(b: Branches) {
    match b
    case NoMore => true
    case Branch(elseLine, body, next) => elseLine.directive == ElseLine && Proper(body) && ProperBranches(next)
  }

  function AllLines(t: Text): seq<Line> {
    match t
    case Done => []
    case OneLine(line, rest) => [line] + AllLines(rest)
    case Conditional(ifLine, first, others, endifLine, rest) =>
      [ifLine] + AllLines(first) + BranchLines(others) + [endifLine] + AllLines(rest)
  }

  function BranchLines(b: Branches): seq<Line> {
    match b
    case NoMore => []
    case Branch(elseLine, body, next) => [elseLine] + AllLines(body) + BranchLines(next)
  }

  /** Only the first branch of every conditional, between its `#if` and `#endif` lines. */
  function FirstBranches(t: Text): seq<Line> {
    match t
    case Done => []
    case OneLine(line, rest) => [line] + FirstBranches(rest)
    case Conditional(ifLine, first, others, endifLine, rest) =>
      [ifLine] + FirstBranches(first) + [endifLine] + FirstBranches(rest)
  }

  lemma RunOne(step: Step, st: State, line: Line)
    ensures Run(step, st, [line]) == Update(step, st, line)
    ensures Fold(step, st.stack, [line]) == step(line, st.stack)
  {
    assert [line][..0] == [];
  }

  /** Preprocessor flattening: from any state, running well-nested conditionals leaves the stack that
      the first branches alone would leave without any preprocessor, and the checkpoints as they were. */
  lemma {:induction false} Flattening(step: Step, st: State, t: Text)
    requires Proper(t)
    ensures Run(step, st, AllLines(t)) == State(Fold(step, st.stack, FirstBranches(t)), st.checkpoints)
    decreases t
  {
    match t
    case Done =>
    case OneLine(line, rest) =>
      RunConcat(step, st, [line], AllLines(rest));
      FoldConcat(step, st.stack, [line], FirstBranches(rest));
      RunOne(step, st, line);
      Flattening(step, Update(step, st, line), rest);
    case Conditional(ifLine, first, others, endifLine, rest) =>
      var entered := Update(step, st, ifLine);
      RunOne(step, st, ifLine);
      Flattening(step, entered, first);
      var afterFirst := Run(step, entered, AllLines(first));
      OtherBranches(step, afterFirst, others);
      var beforeEndif := Run(step, afterFirst, BranchLines(others));
      RunOne(step, beforeEndif, endifLine);
      RunOne(step, afterFirst, endifLine);
      var closed := Update(step, beforeEndif, endifLine);
      Flattening(step, closed, rest);
      RunConcat(step, st, [ifLine] + AllLines(first) + BranchLines(others) + [endifLine], AllLines(rest));
      RunConcat(step, st, [ifLine] + AllLines(first) + BranchLines(others), [endifLine]);
      RunConcat(step, st, [ifLine] + AllLines(first), BranchLines(others));
      RunConcat(step, st, [ifLine], AllLines(first));
      FoldConcat(step, st.stack, [ifLine] + FirstBranches(first) + [endifLine], FirstBranches(rest));
      FoldConcat(step, st.stack, [ifLine] + FirstBranches(first), [endifLine]);
      FoldConcat(step, st.stack, [ifLine], FirstBranches(first));
      assert closed == State(step(endifLine, afterFirst.stack), st.checkpoints);
  }

  /** The `#endif` of the innermost conditional leads to the same state from both. */
  predicate SameEndif(a: State, b: State) {
    && a.checkpoints != [] && |b.checkpoints| == |a.checkpoints|
    && b.checkpoints[..|b.checkpoints| - 1] == a.checkpoints[..|a.checkpoints| - 1]
    && Preprocess(EndifLine, b) == Preprocess(EndifLine, a)
  }

  lemma ElseKeepsEndif(step: Step, st: State, elseLine: Line, r: State)
    requires st.checkpoints != [] && elseLine.directive == ElseLine
    requires r.checkpoints == Update(step, st, elseLine).checkpoints
    ensures SameEndif(st, r)
  {
  }

  /** The other branches leave the checkpoint of their conditional holding the stack to go back to. */
  lemma {:induction false} OtherBranches(step: Step, st: State, b: Branches)
    requires ProperBranches(b) && st.checkpoints != []
    ensures SameEndif(st, Run(step, st, BranchLines(b)))
    decreases b
  {
    match b
    case NoMore =>
    case Branch(elseLine, body, next) =>
      var entered := Update(step, st, elseLine);
      RunOne(step, st, elseLine);
      Flattening(step, entered, body);
      var afterBody := Run(step, entered, AllLines(body));
      ElseKeepsEndif(step, st, elseLine, afterBody);
      OtherBranches(step, afterBody, next);
      RunConcat(step, st, [elseLine] + AllLines(body), BranchLines(next));
      RunConcat(step, st, [elseLine], AllLines(body));
  }

  // ----- flattening: any run at all, unbalanced directives included

  /** For every open conditional, outermost first, whether its `#else` has been seen. */
  function OpenConditionals(lines: seq<Line>): seq<bool> {
    if lines == [] then []
    else
      var open := OpenConditionals(lines[..|lines| - 1]);
      match lines[|lines| - 1].directive
      case NoDirective => open
      case IfLine => open + [false]
      case ElseLine => if open == [] then open else open[|open| - 1 := true]
      case EndifLine => if open == [] then open else open[..|open| - 1]
  }

  predicate Live(lines: seq<Line>) {
    true !in OpenConditionals(lines)
  }

  /** The lines at which no `#else` was in force. */
  function LiveLines(lines: seq<Line>): seq<Line> {
    if lines == [] then []
    else
      var before := LiveLines(lines[..|lines| - 1]);
      if Live(lines) then before + [lines[|lines| - 1]] else before
  }

  /** The stack that a state will continue from, once every `#else` in force has been closed. */
  function ResumeStack(st: State): Stack {
    Resume(st.stack, st.checkpoints)
  }

  function Resume(stack: Stack, checkpoints: seq<Checkpoint>): Stack
    decreases |checkpoints|
  {
    if checkpoints == [] then stack
    else
      var c := checkpoints[|checkpoints| - 1];
      Resume(if c.seenElse then c.stackBeforeElse else stack, checkpoints[..|checkpoints| - 1])
  }

  function Flags(checkpoints: seq<Checkpoint>): seq<bool> {
    if checkpoints == [] then []
    else Flags(checkpoints[..|checkpoints| - 1]) + [checkpoints[|checkpoints| - 1].seenElse]
  }

  lemma {:induction false} ResumeLive(stack: Stack, checkpoints: seq<Checkpoint>)
    ensures |Flags(checkpoints)| == |checkpoints|
    ensures true !in Flags(checkpoints) ==> Resume(stack, checkpoints) == stack
    ensures true in Flags(checkpoints) ==> forall other :: Resume(other, checkpoints) == Resume(stack, checkpoints)
  {
    if checkpoints != [] {
      var init := checkpoints[..|checkpoints| - 1];
      ResumeLive(stack, init);
    }
  }

  lemma DirectiveKeepsResume(directive: Directive, st: State)
    ensures ResumeStack(Preprocess(directive, st)) == ResumeStack(st)
    ensures var open, after := Flags(st.checkpoints), Flags(Preprocess(directive, st).checkpoints);
            after == match directive
                     case NoDirective => open
                     case IfLine => open + [false]
                     case ElseLine => if open == [] then open else open[|open| - 1 := true]
                     case EndifLine => if open == [] then open else open[..|open| - 1]
  {
    var n := |st.checkpoints|;
    var p := Preprocess(directive, st).checkpoints;
    ResumeLive(st.stack, st.checkpoints);
    if directive.IfLine? {
      assert p[..n] == st.checkpoints;
    } else if directive.ElseLine? && n > 0 {
      assert p[..n - 1] == st.checkpoints[..n - 1];
    }
  }

  /** After any sequence of lines, balanced or not, the machine has in hand exactly the stack that the
      live lines alone build with no preprocessor: on the stack itself, or, inside an `#else`, in the
      checkpoint of the outermost conditional whose `#else` is in force. */
  lemma {:induction false} EveryRunKeepsTheLiveStack(step: Step, stack: Stack, lines: seq<Line>)
    ensures var st := Run(step, State(stack, []), lines);
            && Flags(st.checkpoints) == OpenConditionals(lines)
            && ResumeStack(st) == Fold(step, stack, LiveLines(lines))
            && (Live(lines) ==> st.stack == Fold(step, stack, LiveLines(lines)))
  {
    if lines != [] {
      var init, line := lines[..|lines| - 1], lines[|lines| - 1];
      EveryRunKeepsTheLiveStack(step, stack, init);
      var st := Run(step, State(stack, []), init);
      var p := Preprocess(line.directive, st);
      DirectiveKeepsResume(line.directive, st);
      ResumeLive(p.stack, p.checkpoints);
      ResumeLive(step(line, p.stack), p.checkpoints);
      var before := LiveLines(init);
      assert (before + [line])[..|before|] == before;
    }
  }
}
