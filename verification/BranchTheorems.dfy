/**
 The stack inside the branches of conditionals: every branch starts from the stack before its `#if`.
 */
module BranchTheorems {
  import opened Wrappers
  import opened NestingModel

  // ----- well-nested conditionals

  /** The innermost conditional is still there, and remembers the stack before its `#if`. */
  predicate Remembers(st: State, stack: Stack, outer: seq<Checkpoint>) {
    && st.checkpoints != [] && st.checkpoints[..|st.checkpoints| - 1] == outer
    && st.checkpoints[|st.checkpoints| - 1].stackBeforeIf == stack
  }

  lemma BranchRemembers(step: Step, st: State, elseLine: Line, body: Text, stack: Stack, outer: seq<Checkpoint>)
    requires Remembers(st, stack, outer) && elseLine.directive == ElseLine && Proper(body)
    ensures var after := Run(step, st, [elseLine] + AllLines(body));
            && Remembers(after, stack, outer)
            && after.stack == Fold(step, stack, [elseLine] + FirstBranches(body))
  {
    var entered := Update(step, st, elseLine);
    RunOne(step, st, elseLine);
    RunOne(step, State(stack, []), elseLine);
    RunConcat(step, st, [elseLine], AllLines(body));
    FoldConcat(step, stack, [elseLine], FirstBranches(body));
    assert Remembers(entered, stack, outer);
    Flattening(step, entered, body);
  }

  lemma {:induction false} BranchesRemember(
    step: Step, st: State, earlier: Branches, stack: Stack, outer: seq<Checkpoint>)
    requires Remembers(st, stack, outer) && ProperBranches(earlier)
    ensures Remembers(Run(step, st, BranchLines(earlier)), stack, outer)
    decreases earlier
  {
    match earlier
    case NoMore =>
    case Branch(elseLine, body, next) =>
      BranchRemembers(step, st, elseLine, body, stack, outer);
      RunConcat(step, st, [elseLine] + AllLines(body), BranchLines(next));
      BranchesRemember(step, Run(step, st, [elseLine] + AllLines(body)), next, stack, outer);
  }

  /** Inside a branch: whatever the first and the earlier branches did, after `#else` or `#elif` the stack
      is the one from before the `#if`, changed only by the lines of this branch. */
  lemma EveryBranchStartsAfresh(
    step: Step, st: State, ifLine: Line, first: Text, earlier: Branches, elseLine: Line, body: Text)
    requires ifLine.directive == IfLine && Proper(first) && ProperBranches(earlier)
    requires elseLine.directive == ElseLine && Proper(body)
    ensures Run(step, st, [ifLine] + AllLines(first) + BranchLines(earlier) + ([elseLine] + AllLines(body))).stack ==
            Fold(step, st.stack, [elseLine] + FirstBranches(body))
    ensures Run(step, st, [ifLine] + AllLines(first)).stack == Fold(step, st.stack, [ifLine] + FirstBranches(first))
  {
    var entered := Update(step, st, ifLine);
    RunOne(step, st, ifLine);
    RunConcat(step, st, [ifLine], AllLines(first));
    FoldConcat(step, st.stack, [ifLine], FirstBranches(first));
    Flattening(step, entered, first);
    var afterFirst := Run(step, st, [ifLine] + AllLines(first));
    assert Remembers(afterFirst, st.stack, st.checkpoints);
    RunConcat(step, st, [ifLine] + AllLines(first), BranchLines(earlier));
    BranchesRemember(step, afterFirst, earlier, st.stack, st.checkpoints);
    var before := Run(step, afterFirst, BranchLines(earlier));
    RunConcat(step, st, [ifLine] + AllLines(first) + BranchLines(earlier), [elseLine] + AllLines(body));
    BranchRemembers(step, before, elseLine, body, st.stack, st.checkpoints);
  }

  // ----- any run at all

  /** Where an open conditional starts, and where its first `#else` or `#elif` is, if it has one yet. */
  datatype Place = Place(ifAt: nat, elseAt: Option<nat>)

  /** The open conditionals after a directive at line `n`. */
  function PlacesAfter(open: seq<Place>, directive: Directive, n: nat): seq<Place> {
    match directive
    case NoDirective => open
    case IfLine => open + [Place(n, None)]
    case ElseLine =>
      if open == [] || open[|open| - 1].elseAt.Some? then open
      else open[|open| - 1 := open[|open| - 1].(elseAt := Some(n))]
    case EndifLine => if open == [] then open else open[..|open| - 1]
  }

  /** The open conditionals, outermost first. */
  function OpenPlaces(lines: seq<Line>): (places: seq<Place>)
    ensures forall k :: 0 <= k < |places| ==>
              places[k].ifAt < |lines| && (places[k].elseAt.Some? ==> places[k].elseAt.value < |lines|)
  {
    if lines == [] then []
    else PlacesAfter(OpenPlaces(lines[..|lines| - 1]), lines[|lines| - 1].directive, |lines| - 1)
  }

  /** How many of the lines are in front of a directive that comes next: an `#else` goes back to before its
      `#if`, and an `#endif` to before the first `#else`. */
  function ResumeAt(lines: seq<Line>, directive: Directive): (n: nat)
    ensures n <= |lines|
  {
    var open := OpenPlaces(lines);
    if open == [] then |lines|
    else
      var p := open[|open| - 1];
      if directive.ElseLine? then p.ifAt
      else if directive.EndifLine? && p.elseAt.Some? then p.elseAt.value
      else |lines|
  }

  /** The lines of the current branches. */
  function CurrentLines(lines: seq<Line>): seq<Line>
    decreases |lines|
  {
    if lines == [] then []
    else
      var init, line := lines[..|lines| - 1], lines[|lines| - 1];
      CurrentLines(init[..ResumeAt(init, line.directive)]) + [line]
  }

  /** A checkpoint of this conditional. */
  ghost predicate IsCheckpointOf(step: Step, stack: Stack, lines: seq<Line>, p: Place, c: Checkpoint) {
    && p.ifAt <= |lines| && c.stackBeforeIf == Fold(step, stack, CurrentLines(lines[..p.ifAt]))
    && (c.seenElse <==> p.elseAt.Some?)
    && (p.elseAt.Some? ==>
          p.elseAt.value <= |lines| && c.stackBeforeElse == Fold(step, stack, CurrentLines(lines[..p.elseAt.value])))
  }

  ghost predicate AreCheckpointsOf(
    step: Step, stack: Stack, lines: seq<Line>, places: seq<Place>, checkpoints: seq<Checkpoint>)
  {
    |places| == |checkpoints| &&
    forall k :: 0 <= k < |places| ==> IsCheckpointOf(step, stack, lines, places[k], checkpoints[k])
  }

  lemma LongerRun(step: Step, stack: Stack, lines: seq<Line>, line: Line,
                  places: seq<Place>, checkpoints: seq<Checkpoint>)
    requires AreCheckpointsOf(step, stack, lines, places, checkpoints)
    ensures AreCheckpointsOf(step, stack, lines + [line], places, checkpoints)
  {
    forall k | 0 <= k < |places|
      ensures IsCheckpointOf(step, stack, lines + [line], places[k], checkpoints[k])
    {
      assert IsCheckpointOf(step, stack, lines, places[k], checkpoints[k]);
      assert (lines + [line])[..places[k].ifAt] == lines[..places[k].ifAt];
      if places[k].elseAt.Some? {
        assert (lines + [line])[..places[k].elseAt.value] == lines[..places[k].elseAt.value];
      }
    }
  }

  lemma FoldSnoc(step: Step, stack: Stack, lines: seq<Line>, line: Line)
    ensures Fold(step, stack, lines + [line]) == step(line, Fold(step, stack, lines))
  {
    assert (lines + [line])[..|lines|] == lines;
  }

  /** The stack after a directive, before its line is read. */
  lemma StackAfterDirective(step: Step, stack: Stack, lines: seq<Line>, directive: Directive, st: State)
    requires st.stack == Fold(step, stack, CurrentLines(lines))
    requires AreCheckpointsOf(step, stack, lines, OpenPlaces(lines), st.checkpoints)
    ensures Preprocess(directive, st).stack == Fold(step, stack, CurrentLines(lines[..ResumeAt(lines, directive)]))
  {
    var open, n := OpenPlaces(lines), ResumeAt(lines, directive);
    if open == [] || directive.NoDirective? || directive.IfLine? {
      assert n == |lines| && lines[..n] == lines;
    } else {
      var p, c := open[|open| - 1], st.checkpoints[|open| - 1];
      assert IsCheckpointOf(step, stack, lines, p, c);
      StackFromCheckpoint(step, stack, lines, directive, st.stack, p, c);
    }
  }

  lemma StackFromCheckpoint(
    step: Step, stack: Stack, lines: seq<Line>, directive: Directive, current: Stack, p: Place, c: Checkpoint)
    requires current == Fold(step, stack, CurrentLines(lines)) && IsCheckpointOf(step, stack, lines, p, c)
    requires directive.ElseLine? || directive.EndifLine?
    requires OpenPlaces(lines) != [] && OpenPlaces(lines)[|OpenPlaces(lines)| - 1] == p
    ensures Fold(step, stack, CurrentLines(lines[..ResumeAt(lines, directive)])) ==
            if directive.ElseLine? then c.stackBeforeIf else if c.seenElse then c.stackBeforeElse else current
  {
    assert lines[..|lines|] == lines;
  }

  /** A conditional that starts with the next line. */
  lemma CheckpointOfIf(step: Step, stack: Stack, lines: seq<Line>, line: Line, before: Stack)
    requires before == Fold(step, stack, CurrentLines(lines))
    ensures IsCheckpointOf(step, stack, lines + [line], Place(|lines|, None), Checkpoint(before, [], false))
  {
    assert (lines + [line])[..|lines|] == lines;
  }

  /** A conditional whose first `#else` is the next line. */
  lemma CheckpointOfElse(
    step: Step, stack: Stack, lines: seq<Line>, line: Line, before: Stack, p: Place, c: Checkpoint)
    requires before == Fold(step, stack, CurrentLines(lines)) && p.elseAt.None?
    requires IsCheckpointOf(step, stack, lines, p, c)
    ensures IsCheckpointOf(step, stack, lines + [line], p.(elseAt := Some(|lines|)),
                           c.(seenElse := true, stackBeforeElse := before))
  {
    assert (lines + [line])[..|lines|] == lines;
    assert (lines + [line])[..p.ifAt] == lines[..p.ifAt];
  }

  lemma PlacesAfterDirective(step: Step, stack: Stack, lines: seq<Line>, line: Line, st: State)
    requires st.stack == Fold(step, stack, CurrentLines(lines))
    requires AreCheckpointsOf(step, stack, lines, OpenPlaces(lines), st.checkpoints)
    ensures AreCheckpointsOf(step, stack, lines + [line], PlacesAfter(OpenPlaces(lines), line.directive, |lines|),
                             Preprocess(line.directive, st).checkpoints)
  {
    var open := OpenPlaces(lines);
    LongerRun(step, stack, lines, line, open, st.checkpoints);
    if line.directive.IfLine? {
      CheckpointOfIf(step, stack, lines, line, st.stack);
    } else if line.directive.ElseLine? && open != [] {
      var last := |open| - 1;
      assert IsCheckpointOf(step, stack, lines, open[last], st.checkpoints[last]);
      if open[last].elseAt.None? {
        CheckpointOfElse(step, stack, lines, line, st.stack, open[last], st.checkpoints[last]);
      }
    }
  }

  lemma CurrentSnoc(lines: seq<Line>, line: Line)
    ensures CurrentLines(lines + [line]) == CurrentLines(lines[..ResumeAt(lines, line.directive)]) + [line]
    ensures OpenPlaces(lines + [line]) == PlacesAfter(OpenPlaces(lines), line.directive, |lines|)
  {
    assert (lines + [line])[..|lines|] == lines;
  }

  /** One more line, seen from the machine and from the lines. */
  lemma DirectiveKeepsPlaces(step: Step, stack: Stack, lines: seq<Line>, line: Line, st: State)
    requires st.stack == Fold(step, stack, CurrentLines(lines))
    requires AreCheckpointsOf(step, stack, lines, OpenPlaces(lines), st.checkpoints)
    ensures var p := Preprocess(line.directive, st);
            && step(line, p.stack) == Fold(step, stack, CurrentLines(lines + [line]))
            && AreCheckpointsOf(step, stack, lines + [line], OpenPlaces(lines + [line]), p.checkpoints)
  {
    CurrentSnoc(lines, line);
    StackAfterDirective(step, stack, lines, line.directive, st);
    FoldSnoc(step, stack, CurrentLines(lines[..ResumeAt(lines, line.directive)]), line);
    PlacesAfterDirective(step, stack, lines, line, st);
  }

  /** After any sequence of lines, balanced or not, the stack in hand is the one that the lines of the
      current branches build with no preprocessor. */
  lemma {:induction false} EveryRunIsInItsBranches(step: Step, stack: Stack, lines: seq<Line>)
    ensures var st := Run(step, State(stack, []), lines);
            && st.stack == Fold(step, stack, CurrentLines(lines))
            && AreCheckpointsOf(step, stack, lines, OpenPlaces(lines), st.checkpoints)
  {
    if lines != [] {
      var init, line := lines[..|lines| - 1], lines[|lines| - 1];
      EveryRunIsInItsBranches(step, stack, init);
      assert init + [line] == lines;
      DirectiveKeepsPlaces(step, stack, init, line, Run(step, State(stack, []), init));
    }
  }

  /** The example in cpplint: the declaration in the `#else` branch does not see the one in the first. */
  lemma SecondDeclarationReplacesFirst(
    step: Step, stack: Stack, ifLine: Line, first: Line, elseLine: Line, second: Line)
    requires ifLine.directive == IfLine && elseLine.directive == ElseLine
    requires first.directive == NoDirective && second.directive == NoDirective
    ensures Run(step, State(stack, []), [ifLine, first, elseLine, second]).stack ==
            step(second, step(elseLine, stack))
  {
    var t, u := OneLine(first, Done), OneLine(second, Done);
    EveryBranchStartsAfresh(step, State(stack, []), ifLine, t, NoMore, elseLine, u);
    assert AllLines(t) == [first] && AllLines(u) == [second] && FirstBranches(u) == [second];
    assert [ifLine] + [first] + [] + ([elseLine] + [second]) == [ifLine, first, elseLine, second];
    FoldSnoc(step, stack, [elseLine], second);
    RunOne(step, State(stack, []), elseLine);
  }
}
