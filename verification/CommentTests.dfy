/**
 Which lines the comment tests of cpplint accept, said about the text of a line, and what the pass does to a
 comment made of such lines.
 */
module CommentTests {
  import opened Wrappers
  import opened CommentRemoval

  // ----- blanks

  predicate Blanks(s: string) {
    forall i :: 0 <= i < |s| ==> IsStripped(s[i])
  }

  /** The characters that `strip()` takes off: the Unicode white space of Python 2. */
  const WHITE_SPACE: string :=
    "\U{09}\U{0A}\U{0B}\U{0C}\U{0D}\U{1C}\U{1D}\U{1E}\U{1F} \U{85}\U{A0}\U{1680}\U{180E}" +
    "\U{2000}\U{2001}\U{2002}\U{2003}\U{2004}\U{2005}\U{2006}\U{2007}\U{2008}\U{2009}\U{200A}" +
    "\U{2028}\U{2029}\U{202F}\U{205F}\U{3000}"

  lemma StrippedCharacters(c: char)
    ensures IsStripped(c) <==> c in WHITE_SPACE
  {
  }

  /** `strip()` cuts a line into blanks, a text that neither starts nor ends with a blank, and blanks. */
  ghost predicate IsCut(line: string, before: string, core: string, after: string) {
    && line == before + core + after && Blanks(before) && Blanks(after)
    && (core != [] ==> !IsStripped(core[0]) && !IsStripped(core[|core| - 1]))
  }

  lemma {:induction false} StripCuts(line: string) returns (before: string, after: string)
    ensures IsCut(line, before, Strip(line), after)
    decreases |line|
  {
    before, after := [], [];
    if line != [] {
      var n := |line| - 1;
      if IsStripped(line[0]) {
        before, after := StripCuts(line[1..]);
        BlankInFront(line, before, Strip(line[1..]), after);
        before := [line[0]] + before;
      } else if IsStripped(line[n]) {
        before, after := StripCuts(line[..n]);
        BlankBehind(line, before, Strip(line[..n]), after);
        after := after + [line[n]];
      }
    }
  }

  lemma BlankInFront(line: string, before: string, core: string, after: string)
    requires line != [] && IsStripped(line[0]) && IsCut(line[1..], before, core, after)
    ensures IsCut(line, [line[0]] + before, core, after)
  {
    assert line == [line[0]] + line[1..];
  }

  lemma BlankBehind(line: string, before: string, core: string, after: string)
    requires line != [] && IsStripped(line[|line| - 1]) && IsCut(line[..|line| - 1], before, core, after)
    ensures IsCut(line, before, core, after + [line[|line| - 1]])
  {
    assert line == line[..|line| - 1] + [line[|line| - 1]];
  }

  lemma {:induction false} CutAround(line: string, before: string, core: string, after: string)
    requires IsCut(line, before, core, after) && core != []
    ensures Strip(line) == core
    decreases |line|
  {
    if before != [] {
      assert line[0] == before[0] && line[1..] == before[1..] + core + after;
      CutAround(line[1..], before[1..], core, after);
    } else if after != [] {
      var n := |line| - 1;
      assert line[0] == core[0] && line[n] == after[|after| - 1];
      assert line[..n] == before + core + after[..|after| - 1];
      CutAround(line[..n], before, core, after[..|after| - 1]);
    } else {
      assert line == core;
    }
  }

  // ----- the tests

  /** The line ends with the end mark, apart from blanks. */
  ghost predicate ClosesComment(line: string) {
    exists p, b :: Blanks(b) && line == p + "*/" + b
  }

  /** `*` and `/` are no blanks. */
  lemma MarksAreNoBlanks()
    ensures !IsStripped('*') && !IsStripped('/')
  {
  }

  lemma {:induction false} CutFront(p: string) returns (before: string, core: string)
    ensures p == before + core && Blanks(before) && (core != [] ==> !IsStripped(core[0]))
  {
    before, core := [], p;
    if p != [] && IsStripped(p[0]) {
      before, core := CutFront(p[1..]);
      before := [p[0]] + before;
    }
  }

  /** `Ends`, exactly. */
  lemma EndsMeans(line: string)
    ensures Ends(line) <==> ClosesComment(line)
  {
    if Ends(line) {
      var a, b := StripCuts(line);
      var s := Strip(line);
      assert line == (a + s[..|s| - 2]) + "*/" + b;
    }
    if ClosesComment(line) {
      var p, b :| Blanks(b) && line == p + "*/" + b;
      var before, q := CutFront(p);
      assert line == before + (q + "*/") + b;
      CutAround(line, before, q + "*/", b);
      assert (q + "*/")[|q|..] == "*/";
    }
  }

  ghost predicate HasEndMark(s: string) {
    exists i :: 0 <= i < |s| - 1 && s[i] == '*' && s[i + 1] == '/'
  }

  lemma {:induction false} FindEndMarkMeans(s: string, from: nat)
    ensures FindEndMark(s, from) < 0 <==>
            forall i {:trigger s[i]} :: from <= i < |s| - 1 ==> !(s[i] == '*' && s[i + 1] == '/')
    decreases |s| - from
  {
    if from + 1 < |s| && !(s[from] == '*' && s[from + 1] == '/') {
      FindEndMarkMeans(s, from + 1);
    }
  }

  /** The line starts with the start mark, apart from blanks, and there is no end mark behind it. */
  ghost predicate OpensComment(line: string) {
    exists a, r :: Blanks(a) && line == a + "/*" + r && !HasEndMark(r)
  }

  /** Blanks at the end make and hide no end mark. */
  lemma EndMarkBeforeBlanks(m: string, b: string)
    requires Blanks(b)
    ensures HasEndMark(m + b) <==> HasEndMark(m)
  {
    if HasEndMark(m) {
      var i :| 0 <= i < |m| - 1 && m[i] == '*' && m[i + 1] == '/';
      assert (m + b)[i] == '*' && (m + b)[i + 1] == '/';
    }
    forall k | |m| <= k < |m + b|
      ensures IsStripped((m + b)[k])
    {
      assert (m + b)[k] == b[k - |m|];
    }
    if HasEndMark(m + b) {
      var i :| 0 <= i < |m + b| - 1 && (m + b)[i] == '*' && (m + b)[i + 1] == '/';
      MarksAreNoBlanks();
      assert m[i] == '*' && m[i + 1] == '/';
    }
  }

  /** Behind the start mark. */
  lemma EndMarkBehindStart(m: string)
    ensures FindEndMark("/*" + m, 2) < 0 <==> !HasEndMark(m)
  {
    var s := "/*" + m;
    FindEndMarkMeans(s, 2);
    if HasEndMark(m) {
      var i :| 0 <= i < |m| - 1 && m[i] == '*' && m[i + 1] == '/';
      assert s[i + 2] == '*' && s[i + 2 + 1] == '/';
    }
    forall i {:trigger s[i]} | 2 <= i < |s| - 1
      ensures s[i] == m[i - 2] && s[i + 1] == m[i - 2 + 1]
    {
    }
  }

  lemma {:induction false} CutBack(p: string) returns (core: string, after: string)
    ensures p == core + after && Blanks(after) && (core != [] ==> !IsStripped(core[|core| - 1]))
    decreases |p|
  {
    core, after := p, [];
    if p != [] && IsStripped(p[|p| - 1]) {
      core, after := CutBack(p[..|p| - 1]);
      after := after + [p[|p| - 1]];
    }
  }

  lemma StartOpens(line: string)
    requires Starts(line)
    ensures OpensComment(line)
  {
    var a, b := StripCuts(line);
    var m := Strip(line)[2..];
    assert Strip(line) == "/*" + m;
    EndMarkBehindStart(m);
    EndMarkBeforeBlanks(m, b);
    assert line == a + "/*" + (m + b);
  }

  lemma OpeningStarts(line: string, a: string, r: string)
    requires Blanks(a) && line == a + "/*" + r && !HasEndMark(r)
    ensures Starts(line)
  {
    var m, b := CutBack(r);
    assert line == a + ("/*" + m) + b;
    CutAround(line, a, "/*" + m, b);
    EndMarkBehindStart(m);
    EndMarkBeforeBlanks(m, b);
  }

  /** `Starts`, exactly. */
  lemma StartsMeans(line: string)
    ensures Starts(line) <==> OpensComment(line)
  {
    if Starts(line) { StartOpens(line); }
    if OpensComment(line) {
      var a, r :| Blanks(a) && line == a + "/*" + r && !HasEndMark(r);
      OpeningStarts(line, a, r);
    }
  }

  // ----- the pass on a comment

  /** No line of these passes the test. */
  ghost predicate Nowhere(test: Test, lines: seq<string>) {
    forall k :: 0 <= k < |lines| ==> !test(lines[k])
  }

  function BlankLines(n: nat): seq<string> {
    seq(n, _ => "/**/")
  }

  /** The same lines and the same verdict, with the numbers they have behind `n` other lines. */
  function Behind(n: nat, r: (seq<string>, Option<nat>)): (seq<string>, Option<nat>) {
    (r.0, if r.1.Some? then Some(n + r.1.value) else None)
  }

  lemma {:induction false} InsideBehind(starts: Test, ends: Test, before: seq<string>, lines: seq<string>, i: nat)
    requires i <= |lines| && !InsideBefore(starts, ends, before + lines, |before|)
    ensures InsideBefore(starts, ends, before + lines, |before| + i) <==> InsideBefore(starts, ends, lines, i)
  {
    if i > 0 {
      InsideBehind(starts, ends, before, lines, i - 1);
    }
  }

  lemma HoldsBehind(test: Test, before: seq<string>, lines: seq<string>, i: nat)
    ensures HoldsAtOrAfter(test, before + lines, |before| + i) <==> HoldsAtOrAfter(test, lines, i)
  {
    var all := before + lines;
    if HoldsAtOrAfter(test, all, |before| + i) {
      var j :| |before| + i <= j < |all| && test(all[j]);
      assert test(lines[j - |before|]);
    }
    if HoldsAtOrAfter(test, lines, i) {
      var j :| i <= j < |lines| && test(lines[j]);
      assert test(all[|before| + j]);
    }
  }

  lemma LineBehind(starts: Test, ends: Test, before: seq<string>, lines: seq<string>, k: nat)
    requires k < |lines| && !InsideBefore(starts, ends, before + lines, |before|)
    ensures LineAfter(starts, ends, before + lines, |before| + k) == LineAfter(starts, ends, lines, k)
  {
    InsideBehind(starts, ends, before, lines, k);
    HoldsBehind(ends, before, lines, k);
  }

  lemma NeverEndingStaysOpen(starts: Test, ends: Test, lines: seq<string>, begin: nat, j: nat)
    requires NeverEnds(starts, ends, lines, begin) && begin < j <= |lines|
    ensures InsideBefore(starts, ends, lines, j)
  {
    NeverEndingIsOpen(starts, ends, lines, begin);
    assert Covered(starts, ends, lines, j - 1) && !ends(lines[j - 1]);
  }

  lemma OneNeverEnds(starts: Test, ends: Test, lines: seq<string>, a: nat, b: nat)
    requires NeverEnds(starts, ends, lines, a) && NeverEnds(starts, ends, lines, b)
    ensures a == b
  {
    if a < b { NeverEndingStaysOpen(starts, ends, lines, a, b); }
    if b < a { NeverEndingStaysOpen(starts, ends, lines, b, a); }
  }

  lemma VerdictBehind(starts: Test, ends: Test, before: seq<string>, lines: seq<string>,
                      all: (seq<string>, Option<nat>), rest: (seq<string>, Option<nat>))
    requires !InsideBefore(starts, ends, before + lines, |before|)
    requires IsRemoval(starts, ends, before + lines, all) && IsRemoval(starts, ends, lines, rest)
    ensures all.1 == if rest.1.Some? then Some(|before| + rest.1.value) else None
  {
    InsideBehind(starts, ends, before, lines, |lines|);
    if rest.1.Some? {
      var begin := rest.1.value - 1;
      NeverEndingStaysOpen(starts, ends, lines, begin, |lines|);
      InsideBehind(starts, ends, before, lines, begin);
      HoldsBehind(ends, before, lines, begin);
      assert NeverEnds(starts, ends, before + lines, |before| + begin);
      OneNeverEnds(starts, ends, before + lines, all.1.value - 1, |before| + begin);
    } else if all.1.Some? {
      NeverEndingStaysOpen(starts, ends, before + lines, all.1.value - 1, |before + lines|);
    }
  }

  lemma LinesBehind(starts: Test, ends: Test, before: seq<string>, lines: seq<string>,
                    all: (seq<string>, Option<nat>), rest: (seq<string>, Option<nat>))
    requires !InsideBefore(starts, ends, before + lines, |before|)
    requires IsRemoval(starts, ends, before + lines, all) && IsRemoval(starts, ends, lines, rest)
    ensures all.0[|before|..] == rest.0
  {
    forall k | 0 <= k < |lines|
      ensures all.0[|before| + k] == rest.0[k]
    {
      LineBehind(starts, ends, before, lines, k);
    }
  }

  /** The pass does not look back: lines that leave no comment open change nothing for those behind them. */
  lemma RemovedBehind(starts: Test, ends: Test, before: seq<string>, lines: seq<string>)
    requires !InsideBefore(starts, ends, before + lines, |before|)
    ensures var (all, error) := Removed(starts, ends, before + lines, 0);
            |all| == |before + lines| && (all[|before|..], error) == Behind(|before|, Removed(starts, ends, lines, 0))
  {
    RemovalMeansCovered(starts, ends, before + lines);
    RemovalMeansCovered(starts, ends, lines);
    var all, rest := Removed(starts, ends, before + lines, 0), Removed(starts, ends, lines, 0);
    LinesBehind(starts, ends, before, lines, all, rest);
    VerdictBehind(starts, ends, before, lines, all, rest);
  }

  /** A line that passes the test, behind lines that do not. */
  lemma NextIsBehind(test: Test, all: seq<string>, i: nat, before: seq<string>, rest: seq<string>)
    requires i <= |all| && all[i..] == before + rest
    requires Nowhere(test, before) && (rest != [] ==> test(rest[0]))
    ensures Next(test, all, i) == i + |before|
  {
    forall k | i <= k < i + |before|
      ensures !test(all[k])
    {
      assert all[i..][k - i] == before[k - i];
    }
    if rest != [] { assert all[i..][|before|] == rest[0]; }
    NextIs(test, all, i, i + |before|);
  }

  /** From a line that opens a comment to the next one, itself included, that closes it. */
  ghost predicate IsRange(starts: Test, ends: Test, lines: seq<string>) {
    && lines != [] && starts(lines[0]) && ends(lines[|lines| - 1]) && Nowhere(ends, lines[..|lines| - 1])
  }

  /** The lines of a range are covered, and no line before it is. */
  lemma RangeIsCovered(starts: Test, ends: Test, before: seq<string>, range: seq<string>, after: seq<string>)
    requires Nowhere(starts, before) && IsRange(starts, ends, range)
    ensures var all, n := before + range + after, |before + range|;
            && !InsideBefore(starts, ends, all, n)
            && (forall k :: 0 <= k < n ==> (Covered(starts, ends, all, k) <==> |before| <= k))
            && forall k :: 0 <= k < n ==> HoldsAtOrAfter(ends, all, k)
  {
    var all, n := before + range + after, |before + range|;
    NoStartNoComment(starts, ends, all, 0, |before|);
    assert all[|before|] == range[0] && all[n - 1] == range[|range| - 1];
    forall k | |before| <= k < n - 1
      ensures !ends(all[k])
    {
      assert all[k] == range[..|range| - 1][k - |before|];
    }
    NoEndStaysInside(starts, ends, all, |before|, n);
    forall k | 0 <= k < n
      ensures HoldsAtOrAfter(ends, all, k)
    {
      assert k <= n - 1 < |all| && ends(all[n - 1]);
    }
  }

  lemma RangeIsBlanked(starts: Test, ends: Test, before: seq<string>, range: seq<string>, after: seq<string>)
    requires Nowhere(starts, before) && IsRange(starts, ends, range)
    ensures var (rest, error) := Behind(|before + range|, Removed(starts, ends, after, 0));
            Removed(starts, ends, before + range + after, 0) == (before + BlankLines(|range|) + rest, error)
  {
    var all, n := before + range + after, |before + range|;
    RangeIsCovered(starts, ends, before, range, after);
    RemovedBehind(starts, ends, before + range, after);
    RemovalMeansCovered(starts, ends, all);
    var (lines, error) := Removed(starts, ends, all, 0);
    var done := before + BlankLines(|range|);
    forall k | 0 <= k < n
      ensures lines[k] == done[k]
    {
      assert lines[k] == LineAfter(starts, ends, all, k);
    }
    assert lines[..n] == done;
    assert lines == lines[..n] + lines[n..];
  }

  lemma OpenRangeStays(starts: Test, ends: Test, before: seq<string>, open: seq<string>)
    requires Nowhere(starts, before) && open != [] && starts(open[0]) && Nowhere(ends, open)
    ensures Removed(starts, ends, before + open, 0) == (before + open, Some(|before| + 1))
  {
    var all := before + open;
    assert all[0..] == before + open && all[|before|..] == open + [];
    NextIsBehind(starts, all, 0, before, open);
    NextIsBehind(ends, all, |before|, open, []);
    NextRound(starts, ends, all, 0, |before|, |all|);
  }

  lemma LinesStay(starts: Test, ends: Test, lines: seq<string>)
    requires Nowhere(starts, lines)
    ensures Removed(starts, ends, lines, 0) == (lines, None)
  {
    assert lines[0..] == lines + [];
    NextIsBehind(starts, lines, 0, lines, []);
    NoMoreRounds(starts, ends, lines, 0);
  }

  // ----- the same for cpplint's tests

  ghost predicate NoneOpens(lines: seq<string>) {
    forall k {:trigger OpensComment(lines[k])} :: 0 <= k < |lines| ==> !OpensComment(lines[k])
  }

  ghost predicate NoneCloses(lines: seq<string>) {
    forall k {:trigger ClosesComment(lines[k])} :: 0 <= k < |lines| ==> !ClosesComment(lines[k])
  }

  /** From the line that opens a comment to the first one, itself included, that ends with the end mark. */
  ghost predicate IsComment(lines: seq<string>) {
    && lines != [] && OpensComment(lines[0])
    && NoneCloses(lines[..|lines| - 1]) && ClosesComment(lines[|lines| - 1])
  }

  lemma NowhereMeans(lines: seq<string>)
    ensures Nowhere(Starts, lines) <==> NoneOpens(lines)
    ensures Nowhere(Ends, lines) <==> NoneCloses(lines)
  {
    forall k | 0 <= k < |lines|
      ensures Starts(lines[k]) <==> OpensComment(lines[k])
      ensures Ends(lines[k]) <==> ClosesComment(lines[k])
    {
      StartsMeans(lines[k]);
      EndsMeans(lines[k]);
    }
  }

  /** Lines that open no comment are left alone. */
  lemma LinesWithoutComment(lines: seq<string>)
    requires NoneOpens(lines)
    ensures Removed(Starts, Ends, lines, 0) == (lines, None)
  {
    NowhereMeans(lines);
    LinesStay(Starts, Ends, lines);
  }

  /** A comment that no line closes is left alone and reported, with the number of the line that opens it. */
  lemma UnclosedComment(before: seq<string>, open: seq<string>)
    requires NoneOpens(before) && open != [] && OpensComment(open[0]) && NoneCloses(open)
    ensures Removed(Starts, Ends, before + open, 0) == (before + open, Some(|before| + 1))
  {
    NowhereMeans(before);
    NowhereMeans(open);
    StartsMeans(open[0]);
    OpenRangeStays(Starts, Ends, before, open);
  }

  /** Every line of a comment becomes blank, the lines before it stay, and those behind it are treated as if
      they stood alone. */
  lemma CommentIsBlanked(before: seq<string>, comment: seq<string>, after: seq<string>)
    requires NoneOpens(before) && IsComment(comment)
    ensures var (rest, error) := Behind(|before + comment|, Removed(Starts, Ends, after, 0));
            Removed(Starts, Ends, before + comment + after, 0) == (before + BlankLines(|comment|) + rest, error)
  {
    NowhereMeans(before);
    NowhereMeans(comment[..|comment| - 1]);
    StartsMeans(comment[0]);
    EndsMeans(comment[|comment| - 1]);
    RangeIsBlanked(Starts, Ends, before, comment, after);
  }

  /** The smallest comment of two lines. */
  lemma TwoLineComment()
    ensures Removed(Starts, Ends, ["/* a", "b */"], 0) == (["/**/", "/**/"], None)
  {
    var open, close := "/* a", "b */";
    assert Strip(open) == open && FindEndMark(open, 2) == -1 && Strip(close) == close;
    StartsMeans(open);
    EndsMeans(open);
    EndsMeans(close);
    var comment := [open, close];
    assert comment[..1] == [open];
    CommentIsBlanked([], comment, []);
    LinesWithoutComment([]);
    assert [] + comment + [] == comment && [] + BlankLines(2) + [] == ["/**/", "/**/"];
  }
}
