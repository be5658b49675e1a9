/**
 What the expression scanners promise for `(`, `[`, `{`: the angle heuristics never matter, line
 breaks never matter, the partner is the one the grammar names, and the two directions invert each
 other. `AngleTheorems` says what they promise for `<` and `>`.
 */
module MatchingTheorems {
  import opened Brackets
  import opened ExpressionScanner

  // ----- the angle heuristics are transparent

  /** The stack without the angle characters that a scanner keeps on it. */
  function Erase(stack: seq<char>, angle: char): seq<char> {
    if stack == [] then []
    else if Last(stack) == angle then Erase(Pop(stack), angle)
    else Erase(Pop(stack), angle) + [Last(stack)]
  }

  /** The bottom of the stack is no angle character. */
  predicate Grounded(stack: seq<char>, angle: char) {
    stack != [] && stack[0] != angle
  }

  lemma {:induction false} ErasePush(stack: seq<char>, c: char, angle: char)
    ensures Erase(stack + [c], angle) == if c == angle then Erase(stack, angle) else Erase(stack, angle) + [c]
  {
    assert Pop(stack + [c]) == stack;
  }

  lemma {:induction false} EraseGrounded(stack: seq<char>, angle: char)
    requires Grounded(stack, angle)
    ensures Erase(stack, angle) != [] && Erase(stack, angle)[0] == stack[0]
  {
    if |stack| > 1 {
      EraseGrounded(Pop(stack), angle);
    } else {
      assert Erase(Pop(stack), angle) == [];
    }
  }

  /** A trimmed grounded stack shows a bracket on top, and it is the only one iff nothing is below. */
  lemma {:induction false} TrimGrounded(stack: seq<char>, angle: char)
    requires Grounded(stack, angle)
    ensures var s := TrimTop(stack, angle);
            && Grounded(s, angle) && s[0] == stack[0] && Last(s) != angle
            && Erase(s, angle) == Erase(stack, angle) == Erase(Pop(s), angle) + [Last(s)]
            && (if |s| == 1 then Erase(Pop(s), angle) == []
                else Grounded(Pop(s), angle) && Erase(Pop(s), angle) != [] && Pop(s)[0] == stack[0])
  {
    if Last(stack) == angle {
      TrimGrounded(Pop(stack), angle);
    } else if |stack| > 1 {
      EraseGrounded(Pop(stack), angle);
    }
  }

  /** The scan result as the plain matcher would report it, `i` characters into the line. */
  function AsPure(r: Scan, i: int, angle: char): Scan {
    match r
    case Found(e) => Found(e - i)
    case GaveUp => GaveUp
    case Pending(s) => Pending(Erase(s, angle))
  }

  lemma ForwardStepIsTransparent(line: string, i: nat, stack: seq<char>)
    requires i < |line| && Grounded(stack, '<')
    ensures var r := ForwardStep(line, i, stack);
            && AsPure(r, i, '<') == PureStep(line[i], Erase(stack, '<'))
            && (r.Pending? ==> Grounded(r.stack, '<') && r.stack[0] == stack[0])
  {
    var c := line[i];
    if IsOpener(c) {
      ErasePush(stack, c, '<');
    } else if IsCloser(c) || c == ';' {
      TrimGrounded(stack, '<');
    } else if c == '<' || c == '>' {
      PopAngle(stack, '<');
      ErasePush(stack, '<', '<');
    }
  }

  /** Popping an angle character keeps a stack grounded and changes nothing but angle characters. */
  lemma PopAngle(stack: seq<char>, angle: char)
    requires Grounded(stack, angle)
    ensures Last(stack) == angle ==>
              |stack| > 1 && Grounded(Pop(stack), angle) && Pop(stack)[0] == stack[0] &&
              Erase(Pop(stack), angle) == Erase(stack, angle)
  {
  }

  /** Above a bracket, a line scan to the right is the plain matcher on the rest of the line: same
      position, and the same stack up to angle characters. */
  lemma {:induction false} ForwardIsTransparent(line: string, i: nat, stack: seq<char>)
    requires i <= |line| && Grounded(stack, '<')
    ensures var r := ScanForward(line, i, stack);
            && AsPure(r, i, '<') == PureForward(line[i..], Erase(stack, '<'))
            && (r.Pending? ==> Grounded(r.stack, '<') && r.stack[0] == stack[0])
    decreases |line| - i
  {
    if i < |line| {
      ForwardStepIsTransparent(line, i, stack);
      var r := ForwardStep(line, i, stack);
      assert line[i..][1..] == line[i + 1..];
      if r.Pending? {
        ForwardIsTransparent(line, i + 1, r.stack);
      }
    }
  }

  lemma BackwardStepIsTransparent(line: string, i: nat, stack: seq<char>)
    requires i < |line| && !SkipsTwo(line, i) && Grounded(stack, '>')
    ensures var r := BackwardStep(line, i, stack);
            && AsPure(r, i, '>') == PureBackStep(line[i], Erase(stack, '>'))
            && (r.Pending? ==> Grounded(r.stack, '>') && r.stack[0] == stack[0])
  {
    var c := line[i];
    if IsCloser(c) || c == '>' {
      ErasePush(stack, c, '>');
    } else if IsOpener(c) || c == ';' {
      TrimGrounded(stack, '>');
    } else if c == '<' {
      PopAngle(stack, '>');
    }
  }

  /** The two characters that the reverse scan skips together are never brackets. */
  lemma SkippedAreNoBrackets(line: string, i: nat)
    requires i < |line| && SkipsTwo(line, i)
    ensures !IsBracket(line[i]) && !IsBracket(line[i - 1])
  {
    if line[i] == '>' && line[i - 1] != '-' && !IsSpacedGreaterEqual(line, i) {
      OperatorEndsPlainly(line[..i]);
    }
  }

  lemma {:induction false} BackwardIsTransparent(line: string, i: int, stack: seq<char>)
    requires -1 <= i < |line| && Grounded(stack, '>')
    ensures var r := ScanBackward(line, i, stack);
            && AsPure(r, 0, '>') == PureBackward(line[..i + 1], Erase(stack, '>'))
            && (r.Pending? ==> Grounded(r.stack, '>') && r.stack[0] == stack[0])
    decreases i
  {
    if i >= 0 {
      assert Pop(line[..i + 1]) == line[..i];
      if SkipsTwo(line, i) {
        SkippedAreNoBrackets(line, i);
        assert Pop(line[..i]) == line[..i - 1];
        BackwardIsTransparent(line, i - 2, stack);
      } else {
        BackwardStepIsTransparent(line, i, stack);
        var r := BackwardStep(line, i, stack);
        if r.Pending? {
          BackwardIsTransparent(line, i - 1, r.stack);
        }
      }
    }
  }

  /** A scan that starts on an opener with an empty stack. */
  lemma ForwardFromOpener(line: string, i: nat)
    requires i < |line| && IsOpener(line[i])
    ensures AsPure(ScanForward(line, i, []), i, '<') == PureForward(line[i..], [])
    ensures ScanForward(line, i, []).Pending? ==> Grounded(ScanForward(line, i, []).stack, '<')
  {
    assert line[i..] == [line[i]] + line[i + 1..];
    PureForwardFirst(line[i], line[i + 1..]);
    OpenerIsPushed(line, i);
    ForwardIsTransparent(line, i + 1, [line[i]]);
  }

  lemma OpenerIsPushed(line: string, i: nat)
    requires i < |line| && IsOpener(line[i])
    ensures ScanForward(line, i, []) == ScanForward(line, i + 1, [line[i]])
    ensures Erase([line[i]], '<') == [line[i]]
  {
    assert [] + [line[i]] == [line[i]];
    ErasePush([], line[i], '<');
  }

  lemma BackwardFromCloser(line: string, i: nat)
    requires i < |line| && IsCloser(line[i])
    ensures AsPure(ScanBackward(line, i, []), 0, '>') == PureBackward(line[..i + 1], [])
    ensures ScanBackward(line, i, []).Pending? ==> Grounded(ScanBackward(line, i, []).stack, '>')
  {
    CloserIsPushed(line, i);
    BackwardIsTransparent(line, i - 1, [line[i]]);
  }

  lemma CloserIsPushed(line: string, i: nat)
    requires i < |line| && IsCloser(line[i])
    ensures ScanBackward(line, i, []) == ScanBackward(line, i - 1, [line[i]])
    ensures PureBackward(line[..i + 1], []) == PureBackward(line[..i], [line[i]])
    ensures Erase([line[i]], '>') == [line[i]]
  {
    assert [] + [line[i]] == [line[i]];
    assert Pop(line[..i + 1]) == line[..i];
    ErasePush([], line[i], '>');
  }

  // ----- line breaks are transparent

  function Whole(lines: seq<string>): string {
    if lines == [] then [] else lines[0] + Whole(lines[1..])
  }

  /** Where line `l` starts in the whole text. */
  function Offset(lines: seq<string>, l: nat): nat
    requires l <= |lines|
  {
    if l == 0 then 0 else Offset(lines, l - 1) + |lines[l - 1]|
  }

  lemma {:induction false} WholeConcat(a: seq<string>, b: seq<string>)
    ensures Whole(a + b) == Whole(a) + Whole(b)
  {
    if a == [] {
      assert a + b == b;
    } else {
      assert (a + b)[1..] == a[1..] + b;
      WholeConcat(a[1..], b);
    }
  }

  lemma {:induction false} WholePrefix(lines: seq<string>, l: nat)
    requires l <= |lines|
    ensures |Whole(lines[..l])| == Offset(lines, l)
    ensures l > 0 ==> Whole(lines[..l]) == Whole(lines[..l - 1]) + lines[l - 1]
  {
    if l > 0 {
      WholePrefix(lines, l - 1);
      assert lines[..l] == lines[..l - 1] + [lines[l - 1]];
      WholeConcat(lines[..l - 1], [lines[l - 1]]);
      assert Whole([lines[l - 1]]) == lines[l - 1];
    }
  }

  /** The whole text, cut at a position of a line. */
  lemma WholeSplit(lines: seq<string>, l: nat, p: nat)
    requires l < |lines| && p <= |lines[l]|
    ensures Offset(lines, l) + p <= |Whole(lines)|
    ensures Whole(lines)[Offset(lines, l) + p..] == lines[l][p..] + Whole(lines[l + 1..])
    ensures Whole(lines)[..Offset(lines, l) + p] == Whole(lines[..l]) + lines[l][..p]
  {
    WholeParts(lines, l);
    CutConcat(Whole(lines[..l]), lines[l], Whole(lines[l + 1..]), p);
  }

  lemma WholeBefore(lines: seq<string>, l: nat, p: nat)
    requires l < |lines| && p <= |lines[l]|
    ensures Offset(lines, l) + p <= |Whole(lines)|
    ensures Whole(lines)[..Offset(lines, l) + p] == Whole(lines[..l]) + lines[l][..p]
  {
    WholeSplit(lines, l, p);
  }

  lemma WholeAfter(lines: seq<string>, l: nat, p: nat)
    requires l < |lines| && p < |lines[l]|
    ensures Offset(lines, l) + p < |Whole(lines)|
    ensures Whole(lines)[Offset(lines, l) + p..] == lines[l][p..] + Whole(lines[l + 1..])
  {
    WholeSplit(lines, l, p);
  }

  lemma WholeParts(lines: seq<string>, l: nat)
    requires l < |lines|
    ensures |Whole(lines[..l])| == Offset(lines, l)
    ensures Whole(lines) == Whole(lines[..l]) + (lines[l] + Whole(lines[l + 1..]))
  {
    assert lines == lines[..l] + lines[l..];
    assert lines[l..][1..] == lines[l + 1..];
    WholeConcat(lines[..l], lines[l..]);
    WholePrefix(lines, l);
  }

  lemma CutConcat(a: string, b: string, c: string, p: nat)
    requires p <= |b|
    ensures (a + (b + c))[|a| + p..] == b[p..] + c
    ensures (a + (b + c))[..|a| + p] == a + b[..p]
  {
  }

  lemma {:induction false} OffsetMonotone(lines: seq<string>, l: nat, m: nat)
    requires l <= m <= |lines|
    ensures Offset(lines, l) <= Offset(lines, m)
    decreases m - l
  {
    if l < m {
      OffsetMonotone(lines, l, m - 1);
    }
  }

  /** Every character of the text has one line and one position in it. */
  lemma OffsetInjective(lines: seq<string>, l: nat, p: nat, m: nat, q: nat)
    requires l < |lines| && p < |lines[l]| && m < |lines| && q < |lines[m]|
    requires Offset(lines, l) + p == Offset(lines, m) + q
    ensures l == m && p == q
  {
    if l < m { OffsetMonotone(lines, l + 1, m); }
    if m < l { OffsetMonotone(lines, m + 1, l); }
  }

  /** What a search to the right across lines has to report if the text has partner offset `r`. */
  ghost predicate ReportsForward(lines: seq<string>, found: Partner, start: nat, r: Scan) {
    match found
    case At(l, e) => l < |lines| && 1 <= e <= |lines[l]| && r == Found(Offset(lines, l) + e - start)
    case Missing(_) => !r.Found?
  }

  lemma {:induction false} CloseAcrossIsTransparent(lines: seq<string>, l: nat, i: nat, stack: seq<char>)
    requires l < |lines| && i <= |lines[l]|
    requires Grounded(stack, '<') || (stack == [] && i < |lines[l]| && IsOpener(lines[l][i]))
    ensures ReportsForward(lines, CloseAcross(lines, l, i, stack), Offset(lines, l) + i,
                           PureForward(lines[l][i..] + Whole(lines[l + 1..]), Erase(stack, '<')))
    decreases |lines| - l
  {
    var line, after := lines[l], Whole(lines[l + 1..]);
    var r := ScanForward(line, i, stack);
    ScanForwardPosition(line, i, stack);
    if stack == [] { ForwardFromOpener(line, i); } else { ForwardIsTransparent(line, i, stack); }
    PureForwardConcat(line[i..], after, Erase(stack, '<'));
    if r.Pending? && l + 1 < |lines| {
      CloseAcrossIsTransparent(lines, l + 1, 0, r.stack);
      assert lines[l + 1..][1..] == lines[l + 2..];
      assert lines[l + 1][0..] == lines[l + 1];
    }
  }

  ghost predicate ReportsBackward(lines: seq<string>, found: Partner, r: Scan) {
    match found
    case At(l, k) => l < |lines| && 0 <= k < |lines[l]| && r == Found(Offset(lines, l) + k)
    case Missing(_) => !r.Found?
  }

  lemma {:induction false} OpenAcrossIsTransparent(lines: seq<string>, l: nat, i: int, stack: seq<char>)
    requires l < |lines| && -1 <= i < |lines[l]|
    requires Grounded(stack, '>') || (stack == [] && 0 <= i && IsCloser(lines[l][i]))
    ensures ReportsBackward(lines, OpenAcross(lines, l, i, stack),
                            PureBackward(Whole(lines[..l]) + lines[l][..i + 1], Erase(stack, '>')))
    decreases l
  {
    var line, before := lines[l], Whole(lines[..l]);
    var r := ScanBackward(line, i, stack);
    ScanBackwardPosition(line, i, stack);
    if stack == [] { BackwardFromCloser(line, i); } else { BackwardIsTransparent(line, i, stack); }
    PureBackwardConcat(before, line[..i + 1], Erase(stack, '>'));
    WholePrefix(lines, l);
    if r.Pending? && l > 0 {
      OpenAcrossIsTransparent(lines, l - 1, |lines[l - 1]| - 1, r.stack);
      assert lines[l - 1][..|lines[l - 1]|] == lines[l - 1];
    }
  }

  // ----- main results

  lemma CloseReports(lines: seq<string>, l: nat, p: nat)
    requires l < |lines| && p < |lines[l]| && IsOpener(lines[l][p])
    ensures Offset(lines, l) + p < |Whole(lines)|
    ensures ReportsForward(lines, Closing(lines, l, p), Offset(lines, l) + p,
                           PureForward(Whole(lines)[Offset(lines, l) + p..], []))
  {
    WholeAfter(lines, l, p);
    ClosingReports(lines, l, p);
  }

  lemma ClosingReports(lines: seq<string>, l: nat, p: nat)
    requires l < |lines| && p < |lines[l]| && IsOpener(lines[l][p])
    ensures ReportsForward(lines, Closing(lines, l, p), Offset(lines, l) + p,
                           PureForward(lines[l][p..] + Whole(lines[l + 1..]), []))
  {
    CloseAcrossIsTransparent(lines, l, p, []);
  }

  /** An answer of the search from line `l` and the result of a scan of the whole text name one place. */
  ghost predicate NamesTheSame(lines: seq<string>, l: nat, found: Partner, r: Scan) {
    match found
    case At(m, e) => l <= m < |lines| && 1 <= e <= |lines[m]| && r == Found(Offset(lines, m) + e)
    case Missing(_) => !r.Found?
  }

  /** From an opener, the search across lines and one run of the same line scanner over the
      concatenated lines name the same place. */
  lemma LineBreaksDoNotMatter(lines: seq<string>, l: nat, p: nat)
    requires l < |lines| && p < |lines[l]| && IsOpener(lines[l][p])
    ensures Offset(lines, l) + p < |Whole(lines)|
    ensures NamesTheSame(lines, l, Closing(lines, l, p), ScanForward(Whole(lines), Offset(lines, l) + p, []))
  {
    var text, start := Whole(lines), Offset(lines, l) + p;
    CharAt(lines, l, p);
    CloseReports(lines, l, p);
    ForwardFromOpener(text, start);
    PureForwardBounds(text[start..], []);
    ReportNames(lines, l, p, Closing(lines, l, p), ScanForward(text, start, []), PureForward(text[start..], []));
  }

  lemma ReportNames(lines: seq<string>, l: nat, p: nat, found: Partner, r: Scan, pure: Scan)
    requires l < |lines| && ReportsForward(lines, found, Offset(lines, l) + p, pure)
    requires AsPure(r, Offset(lines, l) + p, '<') == pure && (pure.Found? ==> 1 <= pure.pos)
    ensures NamesTheSame(lines, l, found, r)
  {
    if found.At? && found.line < l { OffsetMonotone(lines, found.line + 1, l); }
  }

  /** A report names one place. */
  lemma ReportedForward(lines: seq<string>, found: Partner, start: nat, r: Scan, m: nat, e: nat)
    requires ReportsForward(lines, found, start, r) && m < |lines| && 1 <= e <= |lines[m]|
    ensures found == At(m, e) <==> r == Found(Offset(lines, m) + e - start)
  {
    if found.At? && Offset(lines, found.line) + found.pos == Offset(lines, m) + e {
      OffsetInjective(lines, m, e - 1, found.line, found.pos - 1);
    }
  }

  lemma ReportedBackward(lines: seq<string>, found: Partner, r: Scan, l: nat, p: nat)
    requires ReportsBackward(lines, found, r) && l < |lines| && p < |lines[l]|
    ensures found == At(l, p) <==> r == Found(Offset(lines, l) + p)
  {
    if found.At? && Offset(lines, found.line) + found.pos == Offset(lines, l) + p {
      OffsetInjective(lines, l, p, found.line, found.pos);
    }
  }

  /** Soundness, completeness and uniqueness: from an opener, `CloseExpression` answers `(m, e)`
      exactly when the text from the opener up to there is a primitive well-nested word. */
  lemma CloseMeansPrimitive(lines: seq<string>, l: nat, p: nat, m: nat, e: nat)
    requires l < |lines| && p < |lines[l]| && IsOpener(lines[l][p])
    requires m < |lines| && 1 <= e <= |lines[m]|
    ensures Closing(lines, l, p) == At(m, e) <==>
            PrimitiveAt(Whole(lines), Offset(lines, l) + p, Offset(lines, m) + e)
  {
    CharAt(lines, l, p);
    CloseReports(lines, l, p);
    ReportedPrimitive(lines, Closing(lines, l, p), Whole(lines), Offset(lines, l) + p, m, e);
  }

  lemma ReportedPrimitive(lines: seq<string>, found: Partner, text: string, start: nat, m: nat, e: nat)
    requires start < |text| && IsOpener(text[start]) && m < |lines| && 1 <= e <= |lines[m]|
    requires ReportsForward(lines, found, start, PureForward(text[start..], []))
    ensures found == At(m, e) <==> PrimitiveAt(text, start, Offset(lines, m) + e)
  {
    ReportedForward(lines, found, start, PureForward(text[start..], []), m, e);
    ForwardMeansPrimitiveIn(text, start, Offset(lines, m) + e);
  }

  lemma CharAt(lines: seq<string>, l: nat, p: nat)
    requires l < |lines| && p < |lines[l]|
    ensures Offset(lines, l) + p < |Whole(lines)|
    ensures Whole(lines)[Offset(lines, l) + p] == lines[l][p]
  {
    WholeSplit(lines, l, p);
    assert Whole(lines)[Offset(lines, l) + p..][0] == lines[l][p];
  }

  lemma OpenReports(lines: seq<string>, m: nat, c: nat)
    requires m < |lines| && c < |lines[m]| && IsCloser(lines[m][c])
    ensures Offset(lines, m) + (c + 1) <= |Whole(lines)|
    ensures ReportsBackward(lines, Opening(lines, m, c), PureBackward(Whole(lines)[..Offset(lines, m) + (c + 1)], []))
  {
    WholeBefore(lines, m, c + 1);
    OpeningReports(lines, m, c);
  }

  lemma OpeningReports(lines: seq<string>, m: nat, c: nat)
    requires m < |lines| && c < |lines[m]| && IsCloser(lines[m][c])
    ensures ReportsBackward(lines, Opening(lines, m, c),
                            PureBackward(Whole(lines[..m]) + lines[m][..c + 1], []))
  {
    OpenAcrossIsTransparent(lines, m, c, []);
  }

  /** The same for `ReverseCloseExpression` from a closer. */
  lemma OpenMeansPrimitive(lines: seq<string>, m: nat, c: nat, l: nat, p: nat)
    requires m < |lines| && c < |lines[m]| && IsCloser(lines[m][c])
    requires l < |lines| && p < |lines[l]|
    ensures Opening(lines, m, c) == At(l, p) <==>
            PrimitiveAt(Whole(lines), Offset(lines, l) + p, Offset(lines, m) + (c + 1))
  {
    CharAt(lines, m, c);
    OpenReports(lines, m, c);
    ReportedPrimitiveBack(lines, Opening(lines, m, c), Whole(lines), Offset(lines, m) + (c + 1), l, p);
  }

  lemma ReportedPrimitiveBack(lines: seq<string>, found: Partner, text: string, end: nat, l: nat, p: nat)
    requires 0 < end <= |text| && IsCloser(text[end - 1]) && l < |lines| && p < |lines[l]|
    requires ReportsBackward(lines, found, PureBackward(text[..end], []))
    ensures found == At(l, p) <==> PrimitiveAt(text, Offset(lines, l) + p, end)
  {
    ReportedBackward(lines, found, PureBackward(text[..end], []), l, p);
    BackwardMeansPrimitiveIn(text, Offset(lines, l) + p, end);
  }

  /** Round trip, both ways at once: the partner of the opener at `(l, p)` is the closer at `(m, c)`
      exactly when the partner of the closer at `(m, c)` is the opener at `(l, p)`. */
  lemma RoundTrip(lines: seq<string>, l: nat, p: nat, m: nat, c: nat)
    requires l < |lines| && p < |lines[l]| && IsOpener(lines[l][p])
    requires m < |lines| && c < |lines[m]| && IsCloser(lines[m][c])
    ensures Closing(lines, l, p) == At(m, c + 1) <==> Opening(lines, m, c) == At(l, p)
  {
    CloseMeansPrimitive(lines, l, p, m, c + 1);
    OpenMeansPrimitive(lines, m, c, l, p);
  }

  /** Whatever `CloseExpression` finds from an opener leads straight back to it: the character before
      the reported position is the partner bracket, and the reverse search from it ends at `(l, p)`. */
  lemma ClosedExpressionReopens(lines: seq<string>, l: nat, p: nat)
    requires l < |lines| && p < |lines[l]| && IsOpener(lines[l][p])
    requires Closing(lines, l, p).At?
    ensures var At(m, e) := Closing(lines, l, p);
            && m < |lines| && 1 <= e <= |lines[m]|
            && lines[m][e - 1] == Flip(lines[l][p])
            && Opening(lines, m, e - 1) == At(l, p)
  {
    LineBreaksDoNotMatter(lines, l, p);
    var At(m, e) := Closing(lines, l, p);
    CloseMeansPrimitive(lines, l, p, m, e);
    CharAt(lines, l, p);
    CharAt(lines, m, e - 1);
    EndsOfPrimitive(Whole(lines), Offset(lines, l) + p, Offset(lines, m) + e);
    FlipIsInvolution(lines[l][p]);
    RoundTrip(lines, l, p, m, e - 1);
  }

  lemma ReopenedExpressionCloses(lines: seq<string>, m: nat, c: nat)
    requires m < |lines| && c < |lines[m]| && IsCloser(lines[m][c])
    requires Opening(lines, m, c).At?
    ensures var At(l, p) := Opening(lines, m, c);
            && l < |lines| && 0 <= p < |lines[l]|
            && lines[l][p] == Flip(lines[m][c])
            && Closing(lines, l, p) == At(m, c + 1)
  {
    OpenAcrossIsTransparent(lines, m, c, []);
    var At(l, p) := Opening(lines, m, c);
    OpenMeansPrimitive(lines, m, c, l, p);
    CharAt(lines, l, p);
    CharAt(lines, m, c);
    EndsOfPrimitive(Whole(lines), Offset(lines, l) + p, Offset(lines, m) + (c + 1));
    FlipIsInvolution(lines[l][p]);
    RoundTrip(lines, l, p, m, c);
  }

  lemma EndsOfPrimitive(text: string, start: nat, end: nat)
    requires PrimitiveAt(text, start, end)
    ensures start < end && IsOpener(text[start]) && text[end - 1] == Flip(text[start])
  {
    var w := text[start..end];
    var o, f :| IsOpener(o) && WellFormed(f) && w == Enclose(o, Render(f));
    assert w[0] == o && w[|w| - 1] == Flip(o);
    assert w[0] == text[start] && w[|w| - 1] == text[end - 1];
  }
}
