/**
 What the expression scanners make of the texts they treat specially, said about the text of a line:
 `operator<` and `operator>`, arrows, shifts, comparisons with spaces around them, and semicolons.
 */
module ScannerTexts {
  import opened Brackets
  import opened ExpressionScanner
  import opened AngleSearch
  import opened AngleTheorems

  // ----- characters

  /** By their ASCII codes. */
  lemma CharacterClasses(c: char)
    ensures IsRegexSpace(c) <==> c as int in {9, 10, 11, 12, 13, 32}
    ensures var n := c as int; IsRegexWord(c) <==> 48 <= n <= 57 || 65 <= n <= 90 || n == 95 || 97 <= n <= 122
    ensures IsOpener(c) <==> c in "([{"
    ensures IsCloser(c) <==> c in ")]}"
  {
  }

  predicate ArePair(open: char, close: char) {
    (open == '(' && close == ')') || (open == '[' && close == ']') || (open == '{' && close == '}')
  }

  lemma FlippedBrackets(c: char, d: char)
    ensures IsOpener(c) && d == Flip(c) <==> ArePair(c, d)
    ensures IsCloser(d) && c == Flip(d) <==> ArePair(c, d)
  {
  }

  // ----- the word `operator`

  ghost predicate RegexSpaces(s: string) {
    forall i :: 0 <= i < |s| ==> IsRegexSpace(s[i])
  }

  /** `s` is some text `p` that does not run into the word, the word `operator`, and spaces `b`. */
  ghost predicate IsOperatorText(s: string, p: string, b: string) {
    s == p + "operator" + b && RegexSpaces(b) && (p == [] || !IsRegexWord(Last(p)))
  }

  /** The text ends with the word `operator`, apart from spaces. */
  ghost predicate OperatorBefore(s: string) {
    exists p, b :: IsOperatorText(s, p, b)
  }

  lemma {:induction false} TrimRightCuts(s: string) returns (b: string)
    ensures s == TrimRight(s) + b && RegexSpaces(b)
  {
    b := [];
    if s != [] && IsRegexSpace(Last(s)) {
      b := TrimRightCuts(Pop(s));
      b := b + [Last(s)];
    }
  }

  lemma {:induction false} TrimRightOf(t: string, b: string)
    requires RegexSpaces(b) && t != [] && !IsRegexSpace(Last(t))
    ensures TrimRight(t + b) == t
    decreases |b|
  {
    if b == [] {
      assert t + b == t;
    } else {
      assert Last(t + b) == Last(b) && Pop(t + b) == t + Pop(b);
      TrimRightOf(t, Pop(b));
    }
  }

  lemma OperatorIsFound(s: string, p: string, b: string)
    requires IsOperatorText(s, p, b)
    ensures EndsWithOperator(s)
  {
    var t := p + "operator";
    assert Last(t) == "operator"[7];
    TrimRightOf(t, b);
    assert t[|t| - 8..] == "operator";
    if p != [] { assert t[|t| - 9] == Last(p); }
  }

  /** `EndsWithOperator`, exactly. */
  lemma EndsWithOperatorMeans(s: string)
    ensures EndsWithOperator(s) <==> OperatorBefore(s)
  {
    if EndsWithOperator(s) {
      var b := TrimRightCuts(s);
      var t := TrimRight(s);
      var p := t[..|t| - 8];
      assert t == p + "operator";
      if p != [] { assert Last(p) == t[|t| - 9]; }
      assert IsOperatorText(s, p, b);
    }
    if OperatorBefore(s) {
      var p, b :| IsOperatorText(s, p, b);
      OperatorIsFound(s, p, b);
    }
  }

  lemma OperatorTextEnds(s: string, p: string, b: string)
    requires IsOperatorText(s, p, b)
    ensures EndsWithOperator(s) && s != [] && IsIdle(Last(s)) && Last(s) != '-' && Last(s) != '<'
  {
    OperatorIsFound(s, p, b);
    OperatorEndsPlainly(s);
  }

  // ----- what each angle means

  /** Which angles are pushed and popped on the way to the right, and which characters are read in pairs on
      the way to the left. */
  lemma PushesMeans(line: string, i: nat)
    requires i < |line|
    ensures PushesAngle(line, i) <==>
            line[i] == '<' && (i == 0 || (line[i - 1] != '<' && !OperatorBefore(line[..i])))
  {
    EndsWithOperatorMeans(line[..i]);
  }

  lemma PopsMeans(line: string, i: nat)
    requires i < |line|
    ensures PopsAngle(line, i) <==>
            line[i] == '>' && (i == 0 || (line[i - 1] != '-' && !OperatorBefore(line[..i - 1])))
  {
    if i > 0 { EndsWithOperatorMeans(line[..i - 1]); }
  }

  /** `>=` with a space on either side, the `>` at position `i`. */
  ghost predicate HasSpacedGreaterEqual(line: string, i: nat) {
    exists p, s, t, rest ::
      line == p + [s] + ">=" + [t] + rest && |p| + 1 == i && IsRegexSpace(s) && IsRegexSpace(t)
  }

  lemma SpacedGreaterEqualMeans(line: string, i: nat)
    requires i < |line|
    ensures IsSpacedGreaterEqual(line, i) <==> HasSpacedGreaterEqual(line, i)
  {
    if IsSpacedGreaterEqual(line, i) {
      var p, s, t, rest := line[..i - 1], line[i - 1], line[i + 2], line[i + 3..];
      assert line == p + [s] + ">=" + [t] + rest;
    }
  }

  lemma SkipsTwoMeans(line: string, i: nat)
    requires i < |line|
    ensures SkipsTwo(line, i) <==>
            i > 0 && (|| line[i - 1..i + 1] == "->" || line[i - 1..i + 1] == "<<"
                      || HasSpacedGreaterEqual(line, i) || (line[i] == '>' && OperatorBefore(line[..i])))
  {
    SpacedGreaterEqualMeans(line, i);
    EndsWithOperatorMeans(line[..i]);
    if i > 0 { assert line[i - 1..i + 1] == [line[i - 1], line[i]]; }
  }

  // ----- `operator<` and `operator>`

  /** To the right: the `<` behind `operator` is passed. */
  lemma OperatorLessIsPassed(p: string, b: string, rest: string, stack: seq<char>)
    requires RegexSpaces(b) && (p == [] || !IsRegexWord(Last(p)))
    ensures var before := p + "operator" + b;
            var line := before + "<" + rest;
            ScanForward(line, |before|, stack) == ScanForward(line, |before| + 1, stack)
  {
    var before := p + "operator" + b;
    var line := before + "<" + rest;
    OperatorTextEnds(before, p, b);
    assert line[..|before|] == before && line[|before| - 1] == Last(before);
    assert ForwardStep(line, |before|, stack) == Pending(stack);
  }

  /** To the right: a `>` is passed if one more character stands between it and `operator`, as in
      `operator >` or `operator->`. */
  lemma OperatorGreaterIsPassed(p: string, b: string, c: char, rest: string, stack: seq<char>)
    requires RegexSpaces(b) && (p == [] || !IsRegexWord(Last(p)))
    ensures var word := p + "operator" + b;
            var line := word + [c] + ">" + rest;
            ScanForward(line, |word| + 1, stack) == ScanForward(line, |word| + 2, stack)
  {
    var word := p + "operator" + b;
    OperatorIsFound(word, p, b);
    GreaterIsPassed(word, c, rest, stack);
  }

  lemma GreaterIsPassed(word: string, c: char, rest: string, stack: seq<char>)
    requires EndsWithOperator(word)
    ensures var line := word + [c] + ">" + rest;
            ScanForward(line, |word| + 1, stack) == ScanForward(line, |word| + 2, stack)
  {
    var i, line := |word| + 1, word + [c] + ">" + rest;
    assert line[..i - 1] == word;
    assert ForwardStep(line, i, stack) == Pending(stack);
  }

  /** To the left: the `>` behind `operator` is passed. */
  lemma OperatorGreaterIsPassedBack(p: string, b: string, rest: string, stack: seq<char>)
    requires RegexSpaces(b) && (p == [] || !IsRegexWord(Last(p)))
    ensures var before := p + "operator" + b;
            var line := before + ">" + rest;
            ScanBackward(line, |before|, stack) == ScanBackward(line, |before| - 1, stack)
  {
    var before := p + "operator" + b;
    var line := before + ">" + rest;
    OperatorTextEnds(before, p, b);
    assert line[..|before|] == before && line[|before| - 1] == Last(before);
    assert SkipsTwo(line, |before|);
    assert BackwardStep(line, |before| - 1, stack) == Pending(stack);
  }

  // ----- arrows, shifts and comparisons

  /** An arrow is passed in both directions. */
  lemma ArrowIsPassed(p: string, rest: string, stack: seq<char>)
    ensures var line := p + "->" + rest;
            && ScanForward(line, |p|, stack) == ScanForward(line, |p| + 2, stack)
            && ScanBackward(line, |p| + 1, stack) == ScanBackward(line, |p| - 1, stack)
  {
    var line := p + "->" + rest;
    assert line[|p|] == '-' && line[|p| + 1] == '>';
    assert ScanForward(line, |p|, stack) == ScanForward(line, |p| + 1, stack);
    assert SkipsTwo(line, |p| + 1);
  }

  /** A shift is passed in both directions, except that the search to the right gives up if nothing is
      open. */
  lemma ShiftIsPassed(p: string, rest: string, stack: seq<char>)
    requires p == [] || Last(p) != '<'
    requires !OperatorBefore(p)
    ensures var line := p + "<<" + rest;
            && ScanForward(line, |p|, stack) ==
               (if stack == [] then GaveUp else ScanForward(line, |p| + 2, stack))
            && ScanBackward(line, |p| + 1, stack) == ScanBackward(line, |p| - 1, stack)
  {
    var line := p + "<<" + rest;
    assert line[|p|] == '<' && line[|p| + 1] == '<' && line[..|p|] == p;
    if |p| > 0 { assert line[|p| - 1] == Last(p); }
    PushesMeans(line, |p|);
    PassPush(line, |p|, stack);
    assert Pop(stack + ['<']) == stack;
    assert SkipsTwo(line, |p| + 1);
  }

  /** Behind `operator` only the second `<` of a shift counts, and it takes an open `<` off. */
  lemma OperatorShiftPops(p: string, b: string, rest: string, stack: seq<char>)
    requires RegexSpaces(b) && (p == [] || !IsRegexWord(Last(p)))
    ensures var before := p + "operator" + b;
            var line := before + "<<" + rest;
            ScanForward(line, |before|, stack) ==
            if stack == [] || Last(stack) != '<' then ScanForward(line, |before| + 2, stack)
            else if |stack| == 1 then GaveUp else ScanForward(line, |before| + 2, Pop(stack))
  {
    var before := p + "operator" + b;
    var line := before + "<<" + rest;
    assert line == before + "<" + ("<" + rest);
    OperatorLessIsPassed(p, b, "<" + rest, stack);
    assert line[|before|] == '<' && line[|before| + 1] == '<';
  }

  /** `>=` between spaces is passed on the way to the left. */
  lemma GreaterEqualIsPassedBack(p: string, s: char, t: char, rest: string, stack: seq<char>)
    requires IsRegexSpace(s) && IsRegexSpace(t)
    ensures var line := p + [s] + ">=" + [t] + rest;
            ScanBackward(line, |p| + 1, stack) == ScanBackward(line, |p| - 1, stack)
  {
    var line := p + [s] + ">=" + [t] + rest;
    assert IsSpacedGreaterEqual(line, |p| + 1);
    assert SkipsTwo(line, |p| + 1);
  }

  /** The search to the right does not start at a shift or at `<=`. */
  lemma NoSearchFromComparison(lines: seq<string>, l: nat, p: string, c: char, rest: string)
    requires l < |lines| && lines[l] == p + "<" + [c] + rest && c in "<="
    ensures Closing(lines, l, |p|) == Missing(l)
  {
    assert lines[l][|p|] == '<' && lines[l][|p| + 1] == c;
  }

  // ----- what a bracket or a semicolon ends

  function Repeat(c: char, n: nat): (s: seq<char>)
    ensures |s| == n
  {
    seq(n, _ => c)
  }

  lemma {:induction false} TrimTopOf(base: seq<char>, angle: char, n: nat)
    requires base == [] || Last(base) != angle
    ensures TrimTop(base + Repeat(angle, n), angle) == base
  {
    var s := base + Repeat(angle, n);
    if n == 0 {
      assert s == base;
    } else {
      assert Last(s) == angle && Pop(s) == base + Repeat(angle, n - 1);
      TrimTopOf(base, angle, n - 1);
    }
  }

  /** A semicolon ends every angle that is open since the last bracket, and the search if there is none. */
  lemma SemicolonEndsAngles(line: string, i: nat, base: seq<char>, n: nat)
    requires i < |line| && line[i] == ';'
    ensures (base == [] || Last(base) != '<') ==>
              ScanForward(line, i, base + Repeat('<', n)) ==
              if base == [] then GaveUp else ScanForward(line, i + 1, base)
    ensures (base == [] || Last(base) != '>') ==>
              ScanBackward(line, i, base + Repeat('>', n)) ==
              if base == [] then GaveUp else ScanBackward(line, i - 1, base)
  {
    if base == [] || Last(base) != '<' { TrimTopOf(base, '<', n); }
    if base == [] || Last(base) != '>' { TrimTopOf(base, '>', n); }
  }

  /** A closing bracket ends every angle that is open since its partner, and matches that only. */
  lemma CloserEndsAngles(line: string, i: nat, base: seq<char>, open: char, n: nat)
    requires i < |line| && IsCloser(line[i]) && IsOpener(open)
    ensures ScanForward(line, i, base + [open] + Repeat('<', n)) ==
            if !ArePair(open, line[i]) then GaveUp
            else if base == [] then Found(i + 1) else ScanForward(line, i + 1, base)
  {
    TrimTopOf(base + [open], '<', n);
    assert Pop(base + [open]) == base;
  }

  lemma OpenerEndsAngles(line: string, i: nat, base: seq<char>, close: char, n: nat)
    requires i < |line| && IsOpener(line[i]) && IsCloser(close)
    ensures ScanBackward(line, i, base + [close] + Repeat('>', n)) ==
            if !ArePair(line[i], close) then GaveUp
            else if base == [] then Found(i) else ScanBackward(line, i - 1, base)
  {
    TrimTopOf(base + [close], '>', n);
    assert Pop(base + [close]) == base;
  }

  // ----- an example

  predicate AllIdle(s: string) {
    forall k :: 0 <= k < |s| ==> IsIdle(s[k])
  }

  lemma PassText(line: string, i: nat, text: string, stack: seq<char>)
    requires i + |text| <= |line| && line[i..i + |text|] == text && AllIdle(text)
    ensures ScanForward(line, i, stack) == ScanForward(line, i + |text|, stack)
  {
    forall k | i <= k < i + |text|
      ensures IsIdle(line[k])
    {
      assert line[k] == text[k - i];
    }
    PassIdle(line, i, i + |text|, stack);
  }

  lemma OperatorCharacters(x: string, b: string)
    requires RegexSpaces(b) && AllIdle(x)
    ensures AllIdle(x + "operator" + b)
  {
  }

  /** `operator<` in a line, from the `<` at `i`: the `<` of the operator stands at `j`. */
  ghost predicate HasOperatorLess(line: string, i: nat, j: nat, x: string, b: string) {
    && i < j < |line| && line[j] == '<' && line[i + 1..j] == x + "operator" + b
    && RegexSpaces(b) && AllIdle(x) && (x == [] || !IsRegexWord(Last(x)))
  }

  lemma OperatorTextAt(line: string, i: nat, j: nat, x: string, b: string)
    requires HasOperatorLess(line, i, j, x, b) && line[i] == '<'
    ensures IsOperatorText(line[..j], line[..i + 1] + x, b)
  {
    assert line[..j] == line[..i + 1] + line[i + 1..j];
    assert Last(line[..i + 1] + x) == if x == [] then '<' else Last(x);
  }

  /** The line up to an `operator<`, from an angle on. */
  lemma PassToOperator(line: string, i: nat, j: nat, x: string, b: string)
    requires HasOperatorLess(line, i, j, x, b) && PushesAngle(line, i)
    ensures ScanForward(line, i, []) == ScanForward(line, j + 1, ['<'])
  {
    PassPush(line, i, []);
    assert [] + ['<'] == ['<'];
    OperatorCharacters(x, b);
    PassText(line, i + 1, line[i + 1..j], ['<']);
    OperatorTextAt(line, i, j, x, b);
    OperatorTextEnds(line[..j], line[..i + 1] + x, b);
    assert Last(line[..j]) == line[j - 1];
    assert ForwardStep(line, j, ['<']) == Pending(['<']);
  }

  /** An angle with an `operator<` inside is answered by the `>` behind it, if another character stands in
      between. */
  lemma OperatorLessInside(line: string, i: nat, j: nat, x: string, b: string)
    requires HasOperatorLess(line, i, j, x, b) && PushesAngle(line, i)
    requires j + 2 < |line| && IsIdle(line[j + 1]) && line[j + 1] != '-' && line[j + 2] == '>'
    ensures ScanForward(line, i, []) == Found(j + 3)
  {
    PassToOperator(line, i, j, x, b);
    PassIdle(line, j + 1, j + 2, ['<']);
    assert Last(line[..j + 1]) == line[j];
    NoOperatorYet(line[..j + 1]);
    PassPop(line, j + 2, ['<']);
  }

  /** A line without parentheses whose answer depends on `operator<`. */
  lemma OperatorLessExample()
    ensures Closing(["F<&T::operator< > f;"], 0, 1) == At(0, 17)
  {
    var line := "F<&T::operator< > f;";
    assert Last(line[..1]) == 'F';
    NoOperatorYet(line[..1]);
    assert line[2..14] == "&T::" + "operator" + "";
    OperatorLessInside(line, 1, 14, "&T::", "");
  }
}
