/**
 What `CloseExpression` promises for `<` and `ReverseCloseExpression` for `>`, where both follow
 heuristics: exactly which place is reported, and exactly when the one search leads back to where the
 other started.
 */
module AngleTheorems {
  import opened Brackets
  import opened ExpressionScanner
  import opened MatchingTheorems
  import opened AngleWords
  import opened AngleSearch

  // ----- the first character that goes on the stack

  /** The first position from `i` on that a scan with nothing to look for puts on the stack. */
  function FirstPush(line: string, i: nat): (q: nat)
    requires i <= |line|
    ensures i <= q <= |line|
    decreases |line| - i
  {
    if i == |line| || IsOpener(line[i]) || PushesAngle(line, i) then i else FirstPush(line, i + 1)
  }

  /** A scan with nothing to look for passes over plain text, and gives up at anything else. */
  lemma {:induction false} ScanToFirstPush(line: string, i: nat)
    requires i <= |line|
    ensures var q := FirstPush(line, i);
            && (q < |line| ==> IsOpener(line[q]) || PushesAngle(line, q))
            && if PlainStretch(line, i, q) then ScanForward(line, i, []) == ScanForward(line, q, [])
               else ScanForward(line, i, []) == GaveUp
    decreases |line| - i
  {
    if i < FirstPush(line, i) {
      ScanToFirstPush(line, i + 1);
      assert !IsBracket(line[i]) && line[i] != ';' ==> ForwardStep(line, i, []) == Pending([]);
    }
  }

  lemma SearchFromFirstPush(lines: seq<string>, l: nat, p: nat)
    requires l < |lines| && p < |lines[l]| && lines[l][p] == '<' && !IsShiftOrCompare(lines[l], p)
    ensures SearchesFrom(lines, l, p, FirstPush(lines[l], p), Closing(lines, l, p))
  {
    ScanToFirstPush(lines[l], p);
  }

  /** The first position from `i` down that a reverse scan with nothing to look for puts on the stack. */
  function LastPush(line: string, i: int): (q: int)
    requires -1 <= i < |line|
    ensures -1 <= q <= i
    decreases i
  {
    if i < 0 then -1
    else if SkipsTwo(line, i) then LastPush(line, i - 2)
    else if IsCloser(line[i]) || line[i] == '>' then i
    else LastPush(line, i - 1)
  }

  lemma {:induction false} ScanToLastPush(line: string, i: int)
    requires -1 <= i < |line|
    ensures var q := LastPush(line, i);
            && (q >= 0 ==> !SkipsTwo(line, q) && (IsCloser(line[q]) || line[q] == '>'))
            && if PlainStretch(line, q + 1, i + 1) then ScanBackward(line, i, []) == ScanBackward(line, q, [])
               else ScanBackward(line, i, []) == GaveUp
    decreases i
  {
    if i >= 0 {
      if SkipsTwo(line, i) {
        SkippedIsPlain(line, i);
        ScanToLastPush(line, i - 2);
      } else if LastPush(line, i) < i {
        ScanToLastPush(line, i - 1);
        assert !IsBracket(line[i]) && line[i] != ';' ==> BackwardStep(line, i, []) == Pending([]);
      }
    }
  }

  lemma SearchFromLastPush(lines: seq<string>, l: nat, p: nat)
    requires l < |lines| && p < |lines[l]| && lines[l][p] == '>'
    ensures SearchesBackFrom(lines, l, p, LastPush(lines[l], p), Opening(lines, l, p))
  {
    ScanToLastPush(lines[l], p);
  }

  // ----- which place is reported

  /** `(m, e)` is just behind what answers the character at `(l, q)`: a `>` that brings the depth of angle
      brackets down to nothing, or the partner of a bracket. */
  ghost predicate Answers(lines: seq<string>, s: Sheet, l: nat, q: nat, m: nat, e: nat)
    requires |s.at| == |lines| && l < |lines| && q < |lines[l]| && m < |lines| && 1 <= e <= |lines[m]|
  {
    if lines[l][q] == '<' then ClosesAngle(s.text, s.weights, s.at[l] + (q + 1), s.at[m] + (e - 1))
    else PrimitiveAt(s.text, s.at[l] + q, s.at[m] + e)
  }

  /** Up to the first character that goes on the stack, at `q`, is plain text, and that is answered. */
  ghost predicate IsAnswered(lines: seq<string>, s: Sheet, l: nat, p: nat, q: nat, m: nat, e: nat)
    requires |s.at| == |lines| && l < |lines| && p < |lines[l]| && m < |lines| && 1 <= e <= |lines[m]|
  {
    && !IsShiftOrCompare(lines[l], p) && q < |lines[l]| && PlainStretch(lines[l], p, q)
    && Answers(lines, s, l, q, m, e)
  }

  /** `CloseExpression` from a `<`, exactly. */
  lemma AngleCloseIsExact(lines: seq<string>, l: nat, p: nat, m: nat, e: nat)
    requires l < |lines| && p < |lines[l]| && lines[l][p] == '<'
    requires m < |lines| && 1 <= e <= |lines[m]|
    ensures Closing(lines, l, p) == At(m, e) <==>
            IsAnswered(lines, SheetOf(lines, Rightward), l, p, FirstPush(lines[l], p), m, e)
  {
    if !IsShiftOrCompare(lines[l], p) {
      SheetIsLaidOut(lines, Rightward);
      SearchFromFirstPush(lines, l, p);
      AngleCloseIn(lines, SheetOf(lines, Rightward), l, p, FirstPush(lines[l], p), m, e, Closing(lines, l, p));
    }
  }

  /** What the search finds is what it finds from the first character that goes on the stack. */
  ghost predicate SearchesFrom(lines: seq<string>, l: nat, p: nat, q: nat, found: Partner)
    requires l < |lines| && p < |lines[l]|
  {
    if q < |lines[l]| && PlainStretch(lines[l], p, q)
    then (IsOpener(lines[l][q]) || PushesAngle(lines[l], q)) && found == CloseAcross(lines, l, q, [])
    else found.Missing?
  }

  lemma AngleCloseIn(lines: seq<string>, s: Sheet, l: nat, p: nat, q: nat, m: nat, e: nat, found: Partner)
    requires LaidOut(lines, Rightward, s) && s.text == Whole(lines) && s.at == Starts(lines)
    requires l < |lines| && p < |lines[l]| && !IsShiftOrCompare(lines[l], p)
    requires m < |lines| && 1 <= e <= |lines[m]| && SearchesFrom(lines, l, p, q, found)
    ensures found == At(m, e) <==> IsAnswered(lines, s, l, p, q, m, e)
  {
    if q < |lines[l]| && PlainStretch(lines[l], p, q) {
      if lines[l][q] == '<' {
        AngleIsAnswered(lines, s, l, q, m, e);
      } else {
        BracketIsAnswered(lines, s, l, q, m, e);
      }
    }
  }

  lemma AngleIsAnswered(lines: seq<string>, s: Sheet, l: nat, q: nat, m: nat, e: nat)
    requires LaidOut(lines, Rightward, s) && l < |lines| && q < |lines[l]| && PushesAngle(lines[l], q)
    requires m < |lines| && 1 <= e <= |lines[m]|
    ensures CloseAcross(lines, l, q, []) == At(m, e) <==> Answers(lines, s, l, q, m, e)
  {
    PushedAngleIsAnswered(lines, s, l, q, m, e);
  }

  lemma BracketIsAnswered(lines: seq<string>, s: Sheet, l: nat, q: nat, m: nat, e: nat)
    requires |s.at| == |lines| && s.text == Whole(lines) && s.at == Starts(lines)
    requires l < |lines| && q < |lines[l]| && IsOpener(lines[l][q]) && m < |lines| && 1 <= e <= |lines[m]|
    ensures CloseAcross(lines, l, q, []) == At(m, e) <==> Answers(lines, s, l, q, m, e)
  {
    CloseMeansPrimitive(lines, l, q, m, e);
    ClosingOfOpener(lines, l, q);
  }

  lemma ClosingOfOpener(lines: seq<string>, l: nat, q: nat)
    requires l < |lines| && q < |lines[l]| && IsOpener(lines[l][q])
    ensures Closing(lines, l, q) == CloseAcross(lines, l, q, [])
  {
  }

  /** `(m, k)` answers the character at `(l, q)` to the left: a `<` that brings the depth down to nothing,
      or the partner of a bracket. */
  ghost predicate AnswersBack(lines: seq<string>, s: Sheet, l: nat, q: nat, m: nat, k: nat)
    requires |s.at| == |lines| && l < |lines| && q < |lines[l]| && m < |lines| && k < |lines[m]|
  {
    if lines[l][q] == '>' then OpensAngle(s.text, s.weights, s.at[m] + (k + 1), s.at[l] + q)
    else PrimitiveAt(s.text, s.at[m] + k, s.at[l] + (q + 1))
  }

  ghost predicate IsAnsweredBack(lines: seq<string>, s: Sheet, l: nat, p: nat, q: int, m: nat, k: nat)
    requires |s.at| == |lines| && l < |lines| && p < |lines[l]| && m < |lines| && k < |lines[m]|
  {
    0 <= q < |lines[l]| && PlainStretch(lines[l], q + 1, p + 1) && AnswersBack(lines, s, l, q, m, k)
  }

  /** `ReverseCloseExpression` from a `>`, exactly. */
  lemma AngleOpenIsExact(lines: seq<string>, l: nat, p: nat, m: nat, k: nat)
    requires l < |lines| && p < |lines[l]| && lines[l][p] == '>'
    requires m < |lines| && k < |lines[m]|
    ensures Opening(lines, l, p) == At(m, k) <==>
            IsAnsweredBack(lines, SheetOf(lines, Leftward), l, p, LastPush(lines[l], p), m, k)
  {
    SheetIsLaidOut(lines, Leftward);
    SearchFromLastPush(lines, l, p);
    AngleOpenIn(lines, SheetOf(lines, Leftward), l, p, LastPush(lines[l], p), m, k, Opening(lines, l, p));
  }

  ghost predicate SearchesBackFrom(lines: seq<string>, l: nat, p: nat, q: int, found: Partner)
    requires l < |lines| && p < |lines[l]|
  {
    if 0 <= q < |lines[l]| && PlainStretch(lines[l], q + 1, p + 1)
    then (IsCloser(lines[l][q]) || (lines[l][q] == '>' && !SkipsTwo(lines[l], q)))
         && found == OpenAcross(lines, l, q, [])
    else found.Missing?
  }

  lemma AngleOpenIn(lines: seq<string>, s: Sheet, l: nat, p: nat, q: int, m: nat, k: nat, found: Partner)
    requires LaidOut(lines, Leftward, s) && s.text == Whole(lines) && s.at == Starts(lines)
    requires l < |lines| && p < |lines[l]| && m < |lines| && k < |lines[m]|
    requires SearchesBackFrom(lines, l, p, q, found)
    ensures found == At(m, k) <==> IsAnsweredBack(lines, s, l, p, q, m, k)
  {
    if 0 <= q < |lines[l]| && PlainStretch(lines[l], q + 1, p + 1) {
      if lines[l][q] == '>' {
        AngleIsAnsweredBack(lines, s, l, q, m, k);
      } else {
        BracketIsAnsweredBack(lines, s, l, q, m, k);
      }
    }
  }

  lemma AngleIsAnsweredBack(lines: seq<string>, s: Sheet, l: nat, q: nat, m: nat, k: nat)
    requires LaidOut(lines, Leftward, s) && l < |lines| && q < |lines[l]|
    requires lines[l][q] == '>' && !SkipsTwo(lines[l], q) && m < |lines| && k < |lines[m]|
    ensures OpenAcross(lines, l, q, []) == At(m, k) <==> AnswersBack(lines, s, l, q, m, k)
  {
    PushedAngleIsAnsweredBack(lines, s, l, q, m, k);
  }

  lemma BracketIsAnsweredBack(lines: seq<string>, s: Sheet, l: nat, q: nat, m: nat, k: nat)
    requires |s.at| == |lines| && s.text == Whole(lines) && s.at == Starts(lines)
    requires l < |lines| && q < |lines[l]| && IsCloser(lines[l][q]) && m < |lines| && k < |lines[m]|
    ensures OpenAcross(lines, l, q, []) == At(m, k) <==> AnswersBack(lines, s, l, q, m, k)
  {
    OpenMeansPrimitive(lines, l, q, m, k);
    OpeningOfCloser(lines, l, q);
  }

  lemma OpeningOfCloser(lines: seq<string>, l: nat, q: nat)
    requires l < |lines| && q < |lines[l]| && IsCloser(lines[l][q])
    ensures Opening(lines, l, q) == OpenAcross(lines, l, q, [])
  {
  }

  // ----- where the documented answer is not given

  predicate IsIdle(c: char) {
    !IsBracket(c) && c != '<' && c != '>' && c != ';'
  }

  lemma {:induction false} PassIdle(line: string, i: nat, j: nat, stack: seq<char>)
    requires i <= j <= |line| && forall k :: i <= k < j ==> IsIdle(line[k])
    ensures ScanForward(line, i, stack) == ScanForward(line, j, stack)
    decreases j - i
  {
    if i < j { PassIdle(line, i + 1, j, stack); }
  }

  lemma {:induction false} PassIdleBack(line: string, i: nat, j: nat, stack: seq<char>)
    requires i <= j <= |line| && forall k :: i <= k < j ==> IsIdle(line[k])
    ensures ScanBackward(line, j - 1, stack) == ScanBackward(line, i - 1, stack)
    decreases j - i
  {
    if i < j { PassIdleBack(line, i, j - 1, stack); }
  }

  lemma PassPush(line: string, i: nat, stack: seq<char>)
    requires i < |line| && PushesAngle(line, i)
    ensures ScanForward(line, i, stack) == ScanForward(line, i + 1, stack + ['<'])
  {
  }

  lemma PassPop(line: string, i: nat, stack: seq<char>)
    requires i < |line| && PopsAngle(line, i) && stack != []
    ensures ScanForward(line, i, stack + ['<']) == ScanForward(line, i + 1, stack)
    ensures ScanForward(line, i, ['<']) == Found(i + 1)
  {
    assert Pop(stack + ['<']) == stack;
  }

  /** Text that does not end with an `r` or a space does not end with `operator` and spaces. */
  lemma NoOperatorYet(s: string)
    requires s != [] ==> Last(s) != 'r' && !IsRegexSpace(Last(s))
    ensures !EndsWithOperator(s)
  {
    if EndsWithOperator(s) { OperatorEndsPlainly(s); }
  }

  /** A `<` that is not pushed has no say in the answer: the search is one from the next character with
      nothing to look for. */
  lemma UnpushedAngleIsIgnored(lines: seq<string>, l: nat, p: nat)
    requires l < |lines| && p < |lines[l]| && lines[l][p] == '<'
    requires !PushesAngle(lines[l], p) && !IsShiftOrCompare(lines[l], p)
    ensures Closing(lines, l, p) == CloseAcross(lines, l, p + 1, [])
  {
    assert ForwardStep(lines[l], p, []) == Pending([]);
    assert ScanForward(lines[l], p, []) == ScanForward(lines[l], p + 1, []);
  }

  /** The answer can be a bracket that has nothing to do with the `<`: from the second `<` of `a<<(b)`
      the search reports the parenthesis. */
  lemma UnpushedAngleIsAnsweredByParenthesis()
    ensures var lines := ["a<<(b)"];
            && !PushesAngle(lines[0], 2)
            && Closing(lines, 0, 2) == At(0, 6) && lines[0][5] == ')'
  {
    var line := "a<<(b)";
    assert ScanForward(line, 2, []) == ScanForward(line, 3, []);
    BracketedCharacter(line, 3);
  }

  lemma BracketedCharacter(line: string, i: nat)
    requires i + 2 < |line| && line[i] == '(' && IsIdle(line[i + 1]) && line[i + 2] == ')'
    ensures ScanForward(line, i, []) == Found(i + 3) && ScanBackward(line, i + 2, []) == Found(i)
  {
    assert [] + ['('] == ['('] && [] + [')'] == [')'];
    PassIdle(line, i + 1, i + 2, ['(']);
    PassIdleBack(line, i + 1, i + 2, [')']);
    LoneBracket(line, i);
  }

  lemma LoneBracket(line: string, i: nat)
    requires i + 2 < |line| && line[i] == '(' && line[i + 2] == ')'
    ensures ScanForward(line, i + 2, ['(']) == Found(i + 3) && ScanBackward(line, i, [')']) == Found(i)
  {
  }

  /** The answer can be a bracket that has nothing to do with the `>`: from the `>` of `(a)->` the search
      reports the parenthesis. */
  lemma SkippedAngleIsAnsweredByParenthesis()
    ensures var lines := ["(a)->"];
            SkipsTwo(lines[0], 4) && Opening(lines, 0, 4) == At(0, 0) && lines[0][0] == '('
  {
    var line := "(a)->";
    assert ScanBackward(line, 4, []) == ScanBackward(line, 2, []);
    BracketedCharacter(line, 0);
  }

  /** Of two `>` the one that answers the outer `<` is reported. */
  lemma OuterAngleIsReported()
    ensures Closing(["<a<b>c>"], 0, 0) == At(0, 7)
  {
    var line := "<a<b>c>";
    PassPush(line, 0, []);
    assert [] + ['<'] == ['<'];
    PassIdle(line, 1, 2, ['<']);
    NoOperatorYet(line[..2]);
    PassPush(line, 2, ['<']);
    PassIdle(line, 3, 4, ['<'] + ['<']);
    NoOperatorYet(line[..3]);
    PassPop(line, 4, ['<']);
    PassIdle(line, 5, 6, ['<']);
    NoOperatorYet(line[..5]);
    PassPop(line, 6, ['<']);
  }

  /** The `>` of `>=` is taken for an angle bracket, though the reverse search ignores it. */
  lemma GreaterEqualIsTakenForAngle()
    ensures Closing(["<a >= b>"], 0, 0) == At(0, 4) && Opening(["<a >= b>"], 0, 3).Missing?
  {
    var line := "<a >= b>";
    PassPush(line, 0, []);
    assert [] + ['<'] == ['<'];
    PassIdle(line, 1, 3, ['<']);
    NoOperatorYet(line[..2]);
    PassPop(line, 3, ['<']);
    assert SkipsTwo(line, 3);
    PassIdleBack(line, 1, 2, []);
    assert ScanBackward(line, 0, []) == Pending([]);
  }

  /** The `<` of `<=` is taken for an angle bracket by the reverse search, though the forward search
      does not start there. */
  lemma LessEqualIsTakenForAngle()
    ensures Opening(["<a <= b>"], 0, 7) == At(0, 3) && Closing(["<a <= b>"], 0, 3).Missing?
  {
    var line := "<a <= b>";
    NoOperatorYet(line[..7]);
    PassPushBack(line, 7);
    PassIdleBack(line, 4, 7, ['>']);
    LastPopBack(line, 3);
  }

  lemma PassPushBack(line: string, i: nat)
    requires i < |line| && line[i] == '>' && !SkipsTwo(line, i)
    ensures ScanBackward(line, i, []) == ScanBackward(line, i - 1, ['>'])
  {
    assert [] + ['>'] == ['>'];
  }

  lemma LastPopBack(line: string, i: nat)
    requires i < |line| && line[i] == '<' && !SkipsTwo(line, i)
    ensures ScanBackward(line, i, ['>']) == Found(i)
  {
  }

  /** The `>` of `operator>` is taken for an angle bracket: the text that is tested for `operator` leaves
      out its last letter. */
  lemma OperatorIsTakenForAngle()
    ensures Closing(["<operator>(b)>"], 0, 0) == At(0, 10)
  {
    var line := "<operator>(b)>";
    PassPush(line, 0, []);
    assert [] + ['<'] == ['<'];
    OperatorIsIdle();
    PassIdle(line, 1, 9, ['<']);
    OperatorIsPopped(line);
  }

  lemma OperatorIsIdle()
    ensures forall k :: 1 <= k < 9 ==> IsIdle("<operator>(b)>"[k])
  {
  }

  lemma OperatorIsPopped(line: string)
    requires |line| > 9 && line[7] == 'o' && line[8] == 'r' && line[9] == '>'
    ensures ScanForward(line, 9, ['<']) == Found(10)
  {
    NoOperatorYet(line[..8]);
    PassPop(line, 9, ['<']);
  }

  // ----- when the searches lead back to each other

  /** A sheet for each direction: one text, laid out in one way, and the weights of both directions. */
  ghost predicate BothWays(lines: seq<string>, text: string, v: seq<int>, w: seq<int>, at: seq<nat>) {
    LaidOut(lines, Rightward, Sheet(text, v, at)) && LaidOut(lines, Leftward, Sheet(text, w, at))
  }

  /** All lines can be laid out in that way. */
  lemma WholeBothWays(lines: seq<string>)
    ensures BothWays(lines, Whole(lines), Weights(lines, Rightward), Weights(lines, Leftward), Starts(lines))
  {
    SheetIsLaidOut(lines, Rightward);
    SheetIsLaidOut(lines, Leftward);
  }

  lemma CharBothWays(
    lines: seq<string>, text: string, v: seq<int>, w: seq<int>, at: seq<nat>, l: nat, k: nat)
    requires BothWays(lines, text, v, w, at) && l < |lines| && k < |lines[l]|
    ensures at[l] + k < |text| == |v| == |w| && text[at[l] + k] == lines[l][k]
    ensures v[at[l] + k] == Weight(lines[l], k) && w[at[l] + k] == BackWeight(lines[l], k)
    ensures Weighted(text, v) && Weighted(text, w)
  {
    LineAt(Sheet(text, v, at), Rightward, at[l], lines[l], k);
    LineAt(Sheet(text, w, at), Leftward, at[l], lines[l], k);
  }

  lemma PushedIsClosed(
    lines: seq<string>, text: string, v: seq<int>, at: seq<nat>, l: nat, p: nat, m: nat, c: nat)
    requires LaidOut(lines, Rightward, Sheet(text, v, at))
    requires l < |lines| && p < |lines[l]| && PushesAngle(lines[l], p) && m < |lines| && c < |lines[m]|
    ensures Closing(lines, l, p) == At(m, c + 1) <==>
            !IsShiftOrCompare(lines[l], p) && ClosesAngle(text, v, at[l] + (p + 1), at[m] + c)
  {
    PushedAngleIsAnswered(lines, Sheet(text, v, at), l, p, m, c + 1);
  }

  lemma PushedIsOpened(
    lines: seq<string>, text: string, w: seq<int>, at: seq<nat>, l: nat, p: nat, m: nat, c: nat)
    requires LaidOut(lines, Leftward, Sheet(text, w, at)) && l < |lines| && p < |lines[l]|
    requires m < |lines| && c < |lines[m]| && lines[m][c] == '>' && !SkipsTwo(lines[m], c)
    ensures Opening(lines, m, c) == At(l, p) <==> OpensAngle(text, w, at[l] + (p + 1), at[m] + c)
  {
    AngleOpens(lines, text, w, at, l, p, m, c);
  }

  /** From the `>` at `(m, c)` to the left there is plain text up to the first `>` that goes on the stack, at
      `q`; and from there to the `<` at `(l, p)` the weights to the left make up for where they differ. */
  ghost predicate LeadsBack(lines: seq<string>, text: string, v: seq<int>, w: seq<int>, at: seq<nat>,
                            l: nat, p: nat, m: nat, c: nat, q: int)
    requires |at| == |lines| && l < |lines| && m < |lines| && c < |lines[m]|
  {
    && 0 <= q < |lines[m]| && lines[m][q] == '>' && PlainStretch(lines[m], q + 1, c + 1)
    && Compensates(text, v, w, at[l] + (p + 1), at[m] + q)
  }

  /** From a `<` that goes on the stack to its answer: the reverse search comes back, exactly if. */
  lemma AnglesLeadBack(lines: seq<string>, text: string, v: seq<int>, w: seq<int>, at: seq<nat>,
                       l: nat, p: nat, m: nat, c: nat)
    requires BothWays(lines, text, v, w, at) && l < |lines| && p < |lines[l]| && PushesAngle(lines[l], p)
    requires m < |lines| && c < |lines[m]| && Closing(lines, l, p) == At(m, c + 1)
    ensures lines[m][c] == '>'
    ensures Opening(lines, m, c) == At(l, p) <==>
            LeadsBack(lines, text, v, w, at, l, p, m, c, LastPush(lines[m], c))
  {
    ClosedByAngle(lines, text, v, at, l, p, m, c);
    OpenedFromLastPush(lines, text, w, at, l, p, m, c, LastPush(lines[m], c));
    OpensIfLeadsBack(lines, text, v, w, at, l, p, m, c, LastPush(lines[m], c));
  }

  lemma ClosedByAngle(
    lines: seq<string>, text: string, v: seq<int>, at: seq<nat>, l: nat, p: nat, m: nat, c: nat)
    requires LaidOut(lines, Rightward, Sheet(text, v, at))
    requires l < |lines| && p < |lines[l]| && PushesAngle(lines[l], p)
    requires m < |lines| && c < |lines[m]| && Closing(lines, l, p) == At(m, c + 1)
    ensures lines[m][c] == '>' && ClosesAngle(text, v, at[l] + (p + 1), at[m] + c)
  {
    PushedIsClosed(lines, text, v, at, l, p, m, c);
    LineAt(Sheet(text, v, at), Rightward, at[m], lines[m], c);
  }

  /** The first character from the `>` at `(m, c)` to the left that goes on the stack is a `>`, at `q`, and
      is answered by the `<` at `(l, p)`. */
  ghost predicate OpenedFrom(
    lines: seq<string>, text: string, w: seq<int>, at: seq<nat>, l: nat, p: nat, m: nat, c: nat, q: int)
    requires |at| == |lines| && l < |lines| && m < |lines| && c < |lines[m]|
  {
    && 0 <= q < |lines[m]| && lines[m][q] == '>' && PlainStretch(lines[m], q + 1, c + 1)
    && OpensAngle(text, w, at[l] + (p + 1), at[m] + q)
  }

  lemma OpenedFromLastPush(
    lines: seq<string>, text: string, w: seq<int>, at: seq<nat>, l: nat, p: nat, m: nat, c: nat, q: int)
    requires LaidOut(lines, Leftward, Sheet(text, w, at)) && l < |lines| && p < |lines[l]| && lines[l][p] == '<'
    requires m < |lines| && c < |lines[m]| && lines[m][c] == '>' && q == LastPush(lines[m], c)
    ensures Opening(lines, m, c) == At(l, p) <==> OpenedFrom(lines, text, w, at, l, p, m, c, q)
  {
    SearchFromLastPush(lines, m, c);
    if 0 <= q && PlainStretch(lines[m], q + 1, c + 1) {
      if lines[m][q] == '>' {
        AngleOpens(lines, text, w, at, l, p, m, q);
      } else {
        BracketIsNoAngle(lines, m, q, l, p);
      }
    }
  }

  lemma AngleOpens(lines: seq<string>, text: string, w: seq<int>, at: seq<nat>, l: nat, p: nat, m: nat, q: nat)
    requires LaidOut(lines, Leftward, Sheet(text, w, at)) && l < |lines| && p < |lines[l]|
    requires m < |lines| && q < |lines[m]| && lines[m][q] == '>' && !SkipsTwo(lines[m], q)
    ensures OpenAcross(lines, m, q, []) == At(l, p) <==> OpensAngle(text, w, at[l] + (p + 1), at[m] + q)
  {
    PushedAngleIsAnsweredBack(lines, Sheet(text, w, at), m, q, l, p);
  }

  lemma BracketIsNoAngle(lines: seq<string>, m: nat, q: nat, l: nat, p: nat)
    requires m < |lines| && q < |lines[m]| && IsCloser(lines[m][q])
    requires l < |lines| && p < |lines[l]| && lines[l][p] == '<'
    ensures OpenAcross(lines, m, q, []) != At(l, p)
  {
    OpeningOfCloser(lines, m, q);
    if Opening(lines, m, q) == At(l, p) { ReopenedExpressionCloses(lines, m, q); }
  }

  lemma OpensIfLeadsBack(lines: seq<string>, text: string, v: seq<int>, w: seq<int>, at: seq<nat>,
                         l: nat, p: nat, m: nat, c: nat, q: int)
    requires BothWays(lines, text, v, w, at) && l < |lines| && p < |lines[l]| && lines[l][p] == '<'
    requires m < |lines| && c < |lines[m]| && q <= c && ClosesAngle(text, v, at[l] + (p + 1), at[m] + c)
    ensures OpenedFrom(lines, text, w, at, l, p, m, c, q) <==> LeadsBack(lines, text, v, w, at, l, p, m, c, q)
  {
    if 0 <= q && lines[m][q] == '>' && PlainStretch(lines[m], q + 1, c + 1) {
      OpensIfCompensated(lines, text, v, w, at, l, p, m, c, q);
    }
  }

  lemma OpensIfCompensated(lines: seq<string>, text: string, v: seq<int>, w: seq<int>, at: seq<nat>,
                           l: nat, p: nat, m: nat, c: nat, q: nat)
    requires BothWays(lines, text, v, w, at) && l < |lines| && p < |lines[l]| && lines[l][p] == '<'
    requires m < |lines| && q <= c < |lines[m]| && lines[m][q] == '>' && PlainStretch(lines[m], q + 1, c + 1)
    requires ClosesAngle(text, v, at[l] + (p + 1), at[m] + c)
    ensures OpensAngle(text, w, at[l] + (p + 1), at[m] + q) <==> Compensates(text, v, w, at[l] + (p + 1), at[m] + q)
  {
    CharBothWays(lines, text, v, w, at, l, p);
    PlainInText(lines, text, v, w, at, m, q, c);
    OpensAfterPlain(text, v, w, at[l] + (p + 1), at[m] + q, at[m] + c);
  }

  lemma OpensAfterPlain(text: string, v: seq<int>, w: seq<int>, start: nat, end: nat, later: nat)
    requires Weighted(text, v) && Weighted(text, w) && 0 < start <= |text| && text[start - 1] == '<'
    requires end <= later <= |text| && forall k :: end <= k < later ==> !IsBracket(text[k])
    requires ClosesAngle(text, v, start, later)
    ensures OpensAngle(text, w, start, end) <==> Compensates(text, v, w, start, end)
  {
    if start <= end {
      BareOverPlain(text, start, end, later);
      OpensIfCompensates(text, v, w, start, end);
    }
  }

  lemma PlainInText(lines: seq<string>, text: string, v: seq<int>, w: seq<int>, at: seq<nat>, m: nat, q: nat, c: nat)
    requires BothWays(lines, text, v, w, at) && m < |lines| && q <= c < |lines[m]|
    requires lines[m][q] == '>' && PlainStretch(lines[m], q + 1, c + 1)
    ensures at[m] + c <= |text|
    ensures forall k :: at[m] + q <= k < at[m] + c ==> !IsBracket(text[k])
  {
    assert HasLine(Sheet(text, v, at), Rightward, at[m], lines[m]);
    PlainSlice(text, at[m], lines[m], q, c);
  }

  lemma PlainSlice(text: string, a: nat, line: string, q: nat, c: nat)
    requires a + |line| <= |text| && text[a..a + |line|] == line && q <= c < |line|
    requires line[q] == '>' && PlainStretch(line, q + 1, c + 1)
    ensures forall k :: a + q <= k < a + c ==> !IsBracket(text[k])
  {
    forall k | a + q <= k < a + c
      ensures !IsBracket(text[k])
    {
      assert text[a..a + |line|][k - a] == line[k - a];
    }
  }

  /** An angle bracket that both scanners read in the same way: no `<` next to another, no ` >= `, and no
      `operator` in front, nor one character before that. */
  predicate IsPlainAngle(line: string, i: nat)
    requires i < |line|
  {
    && (line[i] == '<' ==>
          && !(i > 0 && line[i - 1] == '<') && !(i + 1 < |line| && line[i + 1] == '<')
          && !EndsWithOperator(line[..i]))
    && (line[i] == '>' ==>
          && !IsSpacedGreaterEqual(line, i) && !EndsWithOperator(line[..i])
          && !(i > 0 && EndsWithOperator(line[..i - 1])))
  }

  lemma PlainAnglesCancel(line: string, i: nat)
    requires i < |line| && IsPlainAngle(line, i)
    ensures Weight(line, i) + BackWeight(line, i) == 0
    ensures line[i] == '<' ==> PushesAngle(line, i) && BackWeight(line, i) == -1
    ensures line[i] == '>' && !(i > 0 && line[i - 1] == '-') ==> Weight(line, i) == -1 && !SkipsTwo(line, i)
  {
    if line[i] == '<' { assert Run(line, i + 1) == 0; }
  }

  /** Every angle bracket from `start` up to `end` that stands outside the brackets in between is plain. */
  ghost predicate OnlyPlainAngles(lines: seq<string>, text: string, at: seq<nat>, start: nat, end: nat)
    requires |at| == |lines|
  {
    start <= end <= |text| ==>
      forall n, i {:trigger IsPlainAngle(lines[n], i)} ::
        0 <= n < |lines| && 0 <= i < |lines[n]| && start <= at[n] + i < end ==>
          (Bare(text, start, at[n] + i) ==> IsPlainAngle(lines[n], i))
  }

  /** Round trip: with only plain angle brackets in between, the answer to the `<` is the `>` exactly when
      the answer to the `>` is the `<`. */
  lemma AnglesRoundTrip(lines: seq<string>, text: string, v: seq<int>, w: seq<int>, at: seq<nat>,
                        l: nat, p: nat, m: nat, c: nat)
    requires BothWays(lines, text, v, w, at) && l < |lines| && p < |lines[l]| && lines[l][p] == '<'
    requires IsPlainAngle(lines[l], p) && !IsShiftOrCompare(lines[l], p)
    requires m < |lines| && c < |lines[m]| && lines[m][c] == '>'
    requires IsPlainAngle(lines[m], c) && !(c > 0 && lines[m][c - 1] == '-')
    requires OnlyPlainAngles(lines, text, at, at[l] + (p + 1), at[m] + c)
    ensures Closing(lines, l, p) == At(m, c + 1) <==> Opening(lines, m, c) == At(l, p)
  {
    PlainAnglesCancel(lines[l], p);
    PlainAnglesCancel(lines[m], c);
    PushedIsClosed(lines, text, v, at, l, p, m, c);
    PushedIsOpened(lines, text, w, at, l, p, m, c);
    PlainAnglesAnswer(lines, text, v, w, at, l, p, m, c);
  }

  lemma PlainAnglesAnswer(lines: seq<string>, text: string, v: seq<int>, w: seq<int>, at: seq<nat>,
                          l: nat, p: nat, m: nat, c: nat)
    requires BothWays(lines, text, v, w, at)
    requires l < |lines| && p < |lines[l]| && lines[l][p] == '<' && BackWeight(lines[l], p) == -1
    requires m < |lines| && c < |lines[m]| && lines[m][c] == '>' && Weight(lines[m], c) == -1
    requires OnlyPlainAngles(lines, text, at, at[l] + (p + 1), at[m] + c)
    ensures ClosesAngle(text, v, at[l] + (p + 1), at[m] + c) <==> OpensAngle(text, w, at[l] + (p + 1), at[m] + c)
  {
    CharBothWays(lines, text, v, w, at, l, p);
    CharBothWays(lines, text, v, w, at, m, c);
    if at[l] + (p + 1) <= at[m] + c {
      PlainWeightsCancel(lines, text, v, w, at, at[l] + (p + 1), at[m] + c);
    }
    ReadingsAgree(text, v, w, at[l] + (p + 1), at[m] + c);
  }

  lemma PlainWeightsCancel(lines: seq<string>, text: string, v: seq<int>, w: seq<int>, at: seq<nat>,
                           start: nat, end: nat)
    requires BothWays(lines, text, v, w, at) && start <= end <= |text| && OnlyPlainAngles(lines, text, at, start, end)
    ensures WeightsCancel(text, v, w, start, end)
  {
    forall k {:trigger Bare(text, start, k)} | start <= k < end && Bare(text, start, k)
      ensures v[k] + w[k] == 0
    {
      var n, i := PlaceIn(lines, Sheet(text, v, at), |lines|, k);
      CharBothWays(lines, text, v, w, at, n, i);
      PlainAnglesCancel(lines[n], i);
    }
  }
}
