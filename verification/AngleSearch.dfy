/**
 What the searches of `ExpressionScanner` do once they have put an angle bracket on the stack: over any
 lines they are the readings of `AngleWords`, with the weights that their heuristics give to `<` and `>`.
 */
module AngleSearch {
  import opened Brackets
  import opened ExpressionScanner
  import opened MatchingTheorems
  import opened AngleWords

  // ----- weights

  /** The `<` at position `p` goes on the stack: it is not the second half of `<<`, and does not
      follow `operator`. */
  predicate PushesAngle(line: string, p: nat)
    requires p < |line|
  {
    line[p] == '<' && !(p > 0 && (line[p - 1] == '<' || EndsWithOperator(line[..p])))
  }

  /** The `>` at position `p` takes a `<` off the stack. The text that is tested for `operator` leaves
      out the character just before the `>`. */
  predicate PopsAngle(line: string, p: nat)
    requires p < |line|
  {
    line[p] == '>' && !(p > 0 && (line[p - 1] == '-' || EndsWithOperator(line[..p - 1])))
  }

  /** What a character means to the search to the right, outside all brackets. */
  function Weight(line: string, i: nat): int
    requires i < |line|
  {
    if PushesAngle(line, i) then 1
    else if PopsAngle(line, i) || (line[i] == '<' && i > 0 && line[i - 1] == '<') then -1
    else 0
  }

  /** How many `<` follow each other from position `i` on. */
  function Run(line: string, i: nat): nat
    requires i <= |line|
    decreases |line| - i
  {
    if i < |line| && line[i] == '<' then 1 + Run(line, i + 1) else 0
  }

  /** What a character means to the search to the left: `->`, ` >= `, `operator>` count for nothing, and
      of a run of `<` only the first, and only if the run is odd. */
  function BackWeight(line: string, i: nat): int
    requires i < |line|
  {
    if line[i] == '>' then (if SkipsTwo(line, i) then 0 else 1)
    else if line[i] == '<' && !(i > 0 && line[i - 1] == '<') && Run(line, i) % 2 == 1 then -1
    else 0
  }

  datatype Direction = Rightward | Leftward

  function WeightAt(dir: Direction, line: string, i: nat): int
    requires i < |line|
  {
    if dir.Rightward? then Weight(line, i) else BackWeight(line, i)
  }

  function LineWeights(dir: Direction, line: string): (w: seq<int>)
    ensures |w| == |line|
  {
    seq(|line|, i requires 0 <= i < |line| => WeightAt(dir, line, i))
  }

  /** The weights of all characters of the whole text. */
  function Weights(lines: seq<string>, dir: Direction): seq<int> {
    if lines == [] then []
    else Weights(lines[..|lines| - 1], dir) + LineWeights(dir, lines[|lines| - 1])
  }

  // ----- lines as one text

  /** A text with its weights, and where its lines start. */
  datatype Sheet = Sheet(text: string, weights: seq<int>, at: seq<nat>)

  /** The sheet has this line from position `a` on. */
  predicate HasLine(s: Sheet, dir: Direction, a: nat, line: string) {
    && |s.text| == |s.weights| && a + |line| <= |s.text|
    && s.text[a..a + |line|] == line && s.weights[a..a + |line|] == LineWeights(dir, line)
  }

  lemma LineAt(s: Sheet, dir: Direction, a: nat, line: string, k: nat)
    requires HasLine(s, dir, a, line) && k < |line|
    ensures s.text[a + k] == line[k] && s.weights[a + k] == WeightAt(dir, line, k)
  {
    assert s.text[a..a + |line|][k] == line[k];
    assert s.weights[a..a + |line|][k] == LineWeights(dir, line)[k];
  }

  /** The lines follow each other without a gap, and fill a text of this length. */
  ghost predicate Consecutive(lines: seq<string>, at: seq<nat>, length: nat) {
    && |at| == |lines|
    && (forall l, m :: 0 <= l < m < |lines| && l + 1 == m ==> at[m] == at[l] + |lines[l]|)
    && (if lines == [] then length == 0
        else at[0] == 0 && at[|lines| - 1] + |lines[|lines| - 1]| == length)
  }

  /** The sheet has all the lines, one after the other. */
  ghost predicate LaidOut(lines: seq<string>, dir: Direction, s: Sheet) {
    && Consecutive(lines, s.at, |s.text|) && Weighted(s.text, s.weights)
    && forall l {:trigger HasLine(s, dir, s.at[l], lines[l])} :: 0 <= l < |lines| ==>
         HasLine(s, dir, s.at[l], lines[l])
  }

  function Starts(lines: seq<string>): (at: seq<nat>)
    ensures |at| == |lines| && forall l :: 0 <= l < |lines| ==> at[l] == Offset(lines, l)
  {
    seq(|lines|, l requires 0 <= l < |lines| => Offset(lines, l))
  }

  function SheetOf(lines: seq<string>, dir: Direction): Sheet {
    Sheet(Whole(lines), Weights(lines, dir), Starts(lines))
  }

  lemma {:induction false} WeightsOfPrefix(lines: seq<string>, dir: Direction, n: nat)
    requires n <= |lines|
    ensures |Weights(lines[..n], dir)| == Offset(lines, n)
    decreases n
  {
    if n > 0 {
      assert lines[..n][..n - 1] == lines[..n - 1];
      WeightsOfPrefix(lines, dir, n - 1);
    }
  }

  lemma {:induction false} WeightsOfLine(lines: seq<string>, dir: Direction, n: nat, l: nat)
    requires l < n <= |lines|
    ensures Offset(lines, l) + |lines[l]| <= |Weights(lines[..n], dir)|
    ensures Weights(lines[..n], dir)[Offset(lines, l)..Offset(lines, l) + |lines[l]|] == LineWeights(dir, lines[l])
    decreases n
  {
    assert lines[..n][..n - 1] == lines[..n - 1];
    if l == n - 1 {
      WeightsOfPrefix(lines, dir, l);
    } else {
      WeightsOfLine(lines, dir, n - 1, l);
      SliceOfSum(Weights(lines[..n - 1], dir), LineWeights(dir, lines[n - 1]), Offset(lines, l), |lines[l]|);
    }
  }

  lemma SliceOfSum<T>(a: seq<T>, b: seq<T>, i: nat, n: nat)
    requires i + n <= |a|
    ensures (a + b)[i..i + n] == a[i..i + n]
  {
  }

  /** Every position of the text is a position of a line. */
  lemma {:induction false} PlaceOf(lines: seq<string>, n: nat, j: nat) returns (l: nat, k: nat)
    requires n <= |lines| && j < Offset(lines, n)
    ensures l < n && k < |lines[l]| && j == Offset(lines, l) + k
  {
    if j < Offset(lines, n - 1) {
      l, k := PlaceOf(lines, n - 1, j);
    } else {
      l, k := n - 1, j - Offset(lines, n - 1);
    }
  }

  lemma WholeLength(lines: seq<string>, dir: Direction)
    ensures |Whole(lines)| == Offset(lines, |lines|) == |Weights(lines, dir)|
  {
    WholePrefix(lines, |lines|);
    WeightsOfPrefix(lines, dir, |lines|);
    assert lines[..|lines|] == lines;
  }

  lemma WholeHasLine(lines: seq<string>, dir: Direction, l: nat)
    requires l < |lines|
    ensures HasLine(SheetOf(lines, dir), dir, Offset(lines, l), lines[l])
  {
    WholeLength(lines, dir);
    TextOfLine(lines, l);
    WeightsOfLine(lines, dir, |lines|, l);
    assert lines[..|lines|] == lines;
  }

  lemma TextOfLine(lines: seq<string>, l: nat)
    requires l < |lines|
    ensures Offset(lines, l) + |lines[l]| <= |Whole(lines)|
    ensures Whole(lines)[Offset(lines, l)..Offset(lines, l) + |lines[l]|] == lines[l]
  {
    WholeSplit(lines, l, 0);
    assert Whole(lines)[Offset(lines, l)..][..|lines[l]|] == lines[l];
  }

  lemma WholeIsWeighted(lines: seq<string>, dir: Direction)
    ensures Weighted(Whole(lines), Weights(lines, dir))
  {
    WholeLength(lines, dir);
    var text, w := Whole(lines), Weights(lines, dir);
    forall j | 0 <= j < |text|
      ensures -1 <= w[j] <= 1 && (w[j] != 0 ==> text[j] == '<' || text[j] == '>')
    {
      var l, k := PlaceOf(lines, |lines|, j);
      WholeHasLine(lines, dir, l);
      LineAt(SheetOf(lines, dir), dir, Offset(lines, l), lines[l], k);
    }
  }

  lemma StartsAreConsecutive(lines: seq<string>)
    ensures Consecutive(lines, Starts(lines), Offset(lines, |lines|))
  {
    forall l, m | 0 <= l < m < |lines| && l + 1 == m
      ensures Starts(lines)[m] == Starts(lines)[l] + |lines[l]|
    {
      OffsetNext(lines, l);
    }
    if lines != [] { OffsetNext(lines, |lines| - 1); }
  }

  lemma OffsetNext(lines: seq<string>, l: nat)
    requires l < |lines|
    ensures Offset(lines, l + 1) == Offset(lines, l) + |lines[l]|
  {
  }

  lemma SheetIsLaidOut(lines: seq<string>, dir: Direction)
    ensures LaidOut(lines, dir, SheetOf(lines, dir))
  {
    WholeIsWeighted(lines, dir);
    WholeLength(lines, dir);
    StartsAreConsecutive(lines);
    var s := SheetOf(lines, dir);
    forall l {:trigger HasLine(s, dir, s.at[l], lines[l])} | 0 <= l < |lines|
      ensures HasLine(s, dir, s.at[l], lines[l])
    {
      WholeHasLine(lines, dir, l);
    }
  }

  lemma NextLine(lines: seq<string>, dir: Direction, s: Sheet, l: nat)
    requires LaidOut(lines, dir, s) && l + 1 < |lines|
    ensures s.at[l + 1] + 0 == s.at[l] + |lines[l]|
  {
  }

  /** Every position of a sheet is a position of a line. */
  lemma {:induction false} PlaceIn(lines: seq<string>, s: Sheet, n: nat, j: nat) returns (l: nat, k: nat)
    requires LaidOut(lines, Rightward, s) && n <= |lines|
    requires j < if n == |lines| then |s.text| else s.at[n]
    ensures l < |lines| && k < |lines[l]| && j == s.at[l] + k
    decreases n
  {
    if s.at[n - 1] <= j {
      if n < |lines| { NextLine(lines, Rightward, s, n - 1); }
      l, k := n - 1, j - s.at[n - 1];
    } else {
      l, k := PlaceIn(lines, s, n - 1, j);
    }
  }

  lemma {:induction false} LinesAreInOrder(lines: seq<string>, dir: Direction, s: Sheet, l: nat, m: nat)
    requires LaidOut(lines, dir, s) && l < m < |lines|
    ensures s.at[l] + |lines[l]| <= s.at[m]
    decreases m
  {
    if l + 1 < m { LinesAreInOrder(lines, dir, s, l, m - 1); }
    assert s.at[m] == s.at[m - 1] + |lines[m - 1]|;
  }

  /** Places of a sheet are different. */
  lemma OnePlace(lines: seq<string>, dir: Direction, s: Sheet, l: nat, i: nat, m: nat, j: nat)
    requires LaidOut(lines, dir, s) && l < |lines| && i < |lines[l]| && m < |lines| && j < |lines[m]|
    requires s.at[l] + i == s.at[m] + j
    ensures l == m && i == j
  {
    if l < m { LinesAreInOrder(lines, dir, s, l, m); }
    if m < l { LinesAreInOrder(lines, dir, s, m, l); }
  }

  // ----- the level of a stack with angle brackets at the bottom

  /** How many angle brackets there are below the lowest bracket. */
  function Height(stack: seq<char>, angle: char): nat {
    if stack == [] then 0
    else Height(Pop(stack), angle) + if Last(stack) == angle && Erase(stack, angle) == [] then 1 else 0
  }

  function Level(stack: seq<char>, angle: char): Reading {
    Open(Height(stack, angle), Erase(stack, angle))
  }

  lemma Pushed(stack: seq<char>, c: char, angle: char)
    ensures Erase(stack + [c], angle) == if c == angle then Erase(stack, angle) else Erase(stack, angle) + [c]
    ensures Height(stack + [c], angle) ==
            Height(stack, angle) + if c == angle && Erase(stack, angle) == [] then 1 else 0
  {
    assert Pop(stack + [c]) == stack;
    ErasePush(stack, c, angle);
  }

  lemma {:induction false} HeightOfAngles(stack: seq<char>, angle: char)
    ensures Erase(stack, angle) == [] ==> Height(stack, angle) == |stack|
  {
    if stack != [] { HeightOfAngles(Pop(stack), angle); }
  }

  lemma PoppedAngle(stack: seq<char>, angle: char)
    requires stack != [] && Last(stack) == angle
    ensures Erase(Pop(stack), angle) == Erase(stack, angle)
    ensures Height(Pop(stack), angle) == Height(stack, angle) - if Erase(stack, angle) == [] then 1 else 0
    ensures Erase(stack, angle) == [] ==> Height(stack, angle) == |stack|
    ensures |stack| == 1 ==> Erase(stack, angle) == []
  {
    HeightOfAngles(stack, angle);
    assert |stack| == 1 ==> Pop(stack) == [];
  }

  lemma BracketOnTop(stack: seq<char>, angle: char)
    requires stack != [] && Last(stack) != angle
    ensures Erase(stack, angle) != []
  {
  }

  /** Trimming uncovers the topmost bracket, if there is one, and changes nothing else. */
  lemma {:induction false} Trimmed(stack: seq<char>, angle: char)
    ensures var t, b := TrimTop(stack, angle), Erase(stack, angle);
            && (t == [] <==> b == [])
            && (t != [] ==>
                  && Last(t) == Last(b) != angle && Level(t, angle) == Level(stack, angle)
                  && Level(Pop(t), angle) == Open(Height(stack, angle), Pop(b)))
  {
    if stack != [] && Last(stack) == angle { Trimmed(Pop(stack), angle); }
  }

  // ----- the search to the right

  /** A step of the reading says what the scanner does. */
  ghost predicate IsStep(next: Reading, r: Scan, pos: int, angle: char) {
    match r
    case Found(e) => e == pos && next == Answer
    case GaveUp => next == NoAnswer
    case Pending(t) => Height(t, angle) > 0 && next == Level(t, angle)
  }

  function StepAt(c: char, weight: int, stack: seq<char>): Reading {
    AngleStep(c, weight, Height(stack, '<'), Erase(stack, '<'))
  }

  lemma NeutralReads(c: char, stack: seq<char>)
    requires Height(stack, '<') > 0 && !IsBracket(c) && c != ';'
    ensures StepAt(c, 0, stack) == Level(stack, '<')
  {
  }

  lemma PushReads(stack: seq<char>)
    requires Height(stack, '<') > 0
    ensures Height(stack + ['<'], '<') > 0 && StepAt('<', 1, stack) == Level(stack + ['<'], '<')
  {
    Pushed(stack, '<', '<');
  }

  lemma PopReads(c: char, stack: seq<char>)
    requires Height(stack, '<') > 0 && (c == '<' || c == '>') && Last(stack) == '<' && |stack| > 1
    ensures Height(Pop(stack), '<') > 0 && StepAt(c, -1, stack) == Level(Pop(stack), '<')
  {
    PoppedAngle(stack, '<');
    StepDown(c, Height(stack, '<'), Erase(stack, '<'));
  }

  lemma StepDown(c: char, d: nat, b: seq<char>)
    requires (c == '<' || c == '>') && d > if b == [] then 1 else 0
    ensures AngleStep(c, -1, d, b) == Open(d - if b == [] then 1 else 0, b)
    ensures AngleBackStep(c, -1, d, b) == Open(d - if b == [] then 1 else 0, b)
  {
  }

  lemma LastPopReads(c: char, stack: seq<char>)
    requires Height(stack, '<') > 0 && (c == '<' || c == '>') && Last(stack) == '<' && |stack| == 1
    ensures StepAt(c, -1, stack) == if c == '>' then Answer else NoAnswer
  {
    PoppedAngle(stack, '<');
  }

  lemma NoPopReads(c: char, stack: seq<char>)
    requires Height(stack, '<') > 0 && (c == '<' || c == '>') && Last(stack) != '<'
    ensures StepAt(c, -1, stack) == Level(stack, '<')
  {
    BracketOnTop(stack, '<');
  }

  lemma OpenerReads(line: string, i: nat, stack: seq<char>)
    requires i < |line| && Height(stack, '<') > 0 && IsOpener(line[i])
    ensures IsStep(StepAt(line[i], Weight(line, i), stack), ForwardStep(line, i, stack), i + 1, '<')
  {
    Pushed(stack, line[i], '<');
  }

  lemma CloserReads(line: string, i: nat, stack: seq<char>)
    requires i < |line| && Height(stack, '<') > 0 && (IsCloser(line[i]) || line[i] == ';')
    ensures IsStep(StepAt(line[i], Weight(line, i), stack), ForwardStep(line, i, stack), i + 1, '<')
  {
    Trimmed(stack, '<');
  }

  /** The angle brackets that count for one less take one off, if one is on top. */
  lemma DownStep(line: string, i: nat, stack: seq<char>)
    requires i < |line| && stack != [] && Weight(line, i) == -1
    ensures ForwardStep(line, i, stack) ==
            if Last(stack) != '<' then Pending(stack)
            else if |stack| > 1 then Pending(Pop(stack))
            else if line[i] == '>' then Found(i + 1) else GaveUp
  {
  }

  lemma DownReads(line: string, i: nat, stack: seq<char>)
    requires i < |line| && Height(stack, '<') > 0 && Weight(line, i) == -1
    ensures IsStep(StepAt(line[i], -1, stack), ForwardStep(line, i, stack), i + 1, '<')
  {
    DownStep(line, i, stack);
    if Last(stack) != '<' {
      NoPopReads(line[i], stack);
    } else if |stack| == 1 {
      LastPopReads(line[i], stack);
    } else {
      PopReads(line[i], stack);
    }
  }

  lemma OtherReads(line: string, i: nat, stack: seq<char>)
    requires i < |line| && Height(stack, '<') > 0 && !IsBracket(line[i]) && line[i] != ';' && Weight(line, i) != -1
    ensures IsStep(StepAt(line[i], Weight(line, i), stack), ForwardStep(line, i, stack), i + 1, '<')
  {
    if Weight(line, i) == 1 { PushReads(stack); } else { NeutralReads(line[i], stack); }
  }

  /** A step of the scanner is a step of the reading. */
  lemma StepReads(line: string, i: nat, stack: seq<char>)
    requires i < |line| && Height(stack, '<') > 0
    ensures IsStep(StepAt(line[i], Weight(line, i), stack), ForwardStep(line, i, stack), i + 1, '<')
  {
    var c := line[i];
    if IsOpener(c) {
      OpenerReads(line, i, stack);
    } else if IsCloser(c) || c == ';' {
      CloserReads(line, i, stack);
    } else if Weight(line, i) == -1 {
      DownReads(line, i, stack);
    } else {
      OtherReads(line, i, stack);
    }
  }

  /** What the scan of a line, which the sheet has from position `a` on, is for a reading from `start`. */
  ghost predicate LineReads(s: Sheet, start: nat, a: nat, line: string, r: Scan)
    requires |s.text| == |s.weights|
  {
    match r
    case Found(e) =>
      1 <= e <= |line| && start < a + e <= |s.text| && ReadTo(s.text, s.weights, start, a + e) == Answer
    case GaveUp => NoAnswers(s.text, s.weights, start)
    case Pending(t) =>
      IsAt(s, start, a + |line|, t)
  }

  /** The reading is at `k`, and has there what is on the stack. */
  ghost predicate IsAt(s: Sheet, start: nat, k: nat, stack: seq<char>) {
    && |s.text| == |s.weights| && start <= k <= |s.text|
    && Height(stack, '<') > 0 && ReadTo(s.text, s.weights, start, k) == Level(stack, '<')
  }

  lemma ReadsNext(s: Sheet, start: nat, a: nat, line: string, i: nat, stack: seq<char>, r: Scan)
    requires HasLine(s, Rightward, a, line) && i < |line| && IsAt(s, start, a + i, stack)
    requires r == ForwardStep(line, i, stack)
    ensures r.Pending? ==> IsAt(s, start, a + (i + 1), r.stack)
    ensures !r.Pending? ==> LineReads(s, start, a, line, r)
  {
    StepReads(line, i, stack);
    LineAt(s, Rightward, a, line, i);
    assert ReadTo(s.text, s.weights, start, a + i + 1) == StepAt(line[i], Weight(line, i), stack);
    if r.GaveUp? { NoAnswerOnTheWay(s.text, s.weights, start, a + i); }
  }

  lemma {:induction false} ScanReads(s: Sheet, start: nat, a: nat, line: string, i: nat, stack: seq<char>)
    requires HasLine(s, Rightward, a, line) && i <= |line| && IsAt(s, start, a + i, stack)
    ensures LineReads(s, start, a, line, ScanForward(line, i, stack))
    decreases |line| - i
  {
    if i < |line| {
      var r := ForwardStep(line, i, stack);
      ReadsNext(s, start, a, line, i, stack, r);
      if r.Pending? { ScanReads(s, start, a, line, i + 1, r.stack); }
    }
  }

  /** What the search across lines is for a reading from `start`. */
  ghost predicate SearchReads(lines: seq<string>, s: Sheet, start: nat, found: Partner)
    requires LaidOut(lines, Rightward, s)
  {
    match found
    case At(m, e) =>
      && m < |lines| && 1 <= e <= |lines[m]|
      && start < s.at[m] + e <= |s.text| && ReadTo(s.text, s.weights, start, s.at[m] + e) == Answer
    case Missing(_) => NoAnswers(s.text, s.weights, start)
  }

  lemma {:induction false} SearchIsReading(
    lines: seq<string>, s: Sheet, start: nat, l: nat, i: nat, stack: seq<char>)
    requires LaidOut(lines, Rightward, s) && l < |lines| && i <= |lines[l]|
    requires IsAt(s, start, s.at[l] + i, stack)
    ensures SearchReads(lines, s, start, CloseAcross(lines, l, i, stack))
    decreases |lines| - l
  {
    var r := ScanForward(lines[l], i, stack);
    ScanReads(s, start, s.at[l], lines[l], i, stack);
    if !r.Pending? {
      LineIsSearched(lines, s, start, l, r);
    } else if l + 1 == |lines| {
      TextIsSearched(lines, s, start, r.stack);
    } else {
      NextLine(lines, Rightward, s, l);
      SearchIsReading(lines, s, start, l + 1, 0, r.stack);
    }
  }

  lemma LineIsSearched(lines: seq<string>, s: Sheet, start: nat, l: nat, r: Scan)
    requires LaidOut(lines, Rightward, s) && l < |lines| && !r.Pending? && LineReads(s, start, s.at[l], lines[l], r)
    ensures SearchReads(lines, s, start, if r.Found? then At(l, r.pos) else Missing(l))
  {
  }

  lemma TextIsSearched(lines: seq<string>, s: Sheet, start: nat, stack: seq<char>)
    requires LaidOut(lines, Rightward, s) && lines != []
    requires IsAt(s, start, s.at[|lines| - 1] + |lines[|lines| - 1]|, stack)
    ensures SearchReads(lines, s, start, Missing(|lines| - 1))
  {
    NoAnswerOnTheWay(s.text, s.weights, start, |s.text|);
  }

  lemma AngleIsPushed(lines: seq<string>, l: nat, q: nat)
    requires l < |lines| && q < |lines[l]| && PushesAngle(lines[l], q)
    ensures CloseAcross(lines, l, q, []) == CloseAcross(lines, l, q + 1, ['<'])
  {
    assert [] + ['<'] == ['<'];
  }

  lemma FirstLevel(angle: char)
    ensures Level([angle], angle) == Open(1, [])
  {
    assert [] + [angle] == [angle];
    Pushed([], angle, angle);
  }

  lemma SearchFromPushed(lines: seq<string>, s: Sheet, l: nat, q: nat)
    requires LaidOut(lines, Rightward, s) && l < |lines| && q < |lines[l]|
    ensures s.at[l] + (q + 1) <= |s.text|
    ensures SearchReads(lines, s, s.at[l] + (q + 1), CloseAcross(lines, l, q + 1, ['<']))
  {
    FirstLevel('<');
    assert HasLine(s, Rightward, s.at[l], lines[l]);
    SearchIsReading(lines, s, s.at[l] + (q + 1), l, q + 1, ['<']);
  }

  /** The search from a `<` that goes on the stack finds a place exactly if it answers that `<`. */
  lemma PushedAngleIsAnswered(lines: seq<string>, s: Sheet, l: nat, q: nat, m: nat, e: nat)
    requires LaidOut(lines, Rightward, s) && l < |lines| && q < |lines[l]| && PushesAngle(lines[l], q)
    requires m < |lines| && 1 <= e <= |lines[m]|
    ensures CloseAcross(lines, l, q, []) == At(m, e) <==>
            ClosesAngle(s.text, s.weights, s.at[l] + (q + 1), s.at[m] + (e - 1))
  {
    AngleIsPushed(lines, l, q);
    SearchFromPushed(lines, s, l, q);
    AnswerIsPlace(lines, s, s.at[l] + (q + 1), CloseAcross(lines, l, q, []), m, e);
  }

  lemma AnswerIsPlace(lines: seq<string>, s: Sheet, start: nat, found: Partner, m: nat, e: nat)
    requires LaidOut(lines, Rightward, s) && start <= |s.text| && SearchReads(lines, s, start, found)
    requires m < |lines| && 1 <= e <= |lines[m]|
    ensures found == At(m, e) <==> ClosesAngle(s.text, s.weights, start, s.at[m] + (e - 1))
  {
    var end := s.at[m] + (e - 1);
    assert HasLine(s, Rightward, s.at[m], lines[m]);
    if start <= end {
      AnswerMeans(s.text, s.weights, start, end);
      if ReadTo(s.text, s.weights, start, end + 1) == Answer && found.At? {
        OneAnswer(s.text, s.weights, start, end + 1, s.at[found.line] + found.pos);
        OnePlace(lines, Rightward, s, m, e - 1, found.line, found.pos - 1);
      }
    }
  }

  // ----- the search to the left

  /** A position that the reverse scan looks at is never inside a run of `<` by an odd number. */
  predicate Visits(line: string, end: nat)
    requires end <= |line|
  {
    end > 0 && line[end - 1] == '<' ==> Run(line, end - 1) % 2 == 1
  }

  function StepAtBack(c: char, weight: int, stack: seq<char>): Reading {
    AngleBackStep(c, weight, Height(stack, '>'), Erase(stack, '>'))
  }

  lemma NeutralReadsBack(c: char, stack: seq<char>)
    requires Height(stack, '>') > 0 && !IsBracket(c) && c != ';'
    ensures StepAtBack(c, 0, stack) == Level(stack, '>')
  {
  }

  lemma PushReadsBack(stack: seq<char>)
    requires Height(stack, '>') > 0
    ensures Height(stack + ['>'], '>') > 0 && StepAtBack('>', 1, stack) == Level(stack + ['>'], '>')
  {
    Pushed(stack, '>', '>');
  }

  lemma PopReadsBack(stack: seq<char>)
    requires Height(stack, '>') > 0 && Last(stack) == '>' && |stack| > 1
    ensures Height(Pop(stack), '>') > 0 && StepAtBack('<', -1, stack) == Level(Pop(stack), '>')
  {
    PoppedAngle(stack, '>');
    StepDown('<', Height(stack, '>'), Erase(stack, '>'));
  }

  lemma LastPopReadsBack(stack: seq<char>)
    requires Height(stack, '>') > 0 && Last(stack) == '>' && |stack| == 1
    ensures StepAtBack('<', -1, stack) == Answer
  {
    PoppedAngle(stack, '>');
  }

  lemma NoPopReadsBack(stack: seq<char>)
    requires Height(stack, '>') > 0 && Last(stack) != '>'
    ensures StepAtBack('<', -1, stack) == Level(stack, '>')
  {
    BracketOnTop(stack, '>');
  }

  lemma CloserReadsBack(line: string, i: nat, stack: seq<char>)
    requires i < |line| && Height(stack, '>') > 0 && IsCloser(line[i]) && !SkipsTwo(line, i)
    ensures IsStep(StepAtBack(line[i], BackWeight(line, i), stack), BackwardStep(line, i, stack), i, '>')
  {
    Pushed(stack, line[i], '>');
  }

  lemma OpenerReadsBack(line: string, i: nat, stack: seq<char>)
    requires i < |line| && Height(stack, '>') > 0 && (IsOpener(line[i]) || line[i] == ';') && !SkipsTwo(line, i)
    ensures IsStep(StepAtBack(line[i], BackWeight(line, i), stack), BackwardStep(line, i, stack), i, '>')
  {
    Trimmed(stack, '>');
  }

  lemma AngleReadsBack(line: string, i: nat, stack: seq<char>)
    requires i < |line| && Height(stack, '>') > 0 && line[i] == '<' && !SkipsTwo(line, i)
    ensures IsStep(StepAtBack('<', -1, stack), BackwardStep(line, i, stack), i, '>')
  {
    if Last(stack) != '>' {
      NoPopReadsBack(stack);
    } else if |stack| == 1 {
      LastPopReadsBack(stack);
    } else {
      PopReadsBack(stack);
    }
  }

  lemma OtherReadsBack(line: string, i: nat, stack: seq<char>)
    requires i < |line| && Height(stack, '>') > 0 && !IsBracket(line[i]) && line[i] != ';' && line[i] != '<'
    requires !SkipsTwo(line, i)
    ensures IsStep(StepAtBack(line[i], BackWeight(line, i), stack), BackwardStep(line, i, stack), i, '>')
  {
    if line[i] == '>' { PushReadsBack(stack); } else { NeutralReadsBack(line[i], stack); }
  }

  lemma StepReadsBack(line: string, i: nat, stack: seq<char>)
    requires i < |line| && Height(stack, '>') > 0 && !SkipsTwo(line, i) && Visits(line, i + 1)
    ensures IsStep(StepAtBack(line[i], BackWeight(line, i), stack), BackwardStep(line, i, stack), i, '>')
  {
    var c := line[i];
    if IsCloser(c) {
      CloserReadsBack(line, i, stack);
    } else if IsOpener(c) || c == ';' {
      OpenerReadsBack(line, i, stack);
    } else if c == '<' {
      AngleReadsBack(line, i, stack);
    } else {
      OtherReadsBack(line, i, stack);
    }
  }

  lemma VisitsNext(line: string, i: nat)
    requires i < |line| && !SkipsTwo(line, i)
    ensures Visits(line, i)
  {
  }

  /** The two characters that the reverse scan reads together are plain, */
  lemma SkippedIsPlain(line: string, i: nat)
    requires i < |line| && SkipsTwo(line, i)
    ensures PlainStretch(line, i - 1, i + 1)
    ensures line[i] == '>' ==> line[i - 1] != '<' && line[i - 1] != '>'
  {
    SkippedAreNoBrackets(line, i);
    if line[i] == '>' && line[i - 1] != '-' && !IsSpacedGreaterEqual(line, i) {
      OperatorEndsPlainly(line[..i]);
    }
  }

  /** and count for nothing. */
  lemma SkippedIsWeightless(line: string, i: nat)
    requires i < |line| && SkipsTwo(line, i) && Visits(line, i + 1)
    ensures BackWeight(line, i) == 0 && BackWeight(line, i - 1) == 0 && Visits(line, i - 1)
  {
    SkippedIsPlain(line, i);
  }

  /** Neither brackets nor a `;`. */
  predicate PlainStretch(text: string, start: int, end: int) {
    0 <= start <= end <= |text| && forall k :: start <= k < end ==> !IsBracket(text[k]) && text[k] != ';'
  }

  ghost predicate LineReadsBack(s: Sheet, a: nat, line: string, stop: nat, r: Scan)
    requires stop <= |s.text| == |s.weights|
  {
    match r
    case Found(k) => 0 <= k < |line| && a + k < stop && ReadBackTo(s.text, s.weights, a + k, stop) == Answer
    case GaveUp => NoAnswersBack(s.text, s.weights, stop)
    case Pending(t) => IsAtBack(s, a, stop, t)
  }

  ghost predicate IsAtBack(s: Sheet, k: nat, stop: nat, stack: seq<char>) {
    && |s.text| == |s.weights| && k <= stop <= |s.text|
    && Height(stack, '>') > 0 && ReadBackTo(s.text, s.weights, k, stop) == Level(stack, '>')
  }

  lemma ReadsNextBack(s: Sheet, a: nat, line: string, i: nat, stop: nat, stack: seq<char>, r: Scan)
    requires HasLine(s, Leftward, a, line) && i < |line| && IsAtBack(s, a + (i + 1), stop, stack)
    requires !SkipsTwo(line, i) && Visits(line, i + 1) && r == BackwardStep(line, i, stack)
    ensures Visits(line, i)
    ensures r.Pending? ==> IsAtBack(s, a + i, stop, r.stack)
    ensures !r.Pending? ==> LineReadsBack(s, a, line, stop, r)
  {
    StepReadsBack(line, i, stack);
    VisitsNext(line, i);
    LineAt(s, Leftward, a, line, i);
    assert ReadBackTo(s.text, s.weights, a + i, stop) == StepAtBack(line[i], BackWeight(line, i), stack);
    if r.GaveUp? { NoAnswerOnTheWayBack(s.text, s.weights, a + i + 1, stop); }
  }

  /** Two characters of no weight that the scanner skips change nothing. */
  lemma ReadsTwoBack(s: Sheet, a: nat, line: string, i: nat, stop: nat, stack: seq<char>)
    requires HasLine(s, Leftward, a, line) && i < |line| && IsAtBack(s, a + (i + 1), stop, stack)
    requires SkipsTwo(line, i) && Visits(line, i + 1)
    ensures Visits(line, i - 1) && IsAtBack(s, a + (i - 1), stop, stack)
  {
    SkippedIsPlain(line, i);
    SkippedIsWeightless(line, i);
    LineAt(s, Leftward, a, line, i);
    NeutralReadsBack(line[i], stack);
    assert ReadBackTo(s.text, s.weights, a + i, stop) == Level(stack, '>');
    LineAt(s, Leftward, a, line, i - 1);
    NeutralReadsBack(line[i - 1], stack);
  }

  lemma {:induction false} ScanReadsBack(s: Sheet, a: nat, line: string, end: nat, stop: nat, stack: seq<char>)
    requires HasLine(s, Leftward, a, line) && end <= |line| && Visits(line, end)
    requires IsAtBack(s, a + end, stop, stack)
    ensures LineReadsBack(s, a, line, stop, ScanBackward(line, end - 1, stack))
    decreases end
  {
    if end > 0 {
      var i := end - 1;
      if SkipsTwo(line, i) {
        ReadsTwoBack(s, a, line, i, stop, stack);
        ScanReadsBack(s, a, line, i - 1, stop, stack);
      } else {
        var r := BackwardStep(line, i, stack);
        ReadsNextBack(s, a, line, i, stop, stack, r);
        if r.Pending? { ScanReadsBack(s, a, line, i, stop, r.stack); }
      }
    }
  }

  ghost predicate SearchReadsBack(lines: seq<string>, s: Sheet, stop: nat, found: Partner)
    requires LaidOut(lines, Leftward, s) && stop <= |s.text|
  {
    match found
    case At(m, k) =>
      && m < |lines| && 0 <= k < |lines[m]|
      && s.at[m] + k < stop && ReadBackTo(s.text, s.weights, s.at[m] + k, stop) == Answer
    case Missing(_) => NoAnswersBack(s.text, s.weights, stop)
  }

  lemma {:induction false} SearchIsReadingBack(
    lines: seq<string>, s: Sheet, l: nat, end: nat, stop: nat, stack: seq<char>)
    requires LaidOut(lines, Leftward, s) && l < |lines| && end <= |lines[l]|
    requires IsAtBack(s, s.at[l] + end, stop, stack) && Visits(lines[l], end)
    ensures SearchReadsBack(lines, s, stop, OpenAcross(lines, l, end - 1, stack))
    decreases l
  {
    var r := ScanBackward(lines[l], end - 1, stack);
    ScanReadsBack(s, s.at[l], lines[l], end, stop, stack);
    if !r.Pending? {
      LineIsSearchedBack(lines, s, l, stop, r);
    } else if l == 0 {
      TextIsSearchedBack(lines, s, stop, r.stack);
    } else {
      NextLine(lines, Leftward, s, l - 1);
      VisitsLast(lines[l - 1]);
      SearchIsReadingBack(lines, s, l - 1, |lines[l - 1]|, stop, r.stack);
    }
  }

  lemma VisitsLast(line: string)
    ensures Visits(line, |line|)
  {
  }

  lemma LineIsSearchedBack(lines: seq<string>, s: Sheet, l: nat, stop: nat, r: Scan)
    requires LaidOut(lines, Leftward, s) && l < |lines| && stop <= |s.text|
    requires !r.Pending? && LineReadsBack(s, s.at[l], lines[l], stop, r)
    ensures SearchReadsBack(lines, s, stop, if r.Found? then At(l, r.pos) else Missing(l))
  {
  }

  lemma TextIsSearchedBack(lines: seq<string>, s: Sheet, stop: nat, stack: seq<char>)
    requires LaidOut(lines, Leftward, s) && lines != [] && IsAtBack(s, s.at[0], stop, stack)
    ensures SearchReadsBack(lines, s, stop, Missing(0))
  {
    NoAnswerOnTheWayBack(s.text, s.weights, 0, stop);
  }

  lemma AngleIsPushedBack(lines: seq<string>, l: nat, q: nat)
    requires l < |lines| && q < |lines[l]| && !SkipsTwo(lines[l], q) && lines[l][q] == '>'
    ensures OpenAcross(lines, l, q, []) == OpenAcross(lines, l, q - 1, ['>'])
  {
    assert [] + ['>'] == ['>'];
  }

  lemma SearchFromPushedBack(lines: seq<string>, s: Sheet, l: nat, q: nat)
    requires LaidOut(lines, Leftward, s) && l < |lines| && q < |lines[l]| && lines[l][q] == '>'
    ensures s.at[l] + q <= |s.text|
    ensures SearchReadsBack(lines, s, s.at[l] + q, OpenAcross(lines, l, q - 1, ['>']))
  {
    FirstLevel('>');
    assert HasLine(s, Leftward, s.at[l], lines[l]);
    SearchIsReadingBack(lines, s, l, q, s.at[l] + q, ['>']);
  }

  lemma PushedAngleIsAnsweredBack(lines: seq<string>, s: Sheet, l: nat, q: nat, m: nat, k: nat)
    requires LaidOut(lines, Leftward, s) && l < |lines| && q < |lines[l]|
    requires !SkipsTwo(lines[l], q) && lines[l][q] == '>'
    requires m < |lines| && k < |lines[m]|
    ensures OpenAcross(lines, l, q, []) == At(m, k) <==>
            OpensAngle(s.text, s.weights, s.at[m] + (k + 1), s.at[l] + q)
  {
    AngleIsPushedBack(lines, l, q);
    SearchFromPushedBack(lines, s, l, q);
    AnswerIsPlaceBack(lines, s, s.at[l] + q, OpenAcross(lines, l, q, []), m, k);
  }

  lemma AnswerIsPlaceBack(lines: seq<string>, s: Sheet, stop: nat, found: Partner, m: nat, k: nat)
    requires LaidOut(lines, Leftward, s) && stop <= |s.text| && SearchReadsBack(lines, s, stop, found)
    requires m < |lines| && k < |lines[m]|
    ensures found == At(m, k) <==> OpensAngle(s.text, s.weights, s.at[m] + (k + 1), stop)
  {
    var start := s.at[m] + (k + 1);
    assert HasLine(s, Leftward, s.at[m], lines[m]);
    if start <= stop {
      AnswerBackMeans(s.text, s.weights, start, stop);
      if ReadBackTo(s.text, s.weights, start - 1, stop) == Answer && found.At? {
        OneAnswerBack(s.text, s.weights, start - 1, s.at[found.line] + found.pos, stop);
        OnePlace(lines, Leftward, s, m, k, found.line, found.pos);
      }
    }
  }
}
