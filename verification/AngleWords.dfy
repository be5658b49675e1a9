/**
 Text between angle brackets, apart from any scanner. Every `<` and `>` has a weight, by which it changes
 the depth when it stands outside all brackets; which weights the two scanners give is said elsewhere.
 A reading keeps the depth and the open brackets; it ends in an answer exactly where the depth, summed up
 over the characters outside well-nested brackets, first gets down to nothing.
 */
module AngleWords {
  import opened Brackets

  predicate Weighted(text: string, w: seq<int>) {
    && |w| == |text|
    && forall k {:trigger w[k]} :: 0 <= k < |text| ==>
         -1 <= w[k] <= 1 && (w[k] != 0 ==> text[k] == '<' || text[k] == '>')
  }

  // ----- reading to the right

  datatype Reading = Answer | NoAnswer | Open(depth: nat, brackets: seq<char>)

  function AngleStep(c: char, weight: int, depth: nat, brackets: seq<char>): Reading {
    if brackets != [] then
      match PureStep(c, brackets)
      case Found(_) => Open(depth, [])
      case GaveUp => NoAnswer
      case Pending(s) => Open(depth, s)
    else if IsOpener(c) then Open(depth, [c])
    else if IsCloser(c) || c == ';' then NoAnswer
    else if depth + weight > 0 then Open(depth + weight, [])
    else if c == '>' then Answer else NoAnswer
  }

  /** Reads from `start`, just behind a `<`, up to `k`. */
  function ReadTo(text: string, w: seq<int>, start: nat, k: nat): Reading
    requires start <= k <= |text| == |w|
    decreases k - start
  {
    if k == start then Open(1, [])
    else
      match ReadTo(text, w, start, k - 1)
      case Open(d, b) => AngleStep(text[k - 1], w[k - 1], d, b)
      case _ => NoAnswer
  }

  lemma {:induction false} DeadStaysDead(text: string, w: seq<int>, start: nat, j: nat, k: nat)
    requires start <= j < k <= |text| == |w| && !ReadTo(text, w, start, j).Open?
    ensures ReadTo(text, w, start, k) == NoAnswer
    decreases k
  {
    if j < k - 1 { DeadStaysDead(text, w, start, j, k - 1); }
  }

  ghost predicate NoAnswers(text: string, w: seq<int>, start: nat)
    requires |text| == |w|
  {
    forall k :: start <= k <= |text| ==> ReadTo(text, w, start, k) != Answer
  }

  /** A reading that gets to the end of the text, or stops without an answer, has none. */
  lemma NoAnswerOnTheWay(text: string, w: seq<int>, start: nat, k: nat)
    requires start <= k <= |text| == |w| && ReadTo(text, w, start, k).Open?
    requires k < |text| ==> ReadTo(text, w, start, k + 1) == NoAnswer
    ensures NoAnswers(text, w, start)
  {
    forall j | start <= j <= |text|
      ensures ReadTo(text, w, start, j) != Answer
    {
      if j < k && ReadTo(text, w, start, j) == Answer { DeadStaysDead(text, w, start, j, k); }
      if k + 1 < j { DeadStaysDead(text, w, start, k + 1, j); }
    }
  }

  lemma OneAnswer(text: string, w: seq<int>, start: nat, j: nat, k: nat)
    requires start <= j <= |text| == |w| && start <= k <= |text|
    requires ReadTo(text, w, start, j) == Answer == ReadTo(text, w, start, k)
    ensures j == k
  {
    if j < k { DeadStaysDead(text, w, start, j, k); }
    if k < j { DeadStaysDead(text, w, start, k, j); }
  }

  // ----- what an answer means

  /** Position `k` is outside all brackets that open behind `start`. */
  ghost predicate Bare(text: string, start: nat, k: nat)
    requires start <= k <= |text|
  {
    Nested(text[start..k])
  }

  /** One more than the weights of the bare characters from `start` up to `k`. */
  ghost function Depth(text: string, w: seq<int>, start: nat, k: nat): int
    requires start <= k <= |text| == |w|
    decreases k - start
  {
    if k == start then 1
    else Depth(text, w, start, k - 1) + if Bare(text, start, k - 1) then w[k - 1] else 0
  }

  /** Up to `k` there is no bare `;`, and the depth is positive at all bare positions. */
  ghost predicate StaysOpen(text: string, w: seq<int>, start: nat, k: nat)
    requires start <= k <= |text| == |w|
  {
    && (forall j {:trigger Bare(text, start, j)} :: start <= j < k && Bare(text, start, j) ==> text[j] != ';')
    && forall j {:trigger Bare(text, start, j)} :: start <= j <= k && Bare(text, start, j) ==>
         Depth(text, w, start, j) > 0
  }

  /** The `>` at `end` answers the `<` just before `start`. */
  ghost predicate ClosesAngle(text: string, w: seq<int>, start: int, end: int) {
    && 0 <= start <= end < |text| == |w|
    && Bare(text, start, end) && StaysOpen(text, w, start, end)
    && text[end] == '>' && w[end] == -1 && Depth(text, w, start, end) == 1
  }

  lemma BareIsBalanced(text: string, start: nat, k: nat)
    requires start <= k <= |text|
    ensures Bare(text, start, k) <==> PureForward(text[start..k], ['<']) == Pending(['<'])
  {
    if Bare(text, start, k) {
      NestedIsBalanced(text[start..k], '<');
    } else if PureForward(text[start..k], ['<']) == Pending(['<']) {
      BalancedIsNested(text[start..k], '<');
    }
  }

  lemma PureForwardSnoc(text: string, start: nat, k: nat, s: seq<char>)
    requires start < k <= |text|
    ensures PureForward(text[start..k], s) ==
            var r := PureForward(text[start..k - 1], s);
            if r.Pending? then Shift(PureForward([text[k - 1]], r.stack), k - 1 - start) else r
  {
    assert text[start..k] == text[start..k - 1] + [text[k - 1]];
    PureForwardConcat(text[start..k - 1], [text[k - 1]], s);
  }

  lemma PureForwardOne(c: char, s: seq<char>)
    ensures PureForward([c], s) == PureStep(c, s)
  {
    PureForwardCons(c, [], s);
    assert [c] + [] == [c];
  }

  /** The brackets of a reading are those of the plain matcher above a floor. */
  ghost predicate Tracks(text: string, w: seq<int>, start: nat, k: nat, d: nat, b: seq<char>)
    requires start <= k <= |text| == |w|
  {
    && PureForward(text[start..k], ['<']) == Pending(['<'] + b)
    && d == Depth(text, w, start, k) > 0 && (b == [] <==> Bare(text, start, k))
  }

  /** A step of the reading inside a bracket. */
  lemma StepInBracket(c: char, weight: int, d: nat, b: seq<char>)
    requires b != []
    ensures match AngleStep(c, weight, d, b)
            case Open(e, s) => e == d && PureStep(c, ['<'] + b) == Pending(['<'] + s)
            case NoAnswer => PureStep(c, ['<'] + b) == GaveUp
            case Answer => false
  {
    var s := ['<'] + b;
    if IsOpener(c) {
      assert s + [c] == ['<'] + (b + [c]);
    } else if IsCloser(c) {
      assert Pop(s) == ['<'] + Pop(b);
    }
  }

  lemma StepOnFloor(c: char)
    ensures PureStep(c, ['<']) ==
            if IsOpener(c) then Pending(['<'] + [c]) else if IsCloser(c) then GaveUp else Pending(['<'])
  {
  }

  lemma StaysOpenStep(text: string, w: seq<int>, start: nat, k: nat)
    requires start < k <= |text| == |w|
    ensures StaysOpen(text, w, start, k) <==>
            && StaysOpen(text, w, start, k - 1) && (Bare(text, start, k - 1) ==> text[k - 1] != ';')
            && (Bare(text, start, k) ==> Depth(text, w, start, k) > 0)
  {
  }

  /** Where a reading is open, and what it holds there. */
  ghost predicate OpenMeansThis(text: string, w: seq<int>, start: nat, k: nat)
    requires start <= k <= |text| == |w|
  {
    var r := ReadTo(text, w, start, k);
    && (r.Open? <==> PureForward(text[start..k], ['<']).Pending? && StaysOpen(text, w, start, k))
    && (r.Open? ==> Tracks(text, w, start, k, r.depth, r.brackets))
  }

  lemma {:induction false} OpenMeans(text: string, w: seq<int>, start: nat, k: nat)
    requires Weighted(text, w) && start <= k <= |text|
    ensures OpenMeansThis(text, w, start, k)
    decreases k
  {
    if k == start {
      BareIsBalanced(text, start, k);
      assert text[start..k] == [] && ['<'] + [] == ['<'];
    } else {
      OpenMeans(text, w, start, k - 1);
      var r := ReadTo(text, w, start, k - 1);
      if !r.Open? {
        OpenNoMore(text, w, start, k);
      } else if r.brackets == [] {
        OpenOnFloor(text, w, start, k);
      } else {
        OpenInBracket(text, w, start, k);
      }
    }
  }

  lemma OpenNoMore(text: string, w: seq<int>, start: nat, k: nat)
    requires Weighted(text, w) && start < k <= |text| && OpenMeansThis(text, w, start, k - 1)
    requires !ReadTo(text, w, start, k - 1).Open?
    ensures OpenMeansThis(text, w, start, k)
  {
    PureForwardSnoc(text, start, k, ['<']);
    StaysOpenStep(text, w, start, k);
  }

  lemma FloorPlus(b: seq<char>)
    ensures ['<'] + b == ['<'] <==> b == []
  {
    assert |['<'] + b| == 1 + |b|;
    assert b == [] ==> ['<'] + b == ['<'];
  }

  lemma OpenOnFloor(text: string, w: seq<int>, start: nat, k: nat)
    requires Weighted(text, w) && start < k <= |text| && OpenMeansThis(text, w, start, k - 1)
    requires ReadTo(text, w, start, k - 1).Open? && ReadTo(text, w, start, k - 1).brackets == []
    ensures OpenMeansThis(text, w, start, k)
  {
    FloorPlus([]);
    NextStack(text, start, k, ['<']);
    StepOnFloor(text[k - 1]);
    FloorPlus([text[k - 1]]);
    StaysOpenStep(text, w, start, k);
    BareIsBalanced(text, start, k);
  }

  lemma OpenInBracket(text: string, w: seq<int>, start: nat, k: nat)
    requires Weighted(text, w) && start < k <= |text| && OpenMeansThis(text, w, start, k - 1)
    requires ReadTo(text, w, start, k - 1).Open? && ReadTo(text, w, start, k - 1).brackets != []
    ensures OpenMeansThis(text, w, start, k)
  {
    var r := ReadTo(text, w, start, k - 1);
    NextStack(text, start, k, ['<'] + r.brackets);
    StepInBracket(text[k - 1], w[k - 1], r.depth, r.brackets);
    var next := ReadTo(text, w, start, k);
    if next.Open? { FloorPlus(next.brackets); }
    StaysOpenStep(text, w, start, k);
    BareIsBalanced(text, start, k);
  }

  lemma NextStack(text: string, start: nat, k: nat, s: seq<char>)
    requires start < k <= |text| && PureForward(text[start..k - 1], ['<']) == Pending(s)
    ensures var r := PureStep(text[k - 1], s);
            PureForward(text[start..k], ['<']) == if r.Pending? then r else Shift(r, k - 1 - start)
  {
    PureForwardSnoc(text, start, k, ['<']);
    PureForwardOne(text[k - 1], s);
  }

  /** An answer, exactly. */
  lemma AnswerMeans(text: string, w: seq<int>, start: nat, end: nat)
    requires Weighted(text, w) && start <= end < |text|
    ensures ReadTo(text, w, start, end + 1) == Answer <==> ClosesAngle(text, w, start, end)
  {
    OpenMeans(text, w, start, end);
    var r := ReadTo(text, w, start, end);
    if r.Open? && r.brackets != [] { StepInBracket(text[end], w[end], r.depth, r.brackets); }
    BareIsBalanced(text, start, end);
  }

  // ----- reading to the left

  function AngleBackStep(c: char, weight: int, depth: nat, brackets: seq<char>): Reading {
    if brackets != [] then
      match PureBackStep(c, brackets)
      case Found(_) => Open(depth, [])
      case GaveUp => NoAnswer
      case Pending(s) => Open(depth, s)
    else if IsCloser(c) then Open(depth, [c])
    else if IsOpener(c) || c == ';' then NoAnswer
    else if depth + weight > 0 then Open(depth + weight, [])
    else if c == '<' then Answer else NoAnswer
  }

  /** Reads to the left from `end`, where a `>` stands, down to `k`. */
  function ReadBackTo(text: string, w: seq<int>, k: nat, end: nat): Reading
    requires k <= end <= |text| == |w|
    decreases end - k
  {
    if k == end then Open(1, [])
    else
      match ReadBackTo(text, w, k + 1, end)
      case Open(d, b) => AngleBackStep(text[k], w[k], d, b)
      case _ => NoAnswer
  }

  lemma {:induction false} DeadStaysDeadBack(text: string, w: seq<int>, k: nat, j: nat, end: nat)
    requires k < j <= end <= |text| == |w| && !ReadBackTo(text, w, j, end).Open?
    ensures ReadBackTo(text, w, k, end) == NoAnswer
    decreases j - k
  {
    if k + 1 < j { DeadStaysDeadBack(text, w, k + 1, j, end); }
  }

  ghost predicate NoAnswersBack(text: string, w: seq<int>, end: nat)
    requires end <= |text| == |w|
  {
    forall k :: 0 <= k <= end ==> ReadBackTo(text, w, k, end) != Answer
  }

  lemma NoAnswerOnTheWayBack(text: string, w: seq<int>, k: nat, end: nat)
    requires k <= end <= |text| == |w| && ReadBackTo(text, w, k, end).Open?
    requires k > 0 ==> ReadBackTo(text, w, k - 1, end) == NoAnswer
    ensures NoAnswersBack(text, w, end)
  {
    forall j | 0 <= j <= end
      ensures ReadBackTo(text, w, j, end) != Answer
    {
      if k < j && ReadBackTo(text, w, j, end) == Answer { DeadStaysDeadBack(text, w, k, j, end); }
      if j < k - 1 { DeadStaysDeadBack(text, w, j, k - 1, end); }
    }
  }

  lemma OneAnswerBack(text: string, w: seq<int>, j: nat, k: nat, end: nat)
    requires j <= end <= |text| == |w| && k <= end
    requires ReadBackTo(text, w, j, end) == Answer == ReadBackTo(text, w, k, end)
    ensures j == k
  {
    if j < k { DeadStaysDeadBack(text, w, j, k, end); }
    if k < j { DeadStaysDeadBack(text, w, k, j, end); }
  }

  /** Position `k` is outside all brackets that close before `end`. */
  ghost predicate BareBack(text: string, k: nat, end: nat)
    requires k <= end <= |text|
  {
    Nested(text[k..end])
  }

  /** One more than the weights of the bare characters from `k` up to `end`. */
  ghost function BackDepth(text: string, w: seq<int>, k: nat, end: nat): int
    requires k <= end <= |text| == |w|
    decreases end - k
  {
    if k == end then 1
    else BackDepth(text, w, k + 1, end) + if BareBack(text, k + 1, end) then w[k] else 0
  }

  ghost predicate StaysOpenBack(text: string, w: seq<int>, k: nat, end: nat)
    requires k <= end <= |text| == |w|
  {
    && (forall j {:trigger BareBack(text, j, end)} :: k < j <= end && BareBack(text, j, end) ==> text[j - 1] != ';')
    && forall j {:trigger BareBack(text, j, end)} :: k <= j <= end && BareBack(text, j, end) ==>
         BackDepth(text, w, j, end) > 0
  }

  /** The `<` just before `start` answers the `>` at `end`. */
  ghost predicate OpensAngle(text: string, w: seq<int>, start: int, end: int) {
    && 0 < start <= end <= |text| == |w|
    && BareBack(text, start, end) && StaysOpenBack(text, w, start, end)
    && text[start - 1] == '<' && w[start - 1] == -1 && BackDepth(text, w, start, end) == 1
  }

  lemma BareBackIsBalanced(text: string, k: nat, end: nat)
    requires k <= end <= |text|
    ensures BareBack(text, k, end) <==> PureBackward(text[k..end], ['>']) == Pending(['>'])
  {
    if BareBack(text, k, end) {
      NestedIsBalancedBack(text[k..end], '>');
    } else if PureBackward(text[k..end], ['>']) == Pending(['>']) {
      BalancedBackIsNested(text[k..end], '>');
    }
  }

  lemma PureBackwardSnoc(text: string, k: nat, end: nat, s: seq<char>)
    requires k < end <= |text|
    ensures PureBackward(text[k..end], s) ==
            var r := PureBackward(text[k + 1..end], s);
            if r.Pending? then PureBackward([text[k]], r.stack) else Shift(r, 1)
  {
    assert text[k..end] == [text[k]] + text[k + 1..end];
    PureBackwardConcat([text[k]], text[k + 1..end], s);
  }

  lemma PureBackwardOne(c: char, s: seq<char>)
    ensures PureBackward([c], s) == PureBackStep(c, s)
  {
    assert Pop([c]) == [];
  }

  ghost predicate TracksBack(text: string, w: seq<int>, k: nat, end: nat, d: nat, b: seq<char>)
    requires k <= end <= |text| == |w|
  {
    && PureBackward(text[k..end], ['>']) == Pending(['>'] + b)
    && d == BackDepth(text, w, k, end) > 0 && (b == [] <==> BareBack(text, k, end))
  }

  lemma StepInBracketBack(c: char, weight: int, d: nat, b: seq<char>)
    requires b != []
    ensures match AngleBackStep(c, weight, d, b)
            case Open(e, s) => e == d && PureBackStep(c, ['>'] + b) == Pending(['>'] + s)
            case NoAnswer => PureBackStep(c, ['>'] + b) == GaveUp
            case Answer => false
  {
    var s := ['>'] + b;
    if IsCloser(c) {
      assert s + [c] == ['>'] + (b + [c]);
    } else if IsOpener(c) {
      assert Pop(s) == ['>'] + Pop(b);
    }
  }

  lemma StepOnFloorBack(c: char)
    ensures PureBackStep(c, ['>']) ==
            if IsCloser(c) then Pending(['>'] + [c]) else if IsOpener(c) then GaveUp else Pending(['>'])
  {
  }

  lemma StaysOpenStepBack(text: string, w: seq<int>, k: nat, end: nat)
    requires k < end <= |text| == |w|
    ensures StaysOpenBack(text, w, k, end) <==>
            && StaysOpenBack(text, w, k + 1, end) && (BareBack(text, k + 1, end) ==> text[k] != ';')
            && (BareBack(text, k, end) ==> BackDepth(text, w, k, end) > 0)
  {
  }

  ghost predicate OpenBackMeansThis(text: string, w: seq<int>, k: nat, end: nat)
    requires k <= end <= |text| == |w|
  {
    var r := ReadBackTo(text, w, k, end);
    && (r.Open? <==> PureBackward(text[k..end], ['>']).Pending? && StaysOpenBack(text, w, k, end))
    && (r.Open? ==> TracksBack(text, w, k, end, r.depth, r.brackets))
  }

  lemma {:induction false} OpenBackMeans(text: string, w: seq<int>, k: nat, end: nat)
    requires Weighted(text, w) && k <= end <= |text|
    ensures OpenBackMeansThis(text, w, k, end)
    decreases end - k
  {
    if k == end {
      BareBackIsBalanced(text, k, end);
      assert text[k..end] == [] && ['>'] + [] == ['>'];
    } else {
      OpenBackMeans(text, w, k + 1, end);
      var r := ReadBackTo(text, w, k + 1, end);
      if !r.Open? {
        OpenNoMoreBack(text, w, k, end);
      } else if r.brackets == [] {
        OpenOnFloorBack(text, w, k, end);
      } else {
        OpenInBracketBack(text, w, k, end);
      }
    }
  }

  lemma OpenNoMoreBack(text: string, w: seq<int>, k: nat, end: nat)
    requires Weighted(text, w) && k < end <= |text| && OpenBackMeansThis(text, w, k + 1, end)
    requires !ReadBackTo(text, w, k + 1, end).Open?
    ensures OpenBackMeansThis(text, w, k, end)
  {
    PureBackwardSnoc(text, k, end, ['>']);
    StaysOpenStepBack(text, w, k, end);
  }

  lemma FloorPlusBack(b: seq<char>)
    ensures ['>'] + b == ['>'] <==> b == []
  {
    assert |['>'] + b| == 1 + |b|;
    assert b == [] ==> ['>'] + b == ['>'];
  }

  lemma OpenOnFloorBack(text: string, w: seq<int>, k: nat, end: nat)
    requires Weighted(text, w) && k < end <= |text| && OpenBackMeansThis(text, w, k + 1, end)
    requires ReadBackTo(text, w, k + 1, end).Open? && ReadBackTo(text, w, k + 1, end).brackets == []
    ensures OpenBackMeansThis(text, w, k, end)
  {
    FloorPlusBack([]);
    NextStackBack(text, k, end, ['>']);
    StepOnFloorBack(text[k]);
    FloorPlusBack([text[k]]);
    StaysOpenStepBack(text, w, k, end);
    BareBackIsBalanced(text, k, end);
  }

  lemma OpenInBracketBack(text: string, w: seq<int>, k: nat, end: nat)
    requires Weighted(text, w) && k < end <= |text| && OpenBackMeansThis(text, w, k + 1, end)
    requires ReadBackTo(text, w, k + 1, end).Open? && ReadBackTo(text, w, k + 1, end).brackets != []
    ensures OpenBackMeansThis(text, w, k, end)
  {
    var r := ReadBackTo(text, w, k + 1, end);
    NextStackBack(text, k, end, ['>'] + r.brackets);
    StepInBracketBack(text[k], w[k], r.depth, r.brackets);
    var next := ReadBackTo(text, w, k, end);
    if next.Open? { FloorPlusBack(next.brackets); }
    StaysOpenStepBack(text, w, k, end);
    BareBackIsBalanced(text, k, end);
  }

  lemma NextStackBack(text: string, k: nat, end: nat, s: seq<char>)
    requires k < end <= |text| && PureBackward(text[k + 1..end], ['>']) == Pending(s)
    ensures PureBackward(text[k..end], ['>']) == PureBackStep(text[k], s)
  {
    PureBackwardSnoc(text, k, end, ['>']);
    PureBackwardOne(text[k], s);
  }

  lemma AnswerBackMeans(text: string, w: seq<int>, start: nat, end: nat)
    requires Weighted(text, w) && 0 < start <= end <= |text|
    ensures ReadBackTo(text, w, start - 1, end) == Answer <==> OpensAngle(text, w, start, end)
  {
    OpenBackMeans(text, w, start, end);
    var r := ReadBackTo(text, w, start, end);
    if r.Open? && r.brackets != [] { StepInBracketBack(text[start - 1], w[start - 1], r.depth, r.brackets); }
    BareBackIsBalanced(text, start, end);
  }

  // ----- both directions

  /** In well-nested text a position is bare from the left if and only if it is bare from the right. */
  lemma BareBothWays(text: string, start: nat, k: nat, end: nat)
    requires start <= k <= end <= |text| && Nested(text[start..end])
    ensures Bare(text, start, k) <==> BareBack(text, k, end)
  {
    assert text[start..end] == text[start..k] + text[k..end];
    PureForwardConcat(text[start..k], text[k..end], ['<']);
    PureBackwardConcat(text[start..k], text[k..end], ['>']);
    NestedIsBalanced(text[start..end], '<');
    NestedIsBalancedBack(text[start..end], '>');
    BareIsBalanced(text, start, k);
    BareBackIsBalanced(text, k, end);
    if Bare(text, start, k) { BalancedIsNested(text[k..end], '<'); }
    if BareBack(text, k, end) { BalancedBackIsNested(text[start..k], '>'); }
  }

  /** By how much the weights of the two directions fail to cancel at the bare characters from `k` on,
      beyond what is still open at `end`. */
  ghost function Drift(text: string, v: seq<int>, w: seq<int>, start: nat, k: nat, end: nat): int
    requires start <= k <= end <= |text| == |v| == |w|
    decreases end - k
  {
    if k == end then 1 - Depth(text, v, start, end)
    else Drift(text, v, w, start, k + 1, end) + if Bare(text, start, k) then v[k] + w[k] else 0
  }

  lemma {:induction false} BackDepthIs(text: string, v: seq<int>, w: seq<int>, start: nat, k: nat, end: nat)
    requires Weighted(text, v) && Weighted(text, w)
    requires start <= k <= end <= |text| && Nested(text[start..end])
    ensures BackDepth(text, w, k, end) == Depth(text, v, start, k) + Drift(text, v, w, start, k, end)
    decreases end - k
  {
    if k < end {
      BackDepthIs(text, v, w, start, k + 1, end);
      BareBothWays(text, start, k, end);
      BareBothWays(text, start, k + 1, end);
      if !IsBracket(text[k]) { BareNext(text, start, k); }
    }
  }

  lemma BareNext(text: string, start: nat, k: nat)
    requires start <= k < |text| && !IsBracket(text[k])
    ensures Bare(text, start, k) <==> Bare(text, start, k + 1)
  {
    BareIsBalanced(text, start, k);
    BareIsBalanced(text, start, k + 1);
    PureForwardSnoc(text, start, k + 1, ['<']);
    var r := PureForward(text[start..k], ['<']);
    if r.Pending? { PureForwardOne(text[k], r.stack); }
  }

  /** Where the weights of one direction fail to cancel those of the other, they make up for it. */
  ghost predicate Compensates(text: string, v: seq<int>, w: seq<int>, start: int, end: int) {
    && 0 < start <= end <= |text| == |v| == |w| && w[start - 1] == -1
    && Drift(text, v, w, start, start, end) == 0
    && forall j {:trigger Bare(text, start, j)} :: start <= j <= end && Bare(text, start, j) ==>
         Depth(text, v, start, j) + Drift(text, v, w, start, j, end) > 0
  }

  /** No `;` from `start` up to `end` is bare. */
  ghost predicate StatementsEnclosed(text: string, start: nat, end: nat)
    requires start <= end <= |text|
  {
    forall j {:trigger Bare(text, start, j)} :: start <= j < end && Bare(text, start, j) ==> text[j] != ';'
  }

  lemma EnclosedBothWays(text: string, start: nat, end: nat)
    requires start <= end <= |text| && Nested(text[start..end])
    ensures StatementsEnclosed(text, start, end) <==>
            forall j {:trigger BareBack(text, j, end)} ::
              start < j <= end && BareBack(text, j, end) ==> text[j - 1] != ';'
  {
    forall j | start <= j < end && text[j] == ';'
      ensures Bare(text, start, j) <==> BareBack(text, j + 1, end)
    {
      BareNext(text, start, j);
      BareBothWays(text, start, j + 1, end);
    }
    forall j | start < j <= end && text[j - 1] == ';'
      ensures Bare(text, start, j - 1) <==> BareBack(text, j, end)
    {
      BareNext(text, start, j - 1);
      BareBothWays(text, start, j, end);
    }
  }

  /** Between a `<` and a place where well-nested text ends: the reading to the left answers with that
      `<` exactly if its weights compensate. */
  lemma OpensIfCompensates(text: string, v: seq<int>, w: seq<int>, start: nat, end: nat)
    requires Weighted(text, v) && Weighted(text, w) && 0 < start <= end <= |text| && text[start - 1] == '<'
    requires Nested(text[start..end]) && StatementsEnclosed(text, start, end)
    ensures OpensAngle(text, w, start, end) <==> Compensates(text, v, w, start, end)
  {
    EnclosedBothWays(text, start, end);
    forall j | start <= j <= end
      ensures BackDepth(text, w, j, end) == Depth(text, v, start, j) + Drift(text, v, w, start, j, end)
      ensures Bare(text, start, j) <==> BareBack(text, j, end)
    {
      BackDepthIs(text, v, w, start, j, end);
      BareBothWays(text, start, j, end);
    }
  }

  /** The weights cancel at every bare character. */
  ghost predicate WeightsCancel(text: string, v: seq<int>, w: seq<int>, start: nat, end: nat)
    requires start <= end <= |text| == |v| == |w|
  {
    forall k {:trigger Bare(text, start, k)} :: start <= k < end && Bare(text, start, k) ==> v[k] + w[k] == 0
  }

  lemma {:induction false} NoDrift(text: string, v: seq<int>, w: seq<int>, start: nat, k: nat, end: nat)
    requires start <= k <= end <= |text| == |v| == |w| && WeightsCancel(text, v, w, start, end)
    ensures Drift(text, v, w, start, k, end) == 1 - Depth(text, v, start, end)
    decreases end - k
  {
    if k < end { NoDrift(text, v, w, start, k + 1, end); }
  }

  /** If the weights cancel, the two readings answer each other. */
  lemma ReadingsAgree(text: string, v: seq<int>, w: seq<int>, start: nat, end: nat)
    requires Weighted(text, v) && Weighted(text, w) && 0 < start <= |text| && end < |text|
    requires text[start - 1] == '<' && w[start - 1] == -1 && text[end] == '>' && v[end] == -1
    requires start <= end ==> WeightsCancel(text, v, w, start, end)
    ensures ClosesAngle(text, v, start, end) <==> OpensAngle(text, w, start, end)
  {
    if start <= end && Nested(text[start..end]) {
      EnclosedBothWays(text, start, end);
      forall j | start <= j <= end
        ensures BackDepth(text, w, j, end) == Depth(text, v, start, j) + 1 - Depth(text, v, start, end)
        ensures Bare(text, start, j) <==> BareBack(text, j, end)
      {
        NoDrift(text, v, w, start, j, end);
        BackDepthIs(text, v, w, start, j, end);
        BareBothWays(text, start, j, end);
      }
      assert Depth(text, v, start, start) == 1;
    }
  }

  /** Over characters that are no brackets, bareness does not change. */
  lemma {:induction false} BareOverPlain(text: string, start: nat, i: nat, j: nat)
    requires start <= i <= j <= |text| && forall k :: i <= k < j ==> !IsBracket(text[k])
    ensures Bare(text, start, i) <==> Bare(text, start, j)
    decreases j - i
  {
    if i < j {
      BareNext(text, start, i);
      BareOverPlain(text, start, i + 1, j);
    }
  }
}
