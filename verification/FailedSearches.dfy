/**
 At which line a search from a bracket fails: the first up to which the brackets contradict each other, or
 the last one there is.
 */
module FailedSearches {
  import opened Brackets
  import opened ExpressionScanner
  import opened MatchingTheorems

  // ----- to the right

  /** The text from position `i` of line `l` to the end of line `m`. */
  function TextTo(lines: seq<string>, l: nat, i: nat, m: nat): string
    requires l <= m < |lines| && i <= |lines[l]|
  {
    lines[l][i..] + Whole(lines[l + 1..m + 1])
  }

  /** Matching is still open at the end of every line before `m`, and at the end of `m` it has failed, or it is
      open and there are no more lines. */
  ghost predicate StopsAt(lines: seq<string>, l: nat, i: nat, s: seq<char>, m: nat) {
    && l <= m < |lines| && i <= |lines[l]|
    && (forall k {:trigger TextTo(lines, l, i, k)} :: l <= k < m ==> PureForward(TextTo(lines, l, i, k), s).Pending?)
    && var r := PureForward(TextTo(lines, l, i, m), s);
       r.GaveUp? || (m == |lines| - 1 && r.Pending?)
  }

  lemma TextToNext(lines: seq<string>, l: nat, i: nat, k: nat)
    requires l <= k < |lines| && i <= |lines[l]|
    ensures k == l ==> TextTo(lines, l, i, k) == lines[l][i..]
    ensures k > l ==> TextTo(lines, l, i, k) == lines[l][i..] + TextTo(lines, l + 1, 0, k)
  {
    if k > l {
      assert lines[l + 1..k + 1][1..] == lines[l + 2..k + 1];
      assert lines[l + 1][0..] == lines[l + 1];
    }
  }

  /** Up to a later line, matching goes on with what the first line leaves open. */
  lemma MatchedTo(lines: seq<string>, l: nat, i: nat, s: seq<char>, k: nat)
    requires l < k < |lines| && i <= |lines[l]|
    ensures var first, all := PureForward(lines[l][i..], s), PureForward(TextTo(lines, l, i, k), s);
            if first.Pending?
            then var rest := PureForward(TextTo(lines, l + 1, 0, k), first.stack);
                 (all.Pending? <==> rest.Pending?) && (all.GaveUp? <==> rest.GaveUp?)
            else all == first
  {
    TextToNext(lines, l, i, k);
    PureForwardConcat(lines[l][i..], TextTo(lines, l + 1, 0, k), s);
  }

  lemma StopsOneLater(lines: seq<string>, l: nat, i: nat, s: seq<char>, m: nat, t: seq<char>)
    requires l + 1 < |lines| && i <= |lines[l]| && PureForward(lines[l][i..], s) == Pending(t)
    ensures StopsAt(lines, l, i, s, m) <==> StopsAt(lines, l + 1, 0, t, m)
  {
    TextToNext(lines, l, i, l);
    if l < m < |lines| { MatchedTo(lines, l, i, s, m); }
    forall k {:trigger TextTo(lines, l, i, k)} {:trigger TextTo(lines, l + 1, 0, k)} | l < k < m && m < |lines|
      ensures PureForward(TextTo(lines, l, i, k), s).Pending? <==>
              PureForward(TextTo(lines, l + 1, 0, k), t).Pending?
    {
      MatchedTo(lines, l, i, s, k);
    }
  }

  lemma StopsHere(lines: seq<string>, l: nat, i: nat, s: seq<char>, m: nat)
    requires l < |lines| && i <= |lines[l]|
    requires !PureForward(lines[l][i..], s).Pending? || l == |lines| - 1
    ensures StopsAt(lines, l, i, s, m) <==> m == l && !PureForward(lines[l][i..], s).Found?
  {
    TextToNext(lines, l, i, l);
  }

  lemma {:induction false} CloseAcrossStops(lines: seq<string>, l: nat, i: nat, stack: seq<char>, m: nat)
    requires l < |lines| && i <= |lines[l]|
    requires Grounded(stack, '<') || (stack == [] && i < |lines[l]| && IsOpener(lines[l][i]))
    ensures CloseAcross(lines, l, i, stack) == Missing(m) <==> StopsAt(lines, l, i, Erase(stack, '<'), m)
    decreases |lines| - l
  {
    var line, r := lines[l], ScanForward(lines[l], i, stack);
    if stack == [] { ForwardFromOpener(line, i); } else { ForwardIsTransparent(line, i, stack); }
    if r.Pending? && l + 1 < |lines| {
      StopsOneLater(lines, l, i, Erase(stack, '<'), m, Erase(r.stack, '<'));
      CloseAcrossStops(lines, l + 1, 0, r.stack, m);
    } else {
      StopsHere(lines, l, i, Erase(stack, '<'), m);
    }
  }

  /** A search from an opener fails at line `m` iff the brackets from the opener on contradict each other by the
      end of that line and not by the end of an earlier one, or are just left open and it is the last line. */
  lemma FailedCloseMeans(lines: seq<string>, l: nat, p: nat, m: nat)
    requires l < |lines| && p < |lines[l]| && IsOpener(lines[l][p])
    ensures Closing(lines, l, p) == Missing(m) <==> StopsAt(lines, l, p, [], m)
  {
    CloseAcrossStops(lines, l, p, [], m);
  }

  // ----- to the left

  /** The text from the start of line `m` to position `i` of line `l`. */
  function TextFrom(lines: seq<string>, l: nat, i: int, m: nat): string
    requires m <= l < |lines| && -1 <= i < |lines[l]|
  {
    Whole(lines[m..l]) + lines[l][..i + 1]
  }

  ghost predicate StopsBackAt(lines: seq<string>, l: nat, i: int, s: seq<char>, m: nat) {
    && m <= l < |lines| && -1 <= i < |lines[l]|
    && (forall k {:trigger TextFrom(lines, l, i, k)} :: m < k <= l ==>
          PureBackward(TextFrom(lines, l, i, k), s).Pending?)
    && var r := PureBackward(TextFrom(lines, l, i, m), s);
       r.GaveUp? || (m == 0 && r.Pending?)
  }

  lemma TextFromNext(lines: seq<string>, l: nat, i: int, k: nat)
    requires k <= l < |lines| && -1 <= i < |lines[l]|
    ensures k == l ==> TextFrom(lines, l, i, k) == lines[l][..i + 1]
    ensures k < l ==> TextFrom(lines, l, i, k) == TextFrom(lines, l - 1, |lines[l - 1]| - 1, k) + lines[l][..i + 1]
  {
    if k < l {
      assert lines[k..l] == lines[k..l - 1] + [lines[l - 1]];
      WholeConcat(lines[k..l - 1], [lines[l - 1]]);
      assert Whole([lines[l - 1]]) == lines[l - 1];
      assert lines[l - 1][..|lines[l - 1]|] == lines[l - 1];
    }
  }

  lemma MatchedFrom(lines: seq<string>, l: nat, i: int, s: seq<char>, k: nat)
    requires k < l < |lines| && -1 <= i < |lines[l]|
    ensures var first, all := PureBackward(lines[l][..i + 1], s), PureBackward(TextFrom(lines, l, i, k), s);
            if first.Pending?
            then all == PureBackward(TextFrom(lines, l - 1, |lines[l - 1]| - 1, k), first.stack)
            else !all.Pending? && (all.GaveUp? <==> first.GaveUp?)
  {
    TextFromNext(lines, l, i, k);
    PureBackwardConcat(TextFrom(lines, l - 1, |lines[l - 1]| - 1, k), lines[l][..i + 1], s);
  }

  lemma StopsBackOneLater(lines: seq<string>, l: nat, i: int, s: seq<char>, m: nat, t: seq<char>)
    requires 0 < l < |lines| && -1 <= i < |lines[l]| && PureBackward(lines[l][..i + 1], s) == Pending(t)
    ensures StopsBackAt(lines, l, i, s, m) <==> StopsBackAt(lines, l - 1, |lines[l - 1]| - 1, t, m)
  {
    var j := |lines[l - 1]| - 1;
    TextFromNext(lines, l, i, l);
    if m < l { MatchedFrom(lines, l, i, s, m); }
    forall k {:trigger TextFrom(lines, l, i, k)} {:trigger TextFrom(lines, l - 1, j, k)} | m < k < l
      ensures PureBackward(TextFrom(lines, l, i, k), s) == PureBackward(TextFrom(lines, l - 1, j, k), t)
    {
      MatchedFrom(lines, l, i, s, k);
    }
  }

  lemma StopsBackHere(lines: seq<string>, l: nat, i: int, s: seq<char>, m: nat)
    requires l < |lines| && -1 <= i < |lines[l]|
    requires !PureBackward(lines[l][..i + 1], s).Pending? || l == 0
    ensures StopsBackAt(lines, l, i, s, m) <==> m == l && !PureBackward(lines[l][..i + 1], s).Found?
  {
    TextFromNext(lines, l, i, l);
  }

  lemma {:induction false} OpenAcrossStops(lines: seq<string>, l: nat, i: int, stack: seq<char>, m: nat)
    requires l < |lines| && -1 <= i < |lines[l]|
    requires Grounded(stack, '>') || (stack == [] && 0 <= i && IsCloser(lines[l][i]))
    ensures OpenAcross(lines, l, i, stack) == Missing(m) <==> StopsBackAt(lines, l, i, Erase(stack, '>'), m)
    decreases l
  {
    var line, r := lines[l], ScanBackward(lines[l], i, stack);
    if stack == [] { BackwardFromCloser(line, i); } else { BackwardIsTransparent(line, i, stack); }
    if r.Pending? && l > 0 {
      StopsBackOneLater(lines, l, i, Erase(stack, '>'), m, Erase(r.stack, '>'));
      OpenAcrossStops(lines, l - 1, |lines[l - 1]| - 1, r.stack, m);
    } else {
      StopsBackHere(lines, l, i, Erase(stack, '>'), m);
    }
  }

  /** The same for the search from a closer, with the lines before it. */
  lemma FailedOpenMeans(lines: seq<string>, l: nat, p: nat, m: nat)
    requires l < |lines| && p < |lines[l]| && IsCloser(lines[l][p])
    ensures Opening(lines, l, p) == Missing(m) <==> StopsBackAt(lines, l, p, [], m)
  {
    OpenAcrossStops(lines, l, p, [], m);
  }
}
