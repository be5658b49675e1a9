/** `_GetTextInside`, the second bracket matcher of cpplint, which knows no angle brackets at all. */
module TextInside {
  import opened Wrappers
  import opened Brackets
  import opened ExpressionScanner
  import opened MatchingTheorems

  /** How many characters of `w` it takes to see all the closers in `expected`, the last one first. */
  function CharsToClose(w: string, expected: seq<char>): Option<nat> {
    if expected == [] then Some(0)
    else if w == [] then None
    else
      var c := w[0];
      if c == Last(expected) then OneMore(CharsToClose(w[1..], Pop(expected)))
      else if IsCloser(c) then None
      else OneMore(CharsToClose(w[1..], if IsOpener(c) then expected + [Flip(c)] else expected))
  }

  function OneMore(n: Option<nat>): Option<nat> {
    if n.Some? then Some(n.value + 1) else None
  }

  /** The text between the bracket just before `matchEnd` and its partner. `matchEnd` is where the
      match of the start pattern ends, if there is one. The answer is the one `FindEndOfExpressionInLine`
      would give from that bracket with an empty stack. */
  method GetTextInside(text: string, matchEnd: Option<nat>) returns (inside: Option<string>)
    requires matchEnd.Some? ==> 0 < matchEnd.value <= |text| && IsOpener(text[matchEnd.value - 1])
    ensures matchEnd.None? ==> inside == None
    ensures matchEnd.Some? ==>
              match ScanForward(text, matchEnd.value - 1, [])
              case Found(e) => matchEnd.value < e <= |text| && inside == Some(text[matchEnd.value..e - 1])
              case _ => inside == None
  {
    if matchEnd.None? {
      return None;
    }
    var start := matchEnd.value;
    MatchersAgree(text, start);
    var expected := [Flip(text[start - 1])];
    ghost var goal := CharsToClose(text[start..], expected);
    var position := start;
    while expected != [] && position < |text|
      invariant start <= position <= |text|
      invariant goal == var n := CharsToClose(text[position..], expected);
                        if n.Some? then Some(n.value + (position - start)) else None
      decreases |text| - position
    {
      var c := text[position];
      assert text[position..][1..] == text[position + 1..];
      if c == Last(expected) {
        expected := Pop(expected);
      } else if IsCloser(c) {
        return None;
      } else if IsOpener(c) {
        expected := expected + [Flip(c)];
      }
      position := position + 1;
    }
    if expected != [] {
      return None;
    }
    return Some(text[start..position - 1]);
  }

  /** The stack of expected closers is the plain matcher's stack of openers, flipped. */
  lemma {:induction false} ExpectationsAreOpenersFlipped(w: string, expected: seq<char>)
    requires expected != [] && forall k :: 0 <= k < |expected| ==> IsCloser(expected[k])
    ensures CharsToClose(w, expected) ==
            match PureForward(w, FlipAll(expected))
            case Found(n) => if n >= 0 then Some(n) else None
            case _ => None
  {
    if w != [] {
      var c := w[0];
      PureForwardBounds(w, FlipAll(expected));
      FlipIsInvolution(c);
      FlipIsInvolution(Last(expected));
      if c == Last(expected) {
        assert Pop(FlipAll(expected)) == FlipAll(Pop(expected));
        if |expected| > 1 {
          ExpectationsAreOpenersFlipped(w[1..], Pop(expected));
        }
      } else if IsOpener(c) {
        assert FlipAll(expected) + [c] == FlipAll(expected + [Flip(c)]);
        ExpectationsAreOpenersFlipped(w[1..], expected + [Flip(c)]);
      } else if !IsCloser(c) {
        ExpectationsAreOpenersFlipped(w[1..], expected);
      }
    }
  }

  /** The two matchers agree: the text inside ends exactly where the line scanner, started on the
      opening bracket with an empty stack, says it does. */
  lemma MatchersAgree(text: string, start: nat)
    requires 0 < start <= |text| && IsOpener(text[start - 1])
    ensures match ScanForward(text, start - 1, [])
            case Found(e) =>
              start < e <= |text| && CharsToClose(text[start..], [Flip(text[start - 1])]) == Some(e - start)
            case _ => CharsToClose(text[start..], [Flip(text[start - 1])]) == None
  {
    var o := text[start - 1];
    assert text[start - 1..] == [o] + text[start..];
    ForwardFromOpener(text, start - 1);
    PureForwardFirst(o, text[start..]);
    PureForwardBounds(text[start..], [o]);
    FlipIsInvolution(o);
    assert FlipAll([Flip(o)]) == [o];
    ExpectationsAreOpenersFlipped(text[start..], [Flip(o)]);
  }
}
