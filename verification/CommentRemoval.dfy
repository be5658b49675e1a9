/**
 `RemoveMultiLineComments`: blanks, in place, the lines of every multi-line comment, and reports a
 comment that never ends.
 */
module CommentRemoval {
  import opened Wrappers

  /** What `strip()` removes from a Unicode string. */
  predicate IsStripped(c: char) {
    || '\U{09}' <= c <= '\U{0D}' || '\U{1C}' <= c <= '\U{20}' || c == '\U{85}' || c == '\U{A0}'
    || c == '\U{1680}' || c == '\U{180E}' || '\U{2000}' <= c <= '\U{200A}'
    || c == '\U{2028}' || c == '\U{2029}' || c == '\U{202F}' || c == '\U{205F}' || c == '\U{3000}'
  }

  function Strip(line: string): string {
    if line == [] then line
    else if IsStripped(line[0]) then Strip(line[1..])
    else if IsStripped(line[|line| - 1]) then Strip(line[..|line| - 1])
    else line
  }

  // The `find` of the end mark, from position `from` on; -1 if there is none.
  function FindEndMark(s: string, from: nat): int
    decreases |s| - from
  {
    if from + 1 >= |s| then -1
    else if s[from] == '*' && s[from + 1] == '/' then from
    else FindEndMark(s, from + 1)
  }

  /** The line opens a comment and does not close it again. */
  predicate Starts(line: string) {
    "/*" <= Strip(line) && FindEndMark(Strip(line), 2) < 0
  }

  predicate Ends(line: string) {
    var s := Strip(line);
    |s| >= 2 && s[|s| - 2..] == "*/"
  }

  const BLANK := "/**/"

  lemma BlankNeverStarts()
    ensures !Starts(BLANK)
  {
    assert Strip(BLANK) == BLANK;
    assert FindEndMark(BLANK, 2) == 2;
  }

  // ----- the pass, as a function on the lines and on the two tests

  type Test = string -> bool

  function Next(test: Test, lines: seq<string>, i: nat): (r: nat)
    requires i <= |lines|
    ensures i <= r <= |lines|
    decreases |lines| - i
  {
    if i == |lines| || test(lines[i]) then i else Next(test, lines, i + 1)
  }

  function BlankRange(lines: seq<string>, begin: nat, end: nat): (r: seq<string>)
    requires begin <= end <= |lines|
    ensures |r| == |lines|
    decreases end - begin
  {
    if begin == end then lines else BlankRange(lines[begin := BLANK], begin + 1, end)
  }

  /** The lines after the pass has worked from line `i` on, and the (one-based) number of the line
      whose comment never ends, if there is one. */
  function Removed(starts: Test, ends: Test, lines: seq<string>, i: nat): (r: (seq<string>, Option<nat>))
    requires i <= |lines|
    ensures |r.0| == |lines|
    decreases |lines| - i
  {
    var begin := Next(starts, lines, i);
    if begin == |lines| then (lines, None)
    else
      var end := Next(ends, lines, begin);
      if end == |lines| then (lines, Some(begin + 1))
      else Removed(starts, ends, BlankRange(lines, begin, end + 1), end + 1)
  }

  // ----- the pass, in place

  method FindNextMultiLineCommentStart(lines: array<string>, from: nat) returns (lineix: nat)
    requires from <= lines.Length
    ensures lineix == Next(Starts, lines[..], from)
  {
    lineix := from;
    while lineix < lines.Length
      invariant from <= lineix <= lines.Length
      invariant Next(Starts, lines[..], from) == Next(Starts, lines[..], lineix)
    {
      if Starts(lines[lineix]) {
        return;
      }
      lineix := lineix + 1;
    }
  }

  method FindNextMultiLineCommentEnd(lines: array<string>, from: nat) returns (lineix: nat)
    requires from <= lines.Length
    ensures lineix == Next(Ends, lines[..], from)
  {
    lineix := from;
    while lineix < lines.Length
      invariant from <= lineix <= lines.Length
      invariant Next(Ends, lines[..], from) == Next(Ends, lines[..], lineix)
    {
      if Ends(lines[lineix]) {
        return;
      }
      lineix := lineix + 1;
    }
  }

  method RemoveMultiLineCommentsFromRange(lines: array<string>, begin: nat, end: nat)
    requires begin <= end <= lines.Length
    modifies lines
    ensures lines[..] == BlankRange(old(lines[..]), begin, end)
  {
    for i := begin to end
      invariant BlankRange(lines[..], i, end) == BlankRange(old(lines[..]), begin, end)
    {
      ghost var before := lines[..];
      lines[i] := BLANK;
      assert lines[..] == before[i := BLANK];
    }
  }

  method RemoveMultiLineComments(lines: array<string>) returns (error: Option<nat>)
    modifies lines
    ensures (lines[..], error) == Removed(Starts, Ends, old(lines[..]), 0)
  {
    ghost var goal := Removed(Starts, Ends, lines[..], 0);
    var lineix := 0;
    while lineix < lines.Length
      invariant lineix <= lines.Length
      invariant Removed(Starts, Ends, lines[..], lineix) == goal
      decreases lines.Length - lineix
    {
      ghost var before := lines[..];
      var begin := FindNextMultiLineCommentStart(lines, lineix);
      if begin >= lines.Length {
        NoMoreRounds(Starts, Ends, before, lineix);
        return None;
      }
      var end := FindNextMultiLineCommentEnd(lines, begin);
      NextRound(Starts, Ends, before, lineix, begin, end);
      if end >= lines.Length {
        return Some(begin + 1);
      }
      RemoveMultiLineCommentsFromRange(lines, begin, end + 1);
      lineix := end + 1;
    }
    NoMoreRounds(Starts, Ends, lines[..], lineix);
    return None;
  }

  /** One round of the pass: the next comment, which may not end. */
  lemma NextRound(starts: Test, ends: Test, lines: seq<string>, i: nat, begin: nat, end: nat)
    requires i <= |lines| && begin == Next(starts, lines, i) < |lines| && end == Next(ends, lines, begin)
    ensures Removed(starts, ends, lines, i) ==
            if end == |lines| then (lines, Some(begin + 1))
            else Removed(starts, ends, BlankRange(lines, begin, end + 1), end + 1)
  {
  }

  lemma NoMoreRounds(starts: Test, ends: Test, lines: seq<string>, i: nat)
    requires i <= |lines| && Next(starts, lines, i) == |lines|
    ensures Removed(starts, ends, lines, i) == (lines, None)
  {
  }

  // ----- a line-by-line reference: are we inside a comment?

  /** A comment is open just before line `i`. */
  predicate InsideBefore(starts: Test, ends: Test, lines: seq<string>, i: nat)
    requires i <= |lines|
    decreases i
  {
    i > 0 && (InsideBefore(starts, ends, lines, i - 1) || starts(lines[i - 1])) && !ends(lines[i - 1])
  }

  /** Line `i` belongs to a multi-line comment. */
  predicate Covered(starts: Test, ends: Test, lines: seq<string>, i: nat)
    requires i < |lines|
  {
    InsideBefore(starts, ends, lines, i) || starts(lines[i])
  }

  ghost predicate HoldsAtOrAfter(test: Test, lines: seq<string>, i: nat) {
    exists j :: i <= j < |lines| && test(lines[j])
  }

  /** Line `i` after the pass: blank if it lies in a comment that ends, untouched otherwise. */
  ghost function LineAfter(starts: Test, ends: Test, lines: seq<string>, i: nat): string
    requires i < |lines|
  {
    if Covered(starts, ends, lines, i) && HoldsAtOrAfter(ends, lines, i) then BLANK else lines[i]
  }

  /** A comment that starts at line `begin`, outside any other, and that nothing ends. */
  ghost predicate NeverEnds(starts: Test, ends: Test, lines: seq<string>, begin: nat) {
    && begin < |lines| && starts(lines[begin]) && !InsideBefore(starts, ends, lines, begin)
    && !HoldsAtOrAfter(ends, lines, begin)
  }

  /** `Next` is the first line from `i` on that passes the test. */
  lemma {:induction false} NextIs(test: Test, lines: seq<string>, i: nat, r: nat)
    requires i <= r <= |lines|
    ensures Next(test, lines, i) == r <==>
            (forall k :: i <= k < r ==> !test(lines[k])) && (r < |lines| ==> test(lines[r]))
    decreases |lines| - i
  {
    if i < |lines| && !test(lines[i]) && i < r {
      NextIs(test, lines, i + 1, r);
    }
  }

  lemma {:induction false} BlankRangeAt(lines: seq<string>, begin: nat, end: nat, k: nat)
    requires begin <= end <= |lines| && k < |lines|
    ensures BlankRange(lines, begin, end)[k] == if begin <= k < end then BLANK else lines[k]
    decreases end - begin
  {
    if begin < end {
      BlankRangeAt(lines[begin := BLANK], begin + 1, end, k);
    }
  }

  lemma {:induction false} NoStartNoComment(starts: Test, ends: Test, lines: seq<string>, i: nat, j: nat)
    requires i <= j <= |lines| && !InsideBefore(starts, ends, lines, i)
    requires forall k :: i <= k < j ==> !starts(lines[k])
    ensures !InsideBefore(starts, ends, lines, j)
    ensures forall k :: i <= k < j ==> !Covered(starts, ends, lines, k)
    decreases j - i
  {
    if i < j {
      NoStartNoComment(starts, ends, lines, i, j - 1);
    }
  }

  lemma {:induction false} NoEndStaysInside(starts: Test, ends: Test, lines: seq<string>, i: nat, j: nat)
    requires i < j <= |lines| && Covered(starts, ends, lines, i)
    requires forall k :: i <= k < j - 1 ==> !ends(lines[k])
    ensures forall k :: i <= k < j ==> Covered(starts, ends, lines, k)
    decreases j
  {
    if i + 1 < j {
      NoEndStaysInside(starts, ends, lines, i, j - 1);
      assert Covered(starts, ends, lines, j - 2);
    }
  }

  /** `result` is `lines` with the comments that end blanked, and the report of one that does not. */
  ghost predicate IsRemoval(starts: Test, ends: Test, lines: seq<string>, result: (seq<string>, Option<nat>)) {
    && |result.0| == |lines|
    && (forall k {:trigger LineAfter(starts, ends, lines, k)} :: 0 <= k < |lines| ==>
          result.0[k] == LineAfter(starts, ends, lines, k))
    && match result.1
       case None => !InsideBefore(starts, ends, lines, |lines|)
       case Some(number) => number > 0 && NeverEnds(starts, ends, lines, number - 1)
  }

  /** The pass has dealt with the lines before `i`, is outside any comment, and has not touched the rest. */
  ghost predicate WorkedUpTo(starts: Test, ends: Test, original: seq<string>, lines: seq<string>, i: nat) {
    && |lines| == |original| && i <= |lines| && !InsideBefore(starts, ends, original, i)
    && lines[i..] == original[i..]
    && forall k {:trigger LineAfter(starts, ends, original, k)} :: 0 <= k < i ==>
         lines[k] == LineAfter(starts, ends, original, k)
  }

  lemma SameRest(a: seq<string>, b: seq<string>, i: nat, k: nat)
    requires |a| == |b| && i <= k < |a| && a[i..] == b[i..]
    ensures a[k] == b[k]
  {
    assert a[i..][k - i] == b[i..][k - i];
  }

  /** Up to the next comment, or to the end, nothing has to be changed. */
  lemma WorkUpToStart(starts: Test, ends: Test, original: seq<string>, lines: seq<string>, i: nat)
    requires WorkedUpTo(starts, ends, original, lines, i)
    ensures WorkedUpTo(starts, ends, original, lines, Next(starts, lines, i))
  {
    var begin := Next(starts, lines, i);
    NextIs(starts, lines, i, begin);
    forall k | i <= k < begin
      ensures !starts(original[k])
    {
      SameRest(lines, original, i, k);
    }
    NoStartNoComment(starts, ends, original, i, begin);
    assert lines[begin..] == lines[i..][begin - i..];
    forall k | i <= k < begin
      ensures lines[k] == LineAfter(starts, ends, original, k)
    {
      SameRest(lines, original, i, k);
    }
  }

  lemma WorkThroughComment(starts: Test, ends: Test, original: seq<string>, lines: seq<string>, begin: nat, end: nat)
    requires WorkedUpTo(starts, ends, original, lines, begin)
    requires begin <= end < |lines| && starts(lines[begin]) && Next(ends, lines, begin) == end
    ensures WorkedUpTo(starts, ends, original, BlankRange(lines, begin, end + 1), end + 1)
  {
    var next := BlankRange(lines, begin, end + 1);
    NextIs(ends, lines, begin, end);
    forall k | begin <= k <= end
      ensures lines[k] == original[k]
    {
      SameRest(lines, original, begin, k);
    }
    NoEndStaysInside(starts, ends, original, begin, end + 1);
    forall k | 0 <= k < end + 1
      ensures next[k] == LineAfter(starts, ends, original, k)
    {
      BlankRangeAt(lines, begin, end + 1, k);
      if begin <= k { assert ends(original[end]); }
    }
    forall k | end + 1 <= k < |lines|
      ensures next[k] == original[k]
    {
      BlankRangeAt(lines, begin, end + 1, k);
      SameRest(lines, original, begin, k);
    }
  }

  lemma WorkStopsInComment(starts: Test, ends: Test, original: seq<string>, lines: seq<string>, begin: nat)
    requires WorkedUpTo(starts, ends, original, lines, begin)
    requires begin < |lines| && starts(lines[begin]) && Next(ends, lines, begin) == |lines|
    ensures IsRemoval(starts, ends, original, (lines, Some(begin + 1)))
  {
    NextIs(ends, lines, begin, |lines|);
    forall k | begin <= k < |lines|
      ensures lines[k] == original[k] && !ends(original[k])
    {
      SameRest(lines, original, begin, k);
    }
  }

  lemma {:induction false} RemovedFrom(starts: Test, ends: Test, original: seq<string>, lines: seq<string>, i: nat)
    requires WorkedUpTo(starts, ends, original, lines, i)
    ensures IsRemoval(starts, ends, original, Removed(starts, ends, lines, i))
    decreases |lines| - i
  {
    var begin := Next(starts, lines, i);
    NextIs(starts, lines, i, begin);
    WorkUpToStart(starts, ends, original, lines, i);
    if begin == |lines| {
      NoMoreRounds(starts, ends, lines, i);
    } else {
      var end := Next(ends, lines, begin);
      NextRound(starts, ends, lines, i, begin, end);
      if end < |lines| {
        WorkThroughComment(starts, ends, original, lines, begin, end);
        RemovedFrom(starts, ends, original, BlankRange(lines, begin, end + 1), end + 1);
      } else {
        WorkStopsInComment(starts, ends, original, lines, begin);
      }
    }
  }

  /** The pass blanks exactly the lines of comments that end and changes nothing else; it reports an
      error exactly when a comment is still open at the end, and names the line that opened it. */
  lemma RemovalMeansCovered(starts: Test, ends: Test, lines: seq<string>)
    ensures IsRemoval(starts, ends, lines, Removed(starts, ends, lines, 0))
    ensures Removed(starts, ends, lines, 0).1.Some? <==> InsideBefore(starts, ends, lines, |lines|)
  {
    RemovedFrom(starts, ends, lines, lines, 0);
    var error := Removed(starts, ends, lines, 0).1;
    if error.Some? {
      NeverEndingIsOpen(starts, ends, lines, error.value - 1);
    }
  }

  lemma NeverEndingIsOpen(starts: Test, ends: Test, lines: seq<string>, begin: nat)
    requires NeverEnds(starts, ends, lines, begin)
    ensures InsideBefore(starts, ends, lines, |lines|)
    ensures forall k :: begin <= k < |lines| ==> Covered(starts, ends, lines, k)
  {
    assert forall k :: begin <= k < |lines| ==> !ends(lines[k]);
    NoEndStaysInside(starts, ends, lines, begin, |lines|);
    assert Covered(starts, ends, lines, |lines| - 1);
  }

  /** A line that is left as it was and opens a comment lies in the comment that never ends. */
  lemma StartIsLeftOpen(starts: Test, ends: Test, lines: seq<string>, k: nat)
    requires !starts(BLANK) && k < |lines| && starts(Removed(starts, ends, lines, 0).0[k])
    ensures InsideBefore(starts, ends, lines, |lines|)
    ensures forall j :: k < j <= |lines| ==> InsideBefore(starts, ends, lines, j)
  {
    RemovalMeansCovered(starts, ends, lines);
    assert Removed(starts, ends, lines, 0).0[k] == LineAfter(starts, ends, lines, k);
    assert forall j :: k <= j < |lines| ==> !ends(lines[j]);
    NoEndStaysInside(starts, ends, lines, k, |lines|);
    forall j | k < j <= |lines|
      ensures InsideBefore(starts, ends, lines, j)
    {
      assert Covered(starts, ends, lines, j - 1);
    }
  }

  /** Without an error no line is left that opens a multi-line comment. */
  lemma NoStartIsLeft(starts: Test, ends: Test, lines: seq<string>)
    requires !starts(BLANK) && Removed(starts, ends, lines, 0).1.None?
    ensures var r := Removed(starts, ends, lines, 0).0; forall k :: 0 <= k < |r| ==> !starts(r[k])
  {
    RemovalMeansCovered(starts, ends, lines);
    var r := Removed(starts, ends, lines, 0).0;
    forall k | 0 <= k < |r|
      ensures !starts(r[k])
    {
      if starts(r[k]) { StartIsLeftOpen(starts, ends, lines, k); }
    }
  }

  /** Running the pass again changes nothing and repeats the verdict, open comment or not. */
  lemma RemovalIsIdempotent(starts: Test, ends: Test, lines: seq<string>)
    requires !starts(BLANK)
    ensures var once := Removed(starts, ends, lines, 0); Removed(starts, ends, once.0, 0) == once
  {
    RemovalMeansCovered(starts, ends, lines);
    var (r, error) := Removed(starts, ends, lines, 0);
    if error.None? {
      NoStartIsLeft(starts, ends, lines);
      NextIs(starts, r, 0, |r|);
    } else {
      var begin := error.value - 1;
      forall k | 0 <= k < begin
        ensures !starts(r[k])
      {
        if starts(r[k]) { StartIsLeftOpen(starts, ends, lines, k); }
      }
      forall k | begin <= k < |r|
        ensures r[k] == lines[k] && !ends(lines[k])
      {
        assert r[k] == LineAfter(starts, ends, lines, k);
      }
      NextIs(starts, r, 0, begin);
      NextIs(ends, r, begin, |r|);
    }
  }

  /** The three results for the tests cpplint uses. */
  lemma CppCommentsAreRemoved(lines: seq<string>)
    ensures var (r, error) := Removed(Starts, Ends, lines, 0);
            && (error.None? ==> forall k :: 0 <= k < |r| ==> !Starts(r[k]))
            && Removed(Starts, Ends, r, 0) == (r, error)
  {
    BlankNeverStarts();
    RemovalIsIdempotent(Starts, Ends, lines);
    if Removed(Starts, Ends, lines, 0).1.None? {
      NoStartIsLeft(Starts, Ends, lines);
    }
  }
}
