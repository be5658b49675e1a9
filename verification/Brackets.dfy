/**
 The bracket language both scanners are measured against: a matcher that looks at
 `( [ { ) ] }` only, and, independently of it, a grammar of well-nested text.
 */
module Brackets {

  predicate IsOpener(c: char) { c == '(' || c == '[' || c == '{' }

  predicate IsCloser(c: char) { c == ')' || c == ']' || c == '}' }

  predicate IsBracket(c: char) { IsOpener(c) || IsCloser(c) }

  /** The other half of a bracket; every other character is its own mirror image. */
  function Flip(c: char): char {
    match c
    case '(' => ')' case ')' => '('
    case '[' => ']' case ']' => '['
    case '{' => '}' case '}' => '{'
    case _ => c
  }

  /** What a scan of one stretch of text reports: the place where the stack ran empty, a definite
      failure, or the stack left over when the text ran out. */
  datatype Scan = Found(pos: int) | GaveUp | Pending(stack: seq<char>)

  function Last(s: seq<char>): char
    requires s != []
  {
    s[|s| - 1]
  }

  function Pop(s: seq<char>): seq<char>
    requires s != []
  {
    s[..|s| - 1]
  }

  function Shift(r: Scan, distance: int): Scan {
    if r.Found? then Found(r.pos + distance) else r
  }

  // ----- the plain matcher, reading to the right

  function PureStep(c: char, s: seq<char>): Scan {
    if IsOpener(c) then Pending(s + [c])
    else if !IsCloser(c) then Pending(s)
    else if s == [] || Flip(c) != Last(s) then GaveUp
    else if |s| == 1 then Found(1)
    else Pending(Pop(s))
  }

  /** Matches brackets over the whole of `w`; `Found(n)` counts the characters up to and including
      the closer that empties the stack. */
  function PureForward(w: string, s: seq<char>): Scan {
    if w == [] then Pending(s)
    else
      var r := PureStep(w[0], s);
      if r.Pending? then Shift(PureForward(w[1..], r.stack), 1) else r
  }

  // ----- the plain matcher, reading to the left

  function PureBackStep(c: char, s: seq<char>): Scan {
    if IsCloser(c) then Pending(s + [c])
    else if !IsOpener(c) then Pending(s)
    else if s == [] || Flip(c) != Last(s) then GaveUp
    else if |s| == 1 then Found(0)
    else Pending(Pop(s))
  }

  /** As `PureForward`, from the right end of `w`; `Found(k)` is the index of the opener that
      empties the stack. */
  function PureBackward(w: string, s: seq<char>): Scan {
    if w == [] then Pending(s)
    else
      var r := PureBackStep(Last(w), s);
      if r.Pending? then PureBackward(Pop(w), r.stack) else Shift(r, |w| - 1)
  }

  lemma {:induction false} PureForwardBounds(w: string, s: seq<char>)
    ensures PureForward(w, s).Found? ==> 1 <= PureForward(w, s).pos <= |w|
  {
    if w != [] {
      var r := PureStep(w[0], s);
      if r.Pending? {
        PureForwardBounds(w[1..], r.stack);
      }
    }
  }

  /** Text may be cut anywhere: a scan of `a + b` is a scan of `a` continued on `b`. */
  lemma {:induction false} PureForwardConcat(a: string, b: string, s: seq<char>)
    ensures PureForward(a + b, s) ==
            var r := PureForward(a, s);
            if r.Pending? then Shift(PureForward(b, r.stack), |a|) else r
  {
    if a == [] {
      assert a + b == b;
    } else {
      assert (a + b)[1..] == a[1..] + b;
      var r := PureStep(a[0], s);
      if r.Pending? {
        PureForwardConcat(a[1..], b, r.stack);
      }
    }
  }

  lemma {:induction false} PureBackwardConcat(a: string, b: string, s: seq<char>)
    ensures PureBackward(a + b, s) ==
            var r := PureBackward(b, s);
            if r.Pending? then PureBackward(a, r.stack) else Shift(r, |a|)
  {
    if b == [] {
      assert a + b == a;
    } else {
      assert Pop(a + b) == a + Pop(b);
      var r := PureBackStep(Last(b), s);
      if r.Pending? {
        PureBackwardConcat(a, Pop(b), r.stack);
      }
    }
  }

  // ----- the grammar

  /** Well-nested text: ordinary characters and bracketed groups, in any order and depth. */
  datatype Forest =
    | Empty
    | Plain(c: char, rest: Forest)
    | Group(open: char, inner: Forest, rest: Forest)

  predicate WellFormed(f: Forest) {
    match f
    case Empty => true
    case Plain(c, rest) => !IsBracket(c) && WellFormed(rest)
    case Group(open, inner, rest) => IsOpener(open) && WellFormed(inner) && WellFormed(rest)
  }

  function Render(f: Forest): string {
    match f
    case Empty => []
    case Plain(c, rest) => [c] + Render(rest)
    case Group(open, inner, rest) => [open] + Render(inner) + [Flip(open)] + Render(rest)
  }

  /** `w` is well nested. */
  ghost predicate Nested(w: string) {
    exists f :: WellFormed(f) && Render(f) == w
  }

  function Enclose(open: char, inner: string): string {
    [open] + inner + [Flip(open)]
  }

  /** `w` is one bracket, well-nested text, and the partner of that bracket. */
  ghost predicate Primitive(w: string) {
    exists open, f :: IsOpener(open) && WellFormed(f) && w == Enclose(open, Render(f))
  }

  lemma PureForwardCons(c: char, v: string, s: seq<char>)
    ensures PureForward([c] + v, s) ==
            var r := PureStep(c, s);
            if r.Pending? then Shift(PureForward(v, r.stack), 1) else r
  {
    assert ([c] + v)[1..] == v;
  }

  /** The first character of a scan that starts on an opener with an empty stack. */
  lemma PureForwardFirst(o: char, v: string)
    requires IsOpener(o)
    ensures PureForward([o] + v, []) == Shift(PureForward(v, [o]), 1)
  {
    PureForwardCons(o, v, []);
    assert [] + [o] == [o];
  }

  /** Skipping the inside `v` of a group, which takes `n` steps, and then its two brackets. */
  lemma GroupIsSkipped(open: char, v: string, n: int, close: char, rest: string, s: seq<char>)
    requires IsOpener(open) && close == Flip(open) && s != []
    requires PureForward(v, s + [open]) == Shift(PureForward([close] + rest, s + [open]), n)
    ensures PureForward([open] + v, s) == Shift(PureForward(rest, s), n + 2)
  {
    PureForwardCons(open, v, s);
    assert PureStep(close, s + [open]) == Pending(s) by {
      assert Pop(s + [open]) == s;
    }
    PureForwardCons(close, rest, s + [open]);
  }

  lemma Reassociate(a: string, x: string, b: string, y: string, z: string)
    ensures a + (x + (b + (y + z))) == (a + x + b + y) + z
  {
  }

  /** Well-nested text is invisible to a scan that is inside a bracket. */
  lemma {:induction false} NestedIsSkipped(f: Forest, rest: string, s: seq<char>)
    requires WellFormed(f) && s != []
    ensures PureForward(Render(f) + rest, s) == Shift(PureForward(rest, s), |Render(f)|)
  {
    match f
    case Empty =>
      assert Render(f) + rest == rest;
    case Plain(c, g) =>
      assert (Render(f) + rest)[1..] == Render(g) + rest;
      NestedIsSkipped(g, rest, s);
    case Group(open, inner, g) =>
      var tail := [Flip(open)] + (Render(g) + rest);
      Reassociate([open], Render(inner), [Flip(open)], Render(g), rest);
      NestedIsSkipped(inner, tail, s + [open]);
      NestedIsSkipped(g, rest, s);
      GroupIsSkipped(open, Render(inner) + tail, |Render(inner)|, Flip(open), Render(g) + rest, s);
  }

  /** What `TopIsClosedFirst` finds: `w` is the text of `f`, the partner of `o`, and `rest`, and
      scanning `w` from `s + [o]` is scanning `rest` from `s`. */
  ghost predicate ClosesTop(w: string, s: seq<char>, o: char, f: Forest, rest: string) {
    && WellFormed(f)
    && w == Render(f) + ([Flip(o)] + rest)
    && PureForward(w, s + [o]) == if s == [] then Found(|w| - |rest|) else Shift(PureForward(rest, s), |w| - |rest|)
  }

  lemma PlainClosesTop(c: char, v: string, s: seq<char>, o: char, f: Forest, rest: string)
    requires !IsBracket(c) && ClosesTop(v, s, o, f, rest)
    ensures ClosesTop([c] + v, s, o, Plain(c, f), rest)
  {
    assert ([c] + v)[1..] == v;
    assert [c] + (Render(f) + ([Flip(o)] + rest)) == Render(Plain(c, f)) + ([Flip(o)] + rest);
  }

  lemma GroupClosesTop(c: char, v: string, s: seq<char>, o: char, f: Forest, u: string, g: Forest, rest: string)
    requires IsOpener(c) && ClosesTop(v, s + [o], c, f, u) && ClosesTop(u, s, o, g, rest)
    ensures ClosesTop([c] + v, s, o, Group(c, f, g), rest)
  {
    assert ([c] + v)[1..] == v;
    assert PureForward([c] + v, s + [o]) == Shift(PureForward(v, (s + [o]) + [c]), 1);
    Reassociate([c], Render(f), [Flip(c)], Render(g), [Flip(o)] + rest);
  }

  /** Whenever a scan that holds `o` on top of `s` gets to the end of `s`, it has read well-nested
      text, the partner of `o`, and a remainder that it scans from `s`. */
  lemma {:induction false} TopIsClosedFirst(w: string, s: seq<char>, o: char) returns (f: Forest, rest: string)
    requires IsOpener(o) && PureForward(w, s + [o]).Found?
    ensures ClosesTop(w, s, o, f, rest)
    decreases |w|
  {
    var c, v := w[0], w[1..];
    assert w == [c] + v;
    if IsOpener(c) {
      var f1, u := TopIsClosedFirst(v, s + [o], c);
      var f2;
      f2, rest := TopIsClosedFirst(u, s, o);
      f := Group(c, f1, f2);
      GroupClosesTop(c, v, s, o, f1, u, f2, rest);
    } else if IsCloser(c) {
      f, rest := Empty, v;
      assert Pop(s + [o]) == s;
    } else {
      var g;
      g, rest := TopIsClosedFirst(v, s, o);
      f := Plain(c, g);
      PlainClosesTop(c, v, s, o, g, rest);
    }
  }

  lemma PrimitiveIsFound(o: char, f: Forest, rest: string)
    requires IsOpener(o) && WellFormed(f)
    ensures PureForward(Enclose(o, Render(f)) + rest, []) == Found(|Render(f)| + 2)
  {
    var tail := [Flip(o)] + rest;
    assert Enclose(o, Render(f)) + rest == [o] + (Render(f) + tail);
    PureForwardFirst(o, Render(f) + tail);
    NestedIsSkipped(f, tail, [o]);
    PureForwardCons(Flip(o), rest, [o]);
    FlipIsInvolution(o);
  }

  lemma PrimitiveWasRead(o: char, v: string)
    requires IsOpener(o) && PureForward([o] + v, []).Found?
    ensures var n := PureForward([o] + v, []).pos; 0 <= n <= |v| + 1 && Primitive(([o] + v)[..n])
  {
    PureForwardFirst(o, v);
    assert [] + [o] == [o];
    var f, rest := TopIsClosedFirst(v, [], o);
    EncloseThenRest(o, Render(f), rest);
  }

  lemma EncloseThenRest(o: char, inside: string, rest: string)
    ensures [o] + (inside + ([Flip(o)] + rest)) == Enclose(o, inside) + rest
    ensures (Enclose(o, inside) + rest)[..|inside| + 2] == Enclose(o, inside)
  {
  }

  /** The matcher and the grammar agree: reading to the right from an opener stops after exactly
      the primitive word that starts there. */
  lemma {:induction false} ForwardMeansPrimitive(w: string, n: int)
    requires w != [] && IsOpener(w[0])
    ensures PureForward(w, []) == Found(n) <==> 0 <= n <= |w| && Primitive(w[..n])
  {
    if PureForward(w, []) == Found(n) {
      assert w == [w[0]] + w[1..];
      PrimitiveWasRead(w[0], w[1..]);
    } else if 0 <= n <= |w| && Primitive(w[..n]) {
      var o, f :| IsOpener(o) && WellFormed(f) && w[..n] == Enclose(o, Render(f));
      assert w == w[..n] + w[n..];
      PrimitiveIsFound(o, f, w[n..]);
    }
  }

  // ----- reading to the left is reading the mirror image to the right

  function Mirror(w: string): (m: string)
    ensures |m| == |w|
  {
    if w == [] then [] else [Flip(Last(w))] + Mirror(Pop(w))
  }

  lemma FlipIsInvolution(c: char)
    ensures Flip(Flip(c)) == c
    ensures IsOpener(Flip(c)) <==> IsCloser(c)
    ensures IsCloser(Flip(c)) <==> IsOpener(c)
  {
  }

  function FlipAll(s: seq<char>): (t: seq<char>)
    ensures |t| == |s|
  {
    seq(|s|, i requires 0 <= i < |s| => Flip(s[i]))
  }

  function MirrorScan(r: Scan, length: int): Scan {
    match r
    case Found(n) => Found(length - n)
    case GaveUp => GaveUp
    case Pending(s) => Pending(FlipAll(s))
  }

  lemma MirroredStep(c: char, s: seq<char>)
    ensures PureBackStep(c, s) == MirrorScan(PureStep(Flip(c), FlipAll(s)), 1)
  {
    FlipIsInvolution(c);
    if IsCloser(c) {
      assert FlipAll(FlipAll(s) + [Flip(c)]) == s + [c];
    } else if !IsOpener(c) {
      assert FlipAll(FlipAll(s)) == s;
    } else if s != [] {
      FlipIsInvolution(Last(s));
      assert FlipAll(Pop(FlipAll(s))) == Pop(s);
    }
  }

  lemma {:induction false} BackwardIsMirroredForward(w: string, s: seq<char>)
    ensures PureBackward(w, s) == MirrorScan(PureForward(Mirror(w), FlipAll(s)), |w|)
  {
    assert FlipAll(FlipAll(s)) == s;
    if w != [] {
      MirroredStep(Last(w), s);
      assert Mirror(w)[1..] == Mirror(Pop(w));
      var r := PureStep(Flip(Last(w)), FlipAll(s));
      if r.Pending? {
        assert FlipAll(FlipAll(r.stack)) == r.stack;
        BackwardIsMirroredForward(Pop(w), FlipAll(r.stack));
      }
    }
  }

  lemma {:induction false} MirrorConcat(a: string, b: string)
    ensures Mirror(a + b) == Mirror(b) + Mirror(a)
  {
    if b == [] {
      assert a + b == a;
    } else {
      assert Pop(a + b) == a + Pop(b);
      MirrorConcat(a, Pop(b));
    }
  }

  lemma {:induction false} MirrorTwice(w: string)
    ensures Mirror(Mirror(w)) == w
  {
    if w != [] {
      var c, rest := Last(w), Pop(w);
      MirrorConcat([Flip(c)], Mirror(rest));
      MirrorTwice(rest);
      FlipIsInvolution(c);
      assert Mirror([Flip(c)]) == [c];
    }
  }

  lemma {:induction false} NestedConcat(f: Forest, g: Forest) returns (h: Forest)
    requires WellFormed(f) && WellFormed(g)
    ensures WellFormed(h) && Render(h) == Render(f) + Render(g)
  {
    match f
    case Empty =>
      h := g;
      assert Render(f) + Render(g) == Render(g);
    case Plain(c, rest) =>
      var t := NestedConcat(rest, g);
      h := Plain(c, t);
    case Group(open, inner, rest) =>
      var t := NestedConcat(rest, g);
      h := Group(open, inner, t);
  }

  lemma {:induction false} MirrorForest(f: Forest) returns (g: Forest)
    requires WellFormed(f)
    ensures WellFormed(g) && Render(g) == Mirror(Render(f))
  {
    match f
    case Empty =>
      g := Empty;
    case Plain(c, rest) =>
      var t := MirrorForest(rest);
      g := NestedConcat(t, Plain(c, Empty));
      MirrorConcat([c], Render(rest));
    case Group(open, inner, rest) =>
      var t := MirrorForest(rest);
      var u := MirrorForest(inner);
      g := NestedConcat(t, Group(open, u, Empty));
      MirrorEnclose(open, Render(inner));
      MirrorConcat(Enclose(open, Render(inner)), Render(rest));
      assert Render(Group(open, u, Empty)) == Enclose(open, Render(u));
  }

  lemma MirrorEnclose(open: char, inner: string)
    requires IsOpener(open)
    ensures Mirror(Enclose(open, inner)) == Enclose(open, Mirror(inner))
  {
    MirrorConcat([open] + inner, [Flip(open)]);
    MirrorConcat([open], inner);
    FlipIsInvolution(open);
    assert Mirror([open]) == [Flip(open)] && Mirror([Flip(open)]) == [open];
  }

  lemma PrimitiveMirror(w: string)
    requires Primitive(w)
    ensures Primitive(Mirror(w))
  {
    var o, f :| IsOpener(o) && WellFormed(f) && w == Enclose(o, Render(f));
    var g := MirrorForest(f);
    MirrorEnclose(o, Render(f));
  }

  lemma MirroredSuffix(w: string, k: nat)
    requires k <= |w|
    ensures Primitive(Mirror(w)[..|w| - k]) <==> Primitive(w[k..])
  {
    var v := w[k..];
    assert w == w[..k] + v;
    MirrorConcat(w[..k], v);
    assert Mirror(w)[..|w| - k] == Mirror(v);
    MirrorTwice(v);
    if Primitive(v) { PrimitiveMirror(v); }
    if Primitive(Mirror(v)) { PrimitiveMirror(Mirror(v)); }
  }

  /** Reading to the left from a closer stops at exactly the primitive word that ends there. */
  lemma BackwardMeansPrimitive(w: string, k: int)
    requires w != [] && IsCloser(Last(w))
    ensures PureBackward(w, []) == Found(k) <==> 0 <= k <= |w| && Primitive(w[k..])
  {
    BackwardIsMirrorOfForward(w, k);
    FlipIsInvolution(Last(w));
    ForwardMeansPrimitive(Mirror(w), |w| - k);
    if 0 <= k <= |w| {
      MirroredSuffix(w, k);
    }
  }

  lemma BackwardIsMirrorOfForward(w: string, k: int)
    requires w != [] && IsCloser(Last(w))
    ensures PureBackward(w, []) == Found(k) <==> PureForward(Mirror(w), []) == Found(|w| - k)
  {
    assert FlipAll([]) == [];
    BackwardIsMirroredForward(w, []);
  }

  /** The stretch of `text` from `start` up to `end` is primitive. */
  ghost predicate PrimitiveAt(text: string, start: int, end: int) {
    0 <= start <= end <= |text| && Primitive(text[start..end])
  }

  /** The two characterisations, for a stretch inside a longer text. */
  lemma ForwardMeansPrimitiveIn(text: string, start: nat, end: int)
    requires start < |text| && IsOpener(text[start])
    ensures PureForward(text[start..], []) == Found(end - start) <==> PrimitiveAt(text, start, end)
  {
    ForwardMeansPrimitive(text[start..], end - start);
    if start <= end <= |text| {
      assert text[start..][..end - start] == text[start..end];
    }
  }

  lemma BackwardMeansPrimitiveIn(text: string, start: int, end: nat)
    requires 0 < end <= |text| && IsCloser(text[end - 1])
    ensures PureBackward(text[..end], []) == Found(start) <==> PrimitiveAt(text, start, end)
  {
    BackwardMeansPrimitive(text[..end], start);
    if 0 <= start <= end {
      assert text[..end][start..] == text[start..end];
    }
  }

  /** A scan that never gets below the bottom of its stack has read well-nested text. The bottom `b`
      is no bracket, so nothing can close it. */
  lemma BalancedIsNested(w: string, b: char)
    requires !IsBracket(b) && PureForward(w, [b]) == Pending([b])
    ensures Nested(w)
  {
    assert [b] + [] == [b] && ['('] + [] == ['('] && [] + ['('] == ['('];
    FloorIsUntouched(w, b, []);
    assert PureForward(w, ['(']) == Pending(['(']);
    PureForwardConcat(w, [')'], ['(']);
    PureForwardCons(')', [], ['(']);
    var f, rest := TopIsClosedFirst(w + [')'], [], '(');
    assert rest == [] && [Flip('(')] + rest == [')'];
    assert w == (w + [')'])[..|w|] == Render(f);
  }

  lemma NestedIsBalanced(w: string, b: char)
    requires Nested(w)
    ensures PureForward(w, [b]) == Pending([b])
  {
    var f :| WellFormed(f) && Render(f) == w;
    NestedIsSkipped(f, [], [b]);
    assert Render(f) + [] == w;
  }

  lemma {:induction false} FloorIsUntouched(w: string, b: char, t: seq<char>)
    requires !IsBracket(b) && PureForward(w, [b] + t).Pending?
    ensures PureForward(w, [b] + t).stack != []
    ensures PureForward(w, ['('] + t) == Pending(['('] + PureForward(w, [b] + t).stack[1..])
  {
    if w != [] {
      var s := PureStep(w[0], [b] + t).stack;
      if IsOpener(w[0]) {
        assert s == [b] + (t + [w[0]]) && ['('] + t + [w[0]] == ['('] + (t + [w[0]]);
      } else if IsCloser(w[0]) {
        assert t != [] by { assert t == [] ==> [b] + t == [b]; }
        assert s == [b] + Pop(t) && Pop(['('] + t) == ['('] + Pop(t);
      }
      assert s == [b] + s[1..];
      FloorIsUntouched(w[1..], b, s[1..]);
    }
  }

  /** The same for a scan to the left. */
  lemma BalancedBackIsNested(w: string, b: char)
    requires !IsBracket(b) && PureBackward(w, [b]) == Pending([b])
    ensures Nested(w)
  {
    MirroredBalance(w, b);
    BalancedIsNested(Mirror(w), b);
    MirrorOfNested(Mirror(w));
    MirrorTwice(w);
  }

  lemma NestedIsBalancedBack(w: string, b: char)
    requires !IsBracket(b) && Nested(w)
    ensures PureBackward(w, [b]) == Pending([b])
  {
    MirroredBalance(w, b);
    MirrorOfNested(w);
    NestedIsBalanced(Mirror(w), b);
  }

  lemma MirroredBalance(w: string, b: char)
    requires !IsBracket(b)
    ensures PureBackward(w, [b]) == Pending([b]) <==> PureForward(Mirror(w), [b]) == Pending([b])
  {
    BackwardIsMirroredForward(w, [b]);
    assert FlipAll([b]) == [b];
    var r := PureForward(Mirror(w), [b]);
    if r.Pending? && FlipAll(r.stack) == [b] {
      FlipIsInvolution(r.stack[0]);
      assert Flip(r.stack[0]) == FlipAll(r.stack)[0];
      assert r.stack == [b];
    }
  }

  lemma MirrorOfNested(w: string)
    requires Nested(w)
    ensures Nested(Mirror(w))
  {
    var f :| WellFormed(f) && Render(f) == w;
    var g := MirrorForest(f);
  }
}
