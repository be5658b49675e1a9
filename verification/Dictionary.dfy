/**
 Dictionaries: strictly increasing sequences of the distinct values of a column, how they are built
 (sort, unique, erase), and how they are searched. Everything holds for any total order.
 */
module Dictionary {
  import opened Values

  ghost predicate Increasing<T>(less: (T, T) -> bool, d: seq<T>) {
    forall i, j :: 0 <= i < j < |d| ==> less(d[i], d[j])
  }

  ghost predicate Sorted<T>(less: (T, T) -> bool, s: seq<T>) {
    forall i, j :: 0 <= i < j < |s| ==> !less(s[j], s[i])
  }

  ghost predicate SameElements<T>(a: seq<T>, b: seq<T>) {
    (forall x :: x in a ==> x in b) && (forall x :: x in b ==> x in a)
  }

  /** `d` is the dictionary of `values`. */
  ghost predicate IsDictionary<T>(less: (T, T) -> bool, d: seq<T>, values: seq<T>) {
    Increasing(less, d) && SameElements(d, values)
  }

  // ----- searching

  /** `std::lower_bound`: the first position whose element is not less than `v`, or the end. */
  function LowerPos<T>(less: (T, T) -> bool, d: seq<T>, v: T): (p: nat)
    ensures p <= |d|
  {
    if d == [] || !less(d[0], v) then 0 else 1 + LowerPos(less, d[1..], v)
  }

  /** `std::upper_bound`: the first position whose element is greater than `v`, or the end. */
  function UpperPos<T>(less: (T, T) -> bool, d: seq<T>, v: T): (p: nat)
    ensures p <= |d|
  {
    if d == [] || less(v, d[0]) then 0 else 1 + UpperPos(less, d[1..], v)
  }

  /** In a dictionary the lower bound splits the positions into smaller values and the others. */
  lemma {:induction false} LowerSplits<T(!new)>(less: (T, T) -> bool, d: seq<T>, v: T, i: nat)
    requires TotalOrder(less) && Increasing(less, d) && i < |d|
    ensures i < LowerPos(less, d, v) <==> less(d[i], v)
  {
    if less(d[0], v) {
      if i > 0 { LowerSplits(less, d[1..], v, i - 1); }
    } else {
      assert i == 0 || less(d[0], d[i]);
    }
  }

  lemma {:induction false} UpperSplits<T(!new)>(less: (T, T) -> bool, d: seq<T>, v: T, i: nat)
    requires TotalOrder(less) && Increasing(less, d) && i < |d|
    ensures i < UpperPos(less, d, v) <==> !less(v, d[i])
  {
    if less(v, d[0]) {
      assert i == 0 || less(d[0], d[i]);
    } else if i > 0 {
      UpperSplits(less, d[1..], v, i - 1);
    }
  }

  /** Binary search, as `std::lower_bound` does it. */
  method LowerBound<T(!new)>(less: (T, T) -> bool, d: seq<T>, v: T) returns (first: nat)
    requires TotalOrder(less) && Increasing(less, d)
    ensures first == LowerPos(less, d, v)
  {
    first := 0;
    var count := |d|;
    while count > 0
      invariant first + count <= |d|
      invariant first <= LowerPos(less, d, v) <= first + count
    {
      var step := count / 2;
      LowerSplits(less, d, v, first + step);
      if less(d[first + step], v) {
        first := first + step + 1;
        count := count - (step + 1);
      } else {
        count := step;
      }
    }
  }

  method UpperBound<T(!new)>(less: (T, T) -> bool, d: seq<T>, v: T) returns (first: nat)
    requires TotalOrder(less) && Increasing(less, d)
    ensures first == UpperPos(less, d, v)
  {
    first := 0;
    var count := |d|;
    while count > 0
      invariant first + count <= |d|
      invariant first <= UpperPos(less, d, v) <= first + count
    {
      var step := count / 2;
      UpperSplits(less, d, v, first + step);
      if !less(v, d[first + step]) {
        first := first + step + 1;
        count := count - (step + 1);
      } else {
        count := step;
      }
    }
  }

  /** The position of a dictionary entry, by its value. */
  lemma LowerOfEntry<T(!new)>(less: (T, T) -> bool, d: seq<T>, k: nat)
    requires TotalOrder(less) && Increasing(less, d) && k < |d|
    ensures LowerPos(less, d, d[k]) == k && UpperPos(less, d, d[k]) == k + 1
  {
    LowerSplits(less, d, d[k], k);
    UpperSplits(less, d, d[k], k);
    if k > 0 { LowerSplits(less, d, d[k], k - 1); }
    if k + 1 < |d| { UpperSplits(less, d, d[k], k + 1); }
  }

  /** The two bounds of any value: one apart, around the value, when it is an entry; equal when not. */
  lemma {:induction false} BoundsOfAny<T(!new)>(less: (T, T) -> bool, d: seq<T>, v: T)
    requires TotalOrder(less) && Increasing(less, d)
    ensures var lower, upper := LowerPos(less, d, v), UpperPos(less, d, v);
            if v in d then upper == lower + 1 && d[lower] == v else upper == lower
  {
    if v in d {
      var k :| 0 <= k < |d| && d[k] == v;
      LowerOfEntry(less, d, k);
    } else {
      var lower, upper := LowerPos(less, d, v), UpperPos(less, d, v);
      if lower < upper {
        LowerSplits(less, d, v, lower);
        UpperSplits(less, d, v, lower);
        assert false;
      }
      if upper < lower {
        LowerSplits(less, d, v, upper);
        UpperSplits(less, d, v, upper);
        assert false;
      }
    }
  }

  lemma {:induction false} BoundsAreMonotone<T(!new)>(less: (T, T) -> bool, d: seq<T>, v: T, w: T)
    requires TotalOrder(less) && Increasing(less, d) && !less(w, v)
    ensures LowerPos(less, d, v) <= LowerPos(less, d, w)
    ensures UpperPos(less, d, v) <= UpperPos(less, d, w)
  {
    var l, u := LowerPos(less, d, w), UpperPos(less, d, w);
    if l < LowerPos(less, d, v) {
      LowerSplits(less, d, v, l);
      LowerSplits(less, d, w, l);
      assert false;
    }
    if u < UpperPos(less, d, v) {
      UpperSplits(less, d, v, u);
      UpperSplits(less, d, w, u);
      assert false;
    }
  }

  // ----- building

  /** Sorts in the order of `less`; `std::sort` promises no more than a sorted permutation. */
  method Sort<T(!new, ==)>(less: (T, T) -> bool, values: seq<T>) returns (s: seq<T>)
    requires TotalOrder(less)
    ensures Sorted(less, s) && multiset(s) == multiset(values)
  {
    s := [];
    for i := 0 to |values|
      invariant Sorted(less, s) && multiset(s) == multiset(values[..i])
    {
      var p := |s|;
      while p > 0 && less(values[i], s[p - 1])
        invariant 0 <= p <= |s|
        invariant forall k :: p <= k < |s| ==> less(values[i], s[k])
      {
        p := p - 1;
      }
      InsertionPoint(less, s, p, values[i]);
      InsertSorted(less, s, p, values[i]);
      assert values[..i + 1] == values[..i] + [values[i]];
      s := s[..p] + [values[i]] + s[p..];
    }
    assert values[..|values|] == values;
  }

  lemma InsertionPoint<T(!new)>(less: (T, T) -> bool, s: seq<T>, p: nat, x: T)
    requires TotalOrder(less) && Sorted(less, s) && p <= |s|
    requires forall k :: p <= k < |s| ==> less(x, s[k])
    requires p > 0 ==> !less(x, s[p - 1])
    ensures forall i :: 0 <= i < p ==> !less(x, s[i])
    ensures forall k :: p <= k < |s| ==> !less(s[k], x)
  {
    forall i | 0 <= i < p
      ensures !less(x, s[i])
    {
      assert i == p - 1 || s[i] == s[p - 1] || less(s[i], s[p - 1]);
    }
    forall k | p <= k < |s|
      ensures !less(s[k], x)
    {
      assert !less(x, x) && less(x, s[k]);
    }
  }

  lemma InsertSorted<T>(less: (T, T) -> bool, s: seq<T>, p: nat, x: T)
    requires Sorted(less, s) && p <= |s|
    requires forall i :: 0 <= i < p ==> !less(x, s[i])
    requires forall k :: p <= k < |s| ==> !less(s[k], x)
    ensures Sorted(less, s[..p] + [x] + s[p..])
    ensures multiset(s[..p] + [x] + s[p..]) == multiset(s) + multiset{x}
  {
    assert s == s[..p] + s[p..];
    var t := s[..p] + [x] + s[p..];
    forall i, j | 0 <= i < j < |t|
      ensures !less(t[j], t[i])
    {
      assert t[i] == if i < p then s[i] else if i == p then x else s[i - 1];
      assert t[j] == if j < p then s[j] else if j == p then x else s[j - 1];
    }
  }

  /** Keeps the first of every run of equal elements and erases the rest. */
  method Unique<T(!new, ==)>(less: (T, T) -> bool, s: seq<T>) returns (u: seq<T>)
    requires TotalOrder(less) && Sorted(less, s)
    ensures IsDictionary(less, u, s)
  {
    u := [];
    for i := 0 to |s|
      invariant Increasing(less, u) && SameElements(u, s[..i])
      invariant u == [] <==> i == 0
      invariant i > 0 ==> u[|u| - 1] == s[i - 1]
    {
      assert s[..i + 1] == s[..i] + [s[i]];
      if u == [] || u[|u| - 1] != s[i] {
        if u != [] {
          assert !less(s[i], s[i - 1]);
        }
        u := u + [s[i]];
      }
    }
    assert s[..|s|] == s;
  }

  /** Copies the values, sorts them, and erases duplicates. */
  method Build<T(!new, ==)>(less: (T, T) -> bool, values: seq<T>) returns (d: seq<T>)
    requires TotalOrder(less)
    ensures IsDictionary(less, d, values)
  {
    d := Sort(less, values);
    assert forall x :: x in d <==> x in multiset(d);
    assert forall x :: x in values <==> x in multiset(values);
    ghost var sorted := d;
    d := Unique(less, d);
    assert SameElements(d, sorted) && SameElements(sorted, values);
  }

  /** A dictionary depends only on the set of values: there is just one for it. */
  lemma {:induction false} DictionaryIsUnique<T(!new)>(less: (T, T) -> bool, a: seq<T>, b: seq<T>)
    requires TotalOrder(less) && Increasing(less, a) && Increasing(less, b) && SameElements(a, b)
    ensures a == b
  {
    if a == [] || b == [] {
      BothEmpty(a, b);
    } else {
      HeadIsLeast(less, a, b[0]);
      HeadIsLeast(less, b, a[0]);
      assert a[0] == b[0];
      TailElements(less, a, b);
      DictionaryIsUnique(less, a[1..], b[1..]);
      assert a == [a[0]] + a[1..] && b == [b[0]] + b[1..];
    }
  }

  lemma BothEmpty<T>(a: seq<T>, b: seq<T>)
    requires SameElements(a, b)
    ensures a == [] <==> b == []
  {
    assert |a| > 0 ==> a[0] in a;
    assert |b| > 0 ==> b[0] in b;
  }

  lemma HeadIsLeast<T(!new)>(less: (T, T) -> bool, d: seq<T>, x: T)
    requires TotalOrder(less) && Increasing(less, d) && x in d
    ensures d != [] && !less(x, d[0])
  {
    var k :| 0 <= k < |d| && d[k] == x;
    if k > 0 { assert less(d[0], d[k]); }
  }

  lemma TailElements<T(!new)>(less: (T, T) -> bool, a: seq<T>, b: seq<T>)
    requires TotalOrder(less) && Increasing(less, a) && Increasing(less, b) && SameElements(a, b)
    requires a != [] && b != [] && a[0] == b[0]
    ensures SameElements(a[1..], b[1..])
  {
    forall x | x in a[1..]
      ensures x in b[1..]
    {
      var i :| 1 <= i < |a| && a[i] == x;
      assert less(a[0], x) && x in b;
      var j :| 0 <= j < |b| && b[j] == x;
      assert b[1..][j - 1] == x;
    }
    forall x | x in b[1..]
      ensures x in a[1..]
    {
      var i :| 1 <= i < |b| && b[i] == x;
      assert less(b[0], x) && x in a;
      var j :| 0 <= j < |a| && a[j] == x;
      assert a[1..][j - 1] == x;
    }
  }

  /** A dictionary is never longer than the column it is for. */
  lemma {:induction false} DictionaryIsNotLonger<T(!new)>(less: (T, T) -> bool, d: seq<T>, values: seq<T>)
    requires TotalOrder(less) && Increasing(less, d) && forall x :: x in d ==> x in values
    ensures |d| <= |values|
    decreases |d|
  {
    if d != [] {
      var x, init := d[|d| - 1], d[..|d| - 1];
      assert x in d && x in values;
      var k :| 0 <= k < |values| && values[k] == x;
      var others := values[..k] + values[k + 1..];
      forall y | y in init
        ensures y in others
      {
        var i :| 0 <= i < |init| && init[i] == y;
        assert less(d[i], x) && d[i] in d && y in values;
        var j :| 0 <= j < |values| && values[j] == y;
        assert j != k;
        assert others[if j < k then j else j - 1] == y;
      }
      DictionaryIsNotLonger(less, init, others);
    }
  }
}
