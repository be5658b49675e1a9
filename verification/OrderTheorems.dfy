/**
 The dictionary and its bounds in the orders of the element types themselves: numbers by size, strings
 character by character.
 */
module OrderTheorems {
  import opened Values
  import opened Dictionary
  import opened AttributeVectors
  import opened Columns

  // ----- the orders

  /** `a` comes before `b` in a word list: it is a proper beginning of `b`, or smaller where they first differ. */
  ghost predicate Precedes(a: string, b: string) {
    || (|a| < |b| && b[..|a|] == a)
    || (exists k: nat :: DiffersAt(a, b, k) && a[k] < b[k])
  }

  /** The first difference is at position `k`. */
  predicate DiffersAt(a: string, b: string, k: nat) {
    k < |a| && k < |b| && a[..k] == b[..k] && a[k] != b[k]
  }

  lemma DiffersOneLater(a: string, b: string, k: nat)
    requires a != [] && b != [] && a[0] == b[0]
    ensures DiffersAt(a, b, k + 1) <==> DiffersAt(a[1..], b[1..], k)
  {
    if k + 1 < |a| && k + 1 < |b| {
      assert a[..k + 1] == [a[0]] + a[1..][..k] && b[..k + 1] == [b[0]] + b[1..][..k];
    }
  }

  lemma SmallerOneLater(a: string, b: string)
    requires a != [] && b != [] && a[0] == b[0]
    ensures (exists k: nat :: DiffersAt(a, b, k) && a[k] < b[k]) <==>
            exists k: nat :: DiffersAt(a[1..], b[1..], k) && a[1..][k] < b[1..][k]
  {
    var c, d := a[1..], b[1..];
    if exists k: nat :: DiffersAt(c, d, k) && c[k] < d[k] {
      var k: nat :| DiffersAt(c, d, k) && c[k] < d[k];
      DiffersOneLater(a, b, k);
      assert DiffersAt(a, b, k + 1);
    }
    if exists k: nat :: DiffersAt(a, b, k) && a[k] < b[k] {
      var k: nat :| DiffersAt(a, b, k) && a[k] < b[k];
      DiffersOneLater(a, b, k - 1);
      assert DiffersAt(c, d, k - 1);
    }
  }

  lemma PrecedesOneLater(a: string, b: string)
    requires a != [] && b != [] && a[0] == b[0]
    ensures Precedes(a, b) <==> Precedes(a[1..], b[1..])
  {
    var c, d := a[1..], b[1..];
    assert a == [a[0]] + c && b == [b[0]] + d;
    if |a| < |b| {
      assert b[..|a|] == [b[0]] + d[..|c|];
    }
    SmallerOneLater(a, b);
  }

  /** The order of strings, exactly. */
  lemma {:induction false} StringLessMeans(a: string, b: string)
    ensures StringLess(a, b) <==> Precedes(a, b)
  {
    if a != [] && b != [] {
      if a[0] == b[0] {
        PrecedesOneLater(a, b);
        StringLessMeans(a[1..], b[1..]);
      } else {
        assert DiffersAt(a, b, 0);
        FirstCharacterDecides(a, b);
      }
    } else if b != [] {
      assert b[..|a|] == a;
    }
  }

  lemma FirstCharacterDecides(a: string, b: string)
    requires a != [] && b != [] && a[0] != b[0]
    ensures Precedes(a, b) <==> a[0] < b[0]
  {
    assert DiffersAt(a, b, 0);
    forall k: nat | 0 < k < |a| && k < |b|
      ensures !DiffersAt(a, b, k)
    {
      assert a[..k][0] == a[0] && b[..k][0] == b[0];
    }
    if |a| < |b| { assert b[..|a|][0] == b[0]; }
  }

  /** A value is smaller than another of its type. */
  ghost predicate Below(a: Value, b: Value)
    requires TypeOf(a) == TypeOf(b)
  {
    match TypeOf(a)
    case IntType => a.i < b.i
    case LongType => a.l < b.l
    case FloatType => a.f < b.f
    case DoubleType => a.d < b.d
    case StringType => Precedes(a.s, b.s)
  }

  /** A value is not greater than another of its type. */
  ghost predicate AtMost(a: Value, b: Value)
    requires TypeOf(a) == TypeOf(b)
  {
    match TypeOf(a)
    case IntType => a.i <= b.i
    case LongType => a.l <= b.l
    case FloatType => a.f <= b.f
    case DoubleType => a.d <= b.d
    case StringType => Precedes(a.s, b.s) || a.s == b.s
  }

  lemma LessMeansBelow(a: Value, b: Value)
    requires TypeOf(a) == TypeOf(b)
    ensures Less(a, b) <==> Below(a, b)
    ensures Less(a, b) || a == b <==> AtMost(a, b)
  {
    if a.StringValue? { StringLessMeans(a.s, b.s); }
  }

  // ----- columns of one type

  predicate AllOfType(t: ColumnType, values: seq<Value>) {
    forall i :: 0 <= i < |values| ==> TypeOf(values[i]) == t
  }

  /** The dictionary of a column holds each of its values once, from the smallest to the largest. */
  lemma DictionaryAscends(t: ColumnType, values: seq<Value>)
    requires AllOfType(t, values)
    ensures var d := Encode(t, values).dictionary;
            && AllOfType(t, d) && SameElements(d, values)
            && forall i, j :: 0 <= i < j < |d| ==> Below(d[i], d[j])
  {
    var d := DictionaryOf(values);
    DictionaryOfIsDictionary(values);
    forall i | 0 <= i < |d|
      ensures TypeOf(d[i]) == t
    {
      assert d[i] in d;
    }
    forall i, j | 0 <= i < j < |d|
      ensures Below(d[i], d[j])
    {
      LessMeansBelow(d[i], d[j]);
    }
  }

  /** Scanning ids decides the comparisons of the element type: `<`, `<=` and `==` between a row and a
      search value, the invalid id included. */
  lemma ScanIsInOrder(t: ColumnType, values: seq<Value>, i: nat, v: Value)
    requires Compressible(values) && AllOfType(t, values) && i < |values| && TypeOf(v) == t
    ensures var c := Encode(t, values);
            && (Below(values[i], v) <==> c.ids[i] < LowerBoundId(c, v))
            && (AtMost(values[i], v) <==> c.ids[i] < UpperBoundId(c, v))
            && (values[i] == v <==> LowerBoundId(c, v) <= c.ids[i] < UpperBoundId(c, v))
  {
    IdScanIsExact(t, values, i, v);
    LessIsTotalOrder();
    LessMeansBelow(values[i], v);
  }

  /** The bounds split the dictionary: the entries before the lower bound are smaller, and those before the
      upper bound are not greater. */
  lemma BoundsSplit(t: ColumnType, values: seq<Value>, v: Value, k: nat)
    requires Compressible(values) && AllOfType(t, values) && TypeOf(v) == t
    requires k < |Encode(t, values).dictionary|
    ensures var c := Encode(t, values);
            var entry := c.dictionary[k];
            && AllOfType(t, c.dictionary)
            && (Below(entry, v) <==> k < LowerBoundId(c, v))
            && (AtMost(entry, v) <==> k < UpperBoundId(c, v))
  {
    var c := Encode(t, values);
    DictionaryAscends(t, values);
    EncodingIsCanonical(t, values);
    assert k in c.ids;
    var i :| 0 <= i < |c.ids| && c.ids[i] == k;
    EncodedRow(t, values, i);
    ScanIsInOrder(t, values, i, v);
  }

  /** In the column with the rows 1 and 2, the lower bound of 2 is the id of its second entry. */
  lemma LowerBoundOfTwo()
    ensures LowerBoundId(Encode(IntType, [IntValue(1), IntValue(2)]), IntValue(2)) == 1
    ensures UpperBoundId(Encode(IntType, [IntValue(1), IntValue(2)]), IntValue(2)) == INVALID_VALUE_ID
  {
    var values := [IntValue(1), IntValue(2)];
    ScanIsInOrder(IntType, values, 0, IntValue(2));
    ScanIsInOrder(IntType, values, 1, IntValue(2));
    EncodedRow(IntType, values, 0);
    EncodedRow(IntType, values, 1);
    DictionaryFits(values);
    BoundIdsAre(IntType, values, IntValue(2));
  }

  // ----- the widths

  /** The width is the narrowest whose largest number is greater than the number of rows. */
  lemma NarrowestWidth(rows: nat, w: Width)
    requires rows < MaxOf(w)
    ensures rows < MaxOf(FitWidth(rows)) <= MaxOf(w)
  {
  }

  /** The widths in bits, and the invalid id as the largest of 32 bits. */
  lemma LargestNumbers()
    ensures MaxOf(Width8) == 255 && MaxOf(Width16) == 65535 && MaxOf(Width32) == 4294967295 == INVALID_VALUE_ID
  {
  }
}
