/**
 The two kinds of columns, as values: growable value columns, and the immutable dictionary columns they
 are compressed into.
 */
module Columns {
  import opened Values
  import opened Dictionary
  import opened AttributeVectors

  // ----- columns as values

  datatype Column =
    | Plain(columnType: ColumnType, values: seq<Value>)
    | Encoded(columnType: ColumnType, dictionary: seq<Value>, width: Width, ids: seq<nat>)
  {
    function Size(): nat {
      if Plain? then |values| else |ids|
    }
  }

  /** What `append` does to a column: the outcome, and the column afterwards. */
  function Appended(convert: Converter, c: Column, v: Value): (bool, Column) {
    if c.Encoded? then (false, c)
    else
      var cast := TypeCast(convert, c.columnType, v);
      if cast.None? then (false, c) else (true, c.(values := c.values + [cast.value]))
  }

  /** Adds a value to a dictionary, unless it is there already. */
  function Enter(d: seq<Value>, v: Value): seq<Value> {
    var p := LowerPos(Less, d, v);
    if p < |d| && d[p] == v then d else d[..p] + [v] + d[p..]
  }

  function DictionaryOf(values: seq<Value>): seq<Value> {
    if values == [] then [] else Enter(DictionaryOf(values[..|values| - 1]), values[|values| - 1])
  }

  function IdsOf(d: seq<Value>, width: Width, values: seq<Value>): (ids: seq<nat>)
    ensures |ids| == |values|
  {
    if values == [] then []
    else IdsOf(d, width, values[..|values| - 1]) + [Narrow(width, LowerPos(Less, d, values[|values| - 1]))]
  }

  /** The compressed form of a value column. */
  function Encode(t: ColumnType, values: seq<Value>): Column {
    var d, width := DictionaryOf(values), FitWidth(|values|);
    Encoded(t, d, width, IdsOf(d, width, values))
  }

  /** What the constructor of a dictionary column demands of the values. */
  predicate Compressible(values: seq<Value>) {
    0 < |values| < INVALID_VALUE_ID
  }

  /** Every id names an entry of the dictionary. */
  predicate Decodable(c: Column) {
    c.Encoded? ==> forall i :: 0 <= i < |c.ids| ==> c.ids[i] < |c.dictionary|
  }

  function Get(c: Column, i: nat): Value
    requires Decodable(c) && i < c.Size()
  {
    if c.Plain? then c.values[i] else c.dictionary[c.ids[i]]
  }

  /** The plain column with the same rows. */
  function Decode(c: Column): (values: seq<Value>)
    requires Decodable(c)
    ensures |values| == c.Size()
    ensures forall i :: 0 <= i < |values| ==> values[i] == Get(c, i)
  {
    seq(c.Size(), i requires 0 <= i < c.Size() => Get(c, i))
  }

  lemma {:induction false} DictionaryOfIsDictionary(values: seq<Value>)
    ensures IsDictionary(Less, DictionaryOf(values), values)
  {
    if values != [] {
      var init, v := values[..|values| - 1], values[|values| - 1];
      DictionaryOfIsDictionary(init);
      assert values == init + [v];
      EnterKeepsDictionary(DictionaryOf(init), init, v);
    }
  }

  lemma EnterKeepsDictionary(d: seq<Value>, values: seq<Value>, v: Value)
    requires IsDictionary(Less, d, values)
    ensures IsDictionary(Less, Enter(d, v), values + [v])
  {
    LessIsTotalOrder();
    BoundsOfAny(Less, d, v);
    var p := LowerPos(Less, d, v);
    if v !in d {
      forall i | 0 <= i < |d|
        ensures if i < p then Less(d[i], v) else Less(v, d[i])
      {
        LowerSplits(Less, d, v, i);
        assert d[i] in d;
      }
      EnteredIsIncreasing(d, p, v);
      assert d == d[..p] + d[p..];
    }
  }

  lemma EnteredIsIncreasing(d: seq<Value>, p: nat, v: Value)
    requires Increasing(Less, d) && p <= |d|
    requires forall i :: 0 <= i < |d| ==> if i < p then Less(d[i], v) else Less(v, d[i])
    ensures Increasing(Less, d[..p] + [v] + d[p..])
  {
    var t := d[..p] + [v] + d[p..];
    forall i, j | 0 <= i < j < |t|
      ensures Less(t[i], t[j])
    {
      assert t[i] == if i < p then d[i] else if i == p then v else d[i - 1];
      assert t[j] == if j < p then d[j] else if j == p then v else d[j - 1];
    }
  }

  lemma {:induction false} IdsOfAt(d: seq<Value>, width: Width, values: seq<Value>, i: nat)
    requires i < |values|
    ensures IdsOf(d, width, values)[i] == Narrow(width, LowerPos(Less, d, values[i]))
  {
    if i < |values| - 1 {
      IdsOfAt(d, width, values[..|values| - 1], i);
    }
  }

  /** The dictionary has at most as many entries as the column has rows. */
  lemma DictionaryFits(values: seq<Value>)
    ensures |DictionaryOf(values)| <= |values|
  {
    LessIsTotalOrder();
    DictionaryOfIsDictionary(values);
    DictionaryIsNotLonger(Less, DictionaryOf(values), values);
  }

  /** Every row of a compressed column: its id is exact in spite of narrowing, is below the sentinel
      of the width, and names the value of the row. */
  lemma EncodedRow(t: ColumnType, values: seq<Value>, i: nat)
    requires Compressible(values) && i < |values|
    ensures var c := Encode(t, values);
            && c.ids[i] == LowerPos(Less, c.dictionary, values[i]) < |c.dictionary| < MaxOf(c.width)
            && c.dictionary[c.ids[i]] == values[i]
  {
    var c := Encode(t, values);
    LessIsTotalOrder();
    DictionaryOfIsDictionary(values);
    DictionaryFits(values);
    assert values[i] in values && values[i] in c.dictionary;
    BoundsOfAny(Less, c.dictionary, values[i]);
    IdsOfAt(c.dictionary, c.width, values, i);
    FittedWidthIsSafe(|values|, LowerPos(Less, c.dictionary, values[i]));
  }

  /** Lossless compression: the compressed column has the rows of the original, in order. */
  lemma CompressionIsLossless(t: ColumnType, values: seq<Value>)
    requires Compressible(values)
    ensures var c := Encode(t, values); Decodable(c) && Decode(c) == values
  {
    var c := Encode(t, values);
    forall i | 0 <= i < |values|
      ensures c.ids[i] < |c.dictionary| && c.dictionary[c.ids[i]] == values[i]
    {
      EncodedRow(t, values, i);
    }
  }

  // ----- scanning ids instead of values

  /** A search position as a value id: the end of the dictionary is the invalid id. */
  function AsValueId(pos: nat, d: seq<Value>): nat {
    if pos == |d| then INVALID_VALUE_ID else Narrow(Width32, pos)
  }

  lemma NoWrapAround(pos: nat, d: seq<Value>)
    requires pos <= |d| < INVALID_VALUE_ID
    ensures AsValueId(pos, d) == if pos == |d| then INVALID_VALUE_ID else pos
  {
  }

  function LowerBoundId(c: Column, v: Value): nat
    requires c.Encoded?
  {
    AsValueId(LowerPos(Less, c.dictionary, v), c.dictionary)
  }

  function UpperBoundId(c: Column, v: Value): nat
    requires c.Encoded?
  {
    AsValueId(UpperPos(Less, c.dictionary, v), c.dictionary)
  }

  /** Without wrap-around, a bound id is the position, or the invalid id at the end. */
  lemma BoundIdsAre(t: ColumnType, values: seq<Value>, v: Value)
    requires Compressible(values)
    ensures var c := Encode(t, values);
            var n, lower, upper := |c.dictionary|, LowerPos(Less, c.dictionary, v), UpperPos(Less, c.dictionary, v);
            && n < INVALID_VALUE_ID
            && LowerBoundId(c, v) == (if lower == n then INVALID_VALUE_ID else lower)
            && UpperBoundId(c, v) == (if upper == n then INVALID_VALUE_ID else upper)
  {
    DictionaryFits(values);
    var d := DictionaryOf(values);
    NoWrapAround(LowerPos(Less, d, v), d);
    NoWrapAround(UpperPos(Less, d, v), d);
  }

  /** Comparing the id of a row with the bounds of a search value decides every comparison of the row
      with the value, also when a bound is the invalid id. */
  lemma IdScanIsExact(t: ColumnType, values: seq<Value>, i: nat, v: Value)
    requires Compressible(values) && i < |values|
    ensures var c := Encode(t, values);
            var id, lower, upper := c.ids[i], LowerBoundId(c, v), UpperBoundId(c, v);
            && (Less(values[i], v) <==> id < lower)
            && (!Less(v, values[i]) <==> id < upper)
            && (values[i] == v <==> lower <= id < upper)
  {
    var c := Encode(t, values);
    LessIsTotalOrder();
    DictionaryOfIsDictionary(values);
    EncodedRow(t, values, i);
    BoundIdsAre(t, values, v);
    LowerSplits(Less, c.dictionary, v, c.ids[i]);
    UpperSplits(Less, c.dictionary, v, c.ids[i]);
  }

  /** The encoding preserves order and equality between rows. */
  lemma EncodingPreservesOrder(t: ColumnType, values: seq<Value>, i: nat, j: nat)
    requires Compressible(values) && i < |values| && j < |values|
    ensures var ids := Encode(t, values).ids;
            && (ids[i] < ids[j] <==> Less(values[i], values[j]))
            && (ids[i] == ids[j] <==> values[i] == values[j])
  {
    var c := Encode(t, values);
    LessIsTotalOrder();
    DictionaryOfIsDictionary(values);
    EncodedRow(t, values, i);
    EncodedRow(t, values, j);
    LowerSplits(Less, c.dictionary, values[j], c.ids[i]);
  }

  /** Ids below the dictionary size and values of the column correspond one to one. */
  lemma IdsAndValuesCorrespond(t: ColumnType, values: seq<Value>, v: Value, k: nat)
    requires Compressible(values)
    ensures var c := Encode(t, values);
            && (v in values ==> LowerBoundId(c, v) < |c.dictionary| && c.dictionary[LowerBoundId(c, v)] == v)
            && (k < |c.dictionary| ==> c.dictionary[k] in values && LowerBoundId(c, c.dictionary[k]) == k)
            && (LowerBoundId(c, v) == UpperBoundId(c, v) <==> v !in values)
  {
    var c := Encode(t, values);
    LessIsTotalOrder();
    DictionaryOfIsDictionary(values);
    BoundIdsAre(t, values, v);
    BoundsOfAny(Less, c.dictionary, v);
    if k < |c.dictionary| {
      assert c.dictionary[k] in c.dictionary;
      LowerOfEntry(Less, c.dictionary, k);
      BoundIdsAre(t, values, c.dictionary[k]);
    }
  }

  lemma BoundIdsAreMonotone(t: ColumnType, values: seq<Value>, v: Value, w: Value)
    requires Compressible(values) && !Less(w, v)
    ensures var c := Encode(t, values);
            LowerBoundId(c, v) <= LowerBoundId(c, w) && UpperBoundId(c, v) <= UpperBoundId(c, w)
  {
    LessIsTotalOrder();
    DictionaryOfIsDictionary(values);
    BoundIdsAre(t, values, v);
    BoundIdsAre(t, values, w);
    BoundsAreMonotone(Less, DictionaryOf(values), v, w);
  }

  // ----- canonical encodings

  /** The encodings that compression produces, recognised without the original values. */
  ghost predicate Canonical(c: Column) {
    && c.Encoded? && Decodable(c)
    && 0 < |c.ids| < INVALID_VALUE_ID && c.width == FitWidth(|c.ids|)
    && Increasing(Less, c.dictionary)
    && forall k :: 0 <= k < |c.dictionary| ==> k in c.ids
  }

  lemma EncodingIsCanonical(t: ColumnType, values: seq<Value>)
    requires Compressible(values)
    ensures Canonical(Encode(t, values))
  {
    var c := Encode(t, values);
    CompressionIsLossless(t, values);
    DictionaryOfIsDictionary(values);
    LessIsTotalOrder();
    forall k | 0 <= k < |c.dictionary|
      ensures k in c.ids
    {
      assert c.dictionary[k] in c.dictionary;
      var i :| 0 <= i < |values| && values[i] == c.dictionary[k];
      EncodedRow(t, values, i);
      LowerOfEntry(Less, c.dictionary, k);
      assert c.ids[i] == k;
    }
  }

  /** Encoding undoes decoding: a canonical column is the encoding of its rows, and of nothing else. */
  lemma DecodingIsInjective(c: Column)
    requires Canonical(c)
    ensures Compressible(Decode(c)) && Encode(c.columnType, Decode(c)) == c
  {
    var values := Decode(c);
    var e := Encode(c.columnType, values);
    LessIsTotalOrder();
    DictionaryOfIsDictionary(values);
    forall x | x in c.dictionary
      ensures x in values
    {
      var k :| 0 <= k < |c.dictionary| && c.dictionary[k] == x;
      assert k in c.ids;
      var i :| 0 <= i < |c.ids| && c.ids[i] == k;
      assert values[i] == x;
    }
    DictionaryIsUnique(Less, c.dictionary, DictionaryOf(values));
    forall i | 0 <= i < |values|
      ensures e.ids[i] == c.ids[i]
    {
      EncodedRow(c.columnType, values, i);
      LowerOfEntry(Less, c.dictionary, c.ids[i]);
    }
  }
}
