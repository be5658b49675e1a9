/**
 Columns and chunks as objects. A column object stands for a value of type `Column`; appending changes
 the object in place, and compression builds a new, immutable one.
 */
module ColumnStore {
  import opened Wrappers
  import opened Values
  import opened Dictionary
  import opened AttributeVectors
  import opened Columns

  class ValueColumn {
    const columnType: ColumnType
    var values: seq<Value>

    constructor (columnType: ColumnType)
      ensures this.columnType == columnType && values == []
    {
      this.columnType, values := columnType, [];
    }

    /** Appends the value cast to the type of the column; without a cast it throws and changes nothing. */
    method Append(convert: Converter, v: Value) returns (ok: bool)
      modifies this
      ensures ok <==> TypeCast(convert, columnType, v).Some?
      ensures values == if ok then old(values) + [TypeCast(convert, columnType, v).value] else old(values)
    {
      var cast := TypeCast(convert, columnType, v);
      if cast.None? {
        return false;
      }
      values := values + [cast.value];
      return true;
    }

    /** `operator[]`, which throws beyond the end. */
    method At(i: nat) returns (v: Option<Value>)
      ensures v == if i < |values| then Some(values[i]) else None
    {
      if i >= |values| {
        return None;
      }
      return Some(values[i]);
    }
  }

  class DictionaryColumn {
    const columnType: ColumnType
    const dictionary: seq<Value>
    const attributeVector: FittedAttributeVector

    constructor (columnType: ColumnType, dictionary: seq<Value>, attributeVector: FittedAttributeVector)
      ensures this.columnType == columnType && this.dictionary == dictionary && this.attributeVector == attributeVector
    {
      this.columnType, this.dictionary, this.attributeVector := columnType, dictionary, attributeVector;
    }

    ghost function Model(): Column
      reads attributeVector.data
    {
      Encoded(columnType, dictionary, attributeVector.width, attributeVector.data[..])
    }

    /** Compresses a column: only a value column of the right type, neither empty nor too long. */
    static method FromColumn(t: ColumnType, base: BaseColumn) returns (r: Result<DictionaryColumn>)
      ensures r.Ok? <==> base.ValueCol? && base.plain.columnType == t && 0 < |base.plain.values| < 4294967295
      ensures r.Ok? ==> fresh(r.value) && fresh(r.value.attributeVector.data)
      ensures r.Ok? ==> r.value.Model() == Encode(t, base.plain.values)
    {
      if base.DictionaryCol? || base.plain.columnType != t {
        return Err("Compression is only supported for value columns!");
      }
      var values := base.plain.values;
      if values == [] {
        return Err("Cannot compress empty value column!");
      }
      LessIsTotalOrder();
      var dictionary := Build(Less, values);
      DictionaryOfIsDictionary(values);
      DictionaryIsUnique(Less, dictionary, DictionaryOf(values));
      if |values| >= INVALID_VALUE_ID {
        return Err("Unsupported attribute vector width!");
      }
      var vector := Fill(dictionary, values);
      var c := new DictionaryColumn(t, dictionary, vector);
      return Ok(c);
    }

    /** An attribute vector of the narrowest width for this many rows. */
    static method CreateVector(rows: nat) returns (vector: FittedAttributeVector)
      requires 0 < rows < INVALID_VALUE_ID
      ensures fresh(vector) && fresh(vector.data) && vector.width == FitWidth(rows) && vector.data.Length == rows
    {
      var width := Width32;
      if rows < MaxOf(Width8) {
        width := Width8;
      } else if rows < MaxOf(Width16) {
        width := Width16;
      }
      var created := FittedAttributeVector.Create(width, rows);
      return created.value;
    }

    /** Looks every value up in the dictionary and stores its id. */
    static method Fill(dictionary: seq<Value>, values: seq<Value>) returns (vector: FittedAttributeVector)
      requires Compressible(values) && Increasing(Less, dictionary)
      ensures fresh(vector) && fresh(vector.data) && vector.width == FitWidth(|values|)
      ensures vector.data[..] == IdsOf(dictionary, vector.width, values)
    {
      LessIsTotalOrder();
      vector := CreateVector(|values|);
      for i := 0 to |values|
        invariant vector.data[..i] == IdsOf(dictionary, vector.width, values[..i])
      {
        ghost var before := vector.data[..i];
        var id := LowerBound(Less, dictionary, values[i]);
        var written := vector.Set(i, id);
        assert values[..i + 1][..i] == values[..i];
        assert vector.data[..i + 1] == before + [Narrow(vector.width, id)];
      }
      assert values[..|values|] == values && vector.data[..|values|] == vector.data[..];
    }

    /** The value of a row; the ids of a compressed column always name an entry. */
    method GetAt(i: nat) returns (v: Value)
      requires Decodable(Model()) && i < attributeVector.data.Length
      ensures v == Get(Model(), i)
    {
      v := dictionary[attributeVector.data[i]];
    }

    /** `at`, which throws for an id that names no entry. */
    method ValueByValueId(id: nat) returns (v: Option<Value>)
      ensures v == if id < |dictionary| then Some(dictionary[id]) else None
    {
      if id >= |dictionary| {
        return None;
      }
      return Some(dictionary[id]);
    }

    method LowerBoundOf(v: Value) returns (id: nat)
      requires Increasing(Less, dictionary)
      ensures id == LowerBoundId(Model(), v)
    {
      LessIsTotalOrder();
      var pos := LowerBound(Less, dictionary, v);
      if pos == |dictionary| {
        return INVALID_VALUE_ID;
      }
      return Narrow(Width32, pos);
    }

    method UpperBoundOf(v: Value) returns (id: nat)
      requires Increasing(Less, dictionary)
      ensures id == UpperBoundId(Model(), v)
    {
      LessIsTotalOrder();
      var pos := UpperBound(Less, dictionary, v);
      if pos == |dictionary| {
        return INVALID_VALUE_ID;
      }
      return Narrow(Width32, pos);
    }
  }

  /** A shared pointer to a column of either kind. */
  datatype BaseColumn = ValueCol(plain: ValueColumn) | DictionaryCol(encoded: DictionaryColumn) {
    /** The object whose contents the column depends on. */
    ghost function Store(): object {
      if ValueCol? then plain else encoded.attributeVector.data
    }

    ghost function Model(): Column
      reads Store()
    {
      if ValueCol? then Plain(plain.columnType, plain.values) else encoded.Model()
    }

    /** The virtual `append`: a dictionary column always throws. */
    method Append(convert: Converter, v: Value) returns (ok: bool)
      modifies Store()
      ensures (ok, Model()) == Appended(convert, old(Model()), v)
      ensures DictionaryCol? ==> !ok && Model() == old(Model())
    {
      if DictionaryCol? {
        return false;
      }
      ok := plain.Append(convert, v);
    }

    method Size() returns (n: nat)
      ensures n == Model().Size()
    {
      n := if ValueCol? then |plain.values| else encoded.attributeVector.data.Length;
    }
  }
}
