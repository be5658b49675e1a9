/**
 What single calls leave behind, said outright: definitions and their columns, the chunks that appends
 create, what is stored for a value, and the widths of the counters.
 */
module TableEffects {
  import opened Wrappers
  import opened Values
  import opened Columns
  import opened TableModel
  import opened TableTheorems
  import opened TableRows

  // ----- definitions

  /** The first column with this name. */
  predicate IsFirst(names: seq<string>, name: string, p: nat) {
    p < |names| && names[p] == name && forall k :: 0 <= k < p ==> names[k] != name
  }

  /** A name is found at its first position, and only a name that is not there is missing; but with exactly
      as many columns as 16 bits can count to zero again, no name is found. */
  lemma NamesAreFound(t: Table, name: string, p: nat)
    ensures |t.names| < 65536 ==> (ColumnIdByName(t, name) == Some(p) <==> IsFirst(t.names, name, p))
    ensures |t.names| < 65536 ==> (ColumnIdByName(t, name) == None <==> name !in t.names)
    ensures |t.names| == 65536 ==> ColumnIdByName(t, name) == None
  {
    if |t.names| < 65536 {
      assert t.names[..|t.names|] == t.names;
    }
  }

  /** A new name is defined with the type given, and is found at the end; a known name is refused, and nothing
      else is changed. */
  lemma DefinedColumnIsFound(t: Table, name: string, columnType: ColumnType)
    requires Formed(t)
    ensures var (ok, u) := AddColumnDefinition(t, name, columnType);
            && (ok <==> forall k :: 0 <= k < |t.names| ==> t.names[k] != name)
            && (!ok ==> u == t)
            && (ok ==> u == Table(t.names + [name], t.types + [columnType], t.instantiated + [false],
                                  t.chunks, t.chunkSize))
            && (ok && |t.names| + 1 < 65536 ==> ColumnIdByName(u, name) == Some(|t.names|))
  {
    var u := AddColumnDefinition(t, name, columnType).1;
    if name !in t.names && |t.names| + 1 < 65536 {
      assert IsFirst(u.names, name, |t.names|);
      NamesAreFound(u, name, |t.names|);
    }
  }

  // ----- columns

  /** The table with the column at position `p` created in every chunk. */
  ghost predicate HasColumnAdded(t: Table, u: Table, p: nat, columnType: ColumnType) {
    && u.names == t.names && u.types == t.types && u.chunkSize == t.chunkSize
    && p < |t.instantiated| && u.instantiated == t.instantiated[p := true]
    && |u.chunks| == |t.chunks|
    && forall i :: 0 <= i < |t.chunks| ==> u.chunks[i] == t.chunks[i] + [Plain(columnType, [])]
  }

  lemma InstantiateAdds(t: Table, name: string, columnType: ColumnType, p: nat)
    requires Formed(t) && |t.names| <= 65536 && Instantiate(t, name, columnType).0 && IsFirst(t.names, name, p)
    ensures |t.names| < 65536 && HasColumnAdded(t, Instantiate(t, name, columnType).1, p, columnType)
  {
    var f := AddToChunksShape(t.chunks, columnType, 0);
    NamesAreFound(t, name, p);
  }

  /** The definition that `add_column` works on: a new one, or the one that is waiting. */
  function WithDefinition(t: Table, name: string, columnType: ColumnType): Table {
    if name in t.names then t
    else Table(t.names + [name], t.types + [columnType], t.instantiated + [false], t.chunks, t.chunkSize)
  }

  /** A column that was added is the one under its name: it has the type, was waiting before, and every chunk
      has an empty column more. */
  lemma AddedColumn(t: Table, name: string, columnType: ColumnType) returns (p: nat)
    requires Sound(t) && AddColumn(t, name, columnType).0
    ensures var d := WithDefinition(t, name, columnType);
            && IsFirst(d.names, name, p) && p < |d.types| && d.types[p] == columnType && !d.instantiated[p]
            && HasColumnAdded(d, AddColumn(t, name, columnType).1, p, columnType)
  {
    var pos, d := IndexFrom(t.names, name, 0), WithDefinition(t, name, columnType);
    p := if pos.Some? then pos.value else |t.names|;
    assert IsFirst(d.names, name, p);
    assert Instantiate(d, name, columnType) == AddColumn(t, name, columnType);
    InstantiateAdds(d, name, columnType, p);
  }

  /** A call that contradicts a definition, by its type or because the column is there, changes nothing. */
  lemma ContradictionIsRefused(t: Table, name: string, columnType: ColumnType, p: nat)
    requires Formed(t) && IsFirst(t.names, name, p) && (t.types[p] != columnType || t.instantiated[p])
    ensures AddColumn(t, name, columnType) == (false, t)
  {
    assert IsFirst(t.names, name, IndexFrom(t.names, name, 0).value);
  }

  /** A definition is what `add_column` asks for later: on empty chunks the same name is added with the type
      of its definition and with no other. */
  lemma DefinedColumnIsAdded(convert: Converter, t: Table, name: string, columnType: ColumnType, asked: ColumnType)
    requires Sound(t) && name !in t.names && |t.names| + 1 < 65536
    ensures var u := AddColumnDefinition(t, name, columnType).1;
            AddColumn(u, name, asked).0 <==> asked == columnType && AllEmpty(t.chunks)
  {
    var u := AddColumnDefinition(t, name, columnType).1;
    DefineKeepsTheRest(t, name, columnType);
    IndexOfNew(t.names, name, 0);
    AddColumnKeepsSound(u, name, asked, convert);
  }

  // ----- appending

  /** An append creates a chunk exactly if the last one holds as many rows as a chunk may; in a table of
      unlimited chunks, whose chunk size is 0, it never does. */
  lemma AppendCreatesChunk(convert: Converter, t: Table, values: seq<Value>)
    requires Sound(t)
    ensures var full := t.chunkSize > 0 && SizeOf(t.chunks[|t.chunks| - 1]) == t.chunkSize;
            |Append(convert, t, values).1.chunks| == |t.chunks| + if full then 1 else 0
  {
    SoundSizes(LastChunk(t), t.types[..Arity(t)], SizeOf(LastChunk(t)), t.chunkSize);
  }

  /** A new chunk has one empty column for every definition, in order, and the old ones stay. */
  lemma CreatedChunk(t: Table)
    ensures var u := CreateNewChunk(t);
            && u == t.(chunks := u.chunks) && u.chunks[..|t.chunks|] == t.chunks
            && |u.chunks| == |t.chunks| + 1 && |u.chunks[|t.chunks|]| == |t.types|
            && forall j :: 0 <= j < |t.types| ==> u.chunks[|t.chunks|][j] == Plain(t.types[j], [])
  {
    var chunk := EmptyColumns(t.types);
    assert CreateNewChunk(t).chunks == t.chunks + [chunk];
  }

  /** What is stored for a value: the value itself if it has the type of its column, and what it converts to
      otherwise. */
  lemma StoredValue(convert: Converter, types: seq<ColumnType>, values: seq<Value>, j: nat)
    requires |types| == |values| && Castable(convert, types, values) && j < |values|
    ensures CastRow(convert, types, values)[j] ==
            if TypeOf(values[j]) == types[j] then values[j] else convert(types[j], values[j]).value
    ensures TypeOf(CastRow(convert, types, values)[j]) == types[j]
  {
  }

  // ----- compressing any chunk

  /** The first `n` columns can be compressed into one chunk: they are plain, of the defined types, and as
      long as the first, which is neither empty nor too long. */
  predicate CanCompress(chunk: ChunkValue, types: seq<ColumnType>, n: nat) {
    && n <= |chunk| && n <= |types|
    && forall j :: 0 <= j < n ==>
         && chunk[j].Plain? && chunk[j].columnType == types[j]
         && 0 < |chunk[j].values| < 4294967295 && |chunk[j].values| == chunk[0].Size()
  }

  ghost predicate AreEncodings(chunk: ChunkValue, types: seq<ColumnType>, done: ChunkValue) {
    && |done| <= |chunk| && |done| <= |types|
    && forall j :: 0 <= j < |done| ==> chunk[j].Plain? && done[j] == Encode(types[j], chunk[j].values)
  }

  lemma NextCompresses(chunk: ChunkValue, types: seq<ColumnType>, done: ChunkValue)
    requires |done| < |chunk| && |done| < COLUMN_LIMIT
    requires CanCompress(chunk, types, |done|) && AreEncodings(chunk, types, done)
    ensures var next := CompressNext(chunk, types, done);
            && (next.Some? <==> CanCompress(chunk, types, |done| + 1))
            && (next.Some? ==> |next.value| == |done| + 1 && AreEncodings(chunk, types, next.value))
  {
    if done != [] { assert done[0] == Encode(types[0], chunk[0].values); }
  }

  lemma {:induction false} CompressesFrom(chunk: ChunkValue, types: seq<ColumnType>, done: ChunkValue)
    requires |done| <= ColCount(chunk)
    requires CanCompress(chunk, types, |done|) && AreEncodings(chunk, types, done)
    ensures var r := CompressFrom(chunk, types, done);
            && (r.Some? <==> CanCompress(chunk, types, ColCount(chunk)))
            && (r.Some? ==> |r.value| == ColCount(chunk) && AreEncodings(chunk, types, r.value))
    decreases ColCount(chunk) - |done|
  {
    if |done| < ColCount(chunk) {
      NextCompresses(chunk, types, done);
      var next := CompressNext(chunk, types, done);
      if next.Some? { CompressesFrom(chunk, types, next.value); }
    }
  }

  /** When `compress_chunk` succeeds, on any table at all: then it replaces the columns of the chunk by their
      encodings, and otherwise it changes nothing. */
  lemma CompressionSucceedsIff(t: Table, id: nat)
    ensures var (ok, u) := CompressChunk(t, id);
            && (ok <==>
                  && id < |t.chunks| && t.chunkSize > 0 && ReportedSize(t.chunks[id]) == t.chunkSize
                  && CanCompress(t.chunks[id], t.types, ColCount(t.chunks[id])))
            && (ok ==> |u.chunks| == |t.chunks| && u == t.(chunks := t.chunks[id := u.chunks[id]]))
            && (ok ==> |u.chunks[id]| == ColCount(t.chunks[id]))
            && (ok ==> AreEncodings(t.chunks[id], t.types, u.chunks[id]))
            && (!ok ==> u == t)
  {
    if id < |t.chunks| { CompressesFrom(t.chunks[id], t.types, []); }
  }

  // ----- counters

  /** Column counts have 16 bits, chunk sizes 32, row counts 64; a sum or size beyond that starts from zero
      again. */
  lemma CountersAreCut(t: Table, chunk: ChunkValue)
    ensures ColCount(chunk) == |chunk| % 65536
    ensures ReportedSize(chunk) ==
            if |chunk| % 65536 == 0 then 0 else chunk[0].Size() % 4294967296
    ensures RowCount(t) == SumOfSizes(t.chunks) % 18446744073709551616
  {
  }
}
