/**
 A sound table is a sequence of rows: what runs of operations do to that sequence, and how rows are
 counted.
 */
module TableRows {
  import opened Values
  import opened Columns
  import opened TableModel
  import opened TableTheorems

  type Row = seq<Value>

  // ----- rows of a chunk

  /** Every column of the chunk has at least `n` readable rows. */
  predicate Readable(chunk: ChunkValue, n: nat) {
    forall j :: 0 <= j < |chunk| ==> Decodable(chunk[j]) && n <= chunk[j].Size()
  }

  function RowAt(chunk: ChunkValue, r: nat): Row
    requires Readable(chunk, r + 1)
  {
    seq(|chunk|, j requires 0 <= j < |chunk| => Get(chunk[j], r))
  }

  function ChunkRows(chunk: ChunkValue, n: nat): (rows: seq<Row>)
    requires Readable(chunk, n)
    ensures |rows| == n
    ensures forall r :: 0 <= r < n ==> rows[r] == RowAt(chunk, r)
  {
    if n == 0 then [] else ChunkRows(chunk, n - 1) + [RowAt(chunk, n - 1)]
  }

  ghost predicate AllReadable(chunks: seq<ChunkValue>) {
    forall i :: 0 <= i < |chunks| ==> Readable(chunks[i], SizeOf(chunks[i]))
  }

  /** The rows of all chunks, in order. */
  ghost function AllRows(chunks: seq<ChunkValue>): seq<Row>
    requires AllReadable(chunks)
  {
    if chunks == [] then []
    else
      var n := |chunks| - 1;
      AllRows(chunks[..n]) + ChunkRows(chunks[n], SizeOf(chunks[n]))
  }

  lemma SoundIsReadable(t: Table)
    requires Sound(t)
    ensures AllReadable(t.chunks)
  {
    forall i | 0 <= i < |t.chunks|
      ensures Readable(t.chunks[i], SizeOf(t.chunks[i]))
    {
      assert SoundChunk(t.chunks[i], t.types[..Arity(t)], SizeOf(t.chunks[i]), t.chunkSize);
    }
  }

  ghost function Rows(t: Table): seq<Row>
    requires Sound(t)
  {
    SoundIsReadable(t);
    AllRows(t.chunks)
  }

  /** Chunks with the same rows. */
  ghost predicate SameRows(a: ChunkValue, b: ChunkValue) {
    && SizeOf(a) == SizeOf(b) && |a| == |b|
    && Readable(a, SizeOf(a)) && Readable(b, SizeOf(b))
    && forall j, r :: 0 <= j < |a| && 0 <= r < SizeOf(a) ==> Get(a[j], r) == Get(b[j], r)
  }

  lemma SameRowsSameSequence(a: ChunkValue, b: ChunkValue)
    requires SameRows(a, b)
    ensures ChunkRows(a, SizeOf(a)) == ChunkRows(b, SizeOf(b))
  {
    forall r | 0 <= r < SizeOf(a)
      ensures RowAt(a, r) == RowAt(b, r)
    {
    }
  }

  lemma {:induction false} SameRowsEverywhere(a: seq<ChunkValue>, b: seq<ChunkValue>)
    requires |a| == |b| && AllReadable(a) && AllReadable(b)
    requires forall i :: 0 <= i < |a| ==> SameRows(a[i], b[i])
    ensures AllRows(a) == AllRows(b)
  {
    if a != [] {
      var n := |a| - 1;
      SameRowsEverywhere(a[..n], b[..n]);
      SameRowsSameSequence(a[n], b[n]);
    }
  }

  lemma {:induction false} NoRows(chunks: seq<ChunkValue>)
    requires AllReadable(chunks) && AllEmpty(chunks)
    ensures AllRows(chunks) == []
  {
    if chunks != [] { NoRows(chunks[..|chunks| - 1]); }
  }

  // ----- what an operation adds

  /** The row an operation appends, if it does. */
  function Added(convert: Converter, t: Table, op: Op): seq<Row>
    requires Formed(t)
  {
    if && op.OpAppend? && Arity(t) <= |t.types| && |op.values| == Arity(t) != 0
       && Castable(convert, t.types[..Arity(t)], op.values)
    then [CastRow(convert, t.types[..Arity(t)], op.values)] else []
  }

  /** One row more at the end of a chunk. */
  ghost predicate Grown(before: ChunkValue, after: ChunkValue, row: Row) {
    && |before| == |after| == |row| != 0
    && Readable(before, SizeOf(before)) && Readable(after, SizeOf(before) + 1)
    && (forall j, r :: 0 <= j < |before| && 0 <= r < SizeOf(before) ==> Get(after[j], r) == Get(before[j], r))
    && (forall j :: 0 <= j < |after| ==> Get(after[j], SizeOf(before)) == row[j])
  }

  lemma GrownRows(before: ChunkValue, after: ChunkValue, row: Row)
    requires Grown(before, after, row)
    ensures ChunkRows(after, SizeOf(before) + 1) == ChunkRows(before, SizeOf(before)) + [row]
  {
    var n := SizeOf(before);
    assert RowAt(after, n) == row;
    forall r | 0 <= r < n
      ensures RowAt(after, r) == RowAt(before, r)
    {
    }
  }

  lemma AppendGrowsChunk(
    convert: Converter, chunk: ChunkValue, types: seq<ColumnType>, chunkSize: nat, values: seq<Value>)
    requires SoundChunk(chunk, types, SizeOf(chunk), chunkSize) && !Compressed(chunk) && chunk != []
    requires |values| == |chunk| && Castable(convert, types, values)
    ensures var (ok, after) := AppendToChunk(convert, chunk, values);
            ok && SizeOf(after) == SizeOf(chunk) + 1 && Grown(chunk, after, CastRow(convert, types, values))
  {
    assert forall j :: 0 <= j < |chunk| ==> SoundColumn(chunk[j], types[j], SizeOf(chunk));
    AppendFromShape(convert, chunk, values, 0);
  }

  /** Chunks in front keep their rows; the last one decides what is added. */
  lemma AllRowsOfLast(chunks: seq<ChunkValue>, last: ChunkValue, rows: seq<Row>)
    requires chunks != [] && AllReadable(chunks) && Readable(last, SizeOf(last))
    requires ChunkRows(last, SizeOf(last)) == ChunkRows(chunks[|chunks| - 1], SizeOf(chunks[|chunks| - 1])) + rows
    ensures AllReadable(chunks[|chunks| - 1 := last])
    ensures AllRows(chunks[|chunks| - 1 := last]) == AllRows(chunks) + rows
  {
    var n := |chunks| - 1;
    assert chunks[n := last][..n] == chunks[..n];
  }

  lemma AllRowsOfEmptyChunk(chunks: seq<ChunkValue>, types: seq<ColumnType>)
    requires AllReadable(chunks)
    ensures AllReadable(chunks + [EmptyColumns(types)])
    ensures AllRows(chunks + [EmptyColumns(types)]) == AllRows(chunks)
  {
    var after := chunks + [EmptyColumns(types)];
    assert after[..|chunks|] == chunks;
    assert SizeOf(EmptyColumns(types)) == 0;
  }

  lemma AppendAddsRow(convert: Converter, t: Table, values: seq<Value>)
    requires Sound(t) && MayAppend(convert, t, values)
    ensures Sound(Append(convert, t, values).1)
    ensures Rows(Append(convert, t, values).1) == Rows(t) + Added(convert, t, OpAppend(values))
    ensures Append(convert, t, values).0 <==> |values| == Arity(t) && Castable(convert, t.types[..Arity(t)], values)
  {
    AppendKeepsSound(convert, t, values);
    SoundIsReadable(t);
    if IsLastChunkFull(t) {
      NewChunkKeepsSound(t);
      var u := CreateNewChunk(t);
      EmptyChunkIsSound(t.types, t.chunkSize);
      AllRowsOfEmptyChunk(t.chunks, t.types);
      assert u.chunks[0] == t.chunks[0];
      AppendToLastAddsRow(convert, u, values);
    } else {
      AppendToLastAddsRow(convert, t, values);
    }
  }

  lemma AppendToLastAddsRow(convert: Converter, t: Table, values: seq<Value>)
    requires Sound(t) && !IsLastChunkFull(t) && MayAppend(convert, t, values)
    ensures var (ok, chunk) := AppendToChunk(convert, LastChunk(t), values);
            var u := t.(chunks := t.chunks[|t.chunks| - 1 := chunk]);
            && Sound(u) && Rows(u) == Rows(t) + Added(convert, t, OpAppend(values))
            && (ok <==> |values| == Arity(t) && Castable(convert, t.types[..Arity(t)], values))
  {
    AppendKeepsSound(convert, t, values);
    SoundIsReadable(t);
    var last, types, n := LastChunk(t), t.types[..Arity(t)], |t.chunks| - 1;
    SoundSizes(last, types, SizeOf(last), t.chunkSize);
    var (ok, chunk) := AppendToChunk(convert, last, values);
    assert t.chunks[n := last] == t.chunks;
    if |values| == Arity(t) != 0 {
      AppendKeepsChunk(convert, last, types, SizeOf(last), t.chunkSize, values);
      assert types[0] == t.types[0];
      if Castable(convert, types, values) {
        AppendGrowsChunk(convert, last, types, t.chunkSize, values);
        GrownRows(last, chunk, CastRow(convert, types, values));
        ReplacedChunk(t, n, chunk);
        SoundIsReadable(t.(chunks := t.chunks[n := chunk]));
        AllRowsOfLast(t.chunks, chunk, [CastRow(convert, types, values)]);
      }
    }
  }

  lemma CompressionKeepsRows(t: Table, id: nat)
    requires Sound(t)
    ensures Sound(CompressChunk(t, id).1) && Rows(CompressChunk(t, id).1) == Rows(t)
  {
    CompressKeepsSound(t, id);
    CompressionIsAllOrNothing(t, id);
    var (ok, u) := CompressChunk(t, id);
    if ok {
      SoundIsReadable(t);
      SoundIsReadable(u);
      CompressedChunkHasSameRows(t, id);
      SameRowsEverywhere(t.chunks, u.chunks);
    }
  }

  lemma CompressedChunkHasSameRows(t: Table, id: nat)
    requires Sound(t) && CompressChunk(t, id).0
    ensures var u := CompressChunk(t, id).1;
            |u.chunks| == |t.chunks| && forall i :: 0 <= i < |t.chunks| ==> SameRows(t.chunks[i], u.chunks[i])
  {
    CompressionIsAllOrNothing(t, id);
    SoundIsReadable(t);
    CompressKeepsSound(t, id);
    var u := CompressChunk(t, id).1;
    SoundIsReadable(u);
    var a, b := t.chunks[id], u.chunks[id];
    forall j, r | 0 <= j < |a| && 0 <= r < SizeOf(a)
      ensures Get(a[j], r) == Get(b[j], r)
    {
      assert SoundColumn(a[j], t.types[j], SizeOf(a));
      assert Decode(b[j])[r] == a[j].values[r];
    }
  }

  lemma AddColumnKeepsRows(convert: Converter, t: Table, name: string, columnType: ColumnType)
    requires Sound(t) && Allowed(convert, t, OpAddColumn(name, columnType))
    ensures Sound(AddColumn(t, name, columnType).1) && Rows(AddColumn(t, name, columnType).1) == Rows(t)
  {
    AddColumnKeepsSound(t, name, columnType, convert);
    var u := AddColumn(t, name, columnType).1;
    SoundIsReadable(t);
    SoundIsReadable(u);
    if u.chunks != t.chunks {
      InstantiatedChunks(t, name, columnType);
      NoRows(t.chunks);
      NoRows(u.chunks);
    }
  }

  /** If adding a column changed the chunks of a sound table for good, they are all empty. */
  lemma InstantiatedChunks(t: Table, name: string, columnType: ColumnType)
    requires Sound(t) && Sound(AddColumn(t, name, columnType).1)
    requires AddColumn(t, name, columnType).1.chunks != t.chunks
    ensures AllEmpty(t.chunks) && AllEmpty(AddColumn(t, name, columnType).1.chunks)
    ensures |AddColumn(t, name, columnType).1.chunks| == |t.chunks|
  {
    var u := AddColumn(t, name, columnType).1;
    assert u.chunks == AddToChunks(t.chunks, columnType, 0).1;
    forall i | 0 <= i < |t.chunks|
      ensures |u.chunks[i]| == Arity(u)
    {
      assert SoundChunk(u.chunks[i], u.types[..Arity(u)], SizeOf(u.chunks[i]), u.chunkSize);
    }
    WidenedAreEmpty(t, columnType);
  }

  /** If some chunks of a sound table accepted a column and all are of one width after that, all accepted
      it, being empty. */
  lemma WidenedAreEmpty(t: Table, columnType: ColumnType)
    requires Sound(t) && AddToChunks(t.chunks, columnType, 0).1 != t.chunks
    requires var chunks := AddToChunks(t.chunks, columnType, 0).1;
             forall i :: 0 <= i < |t.chunks| ==> |chunks[i]| == |chunks[0]|
    ensures AllEmpty(t.chunks) && AllEmpty(AddToChunks(t.chunks, columnType, 0).1)
  {
    var f := AddToChunksShape(t.chunks, columnType, 0);
    var chunks := AddToChunks(t.chunks, columnType, 0).1;
    forall i | 0 <= i < |t.chunks|
      ensures |t.chunks[i]| == Arity(t)
      ensures AcceptsColumn(t.chunks[i], Plain(columnType, [])) <==> SizeOf(t.chunks[i]) == 0
    {
      assert SoundChunk(t.chunks[i], t.types[..Arity(t)], SizeOf(t.chunks[i]), t.chunkSize);
      AcceptsIfEmpty(t.chunks[i], t.types[..Arity(t)], t.chunkSize, columnType);
    }
  }

  /** A table refines a sequence of rows: an allowed call leaves a sound table with the rows it had,
      in order, followed by the row it appended, if any. */
  lemma StepRefinesRows(convert: Converter, t: Table, op: Op)
    requires Sound(t) && Allowed(convert, t, op)
    ensures var u := Apply(convert, t, op).1;
            Sound(u) && Rows(u) == Rows(t) + Added(convert, t, op)
  {
    StepKeepsSoundIffAllowed(convert, t, op);
    SoundIsReadable(t);
    match op
    case OpDefine(name, columnType) =>
    case OpAddColumn(name, columnType) => AddColumnKeepsRows(convert, t, name, columnType);
    case OpAppend(values) => AppendAddsRow(convert, t, values);
    case OpNewChunk => AllRowsOfEmptyChunk(t.chunks, t.types);
    case OpCompress(id) => CompressionKeepsRows(t, id);
  }

  // ----- whole runs

  /** Every call of the run is allowed when it is made. */
  predicate AllowedRun(convert: Converter, t: Table, ops: seq<Op>)
    requires Formed(t)
    decreases |ops|
  {
    ops == [] || (Allowed(convert, t, ops[0]) && AllowedRun(convert, Apply(convert, t, ops[0]).1, ops[1..]))
  }

  /** The rows that the run appends. */
  function AddedByRun(convert: Converter, t: Table, ops: seq<Op>): seq<Row>
    requires Formed(t)
    decreases |ops|
  {
    if ops == [] then [] else Added(convert, t, ops[0]) + AddedByRun(convert, Apply(convert, t, ops[0]).1, ops[1..])
  }

  lemma RunOfCons(convert: Converter, t: Table, ops: seq<Op>, u: Table)
    requires Formed(t) && ops != [] && u == Apply(convert, t, ops[0]).1
    ensures Run(convert, t, ops) == Run(convert, u, ops[1..])
    ensures AddedByRun(convert, t, ops) == Added(convert, t, ops[0]) + AddedByRun(convert, u, ops[1..])
  {
  }

  lemma NewTableIsSound(chunkSize: nat)
    requires chunkSize < ROW_LIMIT
    ensures Sound(NewTable(chunkSize)) && Rows(NewTable(chunkSize)) == []
  {
    var t := NewTable(chunkSize);
    assert t.types[..Arity(t)] == [];
    SoundIsReadable(t);
  }

  lemma {:induction false} RunRefinesRows(convert: Converter, t: Table, ops: seq<Op>)
    requires Sound(t) && AllowedRun(convert, t, ops)
    ensures Sound(Run(convert, t, ops)) && Rows(Run(convert, t, ops)) == Rows(t) + AddedByRun(convert, t, ops)
    decreases |ops|
  {
    if ops != [] {
      var u := Apply(convert, t, ops[0]).1;
      StepRefinesRows(convert, t, ops[0]);
      RunRefinesRows(convert, u, ops[1..]);
      RunOfCons(convert, t, ops, u);
    }
  }

  /** Safety over whole runs: from a new table, every allowed run ends in a sound table whose rows are
      exactly the rows appended, in order, whatever was compressed on the way. */
  lemma EveryAllowedRunIsSound(convert: Converter, chunkSize: nat, ops: seq<Op>)
    requires chunkSize < ROW_LIMIT
    requires AllowedRun(convert, NewTable(chunkSize), ops)
    ensures var t := Run(convert, NewTable(chunkSize), ops);
            Sound(t) && Rows(t) == AddedByRun(convert, NewTable(chunkSize), ops)
  {
    NewTableIsSound(chunkSize);
    RunRefinesRows(convert, NewTable(chunkSize), ops);
  }

  /** In a sound table the chunk that `append` writes to is never compressed. */
  lemma AppendNeverReachesCompressed(t: Table)
    requires Sound(t)
    ensures !IsLastChunkFull(t) ==> forall j :: 0 <= j < Arity(t) ==> LastChunk(t)[j].Plain?
  {
    SoundSizes(LastChunk(t), t.types[..Arity(t)], SizeOf(LastChunk(t)), t.chunkSize);
  }

  // ----- counting

  lemma {:induction false} SumIsNumberOfRows(t: Table, chunks: seq<ChunkValue>)
    requires Sound(t) && chunks <= t.chunks && AllReadable(chunks)
    ensures SumOfSizes(chunks) == |AllRows(chunks)|
  {
    if chunks != [] {
      var n := |chunks| - 1;
      SumIsNumberOfRows(t, chunks[..n]);
      assert chunks[n] == t.chunks[n];
      SoundSizes(chunks[n], t.types[..Arity(t)], SizeOf(chunks[n]), t.chunkSize);
    }
  }

  /** `row_count` is the number of rows, up to the width of the counter. */
  lemma RowCountIsNumberOfRows(t: Table)
    requires Sound(t)
    ensures RowCount(t) == |Rows(t)| <==> |Rows(t)| < ROW_COUNT_LIMIT
  {
    SoundIsReadable(t);
    SumIsNumberOfRows(t, t.chunks);
  }
}
