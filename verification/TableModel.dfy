/**
 The table as a value: exactly what every operation does, refused and half-done calls included. The
 objects in `Storage` are proved to do the same.
 */
module TableModel {
  import opened Wrappers
  import opened Values
  import opened Columns

  // ----- chunks

  type ChunkValue = seq<Column>

  /** Column counts are 16 bits wide, chunk sizes 32 bits. */
  const COLUMN_LIMIT: nat := 0x1_0000
  const ROW_LIMIT: nat := 0x1_0000_0000
  const ROW_COUNT_LIMIT: nat := 0x1_0000_0000_0000_0000

  /** A number cut to an unsigned width; below the limit nothing is cut. */
  function Wrap(n: nat, limit: nat): nat
    requires limit > 0
  {
    if n < limit then n else n % limit
  }

  function ColCount(chunk: ChunkValue): nat {
    Wrap(|chunk|, COLUMN_LIMIT)
  }

  /** `Chunk::size`: the size of the first column, if there is one. */
  function ReportedSize(chunk: ChunkValue): nat {
    if ColCount(chunk) == 0 then 0 else Wrap(chunk[0].Size(), ROW_LIMIT)
  }

  predicate AcceptsColumn(chunk: ChunkValue, c: Column) {
    c.Size() == ReportedSize(chunk) || |chunk| == 0
  }

  /** Appends column by column from column `i` on, and stops at the first that refuses its value. */
  function AppendFrom(convert: Converter, chunk: ChunkValue, values: seq<Value>, i: nat): (r: (bool, ChunkValue))
    requires |values| == |chunk| && i <= |chunk|
    ensures |r.1| == |chunk|
    decreases |chunk| - i
  {
    if i == |chunk| then (true, chunk)
    else
      var (ok, c) := Appended(convert, chunk[i], values[i]);
      if !ok then (false, chunk) else AppendFrom(convert, chunk[i := c], values, i + 1)
  }

  function AppendToChunk(convert: Converter, chunk: ChunkValue, values: seq<Value>): (r: (bool, ChunkValue))
    ensures |r.1| == |chunk|
  {
    if |values| != |chunk| then (false, chunk) else AppendFrom(convert, chunk, values, 0)
  }

  function EmptyColumns(types: seq<ColumnType>): (chunk: ChunkValue)
    ensures |chunk| == |types|
    ensures forall j :: 0 <= j < |types| ==> chunk[j] == Plain(types[j], [])
  {
    if types == [] then [] else EmptyColumns(types[..|types| - 1]) + [Plain(types[|types| - 1], [])]
  }

  // ----- tables

  datatype Table = Table(
    names: seq<string>,
    types: seq<ColumnType>,
    instantiated: seq<bool>,
    chunks: seq<ChunkValue>,
    chunkSize: nat)

  /** What every table has, whatever was done to it. */
  predicate Formed(t: Table) {
    |t.names| == |t.types| == |t.instantiated| && t.chunks != [] && t.chunkSize < ROW_LIMIT
  }

  function NewTable(chunkSize: nat): Table {
    Table([], [], [], [[]], chunkSize)
  }

  /** The first position from `i` on that holds the name. */
  function IndexFrom(names: seq<string>, name: string, i: nat): (r: Option<nat>)
    requires i <= |names|
    ensures r.Some? ==> i <= r.value < |names| && names[r.value] == name
    ensures forall k :: i <= k < (if r.Some? then r.value else |names|) ==> names[k] != name
    decreases |names| - i
  {
    if i == |names| then None else if names[i] == name then Some(i) else IndexFrom(names, name, i + 1)
  }

  /** Looks at as many names as the 16-bit column count says there are. */
  function ColumnIdByName(t: Table, name: string): Option<nat> {
    IndexFrom(t.names[..Wrap(|t.names|, COLUMN_LIMIT)], name, 0)
  }

  function Define(t: Table, name: string, columnType: ColumnType): Table {
    t.(names := t.names + [name], types := t.types + [columnType], instantiated := t.instantiated + [false])
  }

  function AddColumnDefinition(t: Table, name: string, columnType: ColumnType): (bool, Table) {
    if name in t.names then (false, t) else (true, Define(t, name, columnType))
  }

  /** Adds an empty column to every chunk from chunk `i` on, and stops at the first that refuses it. */
  function AddToChunks(chunks: seq<ChunkValue>, columnType: ColumnType, i: nat): (r: (bool, seq<ChunkValue>))
    requires i <= |chunks|
    ensures |r.1| == |chunks|
    decreases |chunks| - i
  {
    if i == |chunks| then (true, chunks)
    else if !AcceptsColumn(chunks[i], Plain(columnType, [])) then (false, chunks)
    else AddToChunks(chunks[i := chunks[i] + [Plain(columnType, [])]], columnType, i + 1)
  }

  /** The part of `add_column` after the definition has been found or made. */
  function Instantiate(t: Table, name: string, columnType: ColumnType): (bool, Table)
    requires Formed(t)
  {
    var (ok, chunks) := AddToChunks(t.chunks, columnType, 0);
    var u := t.(chunks := chunks);
    var id := ColumnIdByName(t, name);
    if !ok || id.None? then (false, u) else (true, u.(instantiated := u.instantiated[id.value := true]))
  }

  function AddColumn(t: Table, name: string, columnType: ColumnType): (bool, Table)
    requires Formed(t)
  {
    var pos := IndexFrom(t.names, name, 0);
    if pos.None? then Instantiate(Define(t, name, columnType), name, columnType)
    else if t.types[pos.value] != columnType || t.instantiated[pos.value] then (false, t)
    else Instantiate(t, name, columnType)
  }

  function CreateNewChunk(t: Table): Table {
    t.(chunks := t.chunks + [EmptyColumns(t.types)])
  }

  function LastChunk(t: Table): ChunkValue
    requires Formed(t)
  {
    t.chunks[|t.chunks| - 1]
  }

  predicate IsLastChunkFull(t: Table)
    requires Formed(t)
  {
    t.chunkSize != 0 && ReportedSize(LastChunk(t)) == t.chunkSize
  }

  function Append(convert: Converter, t: Table, values: seq<Value>): (bool, Table)
    requires Formed(t)
  {
    var u := if IsLastChunkFull(t) then CreateNewChunk(t) else t;
    var (ok, chunk) := AppendToChunk(convert, LastChunk(u), values);
    (ok, u.(chunks := u.chunks[|u.chunks| - 1 := chunk]))
  }

  /** Compresses the column of `chunk` that comes after those in `done`, if that is possible. */
  function CompressNext(chunk: ChunkValue, types: seq<ColumnType>, done: ChunkValue): (r: Option<ChunkValue>)
    requires |done| < |chunk|
    ensures r.Some? ==> |r.value| == |done| + 1
  {
    var i := |done|;
    if i >= |types| || chunk[i].Encoded? || chunk[i].columnType != types[i] || !Compressible(chunk[i].values) then None
    else
      var c := Encode(types[i], chunk[i].values);
      if AcceptsColumn(done, c) then Some(done + [c]) else None
  }

  /** Compresses the columns of a chunk one after the other, behind those in `done`. */
  function CompressFrom(chunk: ChunkValue, types: seq<ColumnType>, done: ChunkValue): Option<ChunkValue>
    requires |done| <= ColCount(chunk)
    decreases ColCount(chunk) - |done|
  {
    if |done| == ColCount(chunk) then Some(done)
    else
      var next := CompressNext(chunk, types, done);
      if next.None? then None else CompressFrom(chunk, types, next.value)
  }

  function CompressChunk(t: Table, id: nat): (bool, Table) {
    if id >= |t.chunks| || t.chunkSize == 0 || ReportedSize(t.chunks[id]) != t.chunkSize then (false, t)
    else
      var compressed := CompressFrom(t.chunks[id], t.types, []);
      if compressed.None? then (false, t) else (true, t.(chunks := t.chunks[id := compressed.value]))
  }

  function SumOfSizes(chunks: seq<ChunkValue>): nat {
    if chunks == [] then 0 else SumOfSizes(chunks[..|chunks| - 1]) + ReportedSize(chunks[|chunks| - 1])
  }

  /** `row_count`, which adds 32-bit sizes up in 64 bits. */
  function RowCount(t: Table): nat {
    Wrap(SumOfSizes(t.chunks), ROW_COUNT_LIMIT)
  }

  // ----- runs

  datatype Op =
    | OpDefine(name: string, columnType: ColumnType)
    | OpAddColumn(name: string, columnType: ColumnType)
    | OpAppend(values: seq<Value>)
    | OpNewChunk
    | OpCompress(id: nat)

  function Apply(convert: Converter, t: Table, op: Op): (r: (bool, Table))
    requires Formed(t)
    ensures Formed(r.1)
  {
    match op
    case OpDefine(name, columnType) => AddColumnDefinition(t, name, columnType)
    case OpAddColumn(name, columnType) => AddColumn(t, name, columnType)
    case OpAppend(values) => Append(convert, t, values)
    case OpNewChunk => (true, CreateNewChunk(t))
    case OpCompress(id) => CompressChunk(t, id)
  }

  function Run(convert: Converter, t: Table, ops: seq<Op>): (r: Table)
    requires Formed(t)
    ensures Formed(r)
    decreases |ops|
  {
    if ops == [] then t else Run(convert, Apply(convert, t, ops[0]).1, ops[1..])
  }
}
