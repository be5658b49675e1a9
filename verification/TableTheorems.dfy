/**
 What runs of table operations keep. The invariant `Sound` is not kept by every call: for each
 operation the calls that keep it are characterised exactly, by conditions a caller can check.
 */
module TableTheorems {
  import opened Wrappers
  import opened Values
  import opened AttributeVectors
  import opened Columns
  import opened TableModel

  // ----- the invariant

  predicate Typed(values: seq<Value>, t: ColumnType) {
    forall i :: 0 <= i < |values| ==> TypeOf(values[i]) == t
  }

  /** A well-made column of this type and size. */
  ghost predicate SoundColumn(c: Column, t: ColumnType, size: nat) {
    && c.columnType == t && c.Size() == size
    && if c.Plain? then Typed(c.values, t) else Canonical(c) && Typed(c.dictionary, t)
  }

  /** All columns are of one kind. */
  predicate Uniform(chunk: ChunkValue) {
    (forall j :: 0 <= j < |chunk| ==> chunk[j].Plain?) || (forall j :: 0 <= j < |chunk| ==> chunk[j].Encoded?)
  }

  predicate Compressed(chunk: ChunkValue) {
    chunk != [] && chunk[0].Encoded?
  }

  /** A rectangular chunk of `size` rows with one column per type, compressed only if it is full. */
  ghost predicate SoundChunk(chunk: ChunkValue, types: seq<ColumnType>, size: nat, chunkSize: nat) {
    && |chunk| == |types|
    && (forall j :: 0 <= j < |chunk| ==> SoundColumn(chunk[j], types[j], size))
    && Uniform(chunk) && size < ROW_LIMIT
    && (chunkSize != 0 ==> size <= chunkSize)
    && (Compressed(chunk) ==> chunkSize != 0 && size == chunkSize)
  }

  /** The number of columns that exist in the chunks. */
  function Arity(t: Table): nat
    requires Formed(t)
  {
    |t.chunks[0]|
  }

  function SizeOf(chunk: ChunkValue): nat {
    if chunk == [] then 0 else chunk[0].Size()
  }

  /** Exactly the first `k` definitions are instantiated. */
  predicate InstantiatedPrefix(t: Table, k: nat) {
    k <= |t.instantiated| && forall j :: 0 <= j < |t.instantiated| ==> (t.instantiated[j] <==> j < k)
  }

  ghost predicate SoundChunks(chunks: seq<ChunkValue>, types: seq<ColumnType>, chunkSize: nat) {
    forall i :: 0 <= i < |chunks| ==> SoundChunk(chunks[i], types, SizeOf(chunks[i]), chunkSize)
  }

  ghost predicate Sound(t: Table) {
    && Formed(t) && |t.types| < COLUMN_LIMIT
    && InstantiatedPrefix(t, Arity(t))
    && SoundChunks(t.chunks, t.types[..Arity(t)], t.chunkSize)
  }

  // ----- which calls keep it

  predicate AllEmpty(chunks: seq<ChunkValue>) {
    forall i :: 0 <= i < |chunks| ==> SizeOf(chunks[i]) == 0
  }

  /** Every value can be cast to the type of its column. */
  predicate Castable(convert: Converter, types: seq<ColumnType>, values: seq<Value>)
    requires |types| == |values|
  {
    forall j :: 0 <= j < |values| ==> TypeCast(convert, types[j], values[j]).Some?
  }

  /** No definition is waiting for its column. */
  predicate NothingPending(t: Table)
    requires Formed(t)
  {
    |t.types| == Arity(t)
  }

  /** A new column fits: it is the next one in order and every chunk is empty, or the very first chunk
      refuses it before anything is changed. */
  predicate MayInstantiate(t: Table, pos: nat)
    requires Formed(t)
  {
    if AllEmpty(t.chunks) then pos == Arity(t) else SizeOf(t.chunks[0]) != 0
  }

  predicate MayAppend(convert: Converter, t: Table, values: seq<Value>)
    requires Formed(t)
  {
    var full, k := IsLastChunkFull(t), Arity(t);
    && k <= |t.types|
    && (full ==> NothingPending(t))
    && (|values| == k != 0 ==>
          if Castable(convert, t.types[..k], values)
          then full || t.chunkSize != 0 || SizeOf(LastChunk(t)) + 1 < ROW_LIMIT
          else TypeCast(convert, t.types[0], values[0]).None?)
  }

  /** The condition on a call, all of it about the table and the arguments before the call. */
  predicate Allowed(convert: Converter, t: Table, op: Op)
    requires Formed(t)
  {
    match op
    case OpDefine(name, _) => name in t.names || |t.types| + 1 < COLUMN_LIMIT
    case OpAddColumn(name, columnType) =>
      var pos := IndexFrom(t.names, name, 0);
      if pos.None? then |t.types| + 1 < COLUMN_LIMIT && MayInstantiate(t, |t.types|)
      else t.types[pos.value] != columnType || t.instantiated[pos.value] || MayInstantiate(t, pos.value)
    case OpAppend(values) => MayAppend(convert, t, values)
    case OpNewChunk => NothingPending(t)
    case OpCompress(_) => true
  }

  // ----- chunks

  lemma SoundSizes(chunk: ChunkValue, types: seq<ColumnType>, size: nat, chunkSize: nat)
    requires SoundChunk(chunk, types, size, chunkSize) && |types| < COLUMN_LIMIT
    ensures ReportedSize(chunk) == SizeOf(chunk)
    ensures chunk != [] ==> SizeOf(chunk) == size
  {
  }

  lemma EmptyChunkIsSound(types: seq<ColumnType>, chunkSize: nat)
    ensures SoundChunk(EmptyColumns(types), types, 0, chunkSize)
    ensures SizeOf(EmptyColumns(types)) == 0
  {
  }

  function WithValue(c: Column, v: Value): Column
    requires c.Plain?
  {
    c.(values := c.values + [v])
  }

  /** After the appends from column `i` on: those columns have one more value as long as the casts
      succeed, and the rest are as they were. */
  lemma {:induction false} AppendFromShape(convert: Converter, chunk: ChunkValue, values: seq<Value>, i: nat)
    requires |values| == |chunk| && i <= |chunk|
    requires forall j :: i <= j < |chunk| ==> chunk[j].Plain?
    ensures var (ok, after) := AppendFrom(convert, chunk, values, i);
            && (forall j :: 0 <= j < i ==> after[j] == chunk[j])
            && (ok <==> forall j :: i <= j < |chunk| ==> TypeCast(convert, chunk[j].columnType, values[j]).Some?)
            && (ok ==> forall j :: i <= j < |chunk| ==>
                  after[j] == WithValue(chunk[j], TypeCast(convert, chunk[j].columnType, values[j]).value))
            && (!ok ==> exists f :: i <= f < |chunk| && FailsAt(convert, chunk, values, i, f, after))
    decreases |chunk| - i
  {
    if i < |chunk| {
      var (ok, c) := Appended(convert, chunk[i], values[i]);
      if ok {
        var next := chunk[i := c];
        AppendFromShape(convert, next, values, i + 1);
        var (okRest, after) := AppendFrom(convert, next, values, i + 1);
        if !okRest {
          var f :| i + 1 <= f < |next| && FailsAt(convert, next, values, i + 1, f, after);
          assert FailsAt(convert, chunk, values, i, f, after);
        }
      } else {
        assert FailsAt(convert, chunk, values, i, i, chunk);
      }
    }
  }

  /** The append stopped at column `f`: the columns from `i` up to it have one value more. */
  ghost predicate FailsAt(
    convert: Converter, chunk: ChunkValue, values: seq<Value>, i: nat, f: nat, after: ChunkValue)
  {
    && |values| == |chunk| == |after| && i <= f < |chunk|
    && chunk[f].Plain? && TypeCast(convert, chunk[f].columnType, values[f]).None?
    && (forall j :: i <= j < f ==>
          && chunk[j].Plain? && TypeCast(convert, chunk[j].columnType, values[j]).Some?
          && after[j] == WithValue(chunk[j], TypeCast(convert, chunk[j].columnType, values[j]).value))
    && (forall j :: f <= j < |chunk| ==> after[j] == chunk[j])
  }

  /** The row that `append` stores. */
  function CastRow(convert: Converter, types: seq<ColumnType>, values: seq<Value>): seq<Value>
    requires |types| == |values| && Castable(convert, types, values)
  {
    seq(|values|, j requires 0 <= j < |values| => TypeCast(convert, types[j], values[j]).value)
  }

  /** Appending a row to a plain chunk keeps it sound exactly when every value has a cast, or the first
      one has none and nothing happens at all; a later failure leaves it ragged. */
  lemma AppendKeepsChunk(
    convert: Converter, chunk: ChunkValue, types: seq<ColumnType>, size: nat, chunkSize: nat, values: seq<Value>)
    requires SoundChunk(chunk, types, size, chunkSize) && !Compressed(chunk) && chunk != []
    requires chunkSize != 0 ==> size < chunkSize < ROW_LIMIT
    requires |values| == |chunk|
    ensures var (ok, after) := AppendToChunk(convert, chunk, values);
            && (ok <==> Castable(convert, types, values))
            && (ok ==> (SoundChunk(after, types, size + 1, chunkSize) <==> chunkSize != 0 || size + 1 < ROW_LIMIT))
            && (ok ==> SizeOf(after) == size + 1)
            && (!ok && TypeCast(convert, types[0], values[0]).None? ==> after == chunk)
            && (!ok && TypeCast(convert, types[0], values[0]).Some? ==>
                  forall s :: !SoundChunk(after, types, s, chunkSize))
  {
    assert forall j :: 0 <= j < |chunk| ==> SoundColumn(chunk[j], types[j], size);
    AppendFromShape(convert, chunk, values, 0);
    var (ok, after) := AppendToChunk(convert, chunk, values);
    if ok {
      forall j | 0 <= j < |after|
        ensures SoundColumn(after[j], types[j], size + 1)
      {
      }
    } else {
      var f :| 0 <= f < |chunk| && FailsAt(convert, chunk, values, 0, f, after);
      if f == 0 {
        assert after == chunk;
      } else {
        assert after[0].Size() == size + 1 && after[f].Size() == size;
      }
    }
  }

  // ----- defining and adding columns

  lemma DefineKeepsTheRest(t: Table, name: string, columnType: ColumnType)
    requires Sound(t)
    ensures var u := Define(t, name, columnType);
            && Formed(u) && Arity(u) == Arity(t) && InstantiatedPrefix(u, Arity(u))
            && u.types[..Arity(u)] == t.types[..Arity(t)]
            && (Sound(u) <==> |t.types| + 1 < COLUMN_LIMIT)
  {
  }

  /** Empty columns are added to the chunks from `i` on, up to the first that refuses. */
  lemma {:induction false} AddToChunksShape(chunks: seq<ChunkValue>, columnType: ColumnType, i: nat) returns (f: nat)
    requires i <= |chunks|
    ensures i <= f <= |chunks| && (f < |chunks| ==> !AcceptsColumn(chunks[f], Plain(columnType, [])))
    ensures forall j :: i <= j < f ==> AcceptsColumn(chunks[j], Plain(columnType, []))
    ensures var (ok, after) := AddToChunks(chunks, columnType, i);
            && (ok <==> f == |chunks|)
            && forall j :: 0 <= j < |chunks| ==>
                 after[j] == if i <= j < f then chunks[j] + [Plain(columnType, [])] else chunks[j]
    decreases |chunks| - i
  {
    f := i;
    if i < |chunks| && AcceptsColumn(chunks[i], Plain(columnType, [])) {
      var next := chunks[i := chunks[i] + [Plain(columnType, [])]];
      f := AddToChunksShape(next, columnType, i + 1);
      assert forall j :: i + 1 <= j < f ==> AcceptsColumn(next[j], Plain(columnType, [])) && next[j] == chunks[j];
    }
  }

  lemma AcceptsIfEmpty(chunk: ChunkValue, types: seq<ColumnType>, chunkSize: nat, columnType: ColumnType)
    requires SoundChunk(chunk, types, SizeOf(chunk), chunkSize) && |types| < COLUMN_LIMIT
    ensures AcceptsColumn(chunk, Plain(columnType, [])) <==> SizeOf(chunk) == 0
  {
  }

  lemma WidenedChunkIsSound(chunk: ChunkValue, types: seq<ColumnType>, chunkSize: nat, columnType: ColumnType)
    requires SoundChunk(chunk, types, 0, chunkSize)
    ensures SoundChunk(chunk + [Plain(columnType, [])], types + [columnType], 0, chunkSize)
    ensures SizeOf(chunk + [Plain(columnType, [])]) == 0
  {
    var c := chunk + [Plain(columnType, [])];
    forall j | 0 <= j < |c|
      ensures c[j].Plain? && SoundColumn(c[j], (types + [columnType])[j], 0)
    {
      if j < |chunk| { assert SoundColumn(chunk[j], types[j], 0); }
    }
  }

  lemma WidenedChunksAreSound(
    chunks: seq<ChunkValue>, wider: seq<ChunkValue>, types: seq<ColumnType>, chunkSize: nat, columnType: ColumnType)
    requires SoundChunks(chunks, types, chunkSize) && AllEmpty(chunks) && |wider| == |chunks|
    requires forall i :: 0 <= i < |chunks| ==> wider[i] == chunks[i] + [Plain(columnType, [])]
    ensures SoundChunks(wider, types + [columnType], chunkSize)
  {
    forall i | 0 <= i < |wider|
      ensures SoundChunk(wider[i], types + [columnType], SizeOf(wider[i]), chunkSize)
    {
      WidenedChunkIsSound(chunks[i], types, chunkSize, columnType);
    }
  }

  /** Creating the columns of a pending definition keeps the table sound exactly when it is the next
      definition and all chunks are empty, or the first chunk refuses. */
  lemma InstantiateKeepsSound(t: Table, name: string, columnType: ColumnType, pos: nat)
    requires Formed(t) && |t.types| <= COLUMN_LIMIT && Arity(t) < COLUMN_LIMIT
    requires InstantiatedPrefix(t, Arity(t)) && SoundChunks(t.chunks, t.types[..Arity(t)], t.chunkSize)
    requires IndexFrom(t.names, name, 0) == Some(pos) && pos >= Arity(t) && t.types[pos] == columnType
    ensures Sound(Instantiate(t, name, columnType).1) <==> |t.types| < COLUMN_LIMIT && MayInstantiate(t, pos)
    ensures Instantiate(t, name, columnType).0 <==> |t.types| < COLUMN_LIMIT && AllEmpty(t.chunks)
  {
    var k, types := Arity(t), t.types[..Arity(t)];
    var f := AddToChunksShape(t.chunks, columnType, 0);
    var chunks := AddToChunks(t.chunks, columnType, 0).1;
    forall i | 0 <= i < |t.chunks|
      ensures AcceptsColumn(t.chunks[i], Plain(columnType, [])) <==> SizeOf(t.chunks[i]) == 0
    {
      AcceptsIfEmpty(t.chunks[i], types, t.chunkSize, columnType);
    }
    if f == |t.chunks| {
      AllAccepted(t, name, columnType, pos);
    } else {
      assert !AllEmpty(t.chunks);
      if f == 0 {
        assert chunks == t.chunks;
      } else {
        assert |chunks[0]| == k + 1 && |chunks[f]| == |t.chunks[f]| == k;
      }
    }
  }

  lemma AllAccepted(t: Table, name: string, columnType: ColumnType, pos: nat)
    requires Formed(t) && |t.types| <= COLUMN_LIMIT
    requires InstantiatedPrefix(t, Arity(t)) && SoundChunks(t.chunks, t.types[..Arity(t)], t.chunkSize)
    requires IndexFrom(t.names, name, 0) == Some(pos) && pos >= Arity(t) && t.types[pos] == columnType
    requires AllEmpty(t.chunks) && AddToChunks(t.chunks, columnType, 0).0
    ensures Sound(Instantiate(t, name, columnType).1) <==> |t.types| < COLUMN_LIMIT && pos == Arity(t)
    ensures Instantiate(t, name, columnType).0 <==> |t.types| < COLUMN_LIMIT
  {
    var k := Arity(t);
    var f := AddToChunksShape(t.chunks, columnType, 0);
    var u := Instantiate(t, name, columnType).1;
    assert |u.chunks[0]| == k + 1;
    if |t.types| < COLUMN_LIMIT {
      assert t.names[..|t.names|] == t.names;
      assert u.instantiated == t.instantiated[pos := true];
      if pos == k {
        WidenedChunksAreSound(t.chunks, u.chunks, t.types[..k], t.chunkSize, columnType);
        assert t.types[..k + 1] == t.types[..k] + [columnType];
      } else {
        assert !u.instantiated[k];
      }
    }
  }

  /** When `add_column` succeeds: the name is new, or pending with this type, and every chunk is empty. */
  predicate AddsColumn(t: Table, name: string, columnType: ColumnType)
    requires Formed(t)
  {
    var pos := IndexFrom(t.names, name, 0);
    && AllEmpty(t.chunks)
    && if pos.None? then |t.types| + 1 < COLUMN_LIMIT
       else t.types[pos.value] == columnType && !t.instantiated[pos.value]
  }

  lemma AddColumnKeepsSound(t: Table, name: string, columnType: ColumnType, convert: Converter)
    requires Sound(t)
    ensures Sound(AddColumn(t, name, columnType).1) <==> Allowed(convert, t, OpAddColumn(name, columnType))
    ensures AddColumn(t, name, columnType).0 <==> AddsColumn(t, name, columnType)
  {
    var pos := IndexFrom(t.names, name, 0);
    if pos.None? {
      var u := Define(t, name, columnType);
      DefineKeepsTheRest(t, name, columnType);
      IndexOfNew(t.names, name, 0);
      InstantiateKeepsSound(u, name, columnType, |t.types|);
    } else if t.types[pos.value] == columnType && !t.instantiated[pos.value] {
      InstantiateKeepsSound(t, name, columnType, pos.value);
    }
  }

  lemma {:induction false} IndexOfNew(names: seq<string>, name: string, i: nat)
    requires i <= |names| && IndexFrom(names, name, i).None?
    ensures IndexFrom(names + [name], name, i) == Some(|names|)
    decreases |names| - i
  {
    if i < |names| { IndexOfNew(names, name, i + 1); }
  }

  // ----- new chunks

  lemma NewChunkKeepsSound(t: Table)
    requires Sound(t)
    ensures Sound(CreateNewChunk(t)) <==> NothingPending(t)
  {
    var u := CreateNewChunk(t);
    EmptyChunkIsSound(t.types, t.chunkSize);
    assert u.chunks[0] == t.chunks[0];
    if NothingPending(t) {
      assert t.types[..Arity(t)] == t.types;
      forall i | 0 <= i < |u.chunks|
        ensures SoundChunk(u.chunks[i], t.types, SizeOf(u.chunks[i]), t.chunkSize)
      {
        if i < |t.chunks| { assert u.chunks[i] == t.chunks[i]; }
      }
    } else {
      assert |u.chunks[|t.chunks|]| == |t.types|;
    }
  }

  // ----- appending

  /** With one chunk replaced, the table is sound exactly when the new chunk is. */
  lemma ReplacedChunk(t: Table, i: nat, chunk: ChunkValue)
    requires Sound(t) && i < |t.chunks| && |chunk| == Arity(t)
    ensures var u := t.(chunks := t.chunks[i := chunk]);
            && Formed(u) && Arity(u) == Arity(t)
            && (Sound(u) <==> SoundChunk(chunk, t.types[..Arity(t)], SizeOf(chunk), t.chunkSize))
  {
    var u := t.(chunks := t.chunks[i := chunk]);
    assert u.chunks[i] == chunk;
  }

  lemma AppendKeepsSound(convert: Converter, t: Table, values: seq<Value>)
    requires Sound(t)
    ensures Sound(Append(convert, t, values).1) <==> MayAppend(convert, t, values)
  {
    var k := Arity(t);
    SoundSizes(LastChunk(t), t.types[..k], SizeOf(LastChunk(t)), t.chunkSize);
    if IsLastChunkFull(t) {
      NewChunkKeepsSound(t);
      var u := CreateNewChunk(t);
      EmptyChunkIsSound(t.types, t.chunkSize);
      assert u.chunks[0] == t.chunks[0];
      if NothingPending(t) {
        assert t.types[..k] == t.types;
        AppendToLast(convert, u, values);
      } else {
        var v := Append(convert, t, values).1;
        assert v.chunks[0] == t.chunks[0] && |v.chunks[|t.chunks|]| == |t.types|;
      }
    } else {
      AppendToLast(convert, t, values);
    }
  }

  /** The append itself, into a last chunk that is not full. */
  lemma AppendToLast(convert: Converter, t: Table, values: seq<Value>)
    requires Sound(t) && !IsLastChunkFull(t)
    ensures Sound(t.(chunks := t.chunks[|t.chunks| - 1 := AppendToChunk(convert, LastChunk(t), values).1])) <==>
            (|values| == Arity(t) != 0 ==>
               if Castable(convert, t.types[..Arity(t)], values)
               then t.chunkSize != 0 || SizeOf(LastChunk(t)) + 1 < ROW_LIMIT
               else TypeCast(convert, t.types[0], values[0]).None?)
  {
    var k, last := Arity(t), LastChunk(t);
    var types := t.types[..k];
    SoundSizes(last, types, SizeOf(last), t.chunkSize);
    assert t.chunks[|t.chunks| - 1 := last] == t.chunks;
    ReplacedChunk(t, |t.chunks| - 1, AppendToChunk(convert, last, values).1);
    if |values| == k != 0 {
      AppendKeepsChunk(convert, last, types, SizeOf(last), t.chunkSize, values);
      assert types[0] == t.types[0];
    }
  }

  // ----- compressing

  lemma SameSizeIsAccepted(done: ChunkValue, c: Column, size: nat)
    requires |done| < COLUMN_LIMIT && size < ROW_LIMIT && c.Size() == size
    requires done != [] ==> done[0].Size() == size
    ensures AcceptsColumn(done, c)
  {
  }

  lemma CompressNextShape(chunk: ChunkValue, types: seq<ColumnType>, size: nat, done: ChunkValue)
    requires |chunk| < COLUMN_LIMIT && |chunk| <= |types| && 0 < size < INVALID_VALUE_ID && |done| < |chunk|
    requires forall j :: 0 <= j < |chunk| ==> chunk[j].Plain? && SoundColumn(chunk[j], types[j], size)
    requires done != [] ==> done[0] == Encode(types[0], chunk[0].values)
    ensures CompressNext(chunk, types, done) == Some(done + [Encode(types[|done|], chunk[|done|].values)])
  {
    assert SoundColumn(chunk[|done|], types[|done|], size) && SoundColumn(chunk[0], types[0], size);
    SameSizeIsAccepted(done, Encode(types[|done|], chunk[|done|].values), size);
  }

  /** A plain chunk of a size that can be compressed is compressed completely, column by column. */
  lemma {:induction false} CompressFromShape(chunk: ChunkValue, types: seq<ColumnType>, size: nat, done: ChunkValue)
    requires |chunk| < COLUMN_LIMIT && |chunk| <= |types| && 0 < size < INVALID_VALUE_ID
    requires forall j :: 0 <= j < |chunk| ==> chunk[j].Plain? && SoundColumn(chunk[j], types[j], size)
    requires |done| <= |chunk| && forall j :: 0 <= j < |done| ==> done[j] == Encode(types[j], chunk[j].values)
    ensures var r := CompressFrom(chunk, types, done);
            && r.Some? && |r.value| == |chunk|
            && forall j :: 0 <= j < |chunk| ==> r.value[j] == Encode(types[j], chunk[j].values)
    decreases |chunk| - |done|
  {
    var i := |done|;
    if i < |chunk| {
      CompressNextShape(chunk, types, size, done);
      var next := done + [Encode(types[i], chunk[i].values)];
      CompressFromShape(chunk, types, size, next);
      assert CompressFrom(chunk, types, done) == CompressFrom(chunk, types, next);
    }
  }

  lemma EncodedColumnIsSound(c: Column, t: ColumnType, size: nat)
    requires c.Plain? && SoundColumn(c, t, size) && 0 < size < INVALID_VALUE_ID
    ensures SoundColumn(Encode(t, c.values), t, size)
    ensures Decodable(Encode(t, c.values)) && Decode(Encode(t, c.values)) == c.values
  {
    var e := Encode(t, c.values);
    EncodingIsCanonical(t, c.values);
    CompressionIsLossless(t, c.values);
    DictionaryOfIsDictionary(c.values);
    forall k | 0 <= k < |e.dictionary|
      ensures TypeOf(e.dictionary[k]) == t
    {
      assert e.dictionary[k] in e.dictionary;
    }
  }

  /** The chunks that `compress_chunk` accepts. */
  predicate MayCompress(t: Table, id: nat) {
    && id < |t.chunks| && 0 < t.chunkSize < INVALID_VALUE_ID
    && SizeOf(t.chunks[id]) == t.chunkSize && !Compressed(t.chunks[id])
  }

  /** All or nothing: on a full chunk of plain columns of a finite size below the limit it succeeds and
      leaves dictionary columns with the same rows; on every other chunk it fails and changes nothing. No
      other chunk is ever touched. */
  lemma CompressionIsAllOrNothing(t: Table, id: nat)
    requires Sound(t)
    ensures var (ok, u) := CompressChunk(t, id);
            && (ok <==> MayCompress(t, id))
            && (!ok ==> u == t)
            && (ok ==> u == t.(chunks := t.chunks[id := u.chunks[id]]))
            && (ok ==> |u.chunks[id]| == |t.chunks[id]| && forall j :: 0 <= j < |t.chunks[id]| ==>
                  && t.chunks[id][j].Plain?
                  && u.chunks[id][j] == Encode(t.types[j], t.chunks[id][j].values)
                  && Decodable(u.chunks[id][j]) && Decode(u.chunks[id][j]) == t.chunks[id][j].values)
  {
    if id < |t.chunks| && t.chunkSize != 0 {
      var chunk, k := t.chunks[id], Arity(t);
      SoundSizes(chunk, t.types[..k], SizeOf(chunk), t.chunkSize);
      assert forall j :: 0 <= j < k ==> SoundColumn(chunk[j], t.types[j], SizeOf(chunk));
      if MayCompress(t, id) {
        CompressFromShape(chunk, t.types, t.chunkSize, []);
        forall j | 0 <= j < k
          ensures Decodable(Encode(t.types[j], chunk[j].values))
          ensures Decode(Encode(t.types[j], chunk[j].values)) == chunk[j].values
        {
          EncodedColumnIsSound(chunk[j], t.types[j], t.chunkSize);
        }
      }
    }
  }

  lemma CompressKeepsSound(t: Table, id: nat)
    requires Sound(t)
    ensures Sound(CompressChunk(t, id).1)
  {
    CompressionIsAllOrNothing(t, id);
    var (ok, u) := CompressChunk(t, id);
    if ok {
      var chunk, types := u.chunks[id], t.types[..Arity(t)];
      assert SoundChunk(t.chunks[id], types, t.chunkSize, t.chunkSize);
      forall j | 0 <= j < |chunk|
        ensures SoundColumn(chunk[j], types[j], t.chunkSize)
      {
        EncodedColumnIsSound(t.chunks[id][j], types[j], t.chunkSize);
      }
      ReplacedChunk(t, id, chunk);
    }
  }

  // ----- runs

  /** A call keeps a sound table sound if and only if it is allowed. */
  lemma StepKeepsSoundIffAllowed(convert: Converter, t: Table, op: Op)
    requires Sound(t)
    ensures Sound(Apply(convert, t, op).1) <==> Allowed(convert, t, op)
  {
    match op
    case OpDefine(name, columnType) => DefineKeepsTheRest(t, name, columnType);
    case OpAddColumn(name, columnType) => AddColumnKeepsSound(t, name, columnType, convert);
    case OpAppend(values) => AppendKeepsSound(convert, t, values);
    case OpNewChunk => NewChunkKeepsSound(t);
    case OpCompress(id) => CompressKeepsSound(t, id);
  }

  // ----- names

  predicate DistinctNames(names: seq<string>) {
    forall i, j :: 0 <= i < j < |names| ==> names[i] != names[j]
  }

  /** No call, allowed or not, makes a column name ambiguous. */
  lemma NamesStayDistinct(convert: Converter, t: Table, op: Op)
    requires Formed(t) && DistinctNames(t.names)
    ensures DistinctNames(Apply(convert, t, op).1.names)
  {
    match op
    case OpDefine(_, _) =>
    case OpAddColumn(name, _) => assert IndexFrom(t.names, name, 0).None? ==> name !in t.names;
    case OpAppend(_) =>
    case OpNewChunk =>
    case OpCompress(_) =>
  }

  /** In a sound table with distinct names, every column is found under its name. */
  lemma ColumnsAreFoundByName(t: Table, j: nat)
    requires Sound(t) && DistinctNames(t.names) && j < |t.names|
    ensures ColumnIdByName(t, t.names[j]) == Some(j)
  {
    assert t.names[..|t.names|] == t.names;
  }
}
