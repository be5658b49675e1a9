/**
 At which chunk and offset a row is found. Dividing the row number by the chunk size gives the address
 as long as no row stands behind a chunk that is not full; which calls keep that is stated exactly, and so
 is when a table has no more chunks than its rows need.
 */
module RowAddresses {
  import opened Values
  import opened TableModel
  import opened TableTheorems
  import opened TableRows

  datatype RowID = RowID(chunkId: nat, chunkOffset: nat)

  /** Lexicographic order, as `std::tie` gives it. */
  predicate RowIDLess(a: RowID, b: RowID) {
    a.chunkId < b.chunkId || (a.chunkId == b.chunkId && a.chunkOffset < b.chunkOffset)
  }

  // ----- the rows of any sound table

  predicate HasRow(t: Table, a: RowID) {
    a.chunkId < |t.chunks| && a.chunkOffset < SizeOf(t.chunks[a.chunkId])
  }

  /** The number of rows in front of chunk `n`. */
  function StartOf(chunks: seq<ChunkValue>, n: nat): nat
    requires n <= |chunks|
  {
    if n == 0 then 0 else StartOf(chunks, n - 1) + SizeOf(chunks[n - 1])
  }

  /** The number of the row at this address. */
  function PositionOf(t: Table, a: RowID): nat
    requires HasRow(t, a)
  {
    StartOf(t.chunks, a.chunkId) + a.chunkOffset
  }

  lemma {:induction false} StartIsPrefix(chunks: seq<ChunkValue>, n: nat)
    requires n <= |chunks| && AllReadable(chunks)
    ensures |AllRows(chunks[..n])| == StartOf(chunks, n)
  {
    if n > 0 {
      assert chunks[..n][..n - 1] == chunks[..n - 1];
      StartIsPrefix(chunks, n - 1);
    }
  }

  lemma {:induction false} RowInChunk(chunks: seq<ChunkValue>, n: nat, i: nat, r: nat)
    requires i < n <= |chunks| && AllReadable(chunks) && r < SizeOf(chunks[i])
    ensures Readable(chunks[i], SizeOf(chunks[i])) && StartOf(chunks, i) + r < |AllRows(chunks[..n])|
    ensures AllRows(chunks[..n])[StartOf(chunks, i) + r] == RowAt(chunks[i], r)
  {
    assert chunks[..n][..n - 1] == chunks[..n - 1];
    if i == n - 1 {
      StartIsPrefix(chunks, i);
    } else {
      RowInChunk(chunks, n - 1, i, r);
    }
  }

  /** The row with the number of an address is the one stored there. */
  lemma RowIsAtItsAddress(t: Table, a: RowID)
    requires Sound(t) && HasRow(t, a)
    ensures Readable(t.chunks[a.chunkId], SizeOf(t.chunks[a.chunkId])) && PositionOf(t, a) < |Rows(t)|
    ensures Rows(t)[PositionOf(t, a)] == RowAt(t.chunks[a.chunkId], a.chunkOffset)
  {
    SoundIsReadable(t);
    assert t.chunks[..|t.chunks|] == t.chunks;
    RowInChunk(t.chunks, |t.chunks|, a.chunkId, a.chunkOffset);
  }

  lemma {:induction false} StartIsMonotone(chunks: seq<ChunkValue>, i: nat, j: nat)
    requires i < j <= |chunks|
    ensures StartOf(chunks, i) + SizeOf(chunks[i]) <= StartOf(chunks, j)
    decreases j
  {
    if i + 1 < j { StartIsMonotone(chunks, i, j - 1); }
  }

  /** The lexicographic order of the row ids of a table, whatever the sizes of its chunks, is the order of
      its rows; in particular no two addresses have the same number. */
  lemma AddressesAreInRowOrder(t: Table, a: RowID, b: RowID)
    requires HasRow(t, a) && HasRow(t, b)
    ensures RowIDLess(a, b) <==> PositionOf(t, a) < PositionOf(t, b)
    ensures a == b <==> PositionOf(t, a) == PositionOf(t, b)
  {
    if a.chunkId < b.chunkId { StartIsMonotone(t.chunks, a.chunkId, b.chunkId); }
    if b.chunkId < a.chunkId { StartIsMonotone(t.chunks, b.chunkId, a.chunkId); }
  }

  /** Every row has an address. */
  lemma RowHasAddress(t: Table, r: nat) returns (a: RowID)
    requires Sound(t) && r < |Rows(t)|
    ensures HasRow(t, a) && PositionOf(t, a) == r
  {
    SoundIsReadable(t);
    assert t.chunks[..|t.chunks|] == t.chunks;
    StartIsPrefix(t.chunks, |t.chunks|);
    a := FindAddress(t, |t.chunks|, r);
  }

  lemma {:induction false} FindAddress(t: Table, n: nat, r: nat) returns (a: RowID)
    requires n <= |t.chunks| && r < StartOf(t.chunks, n)
    ensures HasRow(t, a) && PositionOf(t, a) == r
  {
    if r < StartOf(t.chunks, n - 1) {
      a := FindAddress(t, n - 1, r);
    } else {
      a := RowID(n - 1, r - StartOf(t.chunks, n - 1));
    }
  }

  // ----- addresses by division

  function Sizes(t: Table): (s: seq<nat>)
    ensures |s| == |t.chunks| && forall i :: 0 <= i < |s| ==> s[i] == SizeOf(t.chunks[i])
  {
    seq(|t.chunks|, i requires 0 <= i < |t.chunks| => SizeOf(t.chunks[i]))
  }

  /** Every chunk but the last is full. */
  predicate AllButLastFull(sizes: seq<nat>, c: nat) {
    forall i :: 0 <= i < |sizes| - 1 ==> sizes[i] == c
  }

  /** No row stands behind a chunk that is not full. */
  predicate NoGaps(sizes: seq<nat>, c: nat) {
    forall i, j :: 0 <= i < j < |sizes| && sizes[j] != 0 ==> sizes[i] == c
  }

  predicate Filled(t: Table) { t.chunkSize > 0 && AllButLastFull(Sizes(t), t.chunkSize) }

  predicate Compact(t: Table) { t.chunkSize > 0 && NoGaps(Sizes(t), t.chunkSize) }

  /** Every chunk but the last is full, and only a first chunk may be empty. */
  predicate Packed(t: Table)
    requires Formed(t)
  {
    Filled(t) && (|t.chunks| > 1 ==> SizeOf(LastChunk(t)) > 0)
  }

  function AddressOf(t: Table, r: nat): RowID
    requires t.chunkSize > 0
  {
    RowID(r / t.chunkSize, r % t.chunkSize)
  }

  /** Every row is at the quotient and remainder of its number. */
  ghost predicate AddressedByDivision(t: Table)
    requires Sound(t) && t.chunkSize > 0
  {
    forall r: nat :: r < |Rows(t)| ==> HasRow(t, AddressOf(t, r)) && PositionOf(t, AddressOf(t, r)) == r
  }

  lemma {:induction false} MultiplesAreApart(a: nat, b: nat, c: nat)
    ensures a < b ==> a * c + c <= b * c
    decreases b
  {
    if a + 1 < b { MultiplesAreApart(a, b - 1, c); }
  }

  lemma Quotient(n: nat, q: nat, s: nat, c: nat)
    requires c > 0 && n == q * c + s && s < c
    ensures n / c == q && n % c == s
  {
    MultiplesAreApart(n / c, q, c);
    MultiplesAreApart(q, n / c, c);
  }

  lemma SizesAreBounded(t: Table, i: nat)
    requires Sound(t) && t.chunkSize > 0 && i < |t.chunks|
    ensures SizeOf(t.chunks[i]) <= t.chunkSize
  {
    assert SoundChunk(t.chunks[i], t.types[..Arity(t)], SizeOf(t.chunks[i]), t.chunkSize);
  }

  /** Chunk `n` starts at a multiple of the chunk size exactly when all chunks in front of it are full. */
  lemma {:induction false} StartIsMultiple(t: Table, n: nat)
    requires Sound(t) && t.chunkSize > 0 && n <= |t.chunks|
    ensures StartOf(t.chunks, n) <= n * t.chunkSize
    ensures StartOf(t.chunks, n) == n * t.chunkSize <==> forall i :: 0 <= i < n ==> SizeOf(t.chunks[i]) == t.chunkSize
  {
    if n > 0 {
      StartIsMultiple(t, n - 1);
      SizesAreBounded(t, n - 1);
      assert n * t.chunkSize == (n - 1) * t.chunkSize + t.chunkSize;
    }
  }

  /** The address of a row is the quotient and remainder of its number if the chunks in front are full. */
  lemma AddressDivides(t: Table, a: RowID)
    requires Sound(t) && t.chunkSize > 0 && HasRow(t, a)
    requires forall i :: 0 <= i < a.chunkId ==> SizeOf(t.chunks[i]) == t.chunkSize
    ensures AddressOf(t, PositionOf(t, a)) == a
  {
    StartIsMultiple(t, a.chunkId);
    SizesAreBounded(t, a.chunkId);
    Quotient(PositionOf(t, a), a.chunkId, a.chunkOffset, t.chunkSize);
  }

  /** Row addressing: row `r` is at chunk `r / c`, offset `r % c`, for every row, exactly when no row stands
      behind a chunk that is not full. */
  lemma RowsAreAddressedByDivision(t: Table)
    requires Sound(t) && t.chunkSize > 0
    ensures AddressedByDivision(t) <==> Compact(t)
  {
    if Compact(t) {
      forall r: nat | r < |Rows(t)|
        ensures HasRow(t, AddressOf(t, r)) && PositionOf(t, AddressOf(t, r)) == r
      {
        var a := RowHasAddress(t, r);
        assert Sizes(t)[a.chunkId] != 0;
        assert forall i :: 0 <= i < a.chunkId ==> Sizes(t)[i] == t.chunkSize;
        AddressDivides(t, a);
      }
    }
    if AddressedByDivision(t) {
      forall i, j | 0 <= i < j < |t.chunks| && Sizes(t)[j] != 0
        ensures Sizes(t)[i] == t.chunkSize
      {
        GapIsNotAddressed(t, i, j);
      }
    }
  }

  lemma GapIsNotAddressed(t: Table, i: nat, j: nat)
    requires Sound(t) && t.chunkSize > 0 && AddressedByDivision(t) && i < j < |t.chunks| && SizeOf(t.chunks[j]) != 0
    ensures SizeOf(t.chunks[i]) == t.chunkSize
  {
    var a := RowID(j, 0);
    var r := PositionOf(t, a);
    RowIsAtItsAddress(t, a);
    AddressesAreInRowOrder(t, a, AddressOf(t, r));
    Exact(r, j, t.chunkSize);
    StartIsMultiple(t, j);
  }

  lemma Exact(n: nat, q: nat, c: nat)
    requires c > 0 && n / c == q && n % c == 0
    ensures n == q * c
  {
  }

  /** The row is stored at this address. */
  predicate IsStoredAt(t: Table, row: Row, a: RowID) {
    && HasRow(t, a) && Readable(t.chunks[a.chunkId], a.chunkOffset + 1)
    && row == RowAt(t.chunks[a.chunkId], a.chunkOffset)
  }

  lemma RowIsFoundByDivision(t: Table, r: nat)
    requires Sound(t) && Compact(t) && r < |Rows(t)|
    ensures IsStoredAt(t, Rows(t)[r], AddressOf(t, r))
  {
    RowsAreAddressedByDivision(t);
    assert HasRow(t, AddressOf(t, r));
    RowIsAtItsAddress(t, AddressOf(t, r));
  }

  // ----- how many chunks

  /** As many chunks as `n` rows need, and at least one. */
  function ChunksFor(n: nat, c: nat): nat
    requires c > 0
  {
    if n == 0 then 1 else (n + c - 1) / c
  }

  lemma Ceiling(n: nat, q: nat, s: nat, c: nat)
    requires c > 0 && n == q * c + s && s <= c && (q > 0 ==> s > 0)
    ensures ChunksFor(n, c) == q + 1
  {
    MultiplesAreApart(0, q, c);
    if n > 0 {
      assert n + c - 1 == (q + 1) * c + (s - 1);
      Quotient(n + c - 1, q + 1, s - 1, c);
    }
  }

  lemma NotAboveCeiling(n: nat, m: nat, c: nat)
    requires c > 0 && m > 0 && n <= m * c
    ensures ChunksFor(n, c) <= m
  {
    MultiplesAreApart(m, (n + c - 1) / c, c);
  }

  /** The number of chunks: no more than the rows need, and at least one, exactly in a packed table. */
  lemma ChunkCountIsCeiling(t: Table)
    requires Sound(t) && Compact(t)
    ensures |t.chunks| == ChunksFor(|Rows(t)|, t.chunkSize) <==> Packed(t)
  {
    var n, c := |t.chunks| - 1, t.chunkSize;
    SoundIsReadable(t);
    assert t.chunks[..|t.chunks|] == t.chunks;
    StartIsPrefix(t.chunks, |t.chunks|);
    StartIsMultiple(t, n);
    SizesAreBounded(t, n);
    if Packed(t) {
      assert forall i :: 0 <= i < n ==> Sizes(t)[i] == c;
      Ceiling(|Rows(t)|, n, SizeOf(LastChunk(t)), c);
    } else {
      assert Sizes(t)[n] == 0;
      NotAboveCeiling(|Rows(t)|, n, c);
    }
  }

  // ----- what each call does to the sizes of the chunks

  /** `create_new_chunk` creates a chunk, and so does every append to a full table, refused or not. */
  predicate CreatesChunk(t: Table, op: Op)
    requires Formed(t)
  {
    op.OpNewChunk? || (op.OpAppend? && IsLastChunkFull(t))
  }

  /** The sizes after a call that stores `rows` rows in the last chunk. */
  function SizesAfter(t: Table, op: Op, rows: nat): seq<nat>
    requires Formed(t)
  {
    var s := Sizes(t);
    if CreatesChunk(t, op) then s + [rows] else s[|s| - 1 := s[|s| - 1] + rows]
  }

  /** No call changes the size of a chunk but the last, and that grows by the rows that are stored. */
  lemma StepSizes(convert: Converter, t: Table, op: Op)
    requires Sound(t) && Allowed(convert, t, op)
    ensures Sizes(Apply(convert, t, op).1) == SizesAfter(t, op, |Added(convert, t, op)|)
    ensures Apply(convert, t, op).1.chunkSize == t.chunkSize
  {
    StepStoringNothing(t, op);
    match op
    case OpDefine(_, _) =>
    case OpAddColumn(name, columnType) => AddColumnSizes(convert, t, name, columnType);
    case OpAppend(values) => AppendSizes(convert, t, values);
    case OpNewChunk => NewChunkSizes(t);
    case OpCompress(id) => CompressSizes(t, id);
  }

  lemma StepStoringNothing(t: Table, op: Op)
    requires Formed(t)
    ensures SizesAfter(t, op, 0) == if CreatesChunk(t, op) then Sizes(t) + [0] else Sizes(t)
  {
  }

  lemma NewChunkSizes(t: Table)
    ensures Sizes(CreateNewChunk(t)) == Sizes(t) + [0]
  {
    assert SizeOf(EmptyColumns(t.types)) == 0;
  }

  lemma AddColumnSizes(convert: Converter, t: Table, name: string, columnType: ColumnType)
    requires Sound(t) && Allowed(convert, t, OpAddColumn(name, columnType))
    ensures Sizes(AddColumn(t, name, columnType).1) == Sizes(t)
  {
    AddColumnKeepsSound(t, name, columnType, convert);
    if AddColumn(t, name, columnType).1.chunks != t.chunks { InstantiatedChunks(t, name, columnType); }
  }

  lemma CompressSizes(t: Table, id: nat)
    requires Sound(t)
    ensures Sizes(CompressChunk(t, id).1) == Sizes(t)
  {
    CompressionIsAllOrNothing(t, id);
    if CompressChunk(t, id).0 { CompressedChunkHasSameRows(t, id); }
  }

  lemma AppendSizes(convert: Converter, t: Table, values: seq<Value>)
    requires Sound(t) && MayAppend(convert, t, values)
    ensures Sizes(Append(convert, t, values).1) ==
            SizesAfter(t, OpAppend(values), |Added(convert, t, OpAppend(values))|)
  {
    if IsLastChunkFull(t) {
      CreatedForAppend(convert, t, values);
      AppendToLastSize(convert, CreateNewChunk(t), values);
    } else {
      AppendToLastSize(convert, t, values);
    }
  }

  lemma CreatedForAppend(convert: Converter, t: Table, values: seq<Value>)
    requires Sound(t) && IsLastChunkFull(t) && MayAppend(convert, t, values)
    ensures var u := CreateNewChunk(t);
            && Sound(u) && !IsLastChunkFull(u) && MayAppend(convert, u, values)
            && SizeOf(LastChunk(u)) == 0 && Sizes(u) == Sizes(t) + [0]
            && Added(convert, u, OpAppend(values)) == Added(convert, t, OpAppend(values))
  {
    NewChunkKeepsSound(t);
    EmptyChunkIsSound(t.types, t.chunkSize);
    assert CreateNewChunk(t).chunks[0] == t.chunks[0];
  }

  lemma AppendToLastSize(convert: Converter, t: Table, values: seq<Value>)
    requires Sound(t) && !IsLastChunkFull(t) && MayAppend(convert, t, values)
    ensures SizeOf(AppendToChunk(convert, LastChunk(t), values).1) ==
            SizeOf(LastChunk(t)) + |Added(convert, t, OpAppend(values))|
  {
    var last, types := LastChunk(t), t.types[..Arity(t)];
    SoundSizes(last, types, SizeOf(last), t.chunkSize);
    if |values| == Arity(t) != 0 {
      AppendKeepsChunk(convert, last, types, SizeOf(last), t.chunkSize, values);
      assert types[0] == t.types[0];
    }
  }

  lemma FullBySizes(t: Table)
    requires Sound(t) && t.chunkSize > 0
    ensures IsLastChunkFull(t) <==> Sizes(t)[|t.chunks| - 1] == t.chunkSize
  {
    SoundSizes(LastChunk(t), t.types[..Arity(t)], SizeOf(LastChunk(t)), t.chunkSize);
  }

  // ----- which calls keep what

  /** `create_new_chunk` while the last chunk is not full. */
  predicate LeavesPartialChunk(t: Table, op: Op)
    requires Formed(t)
  {
    op.OpNewChunk? && !IsLastChunkFull(t)
  }

  /** `create_new_chunk`, or an append that is refused on a full table. */
  predicate LeavesEmptyChunk(convert: Converter, t: Table, op: Op)
    requires Formed(t)
  {
    op.OpNewChunk? || (op.OpAppend? && IsLastChunkFull(t) && Added(convert, t, op) == [])
  }

  /** An append that stores a row while a chunk in front is not full. */
  predicate StoresBehindGap(convert: Converter, t: Table, op: Op)
    requires Formed(t)
  {
    Added(convert, t, op) != [] && !Filled(t)
  }

  lemma StepKeepsFilled(convert: Converter, t: Table, op: Op)
    requires Sound(t) && Allowed(convert, t, op)
    ensures Filled(Apply(convert, t, op).1) <==> Filled(t) && !LeavesPartialChunk(t, op)
  {
    StepSizes(convert, t, op);
    if t.chunkSize > 0 {
      FullBySizes(t);
      FilledAfter(Sizes(t), t.chunkSize, |Added(convert, t, op)|);
    }
  }

  /** One more chunk, or some rows more in the last one. */
  lemma FilledAfter(s: seq<nat>, c: nat, rows: nat)
    requires s != []
    ensures AllButLastFull(s + [rows], c) <==> AllButLastFull(s, c) && s[|s| - 1] == c
    ensures AllButLastFull(s[|s| - 1 := s[|s| - 1] + rows], c) <==> AllButLastFull(s, c)
  {
    var n := |s| - 1;
    if AllButLastFull(s + [rows], c) {
      assert forall i :: 0 <= i <= n ==> (s + [rows])[i] == s[i];
    }
    if AllButLastFull(s[n := s[n] + rows], c) {
      assert forall i :: 0 <= i < n ==> s[n := s[n] + rows][i] == s[i];
    }
  }

  /** A packed table stays packed unless the call leaves an empty chunk behind. */
  lemma StepKeepsPacked(convert: Converter, t: Table, op: Op)
    requires Sound(t) && Packed(t) && Allowed(convert, t, op)
    ensures Packed(Apply(convert, t, op).1) <==> !LeavesEmptyChunk(convert, t, op)
  {
    StepSizes(convert, t, op);
    FullBySizes(t);
    StepKeepsFilled(convert, t, op);
    var u := Apply(convert, t, op).1;
    assert SizeOf(LastChunk(u)) == Sizes(u)[|u.chunks| - 1];
  }

  lemma NoGapsByLast(s: seq<nat>, c: nat)
    requires s != []
    ensures AllButLastFull(s, c) ==> NoGaps(s, c)
    ensures s[|s| - 1] != 0 ==> (NoGaps(s, c) <==> AllButLastFull(s, c))
    ensures NoGaps(s + [0], c) <==> NoGaps(s, c)
  {
    if NoGaps(s + [0], c) {
      assert forall i :: 0 <= i < |s| ==> (s + [0])[i] == s[i];
    }
  }

  /** Rows stay at their quotients and remainders unless a row is stored behind a chunk that is not full. */
  lemma StepKeepsCompact(convert: Converter, t: Table, op: Op)
    requires Sound(t) && Allowed(convert, t, op)
    ensures Compact(Apply(convert, t, op).1) <==> Compact(t) && !StoresBehindGap(convert, t, op)
  {
    StepSizes(convert, t, op);
    if Added(convert, t, op) == [] {
      NoGapsAfterNothing(t, op);
    } else {
      StepKeepsFilled(convert, t, op);
      NoGapsAfterRow(t, op);
    }
  }

  lemma NoGapsAfterNothing(t: Table, op: Op)
    requires Formed(t)
    ensures NoGaps(SizesAfter(t, op, 0), t.chunkSize) <==> NoGaps(Sizes(t), t.chunkSize)
  {
    NoGapsByLast(Sizes(t), t.chunkSize);
    StepStoringNothing(t, op);
  }

  lemma NoGapsAfterRow(t: Table, op: Op)
    requires Formed(t)
    ensures NoGaps(SizesAfter(t, op, 1), t.chunkSize) <==> AllButLastFull(SizesAfter(t, op, 1), t.chunkSize)
    ensures AllButLastFull(Sizes(t), t.chunkSize) ==> NoGaps(Sizes(t), t.chunkSize)
  {
    NoGapsByLast(Sizes(t), t.chunkSize);
    NoGapsByLast(SizesAfter(t, op, 1), t.chunkSize);
  }

  /** A refused append is not without effect: on a full table it leaves an empty chunk behind, so the
      table has one chunk too many, though its rows are the same. */
  lemma RefusedAppendLeavesEmptyChunk(convert: Converter, t: Table, values: seq<Value>)
    requires Sound(t) && IsLastChunkFull(t) && MayAppend(convert, t, values)
    ensures !Append(convert, t, values).0 <==> Added(convert, t, OpAppend(values)) == []
    ensures !Append(convert, t, values).0 ==>
              var u := Append(convert, t, values).1;
              Sound(u) && !Packed(u) && Rows(u) == Rows(t) && u.chunks == t.chunks + [EmptyColumns(t.types)]
  {
    AppendAddsRow(convert, t, values);
    var u := CreateNewChunk(t);
    EmptyChunkIsSound(t.types, t.chunkSize);
    if |values| == Arity(t) && Arity(t) != 0 {
      AppendKeepsChunk(convert, LastChunk(u), t.types, 0, t.chunkSize, values);
    }
    FullBySizes(t);
    assert t.types[..Arity(t)] == t.types;
  }

  // ----- whole runs

  predicate NoPartialChunks(convert: Converter, t: Table, ops: seq<Op>)
    requires Formed(t)
    decreases |ops|
  {
    ops != [] ==>
      !LeavesPartialChunk(t, ops[0]) && NoPartialChunks(convert, Apply(convert, t, ops[0]).1, ops[1..])
  }

  predicate NoEmptyChunks(convert: Converter, t: Table, ops: seq<Op>)
    requires Formed(t)
    decreases |ops|
  {
    ops != [] ==>
      !LeavesEmptyChunk(convert, t, ops[0]) && NoEmptyChunks(convert, Apply(convert, t, ops[0]).1, ops[1..])
  }

  predicate NoRowBehindGap(convert: Converter, t: Table, ops: seq<Op>)
    requires Formed(t)
    decreases |ops|
  {
    ops != [] ==>
      !StoresBehindGap(convert, t, ops[0]) && NoRowBehindGap(convert, Apply(convert, t, ops[0]).1, ops[1..])
  }

  /** The table is packed before and after every call of the run. */
  predicate PackedThroughout(convert: Converter, t: Table, ops: seq<Op>)
    requires Formed(t)
    decreases |ops|
  {
    Packed(t) && (ops != [] ==> PackedThroughout(convert, Apply(convert, t, ops[0]).1, ops[1..]))
  }

  lemma {:induction false} RunKeepsFilled(convert: Converter, t: Table, ops: seq<Op>)
    requires Sound(t) && AllowedRun(convert, t, ops)
    ensures Filled(Run(convert, t, ops)) <==> Filled(t) && NoPartialChunks(convert, t, ops)
    decreases |ops|
  {
    if ops != [] {
      StepKeepsFilled(convert, t, ops[0]);
      StepKeepsSoundIffAllowed(convert, t, ops[0]);
      RunKeepsFilled(convert, Apply(convert, t, ops[0]).1, ops[1..]);
    }
  }

  lemma {:induction false} RunKeepsCompact(convert: Converter, t: Table, ops: seq<Op>)
    requires Sound(t) && AllowedRun(convert, t, ops)
    ensures Compact(Run(convert, t, ops)) <==> Compact(t) && NoRowBehindGap(convert, t, ops)
    decreases |ops|
  {
    if ops != [] {
      StepKeepsCompact(convert, t, ops[0]);
      StepKeepsSoundIffAllowed(convert, t, ops[0]);
      RunKeepsCompact(convert, Apply(convert, t, ops[0]).1, ops[1..]);
    }
  }

  /** A packed table is packed all through a run exactly when no call of the run leaves an empty chunk. */
  lemma {:induction false} RunKeepsPacked(convert: Converter, t: Table, ops: seq<Op>)
    requires Sound(t) && Packed(t) && AllowedRun(convert, t, ops)
    ensures PackedThroughout(convert, t, ops) <==> NoEmptyChunks(convert, t, ops)
    ensures NoEmptyChunks(convert, t, ops) ==> Packed(Run(convert, t, ops))
    decreases |ops|
  {
    if ops != [] {
      var u := Apply(convert, t, ops[0]).1;
      StepKeepsPacked(convert, t, ops[0]);
      StepKeepsSoundIffAllowed(convert, t, ops[0]);
      if Packed(u) { RunKeepsPacked(convert, u, ops[1..]); }
    }
  }

  lemma NewTableIsPacked(chunkSize: nat)
    requires 0 < chunkSize < ROW_LIMIT
    ensures Sound(NewTable(chunkSize)) && Packed(NewTable(chunkSize)) && Compact(NewTable(chunkSize))
  {
    NewTableIsSound(chunkSize);
  }

  /** From a new table: after any allowed run, the rows that were appended are at their quotients and
      remainders exactly when none was stored behind a chunk that was not full, and the table is packed
      exactly when every chunk was created behind a full one and the last one did not stay empty. */
  lemma EveryRunIsAddressed(convert: Converter, chunkSize: nat, ops: seq<Op>)
    requires 0 < chunkSize < ROW_LIMIT && AllowedRun(convert, NewTable(chunkSize), ops)
    ensures var t := Run(convert, NewTable(chunkSize), ops);
            && Sound(t) && t.chunkSize == chunkSize && Rows(t) == AddedByRun(convert, NewTable(chunkSize), ops)
            && (AddressedByDivision(t) <==> NoRowBehindGap(convert, NewTable(chunkSize), ops))
            && (Packed(t) <==> NoPartialChunks(convert, NewTable(chunkSize), ops) &&
                               (|t.chunks| > 1 ==> SizeOf(LastChunk(t)) > 0))
  {
    var t := Run(convert, NewTable(chunkSize), ops);
    NewTableIsPacked(chunkSize);
    EveryAllowedRunIsSound(convert, chunkSize, ops);
    RunKeepsChunkSize(convert, NewTable(chunkSize), ops);
    RunKeepsCompact(convert, NewTable(chunkSize), ops);
    RunKeepsFilled(convert, NewTable(chunkSize), ops);
    RowsAreAddressedByDivision(t);
  }

  /** From a new table: after any allowed run all of whose chunks are created by appends, every appended
      row `r` is at chunk `r / c`, offset `r % c`, whatever was refused or compressed on the way. If no
      append was refused on a full table, there are just as many chunks as the rows need. */
  lemma AppendedRowsAreFoundByDivision(convert: Converter, chunkSize: nat, ops: seq<Op>)
    requires 0 < chunkSize < ROW_LIMIT && AllowedRun(convert, NewTable(chunkSize), ops)
    requires forall i :: 0 <= i < |ops| ==> !ops[i].OpNewChunk?
    ensures var t, rows := Run(convert, NewTable(chunkSize), ops), AddedByRun(convert, NewTable(chunkSize), ops);
            && Sound(t) && t.chunkSize == chunkSize && Rows(t) == rows && AddressedByDivision(t)
            && (forall r {:trigger AddressOf(t, r)} :: 0 <= r < |rows| ==> IsStoredAt(t, rows[r], AddressOf(t, r)))
            && (|t.chunks| == ChunksFor(|rows|, chunkSize) <==> Packed(t))
            && (NoEmptyChunks(convert, NewTable(chunkSize), ops) ==> Packed(t))
  {
    var t := Run(convert, NewTable(chunkSize), ops);
    NewTableIsPacked(chunkSize);
    EveryRunIsAddressed(convert, chunkSize, ops);
    RunKeepsFilled(convert, NewTable(chunkSize), ops);
    AppendsLeaveNoPartialChunk(convert, NewTable(chunkSize), ops);
    RunKeepsPacked(convert, NewTable(chunkSize), ops);
    NoGapsByLast(Sizes(t), chunkSize);
    RowsAreAddressedByDivision(t);
    ChunkCountIsCeiling(t);
    forall r {:trigger AddressOf(t, r)} | 0 <= r < |Rows(t)|
      ensures IsStoredAt(t, Rows(t)[r], AddressOf(t, r))
    {
      RowIsFoundByDivision(t, r);
    }
  }

  lemma {:induction false} AppendsLeaveNoPartialChunk(convert: Converter, t: Table, ops: seq<Op>)
    requires Formed(t) && forall i :: 0 <= i < |ops| ==> !ops[i].OpNewChunk?
    ensures NoPartialChunks(convert, t, ops)
    decreases |ops|
  {
    if ops != [] { AppendsLeaveNoPartialChunk(convert, Apply(convert, t, ops[0]).1, ops[1..]); }
  }

  lemma {:induction false} RunKeepsChunkSize(convert: Converter, t: Table, ops: seq<Op>)
    requires Sound(t) && AllowedRun(convert, t, ops)
    ensures Run(convert, t, ops).chunkSize == t.chunkSize
    decreases |ops|
  {
    if ops != [] {
      StepSizes(convert, t, ops[0]);
      StepKeepsSoundIffAllowed(convert, t, ops[0]);
      RunKeepsChunkSize(convert, Apply(convert, t, ops[0]).1, ops[1..]);
    }
  }
}
