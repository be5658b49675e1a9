/**
 Small tables, each built by allowed calls, at which one more call does what its caller may not expect: a
 column that is added to some chunks only, a row that is stored in part, a chunk too many.
 */
module TableExamples {
  import opened Wrappers
  import opened Values
  import opened Columns
  import opened TableModel
  import opened TableTheorems
  import opened TableRows
  import opened RowAddresses

  const ONE: Value := IntValue(1)

  function OneColumn(chunks: seq<ChunkValue>, chunkSize: nat): Table {
    Table(["a"], [IntType], [true], chunks, chunkSize)
  }

  lemma FirstColumn(chunkSize: nat)
    requires chunkSize < ROW_LIMIT
    ensures AddColumn(NewTable(chunkSize), "a", IntType) == (true, OneColumn([[Plain(IntType, [])]], chunkSize))
  {
    var t, none: ChunkValue, c := Define(NewTable(chunkSize), "a", IntType), [], Plain(IntType, []);
    assert t == Table(["a"], [IntType], [false], [none], chunkSize);
    assert ["a"][..1] == ["a"] && IndexFrom(["a"], "a", 0) == Some(0);
    assert none + [c] == [c] && [none][0 := [c]] == [[c]];
    assert AddToChunks([[c]], IntType, 1) == (true, [[c]]);
    assert AddToChunks([none], IntType, 0) == (true, [[c]]);
    assert [false][0 := true] == [true];
  }

  lemma FirstColumnIsAllowed(convert: Converter, chunkSize: nat)
    requires chunkSize < ROW_LIMIT
    ensures Allowed(convert, NewTable(chunkSize), OpAddColumn("a", IntType))
  {
  }

  /** A short run, call by call. */
  lemma RunOfThree(convert: Converter, t: Table, a: Op, b: Op, c: Op)
    requires Formed(t) && Allowed(convert, t, a)
    requires var u := Apply(convert, t, a).1;
             Allowed(convert, u, b) && Allowed(convert, Apply(convert, u, b).1, c)
    ensures AllowedRun(convert, t, [a, b, c])
    ensures Run(convert, t, [a, b, c]) ==
            Apply(convert, Apply(convert, Apply(convert, t, a).1, b).1, c).1
  {
    RunOfTwo(convert, Apply(convert, t, a).1, b, c);
    assert [a, b, c][1..] == [b, c];
  }

  lemma RunOfTwo(convert: Converter, t: Table, a: Op, b: Op)
    requires Formed(t) && Allowed(convert, t, a) && Allowed(convert, Apply(convert, t, a).1, b)
    ensures AllowedRun(convert, t, [a, b])
    ensures Run(convert, t, [a, b]) == Apply(convert, Apply(convert, t, a).1, b).1
  {
    assert [a, b][1..] == [b] && [b][1..] == [];
    assert Run(convert, Apply(convert, t, a).1, [b]) == Apply(convert, Apply(convert, t, a).1, b).1;
  }

  lemma AppendOne(convert: Converter, chunks: seq<ChunkValue>, chunkSize: nat)
    requires chunks != [] && chunkSize < ROW_LIMIT && chunks[|chunks| - 1] == [Plain(IntType, [])]
    ensures var t := OneColumn(chunks, chunkSize);
            Append(convert, t, [ONE]) == (true, OneColumn(chunks[|chunks| - 1 := [Plain(IntType, [ONE])]], chunkSize))
  {
    var chunk := [Plain(IntType, [])];
    assert [] + [ONE] == [ONE];
    assert chunk[0 := Plain(IntType, [ONE])] == [Plain(IntType, [ONE])];
    assert AppendFrom(convert, [Plain(IntType, [ONE])], [ONE], 1) == (true, [Plain(IntType, [ONE])]);
    assert AppendToChunk(convert, chunk, [ONE]) == (true, [Plain(IntType, [ONE])]);
  }

  // ----- a column added to some chunks only

  /** With an empty chunk in front of one that has a row, `add_column` fails, and leaves the definition, and
      the column in the first chunk. */
  lemma ColumnIsAddedInPart(convert: Converter)
    ensures var ops := [OpAddColumn("a", IntType), OpNewChunk, OpAppend([ONE])];
            var chunks := [[Plain(IntType, [])], [Plain(IntType, [ONE])]];
            && AllowedRun(convert, NewTable(0), ops) && Run(convert, NewTable(0), ops) == OneColumn(chunks, 0)
            && AddColumn(OneColumn(chunks, 0), "b", IntType) ==
               (false, Table(["a", "b"], [IntType, IntType], [true, false],
                             [[Plain(IntType, []), Plain(IntType, [])], [Plain(IntType, [ONE])]], 0))
  {
    var before, empty := OneColumn([[Plain(IntType, [])]], 0), [Plain(IntType, [])];
    FirstColumn(0);
    FirstColumnIsAllowed(convert, 0);
    assert EmptyColumns([IntType]) == empty;
    assert [empty] + [empty] == [empty, empty];
    assert CreateNewChunk(before) == OneColumn([empty, empty], 0);
    AppendOne(convert, [empty, empty], 0);
    assert [empty, empty][1 := [Plain(IntType, [ONE])]] == [empty, [Plain(IntType, [ONE])]];
    RunOfThree(convert, NewTable(0), OpAddColumn("a", IntType), OpNewChunk, OpAppend([ONE]));
    ColumnStopsAtRows();
  }

  lemma ColumnStopsAtRows()
    ensures AddColumn(OneColumn([[Plain(IntType, [])], [Plain(IntType, [ONE])]], 0), "b", IntType) ==
            (false, Table(["a", "b"], [IntType, IntType], [true, false],
                          [[Plain(IntType, []), Plain(IntType, [])], [Plain(IntType, [ONE])]], 0))
  {
    var c, full := Plain(IntType, []), [Plain(IntType, [ONE])];
    assert [c] + [c] == [c, c];
    assert [[c], full][0 := [c, c]] == [[c, c], full];
    assert AddToChunks([[c, c], full], IntType, 1) == (false, [[c, c], full]);
    assert AddToChunks([[c], full], IntType, 0) == (false, [[c, c], full]);
    assert IndexFrom(["a"], "b", 0) == None;
    assert ["a"] + ["b"] == ["a", "b"] && [IntType] + [IntType] == [IntType, IntType];
    assert [true] + [false] == [true, false];
  }

  // ----- a row stored in part

  /** A row whose second value has no cast leaves its first value behind. */
  lemma RowIsStoredInPart(convert: Converter, v: Value)
    requires TypeOf(v) != IntType && convert(IntType, v).None?
    ensures var ops := [OpAddColumn("a", IntType), OpAddColumn("b", IntType)];
            var t := Run(convert, NewTable(2), ops);
            && AllowedRun(convert, NewTable(2), ops) && Formed(t)
            && Append(convert, t, [ONE, v]).0 == false
            && Append(convert, t, [ONE, v]).1.chunks == [[Plain(IntType, [ONE]), Plain(IntType, [])]]
  {
    var c := Plain(IntType, []);
    FirstColumn(2);
    FirstColumnIsAllowed(convert, 2);
    SecondColumn();
    RunOfTwo(convert, NewTable(2), OpAddColumn("a", IntType), OpAddColumn("b", IntType));
    StoredInPart(convert, v);
    assert [[c, c]][0 := [Plain(IntType, [ONE]), c]] == [[Plain(IntType, [ONE]), c]];
  }

  lemma StoredInPart(convert: Converter, v: Value)
    requires TypeOf(v) != IntType && convert(IntType, v).None?
    ensures var c := Plain(IntType, []);
            AppendToChunk(convert, [c, c], [ONE, v]) == (false, [Plain(IntType, [ONE]), c])
  {
    var c := Plain(IntType, []);
    assert [] + [ONE] == [ONE];
    assert [c, c][0 := Plain(IntType, [ONE])] == [Plain(IntType, [ONE]), c];
    assert AppendFrom(convert, [Plain(IntType, [ONE]), c], [ONE, v], 1) == (false, [Plain(IntType, [ONE]), c]);
  }

  lemma SecondColumn()
    ensures var t, c := OneColumn([[Plain(IntType, [])]], 2), Plain(IntType, []);
            && AddColumn(t, "b", IntType) == (true, Table(["a", "b"], [IntType, IntType], [true, true], [[c, c]], 2))
            && MayInstantiate(t, 1) && IndexFrom(t.names, "b", 0) == None
  {
    var c := Plain(IntType, []);
    assert [c] + [c] == [c, c] && [[c]][0 := [c, c]] == [[c, c]];
    assert AddToChunks([[c, c]], IntType, 1) == (true, [[c, c]]);
    assert AddToChunks([[c]], IntType, 0) == (true, [[c, c]]);
    assert ["a"] + ["b"] == ["a", "b"] && [IntType] + [IntType] == [IntType, IntType];
    assert IndexFrom(["a", "b"], "b", 0) == IndexFrom(["a", "b"], "b", 1) == Some(1);
    assert ["a", "b"][..2] == ["a", "b"];
    assert ([true] + [false])[1 := true] == [true, true];
  }

  // ----- a chunk too many

  /** An append without values to a full table is refused, and leaves an empty chunk. */
  lemma RefusalLeavesChunk(convert: Converter)
    ensures var ops := [OpAddColumn("a", IntType), OpAppend([ONE]), OpAppend([])];
            var t := Run(convert, NewTable(1), ops);
            && AllowedRun(convert, NewTable(1), ops)
            && t == OneColumn([[Plain(IntType, [ONE])], [Plain(IntType, [])]], 1) && !Packed(t)
  {
    RefusalRun(convert);
    assert |[[Plain(IntType, [ONE])], [Plain(IntType, [])]]| == 2;
  }

  lemma RefusalRun(convert: Converter)
    ensures var ops := [OpAddColumn("a", IntType), OpAppend([ONE]), OpAppend([])];
            && AllowedRun(convert, NewTable(1), ops)
            && Run(convert, NewTable(1), ops) == OneColumn([[Plain(IntType, [ONE])], [Plain(IntType, [])]], 1)
  {
    var empty, full := [Plain(IntType, [])], [Plain(IntType, [ONE])];
    FirstColumn(1);
    FirstColumnIsAllowed(convert, 1);
    AppendOne(convert, [empty], 1);
    assert [empty][0 := full] == [full];
    RefusedOnFull(convert);
    RunOfThree(convert, NewTable(1), OpAddColumn("a", IntType), OpAppend([ONE]), OpAppend([]));
  }

  lemma RefusedOnFull(convert: Converter)
    ensures var t := OneColumn([[Plain(IntType, [ONE])]], 1);
            && MayAppend(convert, t, [])
            && Append(convert, t, []) == (false, OneColumn([[Plain(IntType, [ONE])], [Plain(IntType, [])]], 1))
  {
    var empty, full := [Plain(IntType, [])], [Plain(IntType, [ONE])];
    assert EmptyColumns([IntType]) == empty && [full] + [empty] == [full, empty];
    assert CreateNewChunk(OneColumn([full], 1)) == OneColumn([full, empty], 1);
    assert [full, empty][1 := empty] == [full, empty];
  }
}
