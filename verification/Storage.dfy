/**
 Chunks and tables as objects. Whatever is called, in whatever order, the objects do exactly what the
 value-level table does, including calls that fail halfway. This rests on one thing the objects keep
 by themselves: no two column slots share a column object.
 */
module Storage {
  import opened Wrappers
  import opened Values
  import opened Columns
  import opened ColumnStore
  import TableModel
  import TableTheorems
  import TableRows

  class Chunk {
    var columns: seq<BaseColumn>

    ghost var model: TableModel.ChunkValue
    ghost var Repr: set<object>

    ghost predicate Valid()
      reads this, Repr
      ensures Valid() ==> this in Repr
    {
      && this in Repr && |model| == |columns|
      && (forall j :: 0 <= j < |columns| ==> columns[j].Store() in Repr && columns[j].Store() != this)
      && (forall j :: 0 <= j < |columns| ==> columns[j].Model() == model[j])
      && forall i, j :: 0 <= i < j < |columns| ==> columns[i].Store() != columns[j].Store()
    }

    constructor ()
      ensures Valid() && fresh(Repr) && model == []
    {
      columns, model := [], [];
      Repr := {this};
    }

    method ColCount() returns (n: nat)
      requires Valid()
      ensures n == TableModel.ColCount(model)
    {
      return TableModel.Wrap(|columns|, TableModel.COLUMN_LIMIT);
    }

    method Size() returns (n: nat)
      requires Valid()
      ensures n == TableModel.ReportedSize(model)
    {
      var count := ColCount();
      if count == 0 {
        return 0;
      }
      n := columns[0].Size();
      return TableModel.Wrap(n, TableModel.ROW_LIMIT);
    }

    /** Adds a column that no chunk has yet; refuses one of the wrong size. */
    method AddColumn(column: BaseColumn) returns (ok: bool)
      requires Valid() && column.Store() !in Repr
      modifies this
      ensures Valid()
      ensures ok <==> TableModel.AcceptsColumn(old(model), column.Model())
      ensures model == if ok then old(model) + [column.Model()] else old(model)
      ensures Repr == if ok then old(Repr) + {column.Store()} else old(Repr)
    {
      var columnSize := column.Size();
      var size := Size();
      if columnSize != size && |columns| != 0 {
        return false;
      }
      columns := columns + [column];
      model := model + [column.Model()];
      Repr := Repr + {column.Store()};
      return true;
    }

    /** Appends a value to every column; stops, and leaves the rest alone, where one refuses. */
    method Append(convert: Converter, values: seq<Value>) returns (ok: bool)
      requires Valid()
      modifies Repr
      ensures Valid() && Repr == old(Repr)
      ensures (ok, model) == TableModel.AppendToChunk(convert, old(model), values)
    {
      if |values| != |columns| {
        return false;
      }
      for i := 0 to |values|
        invariant Valid() && Repr == old(Repr) && columns == old(columns)
        invariant TableModel.AppendFrom(convert, model, values, i) ==
                  TableModel.AppendFrom(convert, old(model), values, 0)
      {
        var done := AppendAt(convert, i, values[i]);
        if !done {
          return false;
        }
      }
      return true;
    }

    method AppendAt(convert: Converter, i: nat, v: Value) returns (ok: bool)
      requires Valid() && i < |columns|
      modifies Repr
      ensures Valid() && Repr == old(Repr) && columns == old(columns)
      ensures var (expected, c) := Appended(convert, old(model)[i], v);
              ok == expected && model == if ok then old(model)[i := c] else old(model)
    {
      ok := columns[i].Append(convert, v);
      if ok {
        model := model[i := columns[i].Model()];
      }
    }

    /** `std::swap` of two chunks that share nothing. */
    method Swap(that: Chunk)
      requires Valid() && that.Valid() && Repr !! that.Repr
      modifies this, that
      ensures Valid() && that.Valid()
      ensures model == old(that.model) && that.model == old(model)
      ensures Repr == old(that.Repr) - {that} + {this}
    {
      columns, that.columns := that.columns, columns;
      model, that.model := that.model, model;
      Repr, that.Repr := that.Repr - {that} + {this}, Repr - {this} + {that};
    }
  }

  class Table {
    var columnNames: seq<string>
    var columnTypes: seq<ColumnType>
    var isInstantiated: seq<bool>
    var chunks: seq<Chunk>
    const chunkSize: nat

    ghost var models: seq<TableModel.ChunkValue>
    ghost var Repr: set<object>

    /** The value-level table that the objects represent. */
    ghost function Model(): TableModel.Table
      reads this
    {
      TableModel.Table(columnNames, columnTypes, isInstantiated, models, chunkSize)
    }

    ghost predicate Valid()
      reads this, Repr
      ensures Valid() ==> this in Repr && TableModel.Formed(Model())
    {
      && this in Repr
      && |columnNames| == |columnTypes| == |isInstantiated| && chunkSize < TableModel.ROW_LIMIT
      && chunks != [] && |models| == |chunks|
      && (forall i :: 0 <= i < |chunks| ==> chunks[i] in Repr && chunks[i].Repr <= Repr && this !in chunks[i].Repr)
      && (forall i :: 0 <= i < |chunks| ==> chunks[i].Valid() && chunks[i].model == models[i])
      && forall i, j :: 0 <= i < j < |chunks| ==> chunks[i].Repr !! chunks[j].Repr
    }

    constructor (chunkSize: nat)
      requires chunkSize < TableModel.ROW_LIMIT
      ensures Valid() && fresh(Repr) && Model() == TableModel.NewTable(chunkSize)
    {
      columnNames, columnTypes, isInstantiated := [], [], [];
      this.chunkSize := chunkSize;
      new;
      var chunk := new Chunk();
      chunks, models := [chunk], [[]];
      Repr := {this} + chunk.Repr;
    }

    // ----- definitions

    method AddColumnDefinition(name: string, columnType: ColumnType) returns (ok: bool)
      requires Valid()
      modifies this
      ensures Valid() && Repr == old(Repr) && chunks == old(chunks)
      ensures (ok, Model()) == TableModel.AddColumnDefinition(old(Model()), name, columnType)
    {
      if name in columnNames {
        return false;
      }
      columnNames := columnNames + [name];
      columnTypes := columnTypes + [columnType];
      isInstantiated := isInstantiated + [false];
      return true;
    }

    /** Looks at as many names as the 16-bit column count says there are; throws if none matches. */
    method ColumnIdByName(name: string) returns (id: Option<nat>)
      ensures id == TableModel.ColumnIdByName(Model(), name)
    {
      var count := TableModel.Wrap(|columnNames|, TableModel.COLUMN_LIMIT);
      ghost var names := columnNames[..count];
      for i := 0 to count
        invariant TableModel.IndexFrom(names, name, 0) == TableModel.IndexFrom(names, name, i)
      {
        if columnNames[i] == name {
          return Some(i);
        }
      }
      return None;
    }

    // ----- adding columns

    method AddToChunk(i: nat, columnType: ColumnType) returns (ok: bool)
      requires Valid() && i < |chunks|
      modifies this`models, this`Repr, chunks[i]
      ensures Valid() && fresh(Repr - old(Repr))
      ensures ok <==> TableModel.AcceptsColumn(old(models)[i], Plain(columnType, []))
      ensures models == if ok then old(models)[i := old(models)[i] + [Plain(columnType, [])]] else old(models)
    {
      var column := new ValueColumn(columnType);
      Repr := Repr + {column};
      ok := GiveColumn(i, column);
    }

    /** Hands an empty column, which no chunk has, to a chunk. */
    method GiveColumn(i: nat, column: ValueColumn) returns (ok: bool)
      requires Valid() && i < |chunks| && column.values == []
      requires column in Repr && forall k :: 0 <= k < |chunks| ==> column !in chunks[k].Repr
      modifies this`models, chunks[i]
      ensures Valid()
      ensures ok <==> TableModel.AcceptsColumn(old(models)[i], Plain(column.columnType, []))
      ensures models == if ok then old(models)[i := old(models)[i] + [Plain(column.columnType, [])]] else old(models)
    {
      ok := chunks[i].AddColumn(ValueCol(column));
      forall k | 0 <= k < |chunks| && k != i
        ensures chunks[k].Valid() && chunks[k].model == models[k] && chunks[k].Repr !! chunks[i].Repr
      {
        assert old(chunks[k].Valid() && chunks[k].Repr !! chunks[i].Repr);
      }
      models := models[i := chunks[i].model];
    }

    method AddToAllChunks(columnType: ColumnType) returns (ok: bool)
      requires Valid()
      modifies Repr
      ensures Valid() && fresh(Repr - old(Repr))
      ensures var (expected, chunks) := TableModel.AddToChunks(old(models), columnType, 0);
              ok == expected && Model() == old(Model()).(chunks := chunks)
    {
      ghost var goal := TableModel.AddToChunks(models, columnType, 0);
      for i := 0 to |chunks|
        invariant Valid() && fresh(Repr - old(Repr)) && chunks == old(chunks)
        invariant Model() == old(Model()).(chunks := models)
        invariant TableModel.AddToChunks(models, columnType, i) == goal
      {
        var accepted := AddToChunk(i, columnType);
        if !accepted {
          return false;
        }
      }
      return true;
    }

    /** `add_column` after the definition is in place. */
    method Instantiate(name: string, columnType: ColumnType) returns (ok: bool)
      requires Valid()
      modifies Repr
      ensures Valid() && fresh(Repr - old(Repr))
      ensures (ok, Model()) == TableModel.Instantiate(old(Model()), name, columnType)
    {
      var added := AddToAllChunks(columnType);
      if !added {
        return false;
      }
      var id := ColumnIdByName(name);
      if id.None? {
        return false;
      }
      isInstantiated := isInstantiated[id.value := true];
      return true;
    }

    method AddColumn(name: string, columnType: ColumnType) returns (ok: bool)
      requires Valid()
      modifies Repr
      ensures Valid() && fresh(Repr - old(Repr))
      ensures (ok, Model()) == TableModel.AddColumn(old(Model()), name, columnType)
    {
      var pos := 0;
      while pos < |columnNames| && columnNames[pos] != name
        invariant pos <= |columnNames|
        invariant TableModel.IndexFrom(columnNames, name, 0) == TableModel.IndexFrom(columnNames, name, pos)
      {
        pos := pos + 1;
      }
      if pos == |columnNames| {
        var defined := AddColumnDefinition(name, columnType);
      } else if columnTypes[pos] != columnType || isInstantiated[pos] {
        return false;
      }
      ok := Instantiate(name, columnType);
    }

    // ----- rows and chunks

    method CreateNewChunk()
      requires Valid()
      modifies this
      ensures Valid() && fresh(Repr - old(Repr)) && |chunks| == |old(chunks)| + 1
      ensures Model() == TableModel.CreateNewChunk(old(Model()))
    {
      var chunk := NewChunk();
      AddChunk(chunk);
    }

    /** Takes over a chunk that shares nothing with the table. */
    method AddChunk(chunk: Chunk)
      requires Valid() && chunk.Valid() && chunk.Repr !! Repr
      modifies this`chunks, this`models, this`Repr
      ensures Valid() && Repr == old(Repr) + chunk.Repr && chunks == old(chunks) + [chunk]
      ensures Model() == old(Model()).(chunks := old(models) + [chunk.model])
    {
      chunks, models := chunks + [chunk], models + [chunk.model];
      Repr := Repr + chunk.Repr;
    }

    method NewChunk() returns (chunk: Chunk)
      ensures chunk.Valid() && fresh(chunk.Repr) && chunk.model == TableModel.EmptyColumns(columnTypes)
    {
      chunk := new Chunk();
      for i := 0 to |columnTypes|
        invariant chunk.Valid() && fresh(chunk.Repr)
        invariant chunk.model == TableModel.EmptyColumns(columnTypes[..i])
      {
        var column := new ValueColumn(columnTypes[i]);
        var ok := chunk.AddColumn(ValueCol(column));
        assert columnTypes[..i + 1][..i] == columnTypes[..i];
      }
      assert columnTypes[..|columnTypes|] == columnTypes;
    }

    method IsLastChunkFull() returns (full: bool)
      requires Valid()
      ensures full <==> TableModel.IsLastChunkFull(Model())
    {
      if chunkSize == 0 {
        return false;
      }
      var size := chunks[|chunks| - 1].Size();
      return size == chunkSize;
    }

    method Append(convert: Converter, values: seq<Value>) returns (ok: bool)
      requires Valid()
      modifies Repr
      ensures Valid() && fresh(Repr - old(Repr))
      ensures (ok, Model()) == TableModel.Append(convert, old(Model()), values)
    {
      MakeRoom();
      ok := AppendTo(|chunks| - 1, convert, values);
    }

    method MakeRoom()
      requires Valid()
      modifies this
      ensures Valid() && fresh(Repr - old(Repr))
      ensures Model() == if TableModel.IsLastChunkFull(old(Model())) then TableModel.CreateNewChunk(old(Model()))
                         else old(Model())
    {
      var full := IsLastChunkFull();
      if full {
        CreateNewChunk();
      }
    }

    method AppendTo(i: nat, convert: Converter, values: seq<Value>) returns (ok: bool)
      requires Valid() && i < |chunks|
      modifies chunks[i].Repr, this`models
      ensures Valid() && Repr == old(Repr)
      ensures var (expected, chunk) := TableModel.AppendToChunk(convert, old(models)[i], values);
              ok == expected && Model() == old(Model()).(chunks := old(models)[i := chunk])
    {
      ok := chunks[i].Append(convert, values);
      models := models[i := chunks[i].model];
    }

    // ----- compression

    /** Compresses one more column of `source` into `chunk`. */
    method CompressColumn(source: Chunk, chunk: Chunk) returns (ok: bool)
      requires source.Valid() && chunk.Valid() && source.Repr !! chunk.Repr && |chunk.model| < |source.model|
      modifies chunk
      ensures source.Valid() && source.model == old(source.model) && source.Repr == old(source.Repr)
      ensures chunk.Valid() && fresh(chunk.Repr - old(chunk.Repr))
      ensures TableModel.CompressNext(source.model, columnTypes, old(chunk.model)) ==
              if ok then Some(chunk.model) else None
    {
      var i := |chunk.columns|;
      if i >= |columnTypes| {
        return false;
      }
      assert source.columns[i].Model() == source.model[i];
      var column := DictionaryColumn.FromColumn(columnTypes[i], source.columns[i]);
      if column.Err? {
        return false;
      }
      ok := chunk.AddColumn(DictionaryCol(column.value));
    }

    /** Builds the compressed form of a chunk beside it. */
    method CompressedCopy(source: Chunk) returns (r: Option<Chunk>)
      requires source.Valid()
      ensures source.Valid() && source.model == old(source.model) && source.Repr == old(source.Repr)
      ensures r.Some? ==> r.value.Valid() && fresh(r.value.Repr)
      ensures TableModel.CompressFrom(source.model, columnTypes, []) == if r.Some? then Some(r.value.model) else None
    {
      var chunk := new Chunk();
      var count := source.ColCount();
      for i := 0 to count
        invariant source.Valid() && source.model == old(source.model) && source.Repr == old(source.Repr)
        invariant chunk.Valid() && fresh(chunk.Repr) && |chunk.model| == i
        invariant TableModel.CompressFrom(source.model, columnTypes, []) ==
                  TableModel.CompressFrom(source.model, columnTypes, chunk.model)
      {
        var ok := CompressColumn(source, chunk);
        if !ok {
          return None;
        }
      }
      return Some(chunk);
    }

    method CompressChunk(id: nat) returns (ok: bool)
      requires Valid()
      modifies Repr
      ensures Valid() && fresh(Repr - old(Repr))
      ensures (ok, Model()) == TableModel.CompressChunk(old(Model()), id)
    {
      if id >= |chunks| || chunkSize == 0 {
        return false;
      }
      var size := chunks[id].Size();
      if size != chunkSize {
        return false;
      }
      var compressed := CompressedCopy(chunks[id]);
      if compressed.None? {
        return false;
      }
      SwapIn(id, compressed.value);
      return true;
    }

    method SwapIn(id: nat, chunk: Chunk)
      requires Valid() && id < |chunks| && chunk.Valid() && chunk.Repr !! Repr
      modifies Repr, chunk
      ensures Valid() && Repr == old(Repr) + old(chunk.Repr)
      ensures Model() == old(Model()).(chunks := old(models)[id := old(chunk.model)])
    {
      Repr := Repr + chunk.Repr;
      SwapWith(id, chunk);
    }

    /** The swap with a chunk that the table already owns, but that is not one of its chunks. */
    method SwapWith(id: nat, chunk: Chunk)
      requires Valid() && id < |chunks| && chunk.Valid() && chunk.Repr <= Repr && this !in chunk.Repr
      requires forall k :: 0 <= k < |chunks| ==> chunks[k].Repr !! chunk.Repr
      modifies chunks[id], chunk, this`models
      ensures Valid() && Repr == old(Repr)
      ensures Model() == old(Model()).(chunks := old(models)[id := old(chunk.model)])
    {
      chunks[id].Swap(chunk);
      forall k | 0 <= k < |chunks| && k != id
        ensures chunks[k].Valid() && chunks[k].model == models[k] && chunks[k].Repr !! chunks[id].Repr
        ensures chunks[k].Repr == old(chunks[k].Repr)
      {
        assert old(chunks[k].Valid() && chunks[k].Repr !! chunks[id].Repr && chunks[k].Repr !! chunk.Repr);
      }
      models := models[id := chunks[id].model];
    }

    // ----- runs

    method Call(convert: Converter, op: TableModel.Op) returns (ok: bool)
      requires Valid()
      modifies Repr
      ensures Valid() && fresh(Repr - old(Repr))
      ensures (ok, Model()) == TableModel.Apply(convert, old(Model()), op)
    {
      match op
      case OpDefine(name, columnType) => ok := AddColumnDefinition(name, columnType);
      case OpAddColumn(name, columnType) => ok := AddColumn(name, columnType);
      case OpAppend(values) => ok := Append(convert, values);
      case OpNewChunk =>
        CreateNewChunk();
        ok := true;
      case OpCompress(id) => ok := CompressChunk(id);
    }

    /** Any calls, in any order, refused and half-done ones included. */
    method CallAll(convert: Converter, ops: seq<TableModel.Op>)
      requires Valid()
      modifies Repr
      ensures Valid() && fresh(Repr - old(Repr))
      ensures Model() == TableModel.Run(convert, old(Model()), ops)
    {
      var i := 0;
      while i < |ops|
        invariant i <= |ops|
        invariant Valid() && fresh(Repr - old(Repr))
        invariant TableModel.Run(convert, Model(), ops[i..]) == TableModel.Run(convert, old(Model()), ops)
      {
        var ok := Call(convert, ops[i]);
        i := i + 1;
      }
    }

    /** A table object built by allowed calls is sound and has exactly the rows that they appended. */
    static method Build(convert: Converter, chunkSize: nat, ops: seq<TableModel.Op>) returns (t: Table)
      requires chunkSize < TableModel.ROW_LIMIT
      requires TableRows.AllowedRun(convert, TableModel.NewTable(chunkSize), ops)
      ensures t.Valid() && fresh(t.Repr) && TableTheorems.Sound(t.Model())
      ensures TableRows.Rows(t.Model()) == TableRows.AddedByRun(convert, TableModel.NewTable(chunkSize), ops)
    {
      t := new Table(chunkSize);
      t.CallAll(convert, ops);
      TableRows.EveryAllowedRunIsSound(convert, chunkSize, ops);
    }

    // ----- counting

    static lemma OneMoreSize(chunks: seq<TableModel.ChunkValue>, i: nat)
      requires i < |chunks|
      ensures TableModel.Wrap(TableModel.SumOfSizes(chunks[..i + 1]), TableModel.ROW_COUNT_LIMIT) ==
              var n := TableModel.Wrap(TableModel.SumOfSizes(chunks[..i]), TableModel.ROW_COUNT_LIMIT);
              TableModel.Wrap(n + TableModel.ReportedSize(chunks[i]), TableModel.ROW_COUNT_LIMIT)
    {
      assert chunks[..i + 1][..i] == chunks[..i];
      AddModulo(TableModel.SumOfSizes(chunks[..i]), TableModel.ReportedSize(chunks[i]));
    }

    static lemma AddModulo(a: nat, b: nat)
      ensures TableModel.Wrap(TableModel.Wrap(a, TableModel.ROW_COUNT_LIMIT) + b, TableModel.ROW_COUNT_LIMIT) ==
              TableModel.Wrap(a + b, TableModel.ROW_COUNT_LIMIT)
    {
    }

    method RowCount() returns (n: nat)
      requires Valid()
      ensures n == TableModel.RowCount(Model())
    {
      n := 0;
      for i := 0 to |chunks|
        invariant n == TableModel.Wrap(TableModel.SumOfSizes(models[..i]), TableModel.ROW_COUNT_LIMIT)
      {
        var size := chunks[i].Size();
        OneMoreSize(models, i);
        n := TableModel.Wrap(n + size, TableModel.ROW_COUNT_LIMIT);
      }
      assert models[..|models|] == models;
    }
  }
}
