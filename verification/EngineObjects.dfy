/** The query of the engine over the objects themselves: memtables over their arenas, and readers with their
    shared caches over the bytes of their files. */
module EngineObjects {
  import opened Bytes
  import opened Records
  import opened Layers
  import opened SparseIndex
  import opened MemTable
  import opened SSTableReader
  import opened ReaderStack

  /** A reader of a table, with the shared caches. */
  ghost predicate Reads(reader: SSTableReader, caches: Caches, files: Files, t: Sst)
  {
    reader.caches == caches && reader.Opened(files) && files[reader.fileId] == TableFor(t) && Formed(t)
  }

  /** The readers are no part of the caches. */
  ghost predicate Outside(readers: seq<SSTableReader>, caches: Caches)
    reads caches.filters, caches.indexes, caches.blocks
  {
    forall i :: 0 <= i < |readers| ==>
      readers[i] !in caches.filters.Repr && readers[i] !in caches.indexes.Repr && readers[i] !in caches.blocks.Repr
  }

  /** A memtable whose arena holds these versions. */
  ghost predicate Lists(m: MemTable, versions: Layer)
    reads m, m.arena, m.arena.buffer, m.skipList
  {
    m.Valid() && m.Current().records == versions
  }

  /** Active table, frozen tables newest first, then the readers in order, each unless the key is outside its range:
      the answer is what the contents of the arenas and the files say. */
  method Query(active: MemTable, frozen: seq<MemTable>, readers: seq<SSTableReader>, caches: Caches,
               ghost versions: Layer, ghost lists: seq<Layer>, ghost files: Files, ghost tables: seq<Sst>, key: seq<byte>)
      returns (r: Option<LogRecord>)
    requires Lists(active, versions) && |lists| == |frozen| && forall i :: 0 <= i < |frozen| ==> Lists(frozen[i], lists[i])
    requires |tables| == |readers| && AllFormed(tables) && caches.Valid(files) && Outside(readers, caches)
    requires forall i :: 0 <= i < |readers| ==> Reads(readers[i], caches, files, tables[i])
    modifies set i | 0 <= i < |readers| :: readers[i]
    modifies caches.filters.Repr, caches.indexes.Repr, caches.blocks.Repr
    ensures caches.Valid(files)
    ensures r == Live(Found(versions, lists, tables, key))
  {
    var found := QueryMemory(active, frozen, versions, lists, key);
    if found.None? { found := QueryReaders(readers, caches, files, tables, key); }
    if found.None? || found.value.kind == DELETE { return None; }
    return found;
  }

  method QueryMemory(active: MemTable, frozen: seq<MemTable>, ghost versions: Layer, ghost lists: seq<Layer>, key: seq<byte>)
      returns (found: Option<LogRecord>)
    requires Lists(active, versions) && |lists| == |frozen| && forall i :: 0 <= i < |frozen| ==> Lists(frozen[i], lists[i])
    ensures found == InMemory(versions, lists, key)
  {
    found := Ask(active, versions, key);
    if found.None? { found := QueryFrozen(frozen, lists, key); }
  }

  method Ask(m: MemTable, ghost versions: Layer, key: seq<byte>) returns (found: Option<LogRecord>)
    requires Lists(m, versions)
    ensures found == FirstWithKey(versions, key)
  {
    found := m.GetRecord(key);
  }

  method QueryFrozen(frozen: seq<MemTable>, ghost lists: seq<Layer>, key: seq<byte>) returns (found: Option<LogRecord>)
    requires |lists| == |frozen| && forall i :: 0 <= i < |frozen| ==> Lists(frozen[i], lists[i])
    ensures found == FirstIn(Reverse(lists), key)
  {
    found := None;
    var i := |frozen|;
    assert lists[..i] == lists && lists[..0] == [];
    while i > 0
      invariant 0 <= i <= |frozen| && found.None?
      invariant FirstIn(Reverse(lists), key) == FirstIn(Reverse(lists[..i]), key)
    {
      i := i - 1;
      NextOlder(lists, i, key);
      found := Ask(frozen[i], lists[i], key);
      if found.Some? { return; }
    }
  }

  lemma NextOlder(lists: seq<Layer>, i: nat, key: seq<byte>)
    requires i < |lists|
    ensures FirstIn(Reverse(lists[..i + 1]), key)
         == if FirstWithKey(lists[i], key).Some? then FirstWithKey(lists[i], key) else FirstIn(Reverse(lists[..i]), key)
  {
    ReverseLast(lists[..i], lists[i]);
    assert lists[..i + 1] == lists[..i] + [lists[i]];
    assert ([lists[i]] + Reverse(lists[..i]))[1..] == Reverse(lists[..i]);
  }

  method QueryReaders(readers: seq<SSTableReader>, caches: Caches, ghost files: Files, ghost tables: seq<Sst>, key: seq<byte>)
      returns (found: Option<LogRecord>)
    requires |tables| == |readers| && AllFormed(tables) && caches.Valid(files) && Outside(readers, caches)
    requires forall i :: 0 <= i < |readers| ==> Reads(readers[i], caches, files, tables[i])
    modifies set i | 0 <= i < |readers| :: readers[i]
    modifies caches.filters.Repr, caches.indexes.Repr, caches.blocks.Repr
    ensures caches.Valid(files) && found == TablesFind(tables, key)
  {
    found := None;
    for i := 0 to |readers|
      invariant found.None? && caches.Valid(files) && Outside(readers, caches)
      invariant fresh(caches.filters.Repr - old(caches.filters.Repr)) && fresh(caches.indexes.Repr - old(caches.indexes.Repr))
      invariant fresh(caches.blocks.Repr - old(caches.blocks.Repr))
      invariant TablesFind(tables, key) == TablesFind(tables[i..], key)
    {
      assert tables[i..][0] == tables[i] && tables[i..][1..] == tables[i + 1..];
      assert Reads(readers[i], caches, files, tables[i]);
      found := SearchReader(readers[i], files, tables[i], key);
      if found.Some? { return; }
    }
  }

  /** Asks one reader, unless the key lies outside its key range. */
  method SearchReader(reader: SSTableReader, ghost files: Files, ghost t: Sst, key: seq<byte>) returns (found: Option<LogRecord>)
    requires Reads(reader, reader.caches, files, t) && reader.caches.Valid(files) && Outside([reader], reader.caches)
    modifies reader, reader.caches.filters.Repr, reader.caches.indexes.Repr, reader.caches.blocks.Repr
    ensures reader.caches.Valid(files)
    ensures fresh(reader.caches.filters.Repr - old(reader.caches.filters.Repr))
    ensures fresh(reader.caches.indexes.Repr - old(reader.caches.indexes.Repr))
    ensures fresh(reader.caches.blocks.Repr - old(reader.caches.blocks.Repr))
    ensures found == ReaderFinds(t, key)
  {
    assert [reader][0] == reader;
    var low := CompareKeys(key, reader.header.minKey);
    var high := CompareKeys(key, reader.header.maxKey);
    if low < 0 || high > 0 { return None; }
    found := reader.SearchBinaryFullRecord(key, files);
  }
}
