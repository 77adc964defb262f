/** The engine: one active memtable, frozen ones waiting to be flushed, and a stack of SSTables together
    represent one map. */
module Engine {
  import opened Bytes
  import opened Records
  import opened RecordLayout
  import opened SparseIndex
  import opened Layers
  import opened MemTable
  import opened SSTableBuilder
  import opened SSTableReader
  import opened Compactor
  import opened CompactionView
  import opened ReaderStack
  import TableFormat
  import SSTableScanner
  import Filter = BloomFilter

  /** The simple map the engine stands for: each key's live record. */
  type View = map<seq<byte>, LogRecord>

  function InView(view: View, key: seq<byte>): Option<LogRecord>
  {
    if key in view then Some(view[key]) else None
  }

  /** A put or a tombstone on the map. */
  function Updated(view: View, r: LogRecord): View
  {
    if r.kind == DELETE then view - {r.key} else view[r.key := r]
  }

  // ---------- the engine ----------

  function ListsOf(ms: seq<State>): (s: seq<Layer>)
    ensures |s| == |ms| && forall i :: 0 <= i < |ms| ==> s[i] == ms[i].records
  {
    if ms == [] then [] else [ms[0].records] + ListsOf(ms[1..])
  }

  lemma {:induction false} ListsAppend(a: seq<State>, b: seq<State>)
    ensures ListsOf(a + b) == ListsOf(a) + ListsOf(b)
  {
    if a == [] {
      assert a + b == b;
    } else {
      assert (a + b)[1..] == a[1..] + b;
      ListsAppend(a[1..], b);
    }
  }

  /** A table that refused a record twice and was switched: the same versions, frozen, the record twice in its log
      unless it was frozen before. */
  function AfterRefusals(m: State, record: LogRecord, h1: nat, h2: nat): State
  {
    if m.isImmutable then m
    else State(m.records, m.usage + Room(record, h1) + Room(record, h2), true, m.wal + [record] + [record])
  }

  class CarinaEngine {
    /** The memtables' states: the active one, and the frozen ones, oldest first. */
    var activeMemTable: State
    var immutableMemTables: seq<State>
    var ssTables: seq<Sst>
    var sstFileIdGenerator: nat
    /** The level-0 files in the directory. */
    var l0Files: set<Sst>
    /** How many readers in front are level-0 files on disk, and the map of all puts and removes. */
    ghost var l0Count: nat
    ghost var view: View

    ghost predicate Valid()
      reads this
    {
      && Ordered(activeMemTable) && (forall i :: 0 <= i < |immutableMemTables| ==> Ordered(immutableMemTables[i]))
      && StackOk(ssTables, l0Files, l0Count, sstFileIdGenerator)
    }

    /** The live record a query gives for a key. */
    ghost function Answered(key: seq<byte>): Option<LogRecord>
      reads this
      requires Valid()
    {
      Live(Found(activeMemTable.records, ListsOf(immutableMemTables), ssTables, key))
    }

    /** Every key is answered as in the simple map. */
    ghost predicate Faithful()
      reads this
      requires Valid()
    {
      forall key :: Answered(key) == InView(view, key)
    }

    constructor ()
      ensures Valid() && Faithful() && view == map[] && activeMemTable == Fresh() && immutableMemTables == [] && ssTables == []
    {
      activeMemTable := Fresh();
      immutableMemTables, ssTables, sstFileIdGenerator, l0Files := [], [], 0, {};
      l0Count, view := 0, map[];
    }

    /** Answers a key through the layers, newest first. */
    method Query(key: seq<byte>) returns (r: Option<LogRecord>)
      requires Valid()
      ensures r == Answered(key)
      ensures Faithful() ==> r == InView(view, key)
    {
      var found := FirstWithKey(activeMemTable.records, key);
      if found.None? { found := QueryImmutables(key); }
      if found.None? { found := QueryTables(key); }
      if found.None? || found.value.kind == DELETE { return None; }
      return found;
    }

    method QueryImmutables(key: seq<byte>) returns (found: Option<LogRecord>)
      ensures found == FirstIn(Reverse(ListsOf(immutableMemTables)), key)
    {
      ghost var frozen := ListsOf(immutableMemTables);
      found := None;
      var i := |immutableMemTables|;
      assert frozen[..i] == frozen && frozen[..0] == [];
      while i > 0
        invariant 0 <= i <= |immutableMemTables| && found.None?
        invariant FirstIn(Reverse(frozen), key) == FirstIn(Reverse(frozen[..i]), key)
      {
        i := i - 1;
        ReverseLast(frozen[..i], frozen[i]);
        assert frozen[..i + 1] == frozen[..i] + [frozen[i]];
        found := FirstWithKey(immutableMemTables[i].records, key);
        if found.Some? { return; }
      }
    }

    method QueryTables(key: seq<byte>) returns (found: Option<LogRecord>)
      requires AllFormed(ssTables)
      ensures found == TablesFind(ssTables, key)
    {
      found := None;
      for i := 0 to |ssTables|
        invariant found.None?
        invariant TablesFind(ssTables, key) == TablesFind(ssTables[i..], key)
      {
        assert ssTables[i..][0] == ssTables[i] && ssTables[i..][1..] == ssTables[i + 1..];
        found := SearchReader(ssTables[i], key);
        if found.Some? { return; }
      }
    }

    /** Asks one reader, unless the key lies outside its key range. */
    method SearchReader(reader: Sst, key: seq<byte>) returns (found: Option<LogRecord>)
      requires Formed(reader)
      ensures found == ReaderFinds(reader, key)
    {
      var low := CompareKeys(key, TableFor(reader).minKey);
      var high := CompareKeys(key, TableFor(reader).maxKey);
      if low < 0 || high > 0 { return None; }
      found := TableAnswer(TableFor(reader), key);
    }

    /** The engine's put and remove: try, retry, then switch to a fresh table and try there. `h1`, `h2` and
        `h3` are the heights the skip list would draw. A record too large even for an empty table is lost. */
    method Write(record: LogRecord, h1: nat, h2: nat, h3: nat)
      requires Valid()
      modifies this
      ensures Valid() && ssTables == old(ssTables) && (old(Faithful()) ==> Faithful())
      ensures var stored := Accepts(old(activeMemTable), MEMTABLE_CAPACITY, record, h1) || Accepts(Fresh(), MEMTABLE_CAPACITY, record, h3);
              && view == (if stored then Updated(old(view), Normalize(record)) else old(view))
              && forall key :: Answered(key) == if stored && key == record.key then Live(Some(Normalize(record))) else old(Answered(key))
      ensures Accepts(old(activeMemTable), MEMTABLE_CAPACITY, record, h1) ==>
                activeMemTable == AfterPut(old(activeMemTable), MEMTABLE_CAPACITY, record, h1) && immutableMemTables == old(immutableMemTables)
      ensures !Accepts(old(activeMemTable), MEMTABLE_CAPACITY, record, h1) ==>
                && activeMemTable == AfterPut(Fresh(), MEMTABLE_CAPACITY, record, h3)
                && immutableMemTables == old(immutableMemTables) + [AfterRefusals(old(activeMemTable), record, h1, h2)]
      ensures activeMemTable.wal != [] && activeMemTable.wal[|activeMemTable.wal| - 1] == record
    {
      var success := PutActive(record, h1);
      if !success {
        success := PutActive(record, h2);
        assert !success;
        if !success {
          SwitchMemTable();
          success := PutActive(record, h3);
        }
      }
    }

    /** One attempt on the active memtable. */
    method PutActive(record: LogRecord, height: nat) returns (success: bool)
      requires Valid()
      modifies this`activeMemTable, this`view
      ensures Valid() && success == Accepts(old(activeMemTable), MEMTABLE_CAPACITY, record, height)
      ensures activeMemTable == AfterPut(old(activeMemTable), MEMTABLE_CAPACITY, record, height)
      ensures view == if success then Updated(old(view), Normalize(record)) else old(view)
      ensures forall key :: Answered(key) == if success && key == record.key then Live(Some(Normalize(record))) else old(Answered(key))
      ensures old(Faithful()) ==> Faithful()
    {
      AfterPutOrdered(activeMemTable, MEMTABLE_CAPACITY, record, height);
      forall key ensures Found(Insert(activeMemTable.records, Normalize(record)), ListsOf(immutableMemTables), ssTables, key)
          == if key == record.key then Some(Normalize(record)) else Found(activeMemTable.records, ListsOf(immutableMemTables), ssTables, key)
      {
        PutFound(activeMemTable.records, ListsOf(immutableMemTables), ssTables, Normalize(record), key);
      }
      success := Accepts(activeMemTable, MEMTABLE_CAPACITY, record, height);
      activeMemTable := AfterPut(activeMemTable, MEMTABLE_CAPACITY, record, height);
      if success { view := Updated(view, Normalize(record)); }
    }

    method Put(key: seq<byte>, value: seq<byte>, pointer: Option<seq<byte>>, h1: nat, h2: nat, h3: nat)
      requires Valid()
      modifies this
      ensures Valid() && (old(Faithful()) ==> Faithful())
      ensures var record := LogRecord(if pointer.Some? then PUT_VECTOR else PUT_KV, key, value, pointer);
              Accepts(Fresh(), MEMTABLE_CAPACITY, record, h3) ==> view == old(view)[key := Normalize(record)]
    {
      Write(LogRecord(if pointer.Some? then PUT_VECTOR else PUT_KV, key, value, pointer), h1, h2, h3);
    }

    method Remove(key: seq<byte>, h1: nat, h2: nat, h3: nat)
      requires Valid()
      modifies this
      ensures Valid() && (old(Faithful()) ==> Faithful())
      ensures Accepts(Fresh(), MEMTABLE_CAPACITY, LogRecord(DELETE, key, [], None), h3) ==> view == old(view) - {key}
    {
      Write(LogRecord(DELETE, key, [], None), h1, h2, h3);
    }

    method SwitchMemTable()
      requires Valid()
      modifies this`activeMemTable, this`immutableMemTables
      ensures Valid() && activeMemTable == Fresh()
      ensures immutableMemTables == old(immutableMemTables) + [old(activeMemTable).(isImmutable := true)]
      ensures forall key :: Answered(key) == old(Answered(key))
    {
      ghost var frozen := ListsOf(immutableMemTables);
      ListsAppend(immutableMemTables, [activeMemTable.(isImmutable := true)]);
      assert ListsOf([activeMemTable.(isImmutable := true)]) == [activeMemTable.records];
      forall key ensures InMemory([], frozen + [activeMemTable.records], key) == InMemory(activeMemTable.records, frozen, key) {
        SwitchFound(activeMemTable.records, frozen, key);
      }
      immutableMemTables := immutableMemTables + [activeMemTable.(isImmutable := true)];
      activeMemTable := Fresh();
    }

    /** Flushes the oldest frozen memtable, whatever it holds: a key's answer stays exactly when the flush
        keeps it, so the engine stays faithful if the table is read right. */
    method FlushMemTableToDisk(bitSize: nat, numHashFunctions: nat)
      requires Valid() && immutableMemTables != [] && 0 < bitSize < TWO_31 && numHashFunctions < TWO_31
      modifies this
      ensures Valid() && view == old(view)
      ensures immutableMemTables == old(immutableMemTables)[1..] && activeMemTable == old(activeMemTable)
      ensures |ssTables| == |old(ssTables)| + 1 && ssTables[1..] == old(ssTables)
      ensures ssTables[0].records == old(immutableMemTables[0].records) && ssTables[0] in l0Files
      ensures forall key :: Answered(key) == old(Answered(key))
                <==> FlushKeeps(activeMemTable.records, ListsOf(immutableMemTables), ssTables[0].records, ssTables[1..], key)
      ensures old(Faithful()) && old(Searchable(immutableMemTables[0].records)) ==> Faithful()
    {
      var memTable := immutableMemTables[0];
      var bits, file := BuildTable(memTable.records, bitSize, numHashFunctions);
      InstallFlushed(Sst(sstFileIdGenerator + 1, 0, memTable.records, bitSize, numHashFunctions, bits));
      assert ([ssTables[0]] + old(ssTables))[1..] == old(ssTables);
    }

    /** The new reader goes in front, then the memtable leaves the queue. */
    method InstallFlushed(t: Sst)
      requires Valid() && immutableMemTables != [] && Formed(t)
      requires t.records == immutableMemTables[0].records && t.fileId == sstFileIdGenerator + 1 && t.level == 0
      modifies this
      ensures Valid() && view == old(view) && activeMemTable == old(activeMemTable)
      ensures immutableMemTables == old(immutableMemTables)[1..] && ssTables == [t] + old(ssTables) && t in l0Files
      ensures forall key :: Answered(key) == old(Answered(key))
                <==> FlushKeeps(activeMemTable.records, ListsOf(immutableMemTables), t.records, old(ssTables), key)
      ensures old(Faithful()) && Searchable(t.records) ==> Faithful()
    {
      ghost var active, frozen, tables := activeMemTable.records, ListsOf(immutableMemTables), ssTables;
      FlushStackOk(ssTables, l0Files, l0Count, sstFileIdGenerator, t);
      assert ListsOf(immutableMemTables)[1..] == ListsOf(immutableMemTables[1..]);
      forall key ensures Live(Found(active, frozen[1..], [t] + tables, key)) == Live(Found(active, frozen, tables, key))
          <==> FlushKeeps(active, frozen[1..], t.records, tables, key)
      {
        FlushExact(active, frozen, tables, t, key);
      }
      sstFileIdGenerator := sstFileIdGenerator + 1;
      l0Files := l0Files + {t};
      ssTables := [t] + ssTables;
      l0Count := l0Count + 1;
      immutableMemTables := immutableMemTables[1..];
    }

    /** Compacts all level-0 files, in whatever order the directory lists them. The inputs leave the
        directory, but their readers stay in the stack. */
    method BackgroundCompaction(listing: seq<Sst>, bitSize: nat, numHashFunctions: nat)
      requires Valid() && 0 < bitSize < TWO_31 && numHashFunctions < TWO_31
      requires (forall x :: x in listing <==> x in l0Files) && forall i, j :: 0 <= i < j < |listing| ==> listing[i] != listing[j]
      requires forall x :: x in l0Files ==> TableFormat.WellFormed(TableFor(x))
      modifies this
      ensures Valid() && view == old(view) && activeMemTable == old(activeMemTable) && immutableMemTables == old(immutableMemTables)
      ensures |listing| < 4 ==> l0Files == old(l0Files) && ssTables == old(ssTables)
      ensures |listing| >= 4 ==>
                && l0Files == {} && |ssTables| == |old(ssTables)| + 1 && ssTables[1..] == old(ssTables)
                && IsMerge(RunsFor(listing), true, ssTables[0].records)
                && forall key :: Answered(key) == old(Answered(key))
                     <==> CompactionKeeps(activeMemTable.records, ListsOf(immutableMemTables), ssTables[1..], old(l0Count), ssTables[0].records, key)
      ensures forall key :: Answered(key) == old(Answered(key)) || Answered(key) == NewestInput(old(ssTables[..l0Count]), key)
      ensures (forall x :: x in old(l0Files) ==> Searchable(x.records)) ==> forall key :: Answered(key) == old(Answered(key))
    {
      if |listing| < L0_COMPACTION_TRIGGER { return; }
      var t := MergeLevel0(listing, bitSize, numHashFunctions);
      SearchableInputs(ssTables, l0Files, l0Count);
      InstallCompacted(t);
      assert ([ssTables[0]] + old(ssTables))[1..] == old(ssTables);
    }

    /** Merges the listed files into a new table. */
    method MergeLevel0(listing: seq<Sst>, bitSize: nat, numHashFunctions: nat) returns (t: Sst)
      requires Valid() && 0 < bitSize < TWO_31 && numHashFunctions < TWO_31
      requires (forall x :: x in listing <==> x in l0Files) && forall i, j :: 0 <= i < j < |listing| ==> listing[i] != listing[j]
      requires forall x :: x in l0Files ==> TableFormat.WellFormed(TableFor(x))
      ensures Formed(t) && AllFormed([t] + ssTables) && t.fileId == sstFileIdGenerator + 1 && IsMerge(RunsFor(listing), true, t.records)
      ensures forall key :: CompactedAnswer(activeMemTable.records, ListsOf(immutableMemTables), ssTables, l0Count, t, key)
    {
      ListingIds(ssTables, l0Files, l0Count, sstFileIdGenerator, listing);
      var merged, bits := Compact(listing, bitSize, numHashFunctions);
      CompactInputs(ssTables, l0Files, l0Count, sstFileIdGenerator, listing, merged);
      t := Sst(sstFileIdGenerator + 1, 1, merged, bitSize, numHashFunctions, bits);
      CompactAll(activeMemTable.records, ListsOf(immutableMemTables), ssTables, l0Count, t);
    }

    /** The inputs leave the directory and the new reader goes in front. */
    method InstallCompacted(t: Sst)
      requires Valid() && Formed(t) && AllFormed([t] + ssTables) && t.fileId == sstFileIdGenerator + 1
      requires forall key :: CompactedAnswer(activeMemTable.records, ListsOf(immutableMemTables), ssTables, l0Count, t, key)
      modifies this
      ensures Valid() && view == old(view) && activeMemTable == old(activeMemTable) && immutableMemTables == old(immutableMemTables)
      ensures l0Files == {} && ssTables == [t] + old(ssTables)
      ensures forall key :: Answered(key) == old(Answered(key))
                <==> CompactionKeeps(activeMemTable.records, ListsOf(immutableMemTables), old(ssTables), old(l0Count), t.records, key)
      ensures forall key :: Answered(key) == old(Answered(key)) || Answered(key) == NewestInput(old(ssTables[..l0Count]), key)
    {
      CompactStackOk(ssTables, l0Files, l0Count, sstFileIdGenerator, t);
      sstFileIdGenerator := sstFileIdGenerator + 1;
      l0Files := {};
      ssTables := [t] + ssTables;
      l0Count := 0;
      forall key
        ensures Answered(key) == old(Answered(key))
            <==> CompactionKeeps(activeMemTable.records, ListsOf(immutableMemTables), old(ssTables), old(l0Count), t.records, key)
        ensures Answered(key) == old(Answered(key)) || Answered(key) == NewestInput(old(ssTables[..l0Count]), key)
      {
        assert CompactedAnswer(activeMemTable.records, ListsOf(immutableMemTables), old(ssTables), old(l0Count), t, key);
      }
    }
  }

  lemma SearchableInputs(tables: seq<Sst>, l0Files: set<Sst>, n: nat)
    requires AllFormed(tables) && n <= |tables| && (forall x :: x in l0Files <==> x in tables[..n])
    ensures (forall x :: x in l0Files ==> Searchable(x.records)) ==> forall key :: ReadsInput(tables, n, key)
  {
    if forall x :: x in l0Files ==> Searchable(x.records) {
      forall i | 0 <= i < n ensures Searchable(tables[i].records) { assert tables[..n][i] in l0Files; }
      forall key ensures ReadsInput(tables, n, key) { SearchableCompaction(tables, n, key); }
    }
  }

  lemma ListingIds(tables: seq<Sst>, l0Files: set<Sst>, l0Count: nat, lastId: nat, listing: seq<Sst>)
    requires StackOk(tables, l0Files, l0Count, lastId) && (forall x :: x in listing <==> x in l0Files)
    requires forall i, j :: 0 <= i < j < |listing| ==> listing[i] != listing[j]
    ensures AllFormed(listing) && forall i, j :: 0 <= i < j < |listing| ==> listing[i].fileId != listing[j].fileId
  {
    forall i | 0 <= i < |listing| ensures Formed(listing[i]) { assert listing[i] in tables[..l0Count]; }
    forall i, j | 0 <= i < j < |listing| ensures listing[i].fileId != listing[j].fileId {
      assert listing[i] in tables[..l0Count] && listing[j] in tables[..l0Count];
    }
  }

  /** Opens a scanner on each file and merges them. */
  method Compact(listing: seq<Sst>, bitSize: nat, numHashFunctions: nat) returns (merged: seq<LogRecord>, bits: seq<byte>)
    requires 0 < bitSize < TWO_31 && numHashFunctions < TWO_31 && AllFormed(listing)
    requires forall i, j :: 0 <= i < j < |listing| ==> listing[i].fileId != listing[j].fileId
    requires forall x :: x in listing ==> TableFormat.WellFormed(TableFor(x))
    ensures IsMerge(RunsFor(listing), true, merged) && Filter.Represents(bits, bitSize, numHashFunctions, Keys(merged))
  {
    var scanners, repr := OpenScanners(listing);
    SameAsScanned(listing, scanners);
    var builder, out := ExecuteCompaction(scanners, true, bitSize, numHashFunctions, repr);
    return out, builder.bloomFilter.bits;
  }

  /** A scanner on a table's file, at its start. */
  ghost predicate Opened(scanner: SSTableScanner.SSTableScanner, t: Sst)
    reads scanner
  {
    AtStart(scanner) && scanner.all == Kept(t.records) && scanner.fileId == t.fileId
  }

  method OpenScanners(listing: seq<Sst>) returns (scanners: seq<SSTableScanner.SSTableScanner>, ghost repr: set<SSTableScanner.SSTableScanner>)
    requires forall x :: x in listing ==> TableFormat.WellFormed(TableFor(x))
    ensures |scanners| == |listing| && Compactor.Apart(scanners) && fresh(repr)
    ensures forall i :: 0 <= i < |scanners| ==> scanners[i] in repr && Opened(scanners[i], listing[i])
  {
    scanners, repr := [], {};
    for i := 0 to |listing|
      invariant |scanners| == i && fresh(repr) && Compactor.Apart(scanners)
      invariant forall j :: 0 <= j < i ==> scanners[j] in repr && Opened(scanners[j], listing[j])
    {
      BlocksKeep(listing[i].records);
      var scanner := new SSTableScanner.SSTableScanner(TableFormat.TableBytes(TableFor(listing[i])), listing[i].level, listing[i].fileId, TableFor(listing[i]));
      scanners := scanners + [scanner];
      repr := repr + {scanner};
    }
  }

  lemma SameAsScanned(listing: seq<Sst>, scanners: seq<SSTableScanner.SSTableScanner>)
    requires |scanners| == |listing| && AllFormed(listing) && forall i, j :: 0 <= i < j < |listing| ==> listing[i].fileId != listing[j].fileId
    requires forall i :: 0 <= i < |scanners| ==> Opened(scanners[i], listing[i])
    ensures RunsOf(scanners) == RunsFor(listing) && Inputs(RunsOf(scanners))
  {
    forall i | 0 <= i < |listing| ensures RunsOf(scanners)[i] == RunsFor(listing)[i] && SortedByKey(RunsOf(scanners)[i].records) {
      assert Opened(scanners[i], listing[i]);
      KeptFit(listing[i].records);
      KeptSorted(listing[i].records);
      AlreadyNormal(Kept(listing[i].records));
    }
  }

  lemma AlreadyNormal(rs: seq<LogRecord>)
    requires forall r :: r in rs ==> Normalize(r) == r
    ensures SSTableScanner.Normalized(rs) == rs
  {
  }

  lemma NextPrefix(rs: seq<LogRecord>, i: nat)
    requires i < |rs|
    ensures rs[..i + 1] == rs[..i] + [rs[i]]
  {
  }

  method AddAll(builder: SSTableBuilder, rs: seq<LogRecord>)
    requires builder.Valid() && builder.added == []
    modifies builder, builder.dataBlockBuilder, builder.bloomFilter
    ensures builder.Valid() && builder.added == rs
  {
    for i := 0 to |rs|
      invariant builder.Valid() && builder.added == rs[..i]
    {
      NextPrefix(rs, i);
      builder.Add(rs[i]);
    }
    assert rs[..|rs|] == rs;
  }

  /** Builds a table file from records in order. */
  method BuildTable(rs: seq<LogRecord>, bitSize: nat, numHashFunctions: nat) returns (bits: seq<byte>, file: seq<byte>)
    requires 0 < bitSize < TWO_31 && numHashFunctions < TWO_31
    ensures Filter.Represents(bits, bitSize, numHashFunctions, Keys(rs))
    ensures file == TableFormat.TableBytes(TableOf(rs, bitSize, numHashFunctions, bits))
  {
    var builder := new SSTableBuilder(bitSize, numHashFunctions);
    AddAll(builder, rs);
    builder.Finish();
    return builder.bloomFilter.bits, builder.file;
  }
}
