/** What the memtables and the stack of SSTable readers answer together, and for which keys a flush or a
    compaction changes that. */
module ReaderStack {
  import opened Bytes
  import opened Records
  import opened RecordLayout
  import opened SparseIndex
  import opened Layers
  import opened SSTableBuilder
  import opened SSTableReader
  import opened Compactor
  import opened CompactionView
  import TableFormat
  import Filter = BloomFilter

  const L0_COMPACTION_TRIGGER: nat := 4

  /** A finished SSTable as an open reader sees it. */
  datatype Sst = Sst(fileId: nat, level: nat, records: Layer, bitSize: nat, hashes: nat, bits: seq<byte>)

  function TableFor(t: Sst): TableFormat.Table
  {
    TableOf(t.records, t.bitSize, t.hashes, t.bits)
  }

  ghost predicate Formed(t: Sst)
  {
    && SortedByKey(t.records) && (forall r :: r in t.records ==> Normalize(r) == r)
    && t.bitSize > 0 && Filter.Represents(t.bits, t.bitSize, t.hashes, Keys(t.records))
  }

  /** Every key is read right from a table of these records. */
  ghost predicate Searchable(rs: Layer)
  {
    forall key :: ReadsNewest(rs, key)
  }

  /** The key lies outside the table's key range. */
  predicate OutOfRange(t: Sst, key: seq<byte>)
  {
    Less(key, TableFor(t).minKey) || Less(TableFor(t).maxKey, key)
  }

  lemma InKeyRange(rs: Layer, r: LogRecord)
    requires SortedByKey(rs) && r in rs
    ensures !Less(r.key, rs[0].key) && !Less(rs[|rs| - 1].key, r.key)
  {
    LessTrichotomy(r.key, r.key);
    var j :| 0 <= j < |rs| && rs[j] == r;
  }

  lemma SkippedHasNone(t: Sst, key: seq<byte>)
    requires SortedByKey(t.records) && OutOfRange(t, key)
    ensures FirstWithKey(t.records, key).None?
  {
    if FirstWithKey(t.records, key).Some? { InKeyRange(t.records, FirstWithKey(t.records, key).value); }
  }

  /** What one reader answers; nothing outside its key range. */
  function ReaderFinds(t: Sst, key: seq<byte>): Option<LogRecord>
    requires 0 < t.bitSize <= 8 * |t.bits|
  {
    if OutOfRange(t, key) then None else TableAnswer(TableFor(t), key)
  }

  /** A reader answers with the newest version of a key if and only if it reads that one right; it never
      answers a key its table does not hold. */
  lemma ReaderExact(t: Sst, key: seq<byte>)
    requires Formed(t)
    ensures ReaderFinds(t, key) == FirstWithKey(t.records, key) <==> ReadsNewest(t.records, key)
    ensures FirstWithKey(t.records, key).None? ==> ReaderFinds(t, key).None?
  {
    BuiltTableExact(t.records, t.bitSize, t.hashes, t.bits, key);
    if OutOfRange(t, key) {
      SkippedHasNone(t, key);
    } else {
      FindsNormal(t, key);
    }
  }

  lemma FindsNormal(t: Sst, key: seq<byte>)
    requires Formed(t)
    ensures TableAnswer(TableFor(t), key) == TableFinds(TableFor(t), key)
  {
    AnswerInTable(BlocksOf(t.records), key);
    BlocksKeep(t.records);
    KeptFit(t.records);
  }

  /** A reader answers what the index search reads in the table's blocks; filter and key range change nothing. */
  lemma ReaderReads(t: Sst, key: seq<byte>)
    requires Formed(t)
    ensures ReaderFinds(t, key) == VersionRead(BlocksOf(t.records), key)
  {
    var blocks := BlocksOf(t.records);
    BlocksKeep(t.records);
    KeptSorted(t.records);
    KeptFit(t.records);
    VersionReadIs(blocks, key);
    AnswerInTable(blocks, key);
    if OutOfRange(t, key) {
      SkippedHasNone(t, key);
    } else {
      FindsNormal(t, key);
      FilteredOut(t.records, t.bitSize, t.hashes, t.bits, key);
    }
  }

  ghost predicate AllFormed(ts: seq<Sst>)
  {
    forall i :: 0 <= i < |ts| ==> Formed(ts[i])
  }

  /** The first reader that answers. */
  ghost function TablesFind(ts: seq<Sst>, key: seq<byte>): Option<LogRecord>
    requires AllFormed(ts)
  {
    if ts == [] then None
    else if ReaderFinds(ts[0], key).Some? then ReaderFinds(ts[0], key)
    else TablesFind(ts[1..], key)
  }

  /** What the tables answer in terms of their records: the first version that some index search reads. */
  function StackReads(ts: seq<Sst>, key: seq<byte>): Option<LogRecord>
  {
    if ts == [] then None
    else if VersionRead(BlocksOf(ts[0].records), key).Some? then VersionRead(BlocksOf(ts[0].records), key)
    else StackReads(ts[1..], key)
  }

  lemma {:induction false} TablesRead(ts: seq<Sst>, key: seq<byte>)
    requires AllFormed(ts)
    ensures TablesFind(ts, key) == StackReads(ts, key)
  {
    if ts != [] {
      ReaderReads(ts[0], key);
      TablesRead(ts[1..], key);
    }
  }

  function Reverse<T>(s: seq<T>): (r: seq<T>)
    ensures |r| == |s|
  {
    if s == [] then [] else Reverse(s[1..]) + [s[0]]
  }

  /** What the memtables answer, newest first. */
  function InMemory(active: Layer, frozen: seq<Layer>, key: seq<byte>): Option<LogRecord>
  {
    if FirstWithKey(active, key).Some? then FirstWithKey(active, key) else FirstIn(Reverse(frozen), key)
  }

  /** What a query finds: in the memtables, then in the SSTables. */
  ghost function Found(active: Layer, frozen: seq<Layer>, tables: seq<Sst>, key: seq<byte>): Option<LogRecord>
    requires AllFormed(tables)
  {
    if InMemory(active, frozen, key).Some? then InMemory(active, frozen, key) else TablesFind(tables, key)
  }

  // ---------- each step on what a query finds ----------

  lemma PutFound(active: Layer, frozen: seq<Layer>, tables: seq<Sst>, r: LogRecord, key: seq<byte>)
    requires SortedByKey(active) && AllFormed(tables)
    ensures Found(Insert(active, r), frozen, tables, key) == if key == r.key then Some(r) else Found(active, frozen, tables, key)
  {
    InsertFirst(active, r, key);
  }

  lemma {:induction false} ReverseLast<T>(s: seq<T>, x: T)
    ensures Reverse(s + [x]) == [x] + Reverse(s)
  {
    if s == [] {
      assert [x][1..] == [];
    } else {
      assert (s + [x])[1..] == s[1..] + [x];
      ReverseLast(s[1..], x);
    }
  }

  /** Freezing the active table and starting an empty one changes nothing. */
  lemma SwitchFound(active: Layer, frozen: seq<Layer>, key: seq<byte>)
    ensures InMemory([], frozen + [active], key) == InMemory(active, frozen, key)
  {
    ReverseLast(frozen, active);
    assert ([active] + Reverse(frozen))[1..] == Reverse(frozen);
  }

  /** What a query falls back to once the records are flushed: the version of theirs that the index search
      reads, or else what the older tables answer. */
  function Fallback(rs: Layer, tables: seq<Sst>, key: seq<byte>): Option<LogRecord>
  {
    if VersionRead(BlocksOf(rs), key).Some? then VersionRead(BlocksOf(rs), key) else StackReads(tables, key)
  }

  /** A flush does not show for a key: its newest version in the table is read right, or a newer memtable
      answers, or what the query falls back to is as good. */
  predicate FlushKeeps(active: Layer, later: seq<Layer>, rs: Layer, tables: seq<Sst>, key: seq<byte>)
  {
    || ReadsNewest(rs, key)
    || InMemory(active, later, key).Some?
    || Live(FirstWithKey(rs, key)) == Live(Fallback(rs, tables, key))
  }

  lemma OldestLast(active: Layer, frozen: seq<Layer>, key: seq<byte>)
    requires frozen != []
    ensures InMemory(active, frozen, key)
         == if InMemory(active, frozen[1..], key).Some? then InMemory(active, frozen[1..], key) else FirstWithKey(frozen[0], key)
  {
    StackAppend(Reverse(frozen[1..]), [frozen[0]], key);
    StackOfOne(frozen[0], key);
  }

  /** Flushing the oldest frozen memtable, whatever it holds, changes a key's answer exactly when it is not kept. */
  lemma FlushExact(active: Layer, frozen: seq<Layer>, tables: seq<Sst>, t: Sst, key: seq<byte>)
    requires frozen != [] && t.records == frozen[0] && Formed(t) && AllFormed(tables)
    ensures AllFormed([t] + tables)
    ensures Live(Found(active, frozen[1..], [t] + tables, key)) == Live(Found(active, frozen, tables, key))
       <==> FlushKeeps(active, frozen[1..], frozen[0], tables, key)
  {
    OldestLast(active, frozen, key);
    ReaderExact(t, key);
    ReaderReads(t, key);
    TablesRead(tables, key);
    assert ([t] + tables)[1..] == tables;
  }

  /** The tables of a compaction as the scanners deliver them: what the builder kept. */
  function RunsFor(ts: seq<Sst>): (runs: seq<Run>)
    ensures |runs| == |ts| && forall i :: 0 <= i < |ts| ==> runs[i] == Run(ts[i].fileId, Kept(ts[i].records))
  {
    if ts == [] then [] else [Run(ts[0].fileId, Kept(ts[0].records))] + RunsFor(ts[1..])
  }

  /** The newest version of a key that the blocks of the inputs hold. */
  function NewestInput(inputs: seq<Sst>, key: seq<byte>): Option<LogRecord>
  {
    FirstIn(LayersOf(RunsFor(inputs)), key)
  }

  /** The tables answer with the newest version that the blocks of the first `n` hold: the index search of the
      table that holds it reads it first, or finds nothing there while the tables behind have an equal record. */
  predicate ReadsInput(ts: seq<Sst>, n: nat, key: seq<byte>)
    requires n <= |ts|
  {
    n > 0 ==>
      var blocks, newest := BlocksOf(ts[0].records), FirstWithKey(Kept(ts[0].records), key);
      if newest.None? then ReadsInput(ts[1..], n - 1, key)
      else ReadsFirst(blocks, key) || (VersionRead(blocks, key).None? && StackReads(ts[1..], key) == newest)
  }

  lemma RunsForNext(ts: seq<Sst>, n: nat, key: seq<byte>)
    requires 0 < n <= |ts|
    ensures var newest := FirstWithKey(Kept(ts[0].records), key);
            NewestInput(ts[..n], key) == if newest.Some? then newest else NewestInput(ts[1..][..n - 1], key)
  {
    assert ts[..n][1..] == ts[1..][..n - 1];
    assert LayersOf(RunsFor(ts[..n]))[1..] == LayersOf(RunsFor(ts[..n][1..]));
  }

  /** What is read of a table's blocks is the newest version there exactly when it is read first. */
  lemma KeptRead(rs: Layer, key: seq<byte>)
    requires SortedByKey(rs)
    ensures VersionRead(BlocksOf(rs), key) == FirstWithKey(Kept(rs), key) <==> ReadsFirst(BlocksOf(rs), key)
    ensures FirstWithKey(Kept(rs), key).None? ==> VersionRead(BlocksOf(rs), key).None?
  {
    BlocksKeep(rs);
    KeptSorted(rs);
    SearchExact(BlocksOf(rs), key);
    VersionReadIs(BlocksOf(rs), key);
    AnswerInTable(BlocksOf(rs), key);
  }

  lemma NoInputs(ts: seq<Sst>, key: seq<byte>)
    ensures NewestInput(ts[..0], key).None?
  {
    assert ts[..0] == [];
  }

  lemma {:induction false} ReadsInputIs(ts: seq<Sst>, n: nat, key: seq<byte>)
    requires AllFormed(ts) && n <= |ts| && NewestInput(ts[..n], key).Some?
    ensures ReadsInput(ts, n, key) <==> StackReads(ts, key) == NewestInput(ts[..n], key)
  {
    NoInputs(ts, key);
    if n > 0 {
      RunsForNext(ts, n, key);
      KeptRead(ts[0].records, key);
      if FirstWithKey(Kept(ts[0].records), key).None? { ReadsInputIs(ts[1..], n - 1, key); }
    }
  }

  /** An empty key in front of the first merged block hides the keys of that block. */
  predicate HiddenInMerge(merged: seq<LogRecord>, key: seq<byte>)
  {
    var blocks := BlocksOf(merged);
    blocks != [] && blocks[0][0].key == [] && FirstWithKey(blocks[0], key).Some?
  }

  /** A compaction does not show for a key: a memtable answers, or the blocks of the inputs do not hold it, or
      their newest version is a tombstone, or an empty key hides it in the merged table, or the tables
      answered with that version before. */
  predicate CompactionKeeps(active: Layer, frozen: seq<Layer>, tables: seq<Sst>, n: nat, merged: seq<LogRecord>, key: seq<byte>)
    requires n <= |tables|
  {
    || InMemory(active, frozen, key).Some?
    || NewestInput(tables[..n], key).None?
    || NewestInput(tables[..n], key).value.kind == DELETE
    || HiddenInMerge(merged, key)
    || ReadsInput(tables, n, key)
  }

  /** The first `n` tables were merged into `t`, tombstones dropped. */
  ghost predicate Merges(tables: seq<Sst>, n: nat, t: Sst)
  {
    && Formed(t) && AllFormed(tables) && n <= |tables|
    && Inputs(RunsFor(tables[..n])) && Descending(RunsFor(tables[..n])) && IsMerge(RunsFor(tables[..n]), true, t.records)
  }

  /** What the merged table answers. */
  lemma MergedRead(tables: seq<Sst>, n: nat, t: Sst, key: seq<byte>)
    requires Merges(tables, n, t)
    ensures var newest := NewestInput(tables[..n], key);
            ReaderFinds(t, key) == if newest.None? || newest.value.kind == DELETE || HiddenInMerge(t.records, key) then None else newest
  {
    var merged := t.records;
    forall r | r in merged ensures FitsBlock(r) { MergedFromInput(tables[..n], merged, r); }
    MergedLookup(RunsFor(tables[..n]), true, merged, key);
    ReaderReads(t, key);
    StrictRead(merged, key);
  }

  /** Strictly ascending block-sized records are read right, except in a first block behind an empty key. */
  lemma StrictRead(rs: seq<LogRecord>, key: seq<byte>)
    requires StrictKeys(rs) && forall r :: r in rs ==> FitsBlock(r)
    ensures VersionRead(BlocksOf(rs), key) == if HiddenInMerge(rs, key) then None else FirstWithKey(rs, key)
  {
    var blocks := BlocksOf(rs);
    StrictKeysNeverLate(rs, key);
    KeptFit(rs);
    BlocksKeep(rs);
    LandingFacts(blocks, key);
    match LandsOn(blocks, key)
    case None => NotInFirst(blocks, key);
    case Some(i) =>
      BlockAnswers(blocks, key, i);
      if i > 0 { LaterBlock(blocks, key, i); }
  }

  lemma NotInFirst(blocks: seq<Block>, key: seq<byte>)
    requires FirstWithKey(Flatten(blocks), key).None?
    ensures blocks != [] ==> FirstWithKey(blocks[0], key).None?
  {
    if blocks != [] {
      SplitAt(blocks, 0);
      assert forall r :: r in blocks[0] ==> r in Flatten(blocks);
    }
  }

  /** A search that lands behind the first block lands on one without an empty key, for a key not in the first. */
  lemma LaterBlock(blocks: seq<Block>, key: seq<byte>, i: nat)
    requires IsTable(blocks) && StrictKeys(Flatten(blocks)) && 0 < i < |blocks| && BelowUpTo(MaxKeys(blocks), key, i)
    ensures blocks[i][0].key != [] && FirstWithKey(blocks[0], key).None?
  {
    InBlock(blocks, 0);
    assert Less(MaxKeys(blocks)[0], key);
    LessTrichotomy(MaxKey(blocks[0]), key);
    SplitAt(blocks, i);
    var a := Flatten(blocks[..i]);
    FirstBlockIn(blocks[..i]);
    assert Flatten(blocks)[|a|] == blocks[i][0] && Less(Flatten(blocks)[0].key, Flatten(blocks)[|a|].key);
  }

  lemma FirstBlockIn(blocks: seq<Block>)
    requires blocks != []
    ensures Flatten(blocks) != []
  {
  }

  /** The only thing a compaction does to a key's answer is to bring in the newest version that the blocks of
      the inputs hold, and it does so exactly when the compaction is not kept. */
  lemma CompactExact(active: Layer, frozen: seq<Layer>, tables: seq<Sst>, n: nat, t: Sst, key: seq<byte>)
    requires Merges(tables, n, t)
    ensures AllFormed([t] + tables)
    ensures var before, after := Live(Found(active, frozen, tables, key)), Live(Found(active, frozen, [t] + tables, key));
            && (after == before <==> CompactionKeeps(active, frozen, tables, n, t.records, key))
            && (after == before || after == NewestInput(tables[..n], key))
  {
    assert ([t] + tables)[1..] == tables;
    MergedRead(tables, n, t, key);
    TablesRead(tables, key);
    if NewestInput(tables[..n], key).Some? { ReadsInputIs(tables, n, key); }
  }

  lemma CompactAll(active: Layer, frozen: seq<Layer>, tables: seq<Sst>, n: nat, t: Sst)
    requires Merges(tables, n, t)
    ensures AllFormed([t] + tables)
    ensures forall key :: CompactedAnswer(active, frozen, tables, n, t, key)
  {
    forall key ensures AllFormed([t] + tables) && CompactedAnswer(active, frozen, tables, n, t, key) {
      CompactExact(active, frozen, tables, n, t, key);
    }
  }

  ghost predicate CompactedAnswer(active: Layer, frozen: seq<Layer>, tables: seq<Sst>, n: nat, t: Sst, key: seq<byte>)
    requires AllFormed(tables) && AllFormed([t] + tables) && n <= |tables|
  {
    var before, after := Live(Found(active, frozen, tables, key)), Live(Found(active, frozen, [t] + tables, key));
    && (after == before <==> CompactionKeeps(active, frozen, tables, n, t.records, key))
    && (after == before || after == NewestInput(tables[..n], key))
  }

  /** With inputs that are read right, a compaction never shows. */
  lemma {:induction false} SearchableCompaction(ts: seq<Sst>, n: nat, key: seq<byte>)
    requires AllFormed(ts) && n <= |ts| && forall i :: 0 <= i < n ==> Searchable(ts[i].records)
    ensures ReadsInput(ts, n, key)
  {
    if n > 0 {
      assert Searchable(ts[0].records) && ReadsNewest(ts[0].records, key);
      KeptFirst(ts[0].records, key);
      if FirstWithKey(Kept(ts[0].records), key).None? {
        SearchableCompaction(ts[1..], n - 1, key);
      } else {
        KeptFit(ts[0].records);
      }
    }
  }

  lemma {:induction false} MergedFromInput(inputs: seq<Sst>, merged: seq<LogRecord>, r: LogRecord)
    requires AllFormed(inputs) && IsMerge(RunsFor(inputs), true, merged) && r in merged
    ensures FitsBlock(r) && Normalize(r) == r
    ensures exists i: nat :: i < |inputs| && r in inputs[i].records
  {
    var runs := RunsFor(inputs);
    assert Survives(runs, true, r);
    var i: nat :| WinsAt(runs, r.key, i) && FirstWithKey(runs[i].records, r.key) == Some(r);
    KeptFit(inputs[i].records);
  }

  // ---------- the reader stack and the directory ----------

  /** The level-0 files on disk are the first readers, in descending id order; no id is above the last one given out. */
  ghost predicate StackOk(tables: seq<Sst>, l0Files: set<Sst>, l0Count: nat, lastId: nat)
  {
    && l0Count <= |tables| && AllFormed(tables)
    && (forall x :: x in l0Files <==> x in tables[..l0Count])
    && (forall i, j :: 0 <= i < j < l0Count ==> tables[i].fileId > tables[j].fileId)
    && (forall i :: 0 <= i < |tables| ==> tables[i].fileId <= lastId)
    && (forall i :: 0 <= i < l0Count ==> tables[i].level == 0)
  }

  lemma FlushStackOk(tables: seq<Sst>, l0Files: set<Sst>, l0Count: nat, lastId: nat, t: Sst)
    requires StackOk(tables, l0Files, l0Count, lastId) && Formed(t) && t.fileId == lastId + 1 && t.level == 0
    ensures StackOk([t] + tables, l0Files + {t}, l0Count + 1, lastId + 1)
  {
    assert ([t] + tables)[..l0Count + 1] == [t] + tables[..l0Count];
  }

  lemma CompactStackOk(tables: seq<Sst>, l0Files: set<Sst>, l0Count: nat, lastId: nat, t: Sst)
    requires StackOk(tables, l0Files, l0Count, lastId) && Formed(t) && t.fileId == lastId + 1
    ensures StackOk([t] + tables, {}, 0, lastId + 1)
  {
  }

  /** What the compactor is given, in whatever order, in terms of the reader stack. */
  lemma CompactInputs(tables: seq<Sst>, l0Files: set<Sst>, l0Count: nat, lastId: nat, listing: seq<Sst>, merged: seq<LogRecord>)
    requires StackOk(tables, l0Files, l0Count, lastId)
    requires (forall x :: x in listing <==> x in l0Files) && IsMerge(RunsFor(listing), true, merged)
    ensures Inputs(RunsFor(tables[..l0Count])) && Descending(RunsFor(tables[..l0Count]))
    ensures IsMerge(RunsFor(tables[..l0Count]), true, merged)
    ensures SortedByKey(merged) && forall r :: r in merged ==> Normalize(r) == r
  {
    SameRuns(tables[..l0Count], listing);
    AnyOrder(RunsFor(tables[..l0Count]), RunsFor(listing), true, merged);
    forall i | 0 <= i < l0Count ensures SortedByKey(Kept(tables[i].records)) { KeptSorted(tables[i].records); }
    forall r | r in merged ensures Normalize(r) == r { MergedFromInput(tables[..l0Count], merged, r); }
    forall i, j | 0 <= i < j < |merged| ensures !Less(merged[j].key, merged[i].key) { LessTrichotomy(merged[i].key, merged[j].key); }
  }

  lemma SameRuns(a: seq<Sst>, b: seq<Sst>)
    requires forall x :: x in a <==> x in b
    ensures forall r :: r in RunsFor(a) <==> r in RunsFor(b)
  {
    forall r | r in RunsFor(a) ensures r in RunsFor(b) { RunThere(a, b, r); }
    forall r | r in RunsFor(b) ensures r in RunsFor(a) { RunThere(b, a, r); }
  }

  lemma RunThere(a: seq<Sst>, b: seq<Sst>, r: Run)
    requires (forall x :: x in a ==> x in b) && r in RunsFor(a)
    ensures r in RunsFor(b)
  {
    var i :| 0 <= i < |a| && RunsFor(a)[i] == r;
    assert a[i] in b;
    var j :| 0 <= j < |b| && b[j] == a[i];
    assert RunsFor(b)[j] == r;
  }

  // ---------- flushes that show ----------

  lemma OnlyMemTable(rs: Layer, key: seq<byte>)
    ensures Found([], [rs], [], key) == FirstWithKey(rs, key)
  {
    var frozen: seq<Layer> := [rs];
    OldestLast([], frozen, key);
    assert frozen[1..] == [];
  }

  lemma OnlyTable(t: Sst, key: seq<byte>)
    requires Formed(t)
    ensures Found([], [], [t], key) == ReaderFinds(t, key)
  {
    FirstTable([t], key);
  }

  lemma FirstTable(ts: seq<Sst>, key: seq<byte>)
    requires AllFormed(ts) && |ts| == 1
    ensures TablesFind(ts, key) == ReaderFinds(ts[0], key)
  {
    assert ts[1..] == [];
  }

  /** Flushing a memtable whose newest version of a key is too large for a block brings the older one back. */
  lemma FlushBringsBack(t: Sst, big: LogRecord, small: LogRecord)
    requires Formed(t) && t.records == [big, small] && big.key == small.key != [] && !FitsBlock(big) && FitsBlock(small)
    requires big.kind == PUT_KV && small.kind == PUT_KV
    ensures Live(Found([], [t.records], [], big.key)) == Some(big) && Live(Found([], [], [t], big.key)) == Some(small)
  {
    OnlyMemTable(t.records, big.key);
    OnlyTable(t, big.key);
    OversizedResurfaces(big, small);
    FilteredOut(t.records, t.bitSize, t.hashes, t.bits, big.key);
    LessTrichotomy(big.key, big.key);
    FindsNormal(t, big.key);
  }

  /** Flushing a memtable with an empty key hides the keys that share its block. */
  lemma FlushHides(t: Sst, hidden: LogRecord)
    requires Formed(t) && t.records == [LogRecord(PUT_KV, [], [1], None), hidden]
    requires hidden.key != [] && hidden.kind == PUT_KV && |RecordBytes(hidden)| <= 1000
    ensures Live(Found([], [t.records], [], hidden.key)) == Some(hidden) && Live(Found([], [], [t], hidden.key)) == None
  {
    OnlyMemTable(t.records, hidden.key);
    OnlyTable(t, hidden.key);
    EmptyKeyHides(hidden);
  }

  // ---------- a compaction that shows ----------

  /** The newest level-0 file holds three versions of a key in three blocks, and a query answers with the second
      newest; after the compaction it answers with the newest. */
  lemma CompactionBringsForward(ts: seq<Sst>, t: Sst, a: LogRecord, b: LogRecord, c: LogRecord)
    requires |ts| >= L0_COMPACTION_TRIGGER && Merges(ts, |ts|, t) && ts[0].records == [a, b, c] && OneEach(a, b, c)
    requires a != b && a.kind == PUT_KV && b.kind == PUT_KV
    requires forall i, r :: 1 <= i < |ts| && r in ts[i].records ==> r.key != []
    ensures Live(Found([], [], ts, a.key)) == Some(b) && Live(Found([], [], [t] + ts, a.key)) == Some(a)
  {
    LandsInTheMiddle(a, b, c);
    forall r | r in ts[0].records ensures FitsBlock(r) && r.key != [] { assert r == a || r == b || r == c; }
    NotHidden(ts, t, a.key);
    ReadsLate(ts, a.key, b, a);
    CompactionShows(ts, t, a.key, b, a);
  }

  lemma CompactionShows(ts: seq<Sst>, t: Sst, key: seq<byte>, read: LogRecord, newest: LogRecord)
    requires Merges(ts, |ts|, t) && !ReadsInput(ts, |ts|, key) && !HiddenInMerge(t.records, key)
    requires Found([], [], ts, key) == Some(read) && NewestInput(ts[..|ts|], key) == Some(newest)
    requires read.kind != DELETE && newest.kind != DELETE
    ensures Live(Found([], [], ts, key)) == Some(read) && Live(Found([], [], [t] + ts, key)) == Some(newest)
  {
    CompactExact([], [], ts, |ts|, t, key);
  }

  lemma ReadsLate(ts: seq<Sst>, key: seq<byte>, read: LogRecord, newest: LogRecord)
    requires ts != [] && AllFormed(ts) && read != newest && forall r :: r in ts[0].records ==> FitsBlock(r)
    requires SearchAnswer(BlocksOf(ts[0].records), key) == Some(read) && FirstWithKey(ts[0].records, key) == Some(newest)
    ensures Found([], [], ts, key) == Some(read) && NewestInput(ts[..|ts|], key) == Some(newest) && !ReadsInput(ts, |ts|, key)
  {
    KeptFit(ts[0].records);
    KeptSorted(ts[0].records);
    BlocksKeep(ts[0].records);
    KeptRead(ts[0].records, key);
    VersionReadIs(BlocksOf(ts[0].records), key);
    TablesRead(ts, key);
    RunsForNext(ts, |ts|, key);
  }

  lemma NotHidden(ts: seq<Sst>, t: Sst, key: seq<byte>)
    requires Merges(ts, |ts|, t) && forall i, r :: 0 <= i < |ts| && r in ts[i].records ==> r.key != []
    ensures !HiddenInMerge(t.records, key)
  {
    assert ts[..|ts|] == ts;
    forall r | r in t.records ensures FitsBlock(r) && r.key != [] { MergedFromInput(ts, t.records, r); }
    NoEmptyKey(t.records, key);
  }

  lemma NoEmptyKey(rs: Layer, key: seq<byte>)
    requires forall r :: r in rs ==> FitsBlock(r) && r.key != []
    ensures !HiddenInMerge(rs, key)
  {
    var blocks := BlocksOf(rs);
    KeptFit(rs);
    BlocksKeep(rs);
    if blocks != [] {
      SplitAt(blocks, 0);
      assert blocks[0][0] in Flatten(blocks);
    }
  }
}
