/** Opening an SSTable and searching it through three shared caches. */
module SSTableReader {
  import opened Bytes
  import opened Records
  import opened RecordLayout
  import opened FrameLog
  import opened SparseIndex
  import opened TableFormat
  import opened BlockCache
  import opened SSTableBuilder
  import Filter = BloomFilter
  import BR = ByteReader

  // ---------- reading a file ----------

  function ZeroBytes(n: nat): (s: seq<byte>)
    ensures |s| == n
  {
    if n == 0 then [] else [0] + ZeroBytes(n - 1)
  }

  /** Reads `n` bytes at an offset into a zeroed buffer; nothing is read at a negative offset or past the end. */
  function Pread(file: seq<byte>, offset: int, n: nat): (s: seq<byte>)
    ensures |s| == n
    ensures offset >= 0 && offset + n <= |file| ==> s == file[offset..offset + n]
  {
    if offset < 0 || offset >= |file| then ZeroBytes(n)
    else if offset + n <= |file| then file[offset..offset + n]
    else file[offset..] + ZeroBytes(n - (|file| - offset))
  }

  datatype Header = Header(filterAt: int, indexAt: int, minKeyAt: int, maxKeyAt: int, minKey: seq<byte>, maxKey: seq<byte>)

  function KeyAt(file: seq<byte>, offset: int): Option<seq<byte>>
  {
    var len := Int32At(Pread(file, offset, 4), 0);
    if len < 0 then None else Some(Pread(file, offset + 4, len))
  }

  /** What opening a file finds; None where it throws: a wrong magic number or a negative key length. */
  function HeaderOf(file: seq<byte>): Option<Header>
  {
    var footer := Pread(file, |file| - FOOTER_LENGTH, FOOTER_LENGTH);
    if Int64At(footer, 32) != MAGIC_NUMBER then None
    else
      var minKey, maxKey := KeyAt(file, Int64At(footer, 16)), KeyAt(file, Int64At(footer, 24));
      if minKey.None? || maxKey.None? then None
      else Some(Header(Int64At(footer, 0), Int64At(footer, 8), Int64At(footer, 16), Int64At(footer, 24), minKey.value, maxKey.value))
  }

  function HeaderOfTable(t: Table): Header
  {
    Header(FilterAt(t), IndexAt(t), MinKeyAt(t), MaxKeyAt(t), t.minKey, t.maxKey)
  }

  lemma KeyRead(file: seq<byte>, pos: nat, key: seq<byte>)
    requires StandsAt(file, pos, KeyBytes(key)) && |key| < TWO_31
    ensures KeyAt(file, pos) == Some(key)
  {
    ReadKey(file, pos, key);
    assert Int32At(file[pos..pos + 4], 0) == Int32At(file, pos);
  }

  lemma FooterRead(file: seq<byte>, pos: nat)
    requires pos + FOOTER_LENGTH <= |file|
    ensures var f := file[pos..pos + FOOTER_LENGTH];
            && Int64At(f, 0) == Int64At(file, pos) && Int64At(f, 8) == Int64At(file, pos + 8)
            && Int64At(f, 16) == Int64At(file, pos + 16) && Int64At(f, 24) == Int64At(file, pos + 24)
            && Int64At(f, 32) == Int64At(file, pos + 32)
  {
  }

  /** Opening a table finds its offsets and its key range. */
  lemma OpensTable(t: Table)
    requires WellFormed(t)
    ensures HeaderOf(TableBytes(t)) == Some(HeaderOfTable(t))
  {
    var file := TableBytes(t);
    var pos := |file| - FOOTER_LENGTH;
    Sections(t);
    ReadFooter(file, pos, FilterAt(t), IndexAt(t), MinKeyAt(t), MaxKeyAt(t));
    KeyRead(file, MinKeyAt(t), t.minKey);
    KeyRead(file, MaxKeyAt(t), t.maxKey);
    HeaderFrom(file, HeaderOfTable(t));
  }

  lemma HeaderFrom(file: seq<byte>, h: Header)
    requires |file| >= FOOTER_LENGTH && FooterStands(file, |file| - FOOTER_LENGTH, h.filterAt, h.indexAt, h.minKeyAt, h.maxKeyAt)
    requires KeyAt(file, h.minKeyAt) == Some(h.minKey) && KeyAt(file, h.maxKeyAt) == Some(h.maxKey)
    ensures HeaderOf(file) == Some(h)
  {
    FooterRead(file, |file| - FOOTER_LENGTH);
  }

  /** A file is opened only if it has a footer that ends with the eight bytes of CarinaDB. */
  lemma OpensOnlyOwn(file: seq<byte>)
    requires HeaderOf(file).Some?
    ensures |file| >= 40 && file[|file| - 8..] == [0x43, 0x61, 0x72, 0x69, 0x6E, 0x61, 0x44, 0x42]
  {
    OwnFooter(file);
  }

  lemma OwnFooter(file: seq<byte>)
    requires Int64At(Pread(file, |file| - FOOTER_LENGTH, FOOTER_LENGTH), 32) == MAGIC_NUMBER
    ensures |file| >= 40 && file[|file| - 8..] == [0x43, 0x61, 0x72, 0x69, 0x6E, 0x61, 0x44, 0x42]
  {
    NotTooShort(file);
    MagicBytes(file[|file| - 40..], 32);
    assert file[|file| - 40..][32..40] == file[|file| - 8..];
  }

  lemma NotTooShort(file: seq<byte>)
    requires Int64At(Pread(file, |file| - FOOTER_LENGTH, FOOTER_LENGTH), 32) == MAGIC_NUMBER
    ensures |file| >= 40
  {
    var footer := Pread(file, |file| - FOOTER_LENGTH, FOOTER_LENGTH);
    MagicBytes(footer, 32);
    ZeroAt(40, 32);
    assert footer[32..40][0] == footer[32];
  }

  lemma {:induction false} ZeroAt(n: nat, i: nat)
    requires i < n
    ensures ZeroBytes(n)[i] == 0
  {
    if i > 0 { ZeroAt(n - 1, i - 1); }
  }

  lemma MagicBytes(s: seq<byte>, i: nat)
    requires i + 8 <= |s| && Int64At(s, i) == MAGIC_NUMBER
    ensures s[i..i + 8] == [0x43, 0x61, 0x72, 0x69, 0x6E, 0x61, 0x44, 0x42]
  {
    var hi, lo := UInt32At(s, i), UInt32At(s, i + 4);
    assert hi * TWO_32 + lo == MAGIC_NUMBER;
    WordBytes(s, i, 0x43, 0x61, 0x72, 0x69);
    WordBytes(s, i + 4, 0x6E, 0x61, 0x44, 0x42);
  }

  lemma WordBytes(s: seq<byte>, i: nat, a: byte, b: byte, c: byte, d: byte)
    requires i + 4 <= |s| && UInt32At(s, i) == a as int * 0x100_0000 + b as int * 0x1_0000 + c as int * 0x100 + d as int
    ensures s[i] == a && s[i + 1] == b && s[i + 2] == c && s[i + 3] == d
  {
  }

  // ---------- the loops of a search ----------

  function Answer(r: Option<LogRecord>): Option<LogRecord>
  {
    if r.Some? then Some(Normalize(r.value)) else None
  }

  /** Where the block found begins and where the next one does, -1 for none. */
  ghost predicate Bounds(entries: seq<IndexEntry>, found: Option<nat>, begin: int, next: int)
  {
    match found
    case None => begin == -1 && next == -1
    case Some(i) =>
      i < |entries| && begin == entries[i].blockOffset && next == if i + 1 < |entries| then entries[i + 1].blockOffset else -1
  }

  /** The binary search over the last keys. */
  method FindBlock(entries: seq<IndexEntry>, target: seq<byte>, ghost maxKeys: seq<seq<byte>>)
      returns (found: Option<nat>, begin: int, next: int)
    requires |maxKeys| == |entries| && forall i :: 0 <= i < |entries| ==> maxKeys[i] == entries[i].maxKey
    ensures found == Landing(maxKeys, target, 0, |maxKeys| - 1, None)
    ensures Bounds(entries, found, begin, next)
  {
    found, begin, next := None, -1, -1;
    var low, high := 0, |entries| - 1;
    while low <= high
      invariant 0 <= low && high < |entries|
      invariant Bounds(entries, found, begin, next)
      invariant found == if high + 1 < |entries| then Some(high + 1) else None
      invariant Landing(maxKeys, target, low, high, found) == Landing(maxKeys, target, 0, |maxKeys| - 1, None)
      decreases high - low
    {
      var mid := (low + high) / 2;
      var cmp := CompareKeys(target, entries[mid].maxKey);
      if cmp <= 0 {
        begin := entries[mid].blockOffset;
        if mid + 1 < |entries| { next := entries[mid + 1].blockOffset; }
        found := Some(mid);
        if cmp == 0 { return; }
        high := mid - 1;
      } else {
        low := mid + 1;
      }
    }
  }

  /** Reads the record at the cursor; None when its key length says to stop. */
  method NextInBlock(reader: BR.ByteReader, ghost r: LogRecord) returns (record: Option<LogRecord>)
    requires PartsAt(reader.data, reader.pos, r)
    modifies reader
    ensures record == if r.key == [] then None else Some(Normalize(r))
    ensures record.Some? ==> reader.pos == old(reader.pos) + FIXED + |r.key| + |r.value| + |PointerBytes(r)|
  {
    var kind := reader.GetByte();
    var keyLen := reader.GetInt32BE();
    if keyLen.value <= 0 { return None; }
    var valLen := reader.GetInt32BE();
    var ptrLen := reader.GetInt32BE();
    var currentKey := reader.GetBytes(keyLen.value);
    var currentValue := reader.GetBytes(valLen.value);
    var currentPointer: Option<seq<byte>> := None;
    if ptrLen.value > 0 { currentPointer := reader.GetBytes(ptrLen.value); }
    return Some(LogRecord(kind.value, currentKey.value, currentValue.value, currentPointer));
  }

  lemma RecordAt(rs: seq<LogRecord>, j: nat, target: seq<byte>)
    requires j < |rs| && Encodable(rs[j])
    ensures PartsAt(Stored(rs), |Stored(rs[..j])|, rs[j])
    ensures |Stored(rs[..j])| + FIXED + |rs[j].key| + |rs[j].value| + |PointerBytes(rs[j])| == |Stored(rs[..j + 1])|
    ensures FindInBlock(rs[j..], target)
         == if rs[j].key == [] then None else if rs[j].key == target then Some(rs[j]) else FindInBlock(rs[j + 1..], target)
  {
    RecordStands(rs, j);
    RecordParts(Stored(rs), |Stored(rs[..j])|, rs[j]);
    assert rs[j..][0] == rs[j] && rs[j..][1..] == rs[j + 1..];
  }

  /** Reads a block from the front for the first record with the target key. */
  method FindRecord(dataBlock: seq<byte>, target: seq<byte>, ghost rs: seq<LogRecord>) returns (r: Option<LogRecord>)
    requires dataBlock == Stored(rs) && forall q :: q in rs ==> Encodable(q)
    ensures r == Answer(FindInBlock(rs, target))
  {
    var reader := new BR.ByteReader(dataBlock);
    ghost var j := 0;
    assert rs[..|rs|] == rs;
    while reader.Remaining() > 0
      invariant fresh(reader) && reader.data == dataBlock
      invariant 0 <= j <= |rs| && reader.pos == |Stored(rs[..j])|
      invariant FindInBlock(rs, target) == FindInBlock(rs[j..], target)
      decreases |rs| - j
    {
      RecordAt(rs, j, target);
      var current := NextInBlock(reader, rs[j]);
      if current.None? { return None; }
      if current.value.key == target { return current; }
      j := j + 1;
    }
    StoredGrows(rs[j..]);
    assert rs == rs[..j] + rs[j..];
    StoredAppend(rs[..j], rs[j..]);
    return None;
  }

  method NextEntry(reader: BR.ByteReader, ghost e: IndexEntry) returns (entry: IndexEntry)
    requires StandsAt(reader.data, reader.pos, EntryBytes(e)) && |e.maxKey| < TWO_31 && e.blockOffset < TWO_63
    modifies reader
    ensures entry == e && reader.pos == old(reader.pos) + |EntryBytes(e)|
  {
    ReadEntry(reader.data, reader.pos, e);
    var keyLen := reader.GetInt32BE();
    var key := reader.GetBytes(keyLen.value);
    var valLen := reader.GetInt32BE();
    var blockOffset := reader.GetInt64BE();
    entry := IndexEntry(key.value, blockOffset.value);
  }

  lemma IndexFront(buf: seq<byte>, pos: nat, entries: seq<IndexEntry>, j: nat)
    requires j < |entries| && pos <= |buf| && buf[pos..] == IndexBytes(entries[j..])
    ensures var n := |EntryBytes(entries[j])|;
            StandsAt(buf, pos, EntryBytes(entries[j])) && buf[pos + n..] == IndexBytes(entries[j + 1..])
  {
    var frame, rest := EntryBytes(entries[j]), IndexBytes(entries[j + 1..]);
    assert entries[j..][0] == entries[j] && entries[j..][1..] == entries[j + 1..];
    CutFront(buf, pos, frame, rest, |frame + rest|);
    assert (frame + rest)[..|frame + rest|] == frame + rest;
    assert rest[..|rest|] == rest;
  }

  /** Parses the index block. */
  method ParseIndex(buf: seq<byte>, ghost entries: seq<IndexEntry>) returns (out: seq<IndexEntry>)
    requires buf == IndexBytes(entries) && forall e :: e in entries ==> |e.maxKey| < TWO_31 && e.blockOffset < TWO_63
    ensures out == entries
  {
    var reader := new BR.ByteReader(buf);
    out := [];
    while reader.Remaining() > 0
      invariant fresh(reader) && reader.data == buf && |out| <= |entries| && out == entries[..|out|]
      invariant reader.pos <= |buf| && buf[reader.pos..] == IndexBytes(entries[|out|..])
      decreases |entries| - |out|
    {
      IndexFront(buf, reader.pos, entries, |out|);
      var entry := NextEntry(reader, entries[|out|]);
      out := out + [entry];
    }
  }

  // ---------- the shared caches ----------

  datatype FilterData = FilterData(bitSize: nat, hashes: nat, bits: seq<byte>)

  type Files = map<string, Table>

  /** What the caches may hold of the files in existence: file names are unique and files never change. */
  predicate RightFilter(files: Files, id: string, d: FilterData)
  {
    id in files ==> d == FilterData(files[id].bitSize, files[id].hashes, files[id].bits)
  }

  predicate RightIndex(files: Files, id: string, entries: seq<IndexEntry>)
  {
    id in files ==> entries == Entries(files[id].blocks)
  }

  predicate RightBlock(files: Files, at: (string, int), bytes: seq<byte>)
  {
    at.0 in files ==>
      var blocks := files[at.0].blocks;
      forall i :: 0 <= i < |blocks| && OffsetOf(blocks, i) == at.1 ==> bytes == Stored(blocks[i])
  }

  ghost function FilterOk(files: Files): (string, FilterData) -> bool
  {
    (id: string, d: FilterData) => RightFilter(files, id, d)
  }

  ghost function IndexOk(files: Files): (string, seq<IndexEntry>) -> bool
  {
    (id: string, entries: seq<IndexEntry>) => RightIndex(files, id, entries)
  }

  ghost function BlockOk(files: Files): ((string, int), seq<byte>) -> bool
  {
    (at: (string, int), bytes: seq<byte>) => RightBlock(files, at, bytes)
  }

  class Caches {
    const filters: BlockCache<string, FilterData>
    const indexes: BlockCache<string, seq<IndexEntry>>
    const blocks: BlockCache<(string, int), seq<byte>>

    ghost predicate FiltersRight(files: Files)
      reads this, filters, filters.Repr
    {
      filters.Valid() && Holds(filters.Contents, FilterOk(files))
    }

    ghost predicate IndexesRight(files: Files)
      reads this, indexes, indexes.Repr
    {
      indexes.Valid() && Holds(indexes.Contents, IndexOk(files))
    }

    ghost predicate BlocksRight(files: Files)
      reads this, blocks, blocks.Repr
    {
      blocks.Valid() && Holds(blocks.Contents, BlockOk(files))
    }

    ghost predicate Valid(files: Files)
      reads this, filters, filters.Repr, indexes, indexes.Repr, blocks, blocks.Repr
    {
      && FiltersRight(files) && IndexesRight(files) && BlocksRight(files)
      && filters.Repr !! indexes.Repr && filters.Repr !! blocks.Repr && indexes.Repr !! blocks.Repr
    }

    constructor ()
      ensures forall files :: Valid(files)
      ensures filters.maxCapacity == 100 && indexes.maxCapacity == 100 && blocks.maxCapacity == 1000
      ensures fresh(filters.Repr) && fresh(indexes.Repr) && fresh(blocks.Repr)
    {
      filters := new BlockCache(100);
      indexes := new BlockCache(100);
      blocks := new BlockCache(1000);
    }
  }

  class SSTableReader {
    const file: seq<byte>
    const fileId: string
    const header: Header
    const caches: Caches
    var filterHolder: Filter.BloomFilter?
    var indexHolder: seq<IndexEntry>
    var dataBlockHolder: seq<byte>

    /** The reader has opened one of the tables in existence. */
    ghost predicate Opened(files: Files)
    {
      fileId in files && WellFormed(files[fileId]) && file == TableBytes(files[fileId]) && header == HeaderOfTable(files[fileId])
    }

    constructor (file: seq<byte>, fileId: string, header: Header, caches: Caches)
      ensures this.file == file && this.fileId == fileId && this.header == header && this.caches == caches
    {
      this.file, this.fileId, this.header, this.caches := file, fileId, header, caches;
      filterHolder, indexHolder, dataBlockHolder := null, [], [];
    }

    method LoadFilter(ghost t: Table) returns (filter: Filter.BloomFilter)
      requires WellFormed(t) && file == TableBytes(t) && header == HeaderOfTable(t)
      ensures fresh(filter) && filter.Valid()
      ensures FilterData(filter.bitSize, filter.numHashFunctions, filter.bits) == FilterData(t.bitSize, t.hashes, t.bits)
    {
      FilterSection(t);
      var buf := Pread(file, header.filterAt, header.indexAt - header.filterAt);
      filter := new Filter.BloomFilter.Restore(buf);
    }

    method LoadIndex(ghost t: Table) returns (entries: seq<IndexEntry>)
      requires WellFormed(t) && file == TableBytes(t) && header == HeaderOfTable(t)
      ensures entries == Entries(t.blocks)
    {
      IndexSection(t);
      var buf := Pread(file, header.indexAt, header.minKeyAt - header.indexAt);
      entries := ParseIndex(buf, Entries(t.blocks));
    }

    method LoadBlock(target: int, next: int, ghost i: nat, ghost t: Table) returns (data: seq<byte>)
      requires WellFormed(t) && file == TableBytes(t) && header == HeaderOfTable(t)
      requires i < |t.blocks| && target == OffsetOf(t.blocks, i)
      requires next == if i + 1 < |t.blocks| then OffsetOf(t.blocks, i + 1) else -1
      ensures data == Stored(t.blocks[i])
    {
      BlockSection(t, i);
      var blockSize := if next != -1 then next - target else header.filterAt - target;
      data := Pread(file, target, blockSize);
    }

    method GetBloomFilterLazy(ghost files: Files) returns (filter: Filter.BloomFilter)
      requires Opened(files) && caches.FiltersRight(files)
      modifies this`filterHolder, caches.filters.Repr
      ensures caches.FiltersRight(files)
      ensures fresh(caches.filters.Repr - old(caches.filters.Repr))
      ensures fresh(filter) && filter.Valid() && filterHolder == filter
      ensures FilterData(filter.bitSize, filter.numHashFunctions, filter.bits)
           == FilterData(files[fileId].bitSize, files[fileId].hashes, files[fileId].bits)
    {
      var cached := Cached(caches.filters, fileId, FilterOk(files));
      if cached.Some? {
        filter := new Filter.BloomFilter.Copy(cached.value.bitSize, cached.value.hashes, cached.value.bits);
      } else {
        filter := LoadFilter(files[fileId]);
        Remember(caches.filters, fileId, FilterData(filter.bitSize, filter.numHashFunctions, filter.bits), FilterOk(files));
      }
      filterHolder := filter;
    }

    method GetIndexBlockLazy(ghost files: Files) returns (entries: seq<IndexEntry>)
      requires Opened(files) && caches.IndexesRight(files)
      modifies this`indexHolder, caches.indexes.Repr
      ensures caches.IndexesRight(files)
      ensures fresh(caches.indexes.Repr - old(caches.indexes.Repr))
      ensures entries == Entries(files[fileId].blocks) && indexHolder == entries
    {
      var cached := Cached(caches.indexes, fileId, IndexOk(files));
      if cached.Some? {
        entries := cached.value;
      } else {
        entries := LoadIndex(files[fileId]);
        Remember(caches.indexes, fileId, entries, IndexOk(files));
      }
      indexHolder := entries;
    }

    method GetDataBlockLazy(target: int, next: int, ghost i: nat, ghost files: Files) returns (data: seq<byte>)
      requires Opened(files) && caches.BlocksRight(files)
      requires var blocks := files[fileId].blocks;
               && i < |blocks| && target == OffsetOf(blocks, i)
               && next == if i + 1 < |blocks| then OffsetOf(blocks, i + 1) else -1
      modifies this`dataBlockHolder, caches.blocks.Repr
      ensures caches.BlocksRight(files)
      ensures fresh(caches.blocks.Repr - old(caches.blocks.Repr))
      ensures data == Stored(files[fileId].blocks[i]) && dataBlockHolder == data
    {
      OnlyBlock(files[fileId].blocks, i);
      var cached := Cached(caches.blocks, (fileId, target), BlockOk(files));
      if cached.Some? {
        data := cached.value;
      } else {
        data := LoadBlock(target, next, i, files[fileId]);
        Remember(caches.blocks, (fileId, target), data, BlockOk(files));
      }
      dataBlockHolder := data;
    }

    /** The search through the sparse index. */
    method SearchBlocks(targetKey: seq<byte>, ghost files: Files) returns (r: Option<LogRecord>)
      requires Opened(files) && this !in caches.indexes.Repr && this !in caches.blocks.Repr
      requires caches.IndexesRight(files)
      requires caches.BlocksRight(files)
      requires caches.indexes.Repr !! caches.blocks.Repr
      modifies this`indexHolder, this`dataBlockHolder, caches.indexes.Repr, caches.blocks.Repr
      ensures caches.IndexesRight(files)
      ensures caches.BlocksRight(files)
      ensures fresh(caches.indexes.Repr - old(caches.indexes.Repr)) && fresh(caches.blocks.Repr - old(caches.blocks.Repr))
      ensures caches.indexes.Repr !! caches.blocks.Repr
      ensures r == Answer(SearchAnswer(files[fileId].blocks, targetKey))
    {
      ghost var t := files[fileId];
      var entries := GetIndexBlockLazy(files);
      var found, begin, next := FindBlock(entries, targetKey, MaxKeys(t.blocks));
      if begin == -1 { return None; }
      r := SearchBlock(begin, next, targetKey, found.value, files);
    }

    method SearchBlock(begin: int, next: int, targetKey: seq<byte>, ghost i: nat, ghost files: Files) returns (r: Option<LogRecord>)
      requires Opened(files) && caches.BlocksRight(files)
      requires Bounds(Entries(files[fileId].blocks), Some(i), begin, next)
      modifies this`dataBlockHolder, caches.blocks.Repr
      ensures caches.BlocksRight(files)
      ensures fresh(caches.blocks.Repr - old(caches.blocks.Repr))
      ensures i < |files[fileId].blocks| && r == Answer(FindInBlock(files[fileId].blocks[i], targetKey))
    {
      var dataBlock := GetDataBlockLazy(begin, next, i, files);
      BlockEncodable(files[fileId], i);
      r := FindRecord(dataBlock, targetKey, files[fileId].blocks[i]);
    }

    /** The whole search: filter, index, block. With the caches right for the files in existence, the
        answer does not depend on what they hold. */
    method SearchBinaryFullRecord(targetKey: seq<byte>, ghost files: Files) returns (r: Option<LogRecord>)
      requires Opened(files) && caches.Valid(files)
      requires this !in caches.filters.Repr && this !in caches.indexes.Repr && this !in caches.blocks.Repr
      modifies this, caches.filters.Repr, caches.indexes.Repr, caches.blocks.Repr
      ensures caches.Valid(files)
      ensures fresh(caches.filters.Repr - old(caches.filters.Repr)) && fresh(caches.indexes.Repr - old(caches.indexes.Repr))
      ensures fresh(caches.blocks.Repr - old(caches.blocks.Repr))
      ensures r == TableAnswer(files[fileId], targetKey)
    {
      var filter := GetBloomFilterLazy(files);
      var maybe := filter.MightContain(targetKey);
      if !maybe { return None; }
      r := SearchBlocks(targetKey, files);
    }
  }

  /** Opens a file; null where the constructor throws. */
  method Open(file: seq<byte>, fileId: string, caches: Caches) returns (reader: SSTableReader?)
    ensures reader == null <==> HeaderOf(file).None?
    ensures reader != null ==>
              fresh(reader) && reader.file == file && reader.fileId == fileId && reader.header == HeaderOf(file).value && reader.caches == caches
  {
    var filterOffset, indexBlockOffset, minKeyOffset, maxKeyOffset, magic := ReadFooterFields(file);
    if magic != MAGIC_NUMBER { return null; }
    var minKey := ReadKeyWithLength(file, minKeyOffset);
    if minKey.None? { return null; }
    var maxKey := ReadKeyWithLength(file, maxKeyOffset);
    if maxKey.None? { return null; }
    reader := new SSTableReader(file, fileId,
      Header(filterOffset, indexBlockOffset, minKeyOffset, maxKeyOffset, minKey.value, maxKey.value), caches);
  }

  method ReadFooterFields(file: seq<byte>) returns (a: int, b: int, c: int, d: int, magic: int)
    ensures var f := Pread(file, |file| - FOOTER_LENGTH, FOOTER_LENGTH);
            a == Int64At(f, 0) && b == Int64At(f, 8) && c == Int64At(f, 16) && d == Int64At(f, 24) && magic == Int64At(f, 32)
  {
    var input := new BR.ByteReader(Pread(file, |file| - FOOTER_LENGTH, FOOTER_LENGTH));
    var filterOffset := input.GetInt64BE();
    var indexBlockOffset := input.GetInt64BE();
    var minKeyOffset := input.GetInt64BE();
    var maxKeyOffset := input.GetInt64BE();
    var magicNumber := input.GetInt64BE();
    return filterOffset.value, indexBlockOffset.value, minKeyOffset.value, maxKeyOffset.value, magicNumber.value;
  }

  method ReadKeyWithLength(file: seq<byte>, offset: int) returns (key: Option<seq<byte>>)
    ensures key == KeyAt(file, offset)
  {
    var input := new BR.ByteReader(Pread(file, offset, 4));
    var len := input.GetInt32BE();
    if len.value < 0 { return None; }
    return Some(Pread(file, offset + 4, len.value));
  }

  /** The stored record a search of a table finds. */
  function TableFinds(t: Table, target: seq<byte>): Option<LogRecord>
    requires 0 < t.bitSize <= 8 * |t.bits|
  {
    if Filter.AllSet(t.bits, t.bitSize, t.hashes, target) then SearchAnswer(t.blocks, target) else None
  }

  /** What a search of a table answers: nothing if the filter rejects the key, else what the sparse index finds. */
  function TableAnswer(t: Table, target: seq<byte>): Option<LogRecord>
    requires 0 < t.bitSize <= 8 * |t.bits|
  {
    Answer(TableFinds(t, target))
  }

  lemma BlockEncodable(t: Table, i: nat)
    requires WellFormed(t) && i < |t.blocks|
    ensures forall q :: q in t.blocks[i] ==> Encodable(q)
  {
    SplitAt(t.blocks, i);
    forall q | q in t.blocks[i] ensures Encodable(q) { assert q in Flatten(t.blocks); }
  }

  /** A cache lookup; what it returns is right if everything in the cache is. */
  method Cached<K(==,!new), V(!new)>(cache: BlockCache<K, V>, key: K, ghost ok: (K, V) -> bool) returns (value: Option<V>)
    requires cache.Valid() && Holds(cache.Contents, ok)
    modifies cache
    ensures cache.Valid() && Holds(cache.Contents, ok) && cache.Repr == old(cache.Repr)
    ensures value.Some? ==> ok(key, value.value)
  {
    HoldsAfter(cache.Contents, ok, cache.maxCapacity, key);
    if Find(cache.Contents, key).Some? { HoldsFind(cache.Contents, ok, key); }
    value := cache.Get(key);
  }

  method Remember<K(==,!new), V(!new)>(cache: BlockCache<K, V>, key: K, value: V, ghost ok: (K, V) -> bool)
    requires cache.Valid() && Holds(cache.Contents, ok) && ok(key, value)
    modifies cache.Repr
    ensures cache.Valid() && Holds(cache.Contents, ok) && fresh(cache.Repr - old(cache.Repr))
  {
    HoldsAfter(cache.Contents, ok, cache.maxCapacity, key);
    cache.Put(key, value);
  }

  lemma SectionRead(file: seq<byte>, pos: nat, part: seq<byte>, n: int)
    requires StandsAt(file, pos, part) && n == |part|
    ensures Pread(file, pos, n) == part
  {
  }

  lemma FilterSection(t: Table)
    requires WellFormed(t)
    ensures var h, file := HeaderOfTable(t), TableBytes(t);
            && h.indexAt - h.filterAt == |FilterBytes(t)|
            && Pread(file, h.filterAt, |FilterBytes(t)|) == FilterBytes(t)
            && Int32At(FilterBytes(t), 0) == t.bitSize && Int32At(FilterBytes(t), 4) == t.hashes && FilterBytes(t)[8..] == t.bits
  {
    Sections(t);
    SectionRead(TableBytes(t), FilterAt(t), FilterBytes(t), |FilterBytes(t)|);
    Filter.SerializedRoundTrip(t.bitSize, t.hashes, t.bits);
  }

  lemma IndexSection(t: Table)
    requires WellFormed(t)
    ensures var h, file := HeaderOfTable(t), TableBytes(t);
            && h.minKeyAt - h.indexAt == |IndexBytes(Entries(t.blocks))|
            && Pread(file, h.indexAt, |IndexBytes(Entries(t.blocks))|) == IndexBytes(Entries(t.blocks))
    ensures forall e :: e in Entries(t.blocks) ==> |e.maxKey| < TWO_31 && e.blockOffset < TWO_63
  {
    Sections(t);
    SectionRead(TableBytes(t), IndexAt(t), IndexBytes(Entries(t.blocks)), |IndexBytes(Entries(t.blocks))|);
    forall i | 0 <= i < |t.blocks| ensures |EntryOf(t.blocks, i).maxKey| < TWO_31 && EntryOf(t.blocks, i).blockOffset < TWO_63 {
      EntrySmall(t, i);
    }
  }

  lemma EntrySmall(t: Table, i: nat)
    requires WellFormed(t) && i < |t.blocks|
    ensures |MaxKey(t.blocks[i])| < TWO_31 && OffsetOf(t.blocks, i) < TWO_63
  {
    BlockStands(t, i);
    Sections(t);
    SplitAt(t.blocks, i);
    assert t.blocks[i][|t.blocks[i]| - 1] in Flatten(t.blocks);
  }

  lemma BlockSection(t: Table, i: nat)
    requires WellFormed(t) && i < |t.blocks|
    ensures var n := (if i + 1 < |t.blocks| then OffsetOf(t.blocks, i + 1) else HeaderOfTable(t).filterAt) - OffsetOf(t.blocks, i);
            n >= 0 && Pread(TableBytes(t), OffsetOf(t.blocks, i), n) == Stored(t.blocks[i])
  {
    Sections(t);
    BlockStands(t, i);
    StandsInside(TableBytes(t), 0, Data(t), OffsetOf(t.blocks, i), Stored(t.blocks[i]));
    SectionRead(TableBytes(t), OffsetOf(t.blocks, i), Stored(t.blocks[i]), |Stored(t.blocks[i])|);
  }

  lemma OnlyBlock(blocks: seq<Block>, i: nat)
    requires i < |blocks|
    ensures forall j :: 0 <= j < |blocks| && OffsetOf(blocks, j) == OffsetOf(blocks, i) ==> j == i
  {
    forall j | 0 <= j < |blocks| && OffsetOf(blocks, j) == OffsetOf(blocks, i) ensures j == i {
      if j < i { OffsetsRise(blocks, j, i); } else if i < j { OffsetsRise(blocks, i, j); }
    }
  }

  // ---------- a built table ----------

  /** The newest version of a key, if any, is within a block and the index search reads it first. */
  predicate ReadsNewest(rs: seq<LogRecord>, key: seq<byte>)
  {
    FirstWithKey(rs, key).None? || (FitsBlock(FirstWithKey(rs, key).value) && ReadsFirst(BlocksOf(rs), key))
  }

  /** Building from any records in key order, opening and searching: a key gets the first record added with
      it, or none, if and only if that one fits a block and the index search reads it first. */
  lemma BuiltTableExact(rs: seq<LogRecord>, bitSize: nat, hashes: nat, bits: seq<byte>, target: seq<byte>)
    requires 0 < bitSize && Filter.Represents(bits, bitSize, hashes, Keys(rs)) && SortedByKey(rs)
    ensures TableFinds(TableOf(rs, bitSize, hashes, bits), target) == FirstWithKey(rs, target) <==> ReadsNewest(rs, target)
    ensures FirstWithKey(rs, target).None? ==> TableFinds(TableOf(rs, bitSize, hashes, bits), target).None?
  {
    BlocksKeep(rs);
    KeptSorted(rs);
    KeptFit(rs);
    KeptFirst(rs, target);
    SearchExact(BlocksOf(rs), target);
    AnswerInTable(BlocksOf(rs), target);
    FilteredOut(rs, bitSize, hashes, bits, target);
  }

  /** The reader's answer where it is right. */
  lemma BuiltTableSearch(rs: seq<LogRecord>, bitSize: nat, hashes: nat, bits: seq<byte>, target: seq<byte>)
    requires 0 < bitSize && Filter.Represents(bits, bitSize, hashes, Keys(rs)) && SortedByKey(rs) && ReadsNewest(rs, target)
    ensures TableAnswer(TableOf(rs, bitSize, hashes, bits), target) == Answer(FirstWithKey(rs, target))
  {
    BuiltTableExact(rs, bitSize, hashes, bits, target);
  }

  /** A key the filter rejects was never added. */
  lemma FilteredOut(rs: seq<LogRecord>, bitSize: nat, hashes: nat, bits: seq<byte>, target: seq<byte>)
    requires 0 < bitSize && Filter.Represents(bits, bitSize, hashes, Keys(rs))
    ensures Filter.AllSet(bits, bitSize, hashes, target) || FirstWithKey(rs, target).None?
  {
    if FirstWithKey(rs, target).Some? {
      var i :| 0 <= i < |rs| && rs[i] == FirstWithKey(rs, target).value;
      assert Keys(rs)[i] == target;
      Filter.NoFalseNegatives(bits, bitSize, hashes, Keys(rs), target);
    }
  }

  /** Records with strictly increasing keys, as compaction writes them, never land late. */
  lemma StrictKeysNeverLate(rs: seq<LogRecord>, target: seq<byte>)
    requires (forall i, j :: 0 <= i < j < |rs| ==> Less(rs[i].key, rs[j].key)) && (forall r :: r in rs ==> FitsBlock(r))
    ensures SortedByKey(rs) && !LandsLate(BlocksOf(rs), target)
  {
    forall i, j | 0 <= i < j < |rs| ensures !Less(rs[j].key, rs[i].key) { LessTrichotomy(rs[i].key, rs[j].key); }
    var blocks := BlocksOf(rs);
    BlocksKeep(rs);
    KeptFit(rs);
    if LandsLate(blocks, target) {
      var i := LandsOn(blocks, target).value;
      LandingFacts(blocks, target);
      LastKeysRise(blocks, i);
      assert MaxKeys(blocks)[i - 1] == target;
      LessTrichotomy(target, target);
    }
  }

  lemma LastKeysRise(blocks: seq<Block>, i: nat)
    requires 0 < i < |blocks|
    requires var rs := Flatten(blocks); forall j, k :: 0 <= j < k < |rs| ==> Less(rs[j].key, rs[k].key)
    ensures Less(MaxKey(blocks[i - 1]), MaxKey(blocks[i]))
  {
    SplitAt(blocks, i);
    FlattenLast(blocks[..i - 1], blocks[i - 1]);
    assert blocks[..i] == blocks[..i - 1] + [blocks[i - 1]];
    var a, b := Flatten(blocks[..i]), blocks[i];
    assert Flatten(blocks)[|a| - 1] == a[|a| - 1] == blocks[i - 1][|blocks[i - 1]| - 1];
    assert Flatten(blocks)[|a| + |b| - 1] == b[|b| - 1];
  }

  /** A version of one key that fills most of a block. */
  function Version(v: byte): LogRecord
  {
    LogRecord(PUT_KV, [1], [v] + ZeroBytes(2999), None)
  }

  lemma ThreeBlocks(a: LogRecord, b: LogRecord, c: LogRecord)
    requires FitsBlock(a) && FitsBlock(b) && FitsBlock(c)
    requires |RecordBytes(a)| + |RecordBytes(b)| > 4096 && |RecordBytes(b)| + |RecordBytes(c)| > 4096
    ensures BlocksOf([a, b, c]) == [[a], [b], [c]]
  {
    assert [a, b, c][..2] == [a, b] && [a, b][..1] == [a] && [a][..0] == [];
    assert Stored([a]) == RecordBytes(a) + [] && Stored([b]) == RecordBytes(b) + [];
    assert Pack([a]) == Packing([], [a]);
    assert Pack([a, b]) == Packing([[a]], [b]);
    assert Pack([a, b, c]) == Packing([[a], [b]], [c]);
  }

  /** Records of at most 4096 bytes in all, with non-empty keys, are read right for every key. */
  lemma SmallTableReads(rs: seq<LogRecord>, key: seq<byte>)
    requires SortedByKey(rs) && rs != [] && |Stored(rs)| <= 4096 && KeysNonEmpty(rs)
    ensures ReadsNewest(rs, key) && SearchAnswer(BlocksOf(rs), key) == FirstWithKey(rs, key)
  {
    OneBlock(rs);
    EachStored(rs);
    KeptFit(rs);
    BlocksKeep(rs);
    SearchIsLinear(BlocksOf(rs), key);
    SearchExact(BlocksOf(rs), key);
  }

  /** Three versions of one key, no two of which share a block. */
  predicate OneEach(a: LogRecord, b: LogRecord, c: LogRecord)
  {
    && a.key == b.key == c.key != [] && FitsBlock(a) && FitsBlock(b) && FitsBlock(c)
    && |RecordBytes(a)| + |RecordBytes(b)| > 4096 && |RecordBytes(b)| + |RecordBytes(c)| > 4096
  }

  /** A search for them lands on the middle one. */
  lemma LandsInTheMiddle(a: LogRecord, b: LogRecord, c: LogRecord)
    requires OneEach(a, b, c)
    ensures var rs := [a, b, c];
            && SortedByKey(rs) && LandsLate(BlocksOf(rs), a.key)
            && SearchAnswer(BlocksOf(rs), a.key) == Some(b) && FirstWithKey(rs, a.key) == Some(a)
  {
    ThreeBlocks(a, b, c);
    LessTrichotomy(a.key, a.key);
    var blocks: seq<Block> := [[a], [b], [c]];
    assert MaxKeys(blocks)[1] == a.key;
    assert LandsOn(blocks, a.key) == Some(1);
  }

  /** With several versions of one key the search can land late: three versions in three blocks, and the
      search returns the second newest. */
  lemma LateLandingHappens()
    ensures var rs := [Version(3), Version(2), Version(1)];
            && SortedByKey(rs) && KeysNonEmpty(rs) && (forall r :: r in rs ==> FitsBlock(r))
            && LandsLate(BlocksOf(rs), [1])
            && SearchAnswer(BlocksOf(rs), [1]) == Some(Version(2)) && FirstWithKey(rs, [1]) == Some(Version(3))
  {
    LandsInTheMiddle(Version(3), Version(2), Version(1));
  }

  /** An empty key in a block hides the keys behind it. */
  lemma EmptyKeyHides(hidden: LogRecord)
    requires hidden.key != [] && FitsBlock(hidden) && |RecordBytes(hidden)| <= 1000
    ensures var rs := [LogRecord(PUT_KV, [], [1], None), hidden];
            SortedByKey(rs) && !ReadsNewest(rs, hidden.key) && SearchAnswer(BlocksOf(rs), hidden.key).None? && FirstWithKey(rs, hidden.key) == Some(hidden)
  {
    var empty := LogRecord(PUT_KV, [], [1], None);
    var rs := [empty, hidden];
    assert rs[..1] == [empty] && [empty][..0] == [];
    assert Stored([empty]) == RecordBytes(empty) + [];
    assert Pack([empty]) == Packing([], [empty]);
    assert Pack(rs) == Packing([], [empty, hidden]);
    assert BlocksOf(rs) == [[empty, hidden]];
    LessTrichotomy(hidden.key, hidden.key);
    var blocks: seq<Block> := [rs];
    assert MaxKeys(blocks)[0] == hidden.key;
    assert LandsOn(blocks, hidden.key) == Some(0);
    assert rs[1..] == [hidden] && FirstWithKey([hidden], hidden.key) == Some(hidden);
  }

  /** A version too large for a block is dropped, and an older one of its key is found in its place. */
  lemma OversizedResurfaces(big: LogRecord, small: LogRecord)
    requires big.key == small.key != [] && !FitsBlock(big) && FitsBlock(small)
    ensures var rs := [big, small];
            SortedByKey(rs) && !ReadsNewest(rs, big.key) && SearchAnswer(BlocksOf(rs), big.key) == Some(small) && FirstWithKey(rs, big.key) == Some(big)
  {
    var rs := [big, small];
    assert rs[..1] == [big] && [big][..0] == [];
    assert Pack([big]) == Packing([], []);
    assert Pack(rs) == Packing([], [small]);
    assert BlocksOf(rs) == [[small]];
    LessTrichotomy(big.key, big.key);
    var blocks: seq<Block> := [[small]];
    assert MaxKeys(blocks)[0] == big.key;
    assert LandsOn(blocks, big.key) == Some(0);
  }
}
