/** Building an SSTable: records are packed greedily into blocks of at most 4096 bytes, a record larger
    than a block is dropped, and finishing appends filter, index, key range and footer. */
module SSTableBuilder {
  import opened Bytes
  import opened Records
  import opened RecordLayout
  import opened SparseIndex
  import opened TableFormat
  import Filter = BloomFilter

  predicate FitsBlock(r: LogRecord)
  {
    |RecordBytes(r)| <= BLOCK_SIZE
  }

  /** The records that fit a block, in order. */
  function Kept(rs: seq<LogRecord>): seq<LogRecord>
  {
    if rs == [] then []
    else
      var last := rs[|rs| - 1];
      Kept(rs[..|rs| - 1]) + if FitsBlock(last) then [last] else []
  }

  datatype Packing = Packing(closed: seq<Block>, open: seq<LogRecord>)

  function Close(p: Packing): Packing
  {
    if p.open == [] then p else Packing(p.closed + [p.open], [])
  }

  /** Greedy packing: a record starts a new block only when it does not fit the open one. */
  function PackOne(p: Packing, r: LogRecord): Packing
  {
    if |Stored(p.open)| + |RecordBytes(r)| <= BLOCK_SIZE then Packing(p.closed, p.open + [r])
    else if FitsBlock(r) then Packing(Close(p).closed, [r])
    else Close(p)
  }

  function Pack(rs: seq<LogRecord>): Packing
  {
    if rs == [] then Packing([], []) else PackOne(Pack(rs[..|rs| - 1]), rs[|rs| - 1])
  }

  /** The blocks of the finished table. */
  function BlocksOf(rs: seq<LogRecord>): seq<Block>
  {
    Close(Pack(rs)).closed
  }

  lemma CloseKeeps(p: Packing)
    ensures Flatten(Close(p).closed) + Close(p).open == Flatten(p.closed) + p.open
  {
    if p.open != [] { FlattenLast(p.closed, p.open); }
  }

  /** Packing loses, duplicates and reorders nothing but the oversized records. */
  lemma {:induction false} PackKeeps(rs: seq<LogRecord>)
    ensures Flatten(Pack(rs).closed) + Pack(rs).open == Kept(rs)
  {
    if rs != [] {
      var p, r := Pack(rs[..|rs| - 1]), rs[|rs| - 1];
      PackKeeps(rs[..|rs| - 1]);
      CloseKeeps(p);
      assert Flatten(p.closed) + (p.open + [r]) == Flatten(p.closed) + p.open + [r];
    }
  }

  lemma BlocksKeep(rs: seq<LogRecord>)
    ensures Flatten(BlocksOf(rs)) == Kept(rs)
  {
    PackKeeps(rs);
    CloseKeeps(Pack(rs));
  }

  /** Every block is within the size limit. */
  lemma {:induction false} PackFits(rs: seq<LogRecord>)
    ensures |Stored(Pack(rs).open)| <= BLOCK_SIZE
    ensures forall b :: b in Pack(rs).closed ==> |Stored(b)| <= BLOCK_SIZE
  {
    if rs != [] {
      var p, r := Pack(rs[..|rs| - 1]), rs[|rs| - 1];
      PackFits(rs[..|rs| - 1]);
      StoredAppend(p.open, [r]);
      assert Stored([r]) == RecordBytes(r) + [];
    }
  }

  lemma OpenFits(rs: seq<LogRecord>)
    ensures |Stored(Pack(rs).open)| <= BLOCK_SIZE
  {
    PackFits(rs);
  }

  lemma BlocksFit(rs: seq<LogRecord>)
    ensures forall b :: b in BlocksOf(rs) ==> |Stored(b)| <= 4096
  {
    PackFits(rs);
  }

  // ---------- where the blocks are cut ----------

  /** A block ends because the next record does not fit it, or because a record larger than a block was added there. */
  ghost predicate CutAt(rs: seq<LogRecord>, blocks: seq<Block>, i: nat)
    requires i + 1 < |blocks|
  {
    |Stored(blocks[i])| + |RecordBytes(blocks[i + 1][0])| > 4096 || LargeAfter(rs, Flatten(blocks[..i + 1]))
  }

  /** A record of more than 4096 bytes was added right behind these. */
  ghost predicate LargeAfter(rs: seq<LogRecord>, before: seq<LogRecord>)
  {
    exists p :: 0 <= p < |rs| && LargeAt(rs, p, before)
  }

  ghost predicate LargeAt(rs: seq<LogRecord>, p: nat, before: seq<LogRecord>)
    requires p < |rs|
  {
    |RecordBytes(rs[p])| > 4096 && Kept(rs[..p]) == before
  }

  ghost predicate Cuts(rs: seq<LogRecord>, blocks: seq<Block>)
  {
    forall i: nat :: i + 1 < |blocks| ==> CutAt(rs, blocks, i)
  }

  lemma LargeStays(rs: seq<LogRecord>, r: LogRecord, before: seq<LogRecord>)
    requires LargeAfter(rs, before)
    ensures LargeAfter(rs + [r], before)
  {
    var p :| 0 <= p < |rs| && LargeAt(rs, p, before);
    assert (rs + [r])[..p] == rs[..p];
    assert LargeAt(rs + [r], p, before);
  }

  lemma CutsStay(rs: seq<LogRecord>, r: LogRecord, blocks: seq<Block>)
    requires Cuts(rs, blocks)
    ensures Cuts(rs + [r], blocks)
  {
    forall i: nat | i + 1 < |blocks| ensures CutAt(rs + [r], blocks, i) {
      assert CutAt(rs, blocks, i);
      if LargeAfter(rs, Flatten(blocks[..i + 1])) { LargeStays(rs, r, Flatten(blocks[..i + 1])); }
    }
  }

  /** One more block, behind one that ends for a reason. */
  lemma CutsNext(rs: seq<LogRecord>, blocks: seq<Block>, b: Block)
    requires Cuts(rs, blocks)
    requires blocks != [] ==> |Stored(blocks[|blocks| - 1])| + |RecordBytes(b[0])| > 4096 || LargeAfter(rs, Flatten(blocks))
    ensures Cuts(rs, blocks + [b])
  {
    var all := blocks + [b];
    forall i: nat | i + 1 < |all| ensures CutAt(rs, all, i) {
      assert all[..i + 1] == blocks[..i + 1];
      if i + 1 < |blocks| {
        assert CutAt(rs, blocks, i);
      } else {
        assert blocks[..i + 1] == blocks;
      }
    }
  }

  /** A longer last block. */
  lemma CutsLonger(rs: seq<LogRecord>, blocks: seq<Block>, b: Block, c: Block)
    requires Cuts(rs, blocks + [b]) && c[0] == b[0]
    ensures Cuts(rs, blocks + [c])
  {
    var was, all := blocks + [b], blocks + [c];
    forall i: nat | i + 1 < |all| ensures CutAt(rs, all, i) {
      assert CutAt(rs, was, i) && all[..i + 1] == was[..i + 1];
    }
  }

  /** While packing, the closed blocks and the open one are cut so; with nothing open a large record was the last. */
  ghost predicate PackedSo(rs: seq<LogRecord>, p: Packing)
  {
    Cuts(rs, Close(p).closed) && (p.open == [] && p.closed != [] ==> LargeAfter(rs, Flatten(p.closed)))
  }

  lemma {:induction false} PackCuts(rs: seq<LogRecord>)
    ensures PackedSo(rs, Pack(rs))
  {
    if rs != [] {
      var front, r := rs[..|rs| - 1], rs[|rs| - 1];
      PackCuts(front);
      PackKeeps(front);
      PackFits(front);
      assert rs == front + [r];
      PackOneCuts(front, Pack(front), r);
    }
  }

  lemma PackOneCuts(front: seq<LogRecord>, p: Packing, r: LogRecord)
    requires PackedSo(front, p) && Flatten(p.closed) + p.open == Kept(front) && |Stored(p.open)| <= 4096
    ensures PackedSo(front + [r], PackOne(p, r))
  {
    var closed := Close(p).closed;
    CutsStay(front, r, closed);
    CloseKeeps(p);
    if |RecordBytes(r)| > 4096 {
      assert (front + [r])[..|front|] == front;
      assert Flatten(closed) + [] == Flatten(closed);
      assert LargeAt(front + [r], |front|, Flatten(closed));
    } else if p.open != [] && |Stored(p.open)| + |RecordBytes(r)| <= 4096 {
      CutsLonger(front + [r], p.closed, p.open, p.open + [r]);
    } else {
      if p.open == [] && p.closed != [] { LargeStays(front, r, Flatten(p.closed)); }
      assert [] + [r] == [r];
      CutsNext(front + [r], closed, [r]);
    }
  }

  /** Two consecutive blocks are never cut where the next record would still have fitted, unless a record of more
      than 4096 bytes was added between them. */
  lemma BlocksGreedy(rs: seq<LogRecord>)
    ensures Cuts(rs, BlocksOf(rs))
  {
    PackCuts(rs);
  }

  /** A cut of some records into blocks of at most 4096 bytes, none of them left too early. */
  ghost predicate GreedyCut(rs: seq<LogRecord>, blocks: seq<Block>)
  {
    && Flatten(blocks) == rs && (forall b :: b in blocks ==> |Stored(b)| <= 4096)
    && forall i: nat :: i + 1 < |blocks| ==> |Stored(blocks[i])| + |RecordBytes(blocks[i + 1][0])| > 4096
  }

  /** There is only one such cut. */
  lemma {:induction false} CutIsUnique(rs: seq<LogRecord>, a: seq<Block>, b: seq<Block>)
    requires GreedyCut(rs, a) && GreedyCut(rs, b)
    ensures a == b
    decreases |a|
  {
    EmptyCut(rs, a);
    EmptyCut(rs, b);
    if a != [] && b != [] {
      FirstBlocks(rs, a, b);
      FirstBlocks(rs, b, a);
      CutRest(rs, a);
      CutRest(rs, b);
      CutIsUnique(rs[|a[0]|..], a[1..], b[1..]);
    }
  }

  lemma EmptyCut(rs: seq<LogRecord>, a: seq<Block>)
    requires Flatten(a) == rs
    ensures rs == [] <==> a == []
  {
    if a != [] { assert Flatten(a)[0] == a[0][0]; }
  }

  lemma CutRest(rs: seq<LogRecord>, a: seq<Block>)
    requires GreedyCut(rs, a) && a != []
    ensures |a[0]| <= |rs| && a[0] == rs[..|a[0]|] && GreedyCut(rs[|a[0]|..], a[1..])
  {
    var rest := a[1..];
    forall i: nat | i + 1 < |rest| ensures |Stored(rest[i])| + |RecordBytes(rest[i + 1][0])| > 4096 {
      assert rest[i] == a[i + 1] && rest[i + 1] == a[i + 1 + 1];
    }
  }

  /** The first block and one more record are too large for a block. */
  lemma NextTooLarge(rs: seq<LogRecord>, a: seq<Block>)
    requires GreedyCut(rs, a) && a != [] && |a[0]| < |rs|
    ensures |Stored(rs[..|a[0]| + 1])| > 4096
  {
    var n := |a[0]|;
    CutRest(rs, a);
    EmptyCut(rs[n..], a[1..]);
    assert a[1..][0] == a[1] && Flatten(a[1..])[0] == a[1][0];
    assert rs[..n + 1] == a[0] + [a[1][0]];
    StoredLast(a[0], a[1][0]);
  }

  lemma StoredPrefix(rs: seq<LogRecord>, i: nat, j: nat)
    requires i <= j <= |rs|
    ensures |Stored(rs[..i])| <= |Stored(rs[..j])|
  {
    assert rs[..j] == rs[..i] + rs[i..j];
    StoredAppend(rs[..i], rs[i..j]);
  }

  lemma FirstBlocks(rs: seq<LogRecord>, a: seq<Block>, b: seq<Block>)
    requires GreedyCut(rs, a) && GreedyCut(rs, b) && a != [] && b != []
    ensures |a[0]| >= |b[0]|
  {
    CutRest(rs, a);
    CutRest(rs, b);
    if |a[0]| < |b[0]| {
      NextTooLarge(rs, a);
      StoredPrefix(rs, |a[0]| + 1, |b[0]|);
    }
  }

  /** Records of at most 4096 bytes each are cut in exactly this way. */
  lemma BlocksAreGreedy(rs: seq<LogRecord>)
    requires forall r :: r in rs ==> |RecordBytes(r)| <= 4096
    ensures GreedyCut(rs, BlocksOf(rs))
  {
    var blocks := BlocksOf(rs);
    BlocksGreedy(rs);
    BlocksKeep(rs);
    BlocksFit(rs);
    KeptFit(rs);
    forall i: nat | i + 1 < |blocks| ensures |Stored(blocks[i])| + |RecordBytes(blocks[i + 1][0])| > 4096 {
      assert CutAt(rs, blocks, i);
    }
  }

  /** Records of at most 4096 bytes in all form one block. */
  lemma OneBlock(rs: seq<LogRecord>)
    requires rs != [] && |Stored(rs)| <= 4096
    ensures BlocksOf(rs) == [rs]
  {
    var whole: seq<Block> := [rs];
    EachStored(rs);
    BlocksAreGreedy(rs);
    assert whole[1..] == [] && rs + [] == rs;
    CutIsUnique(rs, BlocksOf(rs), whole);
  }

  lemma {:induction false} EachStored(rs: seq<LogRecord>)
    ensures forall r :: r in rs ==> |RecordBytes(r)| <= |Stored(rs)|
  {
    if rs != [] { EachStored(rs[1..]); }
  }

  lemma {:induction false} KeptFit(rs: seq<LogRecord>)
    ensures forall r :: r in Kept(rs) ==> FitsBlock(r) && r in rs
    ensures (forall r :: r in rs ==> FitsBlock(r)) ==> Kept(rs) == rs
  {
    if rs != [] {
      var front, last := rs[..|rs| - 1], rs[|rs| - 1];
      KeptFit(front);
      assert rs == front + [last];
    }
  }

  lemma {:induction false} KeptSorted(rs: seq<LogRecord>)
    requires SortedByKey(rs)
    ensures SortedByKey(Kept(rs))
  {
    if rs != [] {
      var front, last := rs[..|rs| - 1], rs[|rs| - 1];
      SortedFront(rs);
      KeptSorted(front);
      KeptFit(front);
      SortedEnd(Kept(front), last);
    }
  }

  lemma SortedFront(rs: seq<LogRecord>)
    requires SortedByKey(rs) && rs != []
    ensures SortedByKey(rs[..|rs| - 1])
    ensures forall q :: q in rs[..|rs| - 1] ==> !Less(rs[|rs| - 1].key, q.key)
  {
  }

  lemma SortedEnd(rs: seq<LogRecord>, last: LogRecord)
    requires SortedByKey(rs) && forall q :: q in rs ==> !Less(last.key, q.key)
    ensures SortedByKey(rs + [last]) && rs + [] == rs
  {
    forall i, j | 0 <= i < j < |rs + [last]| ensures !Less((rs + [last])[j].key, (rs + [last])[i].key) {
      assert rs[i] in rs;
    }
  }

  /** The first version of a key is kept first if it fits a block; otherwise another one, or none, is. */
  lemma {:induction false} KeptFirst(rs: seq<LogRecord>, key: seq<byte>)
    ensures var first := FirstWithKey(rs, key);
            FirstWithKey(Kept(rs), key) == first <==> first.None? || FitsBlock(first.value)
  {
    if rs != [] {
      var front, last := rs[..|rs| - 1], rs[|rs| - 1];
      KeptFirst(front, key);
      assert rs == front + [last] && FirstWithKey([last], key) == if last.key == key then Some(last) else None;
      FirstInAppend(front, [last], key);
      FirstInAppend(Kept(front), if FitsBlock(last) then [last] else [], key);
      KeptFit(rs);
      KeptFit(front);
    }
  }

  function Keys(rs: seq<LogRecord>): (keys: seq<seq<byte>>)
    ensures |keys| == |rs| && forall i :: 0 <= i < |rs| ==> keys[i] == rs[i].key
  {
    seq(|rs|, i requires 0 <= i < |rs| => rs[i].key)
  }

  /** The finished table of a list of records, with the filter that was filled along the way. */
  function TableOf(rs: seq<LogRecord>, bitSize: nat, hashes: nat, bits: seq<byte>): Table
  {
    Table(BlocksOf(rs), bitSize, hashes, bits, if rs == [] then [] else rs[0].key, if rs == [] then [] else rs[|rs| - 1].key)
  }

  /** The key range of a table begins with the first key added and ends with the last. */
  lemma KeyRange(rs: seq<LogRecord>, bitSize: nat, hashes: nat, bits: seq<byte>)
    requires rs != []
    ensures TableOf(rs, bitSize, hashes, bits).minKey == rs[0].key && TableOf(rs, bitSize, hashes, bits).maxKey == rs[|rs| - 1].key
  {
  }

  class BlockBuilder {
    var buffer: seq<byte>

    constructor ()
      ensures buffer == []
    {
      buffer := [];
    }

    /** Appends the record if it fits. */
    method Add(r: LogRecord) returns (ok: bool)
      modifies this
      ensures ok == (|old(buffer)| + 13 + |r.key| + |r.value| + |PointerBytes(r)| <= 4096)
      ensures buffer == if ok then old(buffer) + RecordBytes(r) else old(buffer)
    {
      var pointer := PointerBytes(r);
      var requiredSpace := 13 + |r.key| + |r.value| + |pointer|;
      if |buffer| + requiredSpace > BLOCK_SIZE { return false; }
      var out := [r.kind];
      out := out + Int32Bytes(|r.key|);
      out := out + Int32Bytes(|r.value|);
      out := out + Int32Bytes(|pointer|);
      if |r.key| > 0 { out := out + r.key; }
      if |r.value| > 0 { out := out + r.value; }
      if |pointer| > 0 { out := out + pointer; }
      assert out == RecordBytes(r);
      buffer := buffer + out;
      return true;
    }

    method Reset()
      modifies this
      ensures buffer == []
    {
      buffer := [];
    }
  }

  class SSTableBuilder {
    const dataBlockBuilder: BlockBuilder
    const bloomFilter: Filter.BloomFilter
    var memIndex: seq<IndexEntry>
    var minKey: seq<byte>
    var maxKey: seq<byte>
    var lastKey: seq<byte>
    var hasMinKey: bool
    var currentOffset: nat
    var file: seq<byte>
    ghost var added: seq<LogRecord>

    /** The fields describe the packing of the added records. */
    ghost predicate Packed(p: Packing)
      reads this`file, this`currentOffset, this`memIndex, this`lastKey, dataBlockBuilder
    {
      && dataBlockBuilder.buffer == Stored(p.open)
      && file == Stored(Flatten(p.closed)) && currentOffset == |file|
      && memIndex == Entries(p.closed)
      && (p.open != [] ==> lastKey == p.open[|p.open| - 1].key)
    }

    /** The filter and the key range describe all added records, dropped ones included. */
    ghost predicate Summarised(rs: seq<LogRecord>)
      reads this`hasMinKey, this`minKey, this`maxKey, bloomFilter
    {
      && bloomFilter.Valid()
      && Filter.Represents(bloomFilter.bits, bloomFilter.bitSize, bloomFilter.numHashFunctions, Keys(rs))
      && hasMinKey == (rs != [])
      && minKey == (if rs == [] then [] else rs[0].key)
      && maxKey == (if rs == [] then [] else rs[|rs| - 1].key)
    }

    ghost predicate Valid()
      reads this, dataBlockBuilder, bloomFilter
    {
      Packed(Pack(added)) && Summarised(added)
    }

    constructor (bitSize: nat, numHashFunctions: nat)
      requires 0 < bitSize < TWO_31 && numHashFunctions < TWO_31
      ensures Valid() && added == [] && fresh(dataBlockBuilder) && fresh(bloomFilter)
      ensures bloomFilter.bitSize == bitSize && bloomFilter.numHashFunctions == numHashFunctions
    {
      dataBlockBuilder := new BlockBuilder();
      bloomFilter := new Filter.BloomFilter(bitSize, numHashFunctions);
      memIndex, minKey, maxKey, lastKey, hasMinKey, currentOffset, file, added := [], [], [], [], false, 0, [], [];
      new;
      assert Keys([]) == [];
      assert Entries([]) == [];
    }

    method Add(r: LogRecord)
      requires Valid()
      modifies this, dataBlockBuilder, bloomFilter
      ensures Valid() && added == old(added) + [r]
    {
      OpenFits(added);
      SummariseAndPack(r, added, Pack(added));
      AddedOne(added, r);
      added := added + [r];
    }

    method SummariseAndPack(r: LogRecord, ghost rs: seq<LogRecord>, ghost p: Packing)
      requires Summarised(rs) && Packed(p) && |Stored(p.open)| <= BLOCK_SIZE
      modifies this`memIndex, this`file, this`currentOffset, this`lastKey, dataBlockBuilder
      modifies this`minKey, this`maxKey, this`hasMinKey, bloomFilter
      ensures Summarised(rs + [r]) && Packed(PackOne(p, r))
    {
      Summarise(r, rs);
      AddToBlock(r, p);
    }

    method Summarise(r: LogRecord, ghost rs: seq<LogRecord>)
      requires Summarised(rs)
      modifies this`minKey, this`maxKey, this`hasMinKey, bloomFilter
      ensures Summarised(rs + [r])
    {
      AddedOne(rs, r);
      if !hasMinKey {
        minKey := r.key;
        hasMinKey := true;
      }
      maxKey := r.key;
      bloomFilter.Add(r.key, Keys(rs));
    }

    /** Packs the record into the open block or, closing that, into a new one. */
    method AddToBlock(r: LogRecord, ghost p: Packing)
      requires Packed(p) && |Stored(p.open)| <= BLOCK_SIZE
      modifies this`memIndex, this`file, this`currentOffset, this`lastKey, dataBlockBuilder
      ensures Packed(PackOne(p, r))
    {
      StoredLast(p.open, r);
      StoredLast([], r);
      var ok := dataBlockBuilder.Add(r);
      if !ok {
        FlushDataBlock(p);
        var fits := dataBlockBuilder.Add(r);
      }
      lastKey := r.key;
    }

    method FlushDataBlock(ghost p: Packing)
      requires Packed(p)
      modifies this`memIndex, this`file, this`currentOffset, dataBlockBuilder
      ensures Packed(Close(p)) && dataBlockBuilder.buffer == []
    {
      if dataBlockBuilder.buffer == [] {
        StoredGrows(p.open);
        return;
      }
      memIndex := memIndex + [IndexEntry(lastKey, currentOffset)];
      WriteRaw(dataBlockBuilder.buffer);
      dataBlockBuilder.Reset();
      FlattenLast(p.closed, p.open);
      StoredAppend(Flatten(p.closed), p.open);
      EntriesLast(p.closed, p.open);
    }

    method WriteRaw(data: seq<byte>)
      modifies this`file, this`currentOffset
      ensures file == old(file) + data && currentOffset == old(currentOffset) + |data|
    {
      file := file + data;
      currentOffset := currentOffset + |data|;
    }

    method WriteKeyWithLength(key: seq<byte>)
      modifies this`file, this`currentOffset
      ensures file == old(file) + KeyBytes(key) && currentOffset == old(currentOffset) + |KeyBytes(key)|
    {
      var buf := Int32Bytes(|key|);
      buf := buf + key;
      WriteRaw(buf);
    }

    /** Writes the rest of the file, which is then the table of the added records. */
    method Finish()
      requires Valid()
      modifies this, dataBlockBuilder
      ensures added == old(added)
      ensures file == TableBytes(TableOf(added, bloomFilter.bitSize, bloomFilter.numHashFunctions, bloomFilter.bits))
    {
      ghost var t := TableOf(added, bloomFilter.bitSize, bloomFilter.numHashFunctions, bloomFilter.bits);
      FlushDataBlock(Pack(added));
      WriteTail(t);
    }

    /** Filter, index, key range and footer after the data section. */
    method WriteTail(ghost t: Table)
      requires file == Data(t) && currentOffset == |file| && memIndex == Entries(t.blocks)
      requires minKey == t.minKey && maxKey == t.maxKey && bloomFilter.Valid()
      requires bloomFilter.bitSize == t.bitSize && bloomFilter.numHashFunctions == t.hashes && bloomFilter.bits == t.bits
      modifies this`file, this`currentOffset
      ensures file == TableBytes(t)
    {
      TableInOrder(t);
      var filterOffset := currentOffset;
      var filterBytes := bloomFilter.Serialize();
      WriteRaw(filterBytes);
      var indexBlockOffset := currentOffset;
      assert indexBlockOffset == IndexAt(t);
      var indexBuf := BuildIndex();
      WriteRaw(indexBuf);
      var minKeyOffset := currentOffset;
      assert minKeyOffset == MinKeyAt(t);
      WriteKeyWithLength(minKey);
      var maxKeyOffset := currentOffset;
      assert maxKeyOffset == MaxKeyAt(t);
      WriteKeyWithLength(maxKey);
      WriteRaw(FooterBytes(filterOffset, indexBlockOffset, minKeyOffset, maxKeyOffset));
    }

    method BuildIndex() returns (indexBuf: seq<byte>)
      ensures indexBuf == IndexBytes(memIndex)
    {
      indexBuf := [];
      for i := 0 to |memIndex|
        invariant indexBuf == IndexBytes(memIndex[..i])
      {
        var entry := memIndex[i];
        IndexLast(memIndex[..i], entry);
        assert memIndex[..i + 1] == memIndex[..i] + [entry];
        Regroup4(indexBuf, Int32Bytes(|entry.maxKey|), entry.maxKey, Int32Bytes(8), Int64Bytes(entry.blockOffset));
        indexBuf := indexBuf + Int32Bytes(|entry.maxKey|);
        indexBuf := indexBuf + entry.maxKey;
        indexBuf := indexBuf + Int32Bytes(8);
        indexBuf := indexBuf + Int64Bytes(entry.blockOffset);
      }
      assert memIndex[..|memIndex|] == memIndex;
    }
  }

  lemma AddedOne(before: seq<LogRecord>, r: LogRecord)
    ensures Pack(before + [r]) == PackOne(Pack(before), r) && Keys(before + [r]) == Keys(before) + [r.key]
  {
    var after := before + [r];
    assert after[..|after| - 1] == before && after[|after| - 1] == r;
  }

  lemma StoredLast(rs: seq<LogRecord>, r: LogRecord)
    ensures Stored(rs + [r]) == Stored(rs) + RecordBytes(r)
    ensures [] + [r] == [r]
  {
    StoredAppend(rs, [r]);
    assert Stored([r]) == RecordBytes(r) + [];
  }

  lemma Regroup4(z: seq<byte>, a: seq<byte>, b: seq<byte>, c: seq<byte>, d: seq<byte>)
    ensures z + a + b + c + d == z + (a + (b + (c + d)))
  {
  }

  lemma EntriesLast(blocks: seq<Block>, b: Block)
    ensures Entries(blocks + [b]) == Entries(blocks) + [IndexEntry(MaxKey(b), |Stored(Flatten(blocks))|)]
  {
    var all := blocks + [b];
    forall i | 0 <= i < |blocks| ensures EntryOf(all, i) == EntryOf(blocks, i) {
      assert all[..i] == blocks[..i];
    }
    assert all[..|blocks|] == blocks;
  }

  lemma {:induction false} IndexLast(entries: seq<IndexEntry>, e: IndexEntry)
    ensures IndexBytes(entries + [e]) == IndexBytes(entries) + EntryBytes(e)
  {
    if entries == [] {
      assert [e][1..] == [];
    } else {
      assert (entries + [e])[1..] == entries[1..] + [e];
      IndexLast(entries[1..], e);
    }
  }

  lemma TableInOrder(t: Table)
    ensures TableBytes(t) == Data(t) + FilterBytes(t) + IndexBytes(Entries(t.blocks)) + KeyBytes(t.minKey) + KeyBytes(t.maxKey) + FooterOf(t)
  {
    Regroup(Data(t), FilterBytes(t), IndexBytes(Entries(t.blocks)), KeyBytes(t.minKey), KeyBytes(t.maxKey), FooterOf(t));
  }

  lemma Regroup(a: seq<byte>, b: seq<byte>, c: seq<byte>, d: seq<byte>, e: seq<byte>, f: seq<byte>)
    ensures a + b + c + d + e + f == a + (b + (c + (d + (e + f))))
  {
  }
}
