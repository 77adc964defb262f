/** The bytes of an SSTable: data blocks, Bloom filter, sparse index, key range and footer, and how a
    reader finds each of them again. */
module TableFormat {
  import opened Bytes
  import opened Records
  import opened RecordLayout
  import opened FrameLog
  import opened SparseIndex
  import Filter = BloomFilter

  const BLOCK_SIZE: nat := 4096
  const FOOTER_LENGTH: nat := 40
  const MAGIC_NUMBER: int := 0x4361_7269_6E61_4442

  datatype IndexEntry = IndexEntry(maxKey: seq<byte>, blockOffset: nat)

  datatype Table = Table(blocks: seq<Block>, bitSize: nat, hashes: nat, bits: seq<byte>,
                         minKey: seq<byte>, maxKey: seq<byte>)

  /** Records one after another, as a data block stores them. */
  function Stored(rs: seq<LogRecord>): seq<byte>
  {
    if rs == [] then [] else RecordBytes(rs[0]) + Stored(rs[1..])
  }

  function Data(t: Table): seq<byte>
  {
    Stored(Flatten(t.blocks))
  }

  /** Where block `i` begins. */
  function OffsetOf(blocks: seq<Block>, i: nat): nat
    requires i <= |blocks|
  {
    |Stored(Flatten(blocks[..i]))|
  }

  function EntryOf(blocks: seq<Block>, i: nat): IndexEntry
    requires i < |blocks|
  {
    IndexEntry(MaxKey(blocks[i]), OffsetOf(blocks, i))
  }

  function Entries(blocks: seq<Block>): (s: seq<IndexEntry>)
    ensures |s| == |blocks| && forall i :: 0 <= i < |blocks| ==> s[i] == EntryOf(blocks, i)
  {
    seq(|blocks|, i requires 0 <= i < |blocks| => EntryOf(blocks, i))
  }

  function EntryBytes(e: IndexEntry): seq<byte>
  {
    Int32Bytes(|e.maxKey|) + (e.maxKey + (Int32Bytes(8) + Int64Bytes(e.blockOffset)))
  }

  function IndexBytes(entries: seq<IndexEntry>): seq<byte>
  {
    if entries == [] then [] else EntryBytes(entries[0]) + IndexBytes(entries[1..])
  }

  function KeyBytes(key: seq<byte>): seq<byte>
  {
    Int32Bytes(|key|) + key
  }

  function FooterBytes(filterAt: int, indexAt: int, minKeyAt: int, maxKeyAt: int): (s: seq<byte>)
    ensures |s| == FOOTER_LENGTH
  {
    Int64Bytes(filterAt) + (Int64Bytes(indexAt) + (Int64Bytes(minKeyAt) + (Int64Bytes(maxKeyAt) + Int64Bytes(MAGIC_NUMBER))))
  }

  function FilterBytes(t: Table): seq<byte>
  {
    Filter.Serialized(t.bitSize, t.hashes, t.bits)
  }

  function FilterAt(t: Table): nat
  {
    |Data(t)|
  }

  function IndexAt(t: Table): nat
  {
    FilterAt(t) + |FilterBytes(t)|
  }

  function MinKeyAt(t: Table): nat
  {
    IndexAt(t) + |IndexBytes(Entries(t.blocks))|
  }

  function MaxKeyAt(t: Table): nat
  {
    MinKeyAt(t) + |KeyBytes(t.minKey)|
  }

  function FooterOf(t: Table): (s: seq<byte>)
    ensures |s| == FOOTER_LENGTH
  {
    FooterBytes(FilterAt(t), IndexAt(t), MinKeyAt(t), MaxKeyAt(t))
  }

  function TableBytes(t: Table): seq<byte>
  {
    Data(t) + (FilterBytes(t) + (IndexBytes(Entries(t.blocks)) + (KeyBytes(t.minKey) + (KeyBytes(t.maxKey) + FooterOf(t)))))
  }

  /** Everything fits the field that stores it. */
  ghost predicate WellFormed(t: Table)
  {
    && (forall r :: r in Flatten(t.blocks) ==> |RecordBytes(r)| <= BLOCK_SIZE)
    && 0 < t.bitSize < TWO_31 && t.hashes < TWO_31 && t.bitSize <= 8 * |t.bits|
    && |t.minKey| < TWO_31 && |t.maxKey| < TWO_31
    && |TableBytes(t)| < TWO_63
  }

  // ---------- reading fields where they stand ----------

  lemma SmallInt64(v: int)
    requires -TWO_63 <= v < TWO_63
    ensures ToInt64(v) == v
  {
    ModUnique(v, if v < 0 then -1 else 0, TWO_64, if v < 0 then v + TWO_64 else v);
  }

  lemma ReadInt64(file: seq<byte>, pos: nat, v: int)
    requires StandsAt(file, pos, Int64Bytes(v)) && -TWO_63 <= v < TWO_63
    ensures Int64At(file, pos) == v
  {
    SplitAround(file, pos, Int64Bytes(v));
    Int64RoundTrip(v, file[..pos], file[pos + 8..]);
    SmallInt64(v);
  }

  /** The fields of a record stand at a position. */
  ghost predicate PartsAt(file: seq<byte>, pos: nat, r: LogRecord)
  {
    var k := pos + FIXED; var v := k + |r.key|; var q := v + |r.value|;
    && q + |PointerBytes(r)| <= |file|
    && file[pos] == r.kind
    && Int32At(file, pos + 1) == |r.key| && Int32At(file, pos + 5) == |r.value| && Int32At(file, pos + 9) == |PointerBytes(r)|
    && file[k..v] == r.key && file[v..q] == r.value && file[q..q + |PointerBytes(r)|] == PointerBytes(r)
  }

  lemma RecordParts(file: seq<byte>, pos: nat, r: LogRecord)
    requires StandsAt(file, pos, RecordBytes(r)) && Encodable(r)
    ensures PartsAt(file, pos, r)
  {
    SplitAround(file, pos, RecordBytes(r));
    LengthFields(file[..pos], r, file[pos + |RecordBytes(r)|..]);
    RecordSlices(file[..pos], r, file[pos + |RecordBytes(r)|..]);
  }

  lemma RecordSlices(pre: seq<byte>, r: LogRecord, post: seq<byte>)
    ensures var s := pre + RecordBytes(r) + post; var k := |pre| + FIXED; var v := k + |r.key|; var q := v + |r.value|;
            s[|pre|] == r.kind && s[k..v] == r.key && s[v..q] == r.value && s[q..q + |PointerBytes(r)|] == PointerBytes(r)
  {
  }

  lemma ReadKey(file: seq<byte>, pos: nat, key: seq<byte>)
    requires StandsAt(file, pos, KeyBytes(key)) && |key| < TWO_31
    ensures Int32At(file, pos) == |key| && file[pos + 4..pos + 4 + |key|] == key
  {
    SplitFront(file, pos, Int32Bytes(|key|), key);
    LengthBefore(file, pos, key);
  }

  lemma FourParts(file: seq<byte>, pos: nat, a: seq<byte>, b: seq<byte>, c: seq<byte>, d: seq<byte>)
    requires StandsAt(file, pos, a + (b + (c + d)))
    ensures StandsAt(file, pos, a) && StandsAt(file, pos + |a|, b)
    ensures StandsAt(file, pos + |a| + |b|, c) && StandsAt(file, pos + |a| + |b| + |c|, d)
  {
    SplitFront(file, pos, a, b + (c + d));
    SplitFront(file, pos + |a|, b, c + d);
    SplitFront(file, pos + |a| + |b|, c, d);
  }

  lemma ReadEntry(file: seq<byte>, pos: nat, e: IndexEntry)
    requires StandsAt(file, pos, EntryBytes(e)) && |e.maxKey| < TWO_31 && e.blockOffset < TWO_63
    ensures var k := pos + 4 + |e.maxKey|;
            && Int32At(file, pos) == |e.maxKey| && file[pos + 4..k] == e.maxKey
            && k + 12 <= |file| && Int64At(file, k + 4) == e.blockOffset
  {
    FourParts(file, pos, Int32Bytes(|e.maxKey|), e.maxKey, Int32Bytes(8), Int64Bytes(e.blockOffset));
    var k := pos + 4 + |e.maxKey|;
    LengthBefore(file, pos, e.maxKey);
    ReadInt64(file, k + 4, e.blockOffset);
  }

  lemma LengthBefore(file: seq<byte>, pos: nat, key: seq<byte>)
    requires StandsAt(file, pos, Int32Bytes(|key|)) && StandsAt(file, pos + 4, key) && |key| < TWO_31
    ensures Int32At(file, pos) == |key| && file[pos + 4..pos + 4 + |key|] == key
  {
    ReadInt32(file, pos, |key|);
  }

  ghost predicate FooterStands(file: seq<byte>, pos: nat, filterAt: int, indexAt: int, minKeyAt: int, maxKeyAt: int)
  {
    && pos + FOOTER_LENGTH <= |file|
    && Int64At(file, pos) == filterAt && Int64At(file, pos + 8) == indexAt
    && Int64At(file, pos + 16) == minKeyAt && Int64At(file, pos + 24) == maxKeyAt
    && Int64At(file, pos + 32) == MAGIC_NUMBER
  }

  lemma ReadFooter(file: seq<byte>, pos: nat, a: nat, b: nat, c: nat, d: nat)
    requires a < TWO_63 && b < TWO_63 && c < TWO_63 && d < TWO_63
    requires StandsAt(file, pos, FooterBytes(a, b, c, d))
    ensures FooterStands(file, pos, a, b, c, d)
  {
    var m := Int64Bytes(MAGIC_NUMBER);
    SplitFront(file, pos, Int64Bytes(a), Int64Bytes(b) + (Int64Bytes(c) + (Int64Bytes(d) + m)));
    SplitFront(file, pos + 8, Int64Bytes(b), Int64Bytes(c) + (Int64Bytes(d) + m));
    SplitFront(file, pos + 16, Int64Bytes(c), Int64Bytes(d) + m);
    SplitFront(file, pos + 24, Int64Bytes(d), m);
    ReadInt64(file, pos, a);
    ReadInt64(file, pos + 8, b);
    ReadInt64(file, pos + 16, c);
    ReadInt64(file, pos + 24, d);
    ReadInt64(file, pos + 32, MAGIC_NUMBER);
  }

  /** Each part of the table stands where the offsets say. */
  lemma Sections(t: Table)
    ensures var file := TableBytes(t);
            && StandsAt(file, 0, Data(t)) && StandsAt(file, FilterAt(t), FilterBytes(t))
            && StandsAt(file, IndexAt(t), IndexBytes(Entries(t.blocks)))
            && StandsAt(file, MinKeyAt(t), KeyBytes(t.minKey)) && StandsAt(file, MaxKeyAt(t), KeyBytes(t.maxKey))
            && |file| == MaxKeyAt(t) + |KeyBytes(t.maxKey)| + FOOTER_LENGTH
            && StandsAt(file, |file| - FOOTER_LENGTH, FooterOf(t))
  {
    var file := TableBytes(t);
    FiveParts(file, Data(t), FilterBytes(t), IndexBytes(Entries(t.blocks)), KeyBytes(t.minKey), KeyBytes(t.maxKey), FooterOf(t));
  }

  lemma FiveParts(file: seq<byte>, a: seq<byte>, b: seq<byte>, c: seq<byte>, d: seq<byte>, e: seq<byte>, f: seq<byte>)
    requires file == a + (b + (c + (d + (e + f))))
    ensures StandsAt(file, 0, a) && StandsAt(file, |a|, b) && StandsAt(file, |a| + |b|, c)
    ensures StandsAt(file, |a| + |b| + |c|, d) && StandsAt(file, |a| + |b| + |c| + |d|, e)
    ensures |file| == |a| + |b| + |c| + |d| + |e| + |f| && StandsAt(file, |file| - |f|, f)
  {
    assert StandsAt(file, 0, a + (b + (c + (d + (e + f)))));
    SplitFront(file, 0, a, b + (c + (d + (e + f))));
    SplitFront(file, |a|, b, c + (d + (e + f)));
    SplitFront(file, |a| + |b|, c, d + (e + f));
    SplitFront(file, |a| + |b| + |c|, d, e + f);
    SplitFront(file, |a| + |b| + |c| + |d|, e, f);
  }

  // ---------- blocks ----------

  lemma {:induction false} StoredAppend(a: seq<LogRecord>, b: seq<LogRecord>)
    ensures Stored(a + b) == Stored(a) + Stored(b)
  {
    if a == [] {
      assert a + b == b;
    } else {
      assert (a + b)[1..] == a[1..] + b;
      StoredAppend(a[1..], b);
    }
  }

  /** The blocks tile the data section: block `i` stands at its offset and ends where the next begins,
      the last one where the filter begins. */
  lemma BlockStands(t: Table, i: nat)
    requires i < |t.blocks|
    ensures StandsAt(Data(t), OffsetOf(t.blocks, i), Stored(t.blocks[i]))
    ensures OffsetOf(t.blocks, i) + |Stored(t.blocks[i])| == OffsetOf(t.blocks, i + 1)
    ensures OffsetOf(t.blocks, 0) == 0 && OffsetOf(t.blocks, |t.blocks|) == FilterAt(t)
  {
    var blocks := t.blocks;
    var a, b, c := Flatten(blocks[..i]), blocks[i], Flatten(blocks[i + 1..]);
    SplitAt(blocks, i);
    StoredAppend(a + b, c);
    StoredAppend(a, b);
    MiddleStands(Stored(a), Stored(b), Stored(c));
    NextOffset(blocks, i);
    assert blocks[..|blocks|] == blocks;
  }

  lemma MiddleStands(a: seq<byte>, b: seq<byte>, c: seq<byte>)
    ensures StandsAt(a + b + c, |a|, b)
  {
    assert (a + b + c)[|a|..|a| + |b|] == b;
  }

  lemma NextOffset(blocks: seq<Block>, i: nat)
    requires i < |blocks|
    ensures OffsetOf(blocks, i) + |Stored(blocks[i])| == OffsetOf(blocks, i + 1)
  {
    assert blocks[..i + 1] == blocks[..i] + [blocks[i]];
    FlattenLast(blocks[..i], blocks[i]);
    StoredAppend(Flatten(blocks[..i]), blocks[i]);
  }

  lemma StandsInside(file: seq<byte>, pos: nat, part: seq<byte>, at: nat, piece: seq<byte>)
    requires StandsAt(file, pos, part) && StandsAt(part, at, piece)
    ensures StandsAt(file, pos + at, piece)
  {
    forall i | 0 <= i < |piece| ensures file[pos + at + i] == piece[i] {
      assert file[pos + at + i] == file[pos..pos + |part|][at + i] == part[at..at + |piece|][i];
    }
  }

  lemma {:induction false} StoredGrows(rs: seq<LogRecord>)
    ensures |rs| <= |Stored(rs)|
  {
    if rs != [] { StoredGrows(rs[1..]); }
  }

  /** No two blocks begin at the same offset. */
  lemma OffsetsRise(blocks: seq<Block>, i: nat, j: nat)
    requires i < j <= |blocks|
    ensures OffsetOf(blocks, i) < OffsetOf(blocks, j)
  {
    var prefix := blocks[..j];
    assert prefix == blocks[..i] + blocks[i..j];
    FlattenAppend(blocks[..i], blocks[i..j]);
    StoredAppend(Flatten(blocks[..i]), Flatten(blocks[i..j]));
    assert Flatten(blocks[i..j])[0] == blocks[i][0];
    StoredGrows(Flatten(blocks[i..j]));
  }

  /** Record `k` of a list stands in its stored form after the records before it. */
  lemma RecordStands(rs: seq<LogRecord>, k: nat)
    requires k < |rs|
    ensures StandsAt(Stored(rs), |Stored(rs[..k])|, RecordBytes(rs[k]))
    ensures |Stored(rs[..k])| + |RecordBytes(rs[k])| == |Stored(rs[..k + 1])|
  {
    assert rs == rs[..k] + rs[k..] && rs[k..][1..] == rs[k + 1..];
    StoredAppend(rs[..k], rs[k..]);
    var file := Stored(rs);
    assert StandsAt(file, 0, Stored(rs[..k]) + (RecordBytes(rs[k]) + Stored(rs[k + 1..])));
    SplitFront(file, 0, Stored(rs[..k]), RecordBytes(rs[k]) + Stored(rs[k + 1..]));
    SplitFront(file, |Stored(rs[..k])|, RecordBytes(rs[k]), Stored(rs[k + 1..]));
    assert rs[..k + 1] == rs[..k] + [rs[k]];
    StoredAppend(rs[..k], [rs[k]]);
    assert Stored([rs[k]]) == RecordBytes(rs[k]) + [];
  }
}
