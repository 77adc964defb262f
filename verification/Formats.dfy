/** The byte formats in numbers: what stands where in integers, records, log frames, SSTable sections, filters and
    memtable nodes, whoever writes or reads them. */
module Formats {
  import opened Bytes
  import opened Records
  import opened RecordLayout
  import opened FrameLog
  import opened TableFormat
  import opened Bits
  import WalRecovery
  import NodeAccessor
  import SkipListMachine
  import Filter = BloomFilter

  /** A 32-bit integer is four bytes, highest first. */
  lemma Int32Is(v: int)
    ensures var s := Int32Bytes(v);
            |s| == 4 && s[0] as int * 16777216 + s[1] as int * 65536 + s[2] as int * 256 + s[3] as int == v % 4294967296
  {
    UInt32RoundTrip(v, [], []);
    assert [] + Int32Bytes(v) + [] == Int32Bytes(v);
  }

  /** Four bytes read as a signed number: the highest bit is the sign. */
  lemma Int32ReadIs(s: seq<byte>, i: nat)
    requires i + 4 <= |s|
    ensures Int32At(s, i) == s[i] as int * 16777216 + s[i + 1] as int * 65536 + s[i + 2] as int * 256 + s[i + 3] as int
                             - if s[i] >= 128 then 4294967296 else 0
  {
  }

  /** A 64-bit integer is two such words, the higher one first. */
  lemma Int64Is(v: int)
    requires 0 <= v < 18446744073709551616
    ensures Int64Bytes(v) == Int32Bytes(v / 4294967296) + Int32Bytes(v % 4294967296)
  {
    SmallWord(v);
  }

  lemma SmallWord(v: int)
    requires 0 <= v < 18446744073709551616
    ensures v % TWO_64 == v && Int32Bytes(v) == Int32Bytes(v % 4294967296) && v % TWO_64 / TWO_32 == v / 4294967296
  {
    ModUnique(v, 0, TWO_64, v);
    ModUnique(v % TWO_32, 0, TWO_32, v % TWO_32);
  }

  /** The record kinds, and a tombstone is kind 2. */
  lemma KindsAre()
    ensures PUT_KV == 0 && PUT_VECTOR == 1 && DELETE == 2
  {
  }

  /** A record: kind, three lengths, then key, value and pointer. */
  lemma RecordIs(r: LogRecord)
    ensures var s, k, v, q := RecordBytes(r), |r.key|, |r.value|, |PointerBytes(r)|;
            && |s| == 13 + k + v + q && s[0] == r.kind
            && s[1..5] == Int32Bytes(k) && s[5..9] == Int32Bytes(v) && s[9..13] == Int32Bytes(q)
            && s[13..13 + k] == r.key && s[13 + k..13 + k + v] == r.value && s[13 + k + v..] == PointerBytes(r)
  {
    RecordHead(r);
    RecordTail(r);
  }

  lemma RecordHead(r: LogRecord)
    ensures var s := RecordBytes(r);
            s[0] == r.kind && s[1..5] == Int32Bytes(|r.key|) && s[5..9] == Int32Bytes(|r.value|) && s[9..13] == Int32Bytes(|PointerBytes(r)|)
  {
    var a, b, c := Int32Bytes(|r.key|), Int32Bytes(|r.value|), Int32Bytes(|PointerBytes(r)|);
    assert RecordBytes(r) == [r.kind] + a + b + c + (r.key + r.value + PointerBytes(r));
  }

  lemma RecordTail(r: LogRecord)
    ensures var s, k, v := RecordBytes(r), 13 + |r.key|, 13 + |r.key| + |r.value|;
            s[13..k] == r.key && s[k..v] == r.value && s[v..] == PointerBytes(r)
  {
    var head := [r.kind] + Int32Bytes(|r.key|) + Int32Bytes(|r.value|) + Int32Bytes(|PointerBytes(r)|);
    Slices(head, r.key, r.value, PointerBytes(r));
  }

  lemma Slices(head: seq<byte>, a: seq<byte>, b: seq<byte>, c: seq<byte>)
    ensures var s, n := head + a + b + c, |head|;
            s[n..n + |a|] == a && s[n + |a|..n + |a| + |b|] == b && s[n + |a| + |b|..] == c
  {
  }

  /** A log frame: checksum of the payload, its length, the payload; recovery takes payloads up to 100 MiB. */
  lemma FrameIs(ck: WalRecovery.Checksum, r: LogRecord)
    ensures var e, payload := WalRecovery.Encode(ck, r), RecordBytes(r);
            |e| == 8 + |payload| && e[..4] == Int32Bytes(ck(payload)) && e[4..8] == Int32Bytes(|payload|) && e[8..] == payload
    ensures WalRecovery.MAX_PAYLOAD == 104857600
  {
  }

  /** A frame is read on exactly with a length of 1 to 104857600, all its bytes there, and the right checksum. */
  lemma EntryIs(ck: WalRecovery.Checksum, file: seq<byte>, pos: nat)
    ensures var e := WalRecovery.EntryAt(ck, file, pos);
            !e.Stop? <==>
              pos + 8 <= |file| && 1 <= Int32At(file, pos + 4) <= 104857600 && pos + 8 + Int32At(file, pos + 4) <= |file|
              && ck(file[pos + 8..pos + 8 + Int32At(file, pos + 4)]) == UInt32At(file, pos)
  {
  }

  /** The footer: four offsets and the magic number, which spells CarinaDB. */
  lemma FooterIs(filterAt: int, indexAt: int, minKeyAt: int, maxKeyAt: int)
    ensures var s := FooterBytes(filterAt, indexAt, minKeyAt, maxKeyAt);
            && |s| == 40 && s[..8] == Int64Bytes(filterAt) && s[8..16] == Int64Bytes(indexAt)
            && s[16..24] == Int64Bytes(minKeyAt) && s[24..32] == Int64Bytes(maxKeyAt)
            && s[32..] == [0x43, 0x61, 0x72, 0x69, 0x6E, 0x61, 0x44, 0x42]
  {
    MagicIs();
  }

  lemma MagicIs()
    ensures Int64Bytes(MAGIC_NUMBER) == [0x43, 0x61, 0x72, 0x69, 0x6E, 0x61, 0x44, 0x42]
  {
    assert Int32Bytes(MAGIC_NUMBER % TWO_64 / TWO_32) == [0x43, 0x61, 0x72, 0x69];
    assert Int32Bytes(MAGIC_NUMBER) == [0x6E, 0x61, 0x44, 0x42];
  }

  /** The sections of a table file in their order. */
  lemma TableIs(t: Table)
    ensures var a, b, c := |Data(t)|, |FilterBytes(t)|, |IndexBytes(Entries(t.blocks))|;
            && TableBytes(t) == Data(t) + FilterBytes(t) + IndexBytes(Entries(t.blocks))
                               + (Int32Bytes(|t.minKey|) + t.minKey) + (Int32Bytes(|t.maxKey|) + t.maxKey)
                               + FooterBytes(a, a + b, a + b + c, a + b + c + 4 + |t.minKey|)
            && FilterBytes(t) == Int32Bytes(t.bitSize) + Int32Bytes(t.hashes) + t.bits
  {
    Regroup(Data(t), FilterBytes(t), IndexBytes(Entries(t.blocks)), KeyBytes(t.minKey), KeyBytes(t.maxKey), FooterOf(t));
  }

  lemma Regroup(a: seq<byte>, b: seq<byte>, c: seq<byte>, d: seq<byte>, e: seq<byte>, f: seq<byte>)
    ensures a + (b + (c + (d + (e + f)))) == a + b + c + d + e + f
  {
  }

  /** An index entry: the length of the last key, the key, the number 8, and the offset of the block. */
  lemma IndexEntryIs(e: IndexEntry)
    ensures var s, k := EntryBytes(e), |e.maxKey|;
            |s| == 16 + k && s[..4] == Int32Bytes(k) && s[4..4 + k] == e.maxKey
            && s[4 + k..8 + k] == [0, 0, 0, 8] && s[8 + k..] == Int64Bytes(e.blockOffset)
  {
    assert Int32Bytes(8) == [0, 0, 0, 8];
    Slices(Int32Bytes(|e.maxKey|), e.maxKey, Int32Bytes(8), Int64Bytes(e.blockOffset));
    assert EntryBytes(e) == Int32Bytes(|e.maxKey|) + e.maxKey + Int32Bytes(8) + Int64Bytes(e.blockOffset);
  }

  /** Position `p` of a filter is bit `p % 8` of byte `p / 8`. */
  lemma FilterBitIs(bits: seq<byte>, p: nat)
    requires p < 8 * |bits|
    ensures Filter.BitAt(bits, p) <==> bits[p / 8] as int / Pow2(p % 8) % 2 == 1
  {
    BitIs(bits[p / 8], p % 8, 8);
  }

  /** A memtable node: kind, three lengths and the height in 20 bytes, its pointers, then key, value and pointer. */
  lemma NodeIs(b: seq<byte>, o: nat, n: SkipListMachine.Node)
    requires NodeAccessor.NodeAt(b, o, n)
    ensures var k, v, q, d := |n.record.key|, |n.record.value|, |PointerBytes(n.record)|, o + 20 + 4 * n.height;
            && d + k + v + q <= |b| && b[o] == n.record.kind
            && Int32At(b, o + 4) == k && Int32At(b, o + 8) == v && Int32At(b, o + 12) == q && Int32At(b, o + 16) == n.height
            && (forall l :: 0 <= l < n.height ==> Int32At(b, o + 20 + 4 * l) == n.next[l])
            && b[d..d + k] == n.record.key && b[d + k..d + k + v] == n.record.value && b[d + k + v..d + k + v + q] == PointerBytes(n.record)
  {
    forall l | 0 <= l < n.height ensures Int32At(b, o + 20 + 4 * l) == n.next[l] {
      assert NodeAccessor.NextAt(b, o, l, n.next[l]);
    }
  }
}
