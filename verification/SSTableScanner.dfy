/** Streaming an SSTable's records in file order. */
module SSTableScanner {
  import opened Bytes
  import opened Records
  import opened RecordLayout
  import opened FrameLog
  import opened SparseIndex
  import opened TableFormat
  import opened SSTableBuilder
  import SSTableReader
  import BR = ByteReader

  function Normalized(rs: seq<LogRecord>): (s: seq<LogRecord>)
    ensures |s| == |rs| && forall i :: 0 <= i < |rs| ==> s[i] == Normalize(rs[i])
  {
    seq(|rs|, i requires 0 <= i < |rs| => Normalize(rs[i]))
  }

  class SSTableScanner {
    const file: seq<byte>
    const level: nat
    const fileId: nat
    const dataEndOffset: int
    var currentReadOffset: nat
    /** The records of the data section, and how many were delivered. */
    ghost const all: seq<LogRecord>
    ghost var delivered: nat

    ghost predicate Valid()
      reads this
    {
      && delivered <= |all| && (forall r :: r in all ==> Encodable(r))
      && StandsAt(file, 0, Stored(all)) && dataEndOffset == |Stored(all)|
      && currentReadOffset == |Stored(all[..delivered])|
    }

    /** Opens a finished table; the first footer field says where the data ends. */
    constructor (file: seq<byte>, level: nat, fileId: nat, ghost t: Table)
      requires WellFormed(t) && file == TableBytes(t)
      ensures Valid() && all == Flatten(t.blocks) && delivered == 0 && this.level == level && this.fileId == fileId
    {
      this.file, this.level, this.fileId := file, level, fileId;
      this.dataEndOffset := Int64At(SSTableReader.Pread(file, |file| - FOOTER_LENGTH, 8), 0);
      this.currentReadOffset := 0;
      this.all := Flatten(t.blocks);
      this.delivered := 0;
      DataEnd(t);
    }

    predicate HasNext()
      reads this
    {
      currentReadOffset < dataEndOffset
    }

    /** Delivers the next record of the file, or none at the end of the data section. */
    method Next() returns (record: Option<LogRecord>)
      requires Valid()
      modifies this
      ensures Valid()
      ensures record == if old(delivered) < |all| then Some(Normalize(all[old(delivered)])) else None
      ensures delivered == if old(delivered) < |all| then old(delivered) + 1 else old(delivered)
    {
      AtEnd(all, delivered);
      if !HasNext() { return None; }
      NextStands(file, all, delivered);
      var found, next := ReadRecordAt(file, currentReadOffset, all[delivered]);
      record := Some(found);
      currentReadOffset := next;
      delivered := delivered + 1;
    }
  }

  /** Reads the fixed header at a file position, then key, value and pointer. */
  method ReadRecordAt(file: seq<byte>, at: nat, ghost r: LogRecord) returns (record: LogRecord, next: nat)
    requires PartsAt(file, at, r) && at + 13 <= |file|
    ensures record == Normalize(r) && next == at + 13 + |r.key| + |r.value| + |PointerBytes(r)|
  {
    var input := new BR.ByteReader(SSTableReader.Pread(file, at, 13));
    HeaderInside(file, at);
    var kind := input.GetByte();
    var keySize := input.GetInt32BE();
    var valSize := input.GetInt32BE();
    var ptrSize := input.GetInt32BE();
    var k := at + 13;
    var v := k + keySize.value;
    var q := v + valSize.value;
    next := q + ptrSize.value;
    record := LogRecord(kind.value, file[k..v], file[v..q], if ptrSize.value > 0 then Some(file[q..next]) else None);
  }

  lemma DataEnd(t: Table)
    requires WellFormed(t)
    ensures var file := TableBytes(t);
            && StandsAt(file, 0, Data(t)) && Int64At(SSTableReader.Pread(file, |file| - FOOTER_LENGTH, 8), 0) == |Data(t)|
    ensures forall r :: r in Flatten(t.blocks) ==> Encodable(r)
    ensures Flatten(t.blocks)[..0] == []
  {
    Sections(t);
    FooterFirst(TableBytes(t), FilterAt(t), IndexAt(t), MinKeyAt(t), MaxKeyAt(t));
  }

  lemma FooterFirst(file: seq<byte>, a: nat, b: nat, c: nat, d: nat)
    requires a < TWO_63 && b < TWO_63 && c < TWO_63 && d < TWO_63 && |file| >= FOOTER_LENGTH
    requires StandsAt(file, |file| - FOOTER_LENGTH, FooterBytes(a, b, c, d))
    ensures Int64At(SSTableReader.Pread(file, |file| - FOOTER_LENGTH, 8), 0) == a
  {
    ReadFooter(file, |file| - FOOTER_LENGTH, a, b, c, d);
    FirstField(file, |file| - FOOTER_LENGTH);
  }

  lemma FirstField(file: seq<byte>, pos: nat)
    requires pos + 8 <= |file|
    ensures Int64At(file[pos..pos + 8], 0) == Int64At(file, pos)
  {
  }

  lemma AtEnd(all: seq<LogRecord>, k: nat)
    requires k <= |all|
    ensures |Stored(all[..k])| < |Stored(all)| <==> k < |all|
  {
    assert all == all[..k] + all[k..];
    StoredAppend(all[..k], all[k..]);
    StoredGrows(all[k..]);
    if k == |all| { assert all[k..] == []; }
  }

  lemma NextStands(file: seq<byte>, all: seq<LogRecord>, k: nat)
    requires k < |all| && StandsAt(file, 0, Stored(all)) && Encodable(all[k])
    ensures var at, r := |Stored(all[..k])|, all[k];
            && PartsAt(file, at, r) && at + 13 <= |file|
            && at + 13 + |r.key| + |r.value| + |PointerBytes(r)| == |Stored(all[..k + 1])|
  {
    RecordStands(all, k);
    StandsInside(file, 0, Stored(all), |Stored(all[..k])|, RecordBytes(all[k]));
    RecordParts(file, |Stored(all[..k])|, all[k]);
  }

  lemma HeaderInside(file: seq<byte>, at: nat)
    requires at + 13 <= |file|
    ensures var h := file[at..at + 13];
            && h[0] == file[at] && Int32At(h, 1) == Int32At(file, at + 1)
            && Int32At(h, 5) == Int32At(file, at + 5) && Int32At(h, 9) == Int32At(file, at + 9)
  {
  }

  /** Reads a scanner to its end. */
  method ScanAll(scanner: SSTableScanner) returns (out: seq<LogRecord>)
    requires scanner.Valid() && scanner.delivered == 0
    modifies scanner
    ensures out == Normalized(scanner.all)
  {
    out := [];
    while scanner.HasNext()
      invariant scanner.Valid() && scanner.delivered == |out|
      invariant forall i :: 0 <= i < |out| ==> out[i] == Normalize(scanner.all[i])
      decreases |scanner.all| - scanner.delivered
    {
      AtEnd(scanner.all, scanner.delivered);
      var record := scanner.Next();
      out := out + [record.value];
    }
    AtEnd(scanner.all, scanner.delivered);
  }

  /** Scanning a built table delivers exactly the added records that fit a block, in the order added. */
  method ScanBuilt(rs: seq<LogRecord>, bitSize: nat, hashes: nat, bits: seq<byte>) returns (out: seq<LogRecord>)
    requires WellFormed(TableOf(rs, bitSize, hashes, bits))
    ensures out == Normalized(Kept(rs))
  {
    ghost var t := TableOf(rs, bitSize, hashes, bits);
    BlocksKeep(rs);
    var scanner := new SSTableScanner(TableBytes(TableOf(rs, bitSize, hashes, bits)), 0, 0, t);
    out := ScanAll(scanner);
  }
}
