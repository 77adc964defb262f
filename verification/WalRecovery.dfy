/** Log records on disk: framing with a checksum, and the recovery scan. */
module WalRecovery {
  import opened Bytes
  import opened Records
  import opened RecordLayout
  import opened Bits
  import opened Crc32
  import opened FrameLog
  import ByteReader

  const HEADER_SIZE: nat := 8
  const MAX_PAYLOAD: nat := 1024 * 1024 * 100

  /** Framing works with any 32-bit checksum; the program's is `Crc`. */
  type Checksum = seq<byte> -> nat

  ghost predicate Is32Bit(ck: Checksum)
  {
    forall s :: ck(s) < TWO_32
  }

  /** One frame: checksum and payload size, then the payload. */
  function Encode(ck: Checksum, r: LogRecord): (s: seq<byte>)
    ensures |s| == HEADER_SIZE + |RecordBytes(r)|
  {
    Frame(ck, RecordBytes(r), RecordBytes(r))
  }

  /** The frame header written for one payload followed by the payload bytes actually stored. */
  function Frame(ck: Checksum, payload: seq<byte>, stored: seq<byte>): (s: seq<byte>)
    ensures |s| == HEADER_SIZE + |stored|
  {
    Int32Bytes(ck(payload)) + Int32Bytes(|payload|) + stored
  }

  method EncodeRecord(table: seq<Register>, record: LogRecord) returns (out: seq<byte>)
    requires TableOk(table)
    ensures out == Encode(Crc, record)
  {
    var payload := [record.kind];
    payload := payload + Int32Bytes(|record.key|);
    payload := payload + Int32Bytes(|record.value|);
    payload := payload + Int32Bytes(|PointerBytes(record)|);
    if |record.key| > 0 { payload := payload + record.key; }
    if |record.value| > 0 { payload := payload + record.value; }
    if |PointerBytes(record)| > 0 { payload := payload + PointerBytes(record); }
    assert payload == RecordBytes(record);
    var crc := ComputeCrc32(table, payload);
    out := Int32Bytes(ToNat(crc));
    out := out + Int32Bytes(|payload|);
    out := out + payload;
  }

  /** Decodes a payload through the cursor; None when a read underflows. */
  method DecodePayload(payload: seq<byte>) returns (record: Option<LogRecord>)
    ensures record == if ParseAt(payload, 0).Parsed? then Some(ParseAt(payload, 0).record) else None
  {
    var reader := new ByteReader.ByteReader(payload);
    var kind := reader.GetByte();
    if kind.None? { return None; }
    var keyLen := reader.GetInt32BE();
    if keyLen.None? { return None; }
    var valLen := reader.GetInt32BE();
    if valLen.None? { return None; }
    var ptrLen := reader.GetInt32BE();
    if ptrLen.None? { return None; }
    var key, value, pointer := Some([]), Some([]), None;
    if keyLen.value > 0 { key := reader.GetBytes(keyLen.value); }
    if key.None? { return None; }
    if valLen.value > 0 { value := reader.GetBytes(valLen.value); }
    if value.None? { return None; }
    if ptrLen.value > 0 {
      pointer := reader.GetBytes(ptrLen.value);
      if pointer.None? { return None; }
    }
    assert forall i :: 0 <= i <= |payload| ==> payload[i..i] == [];
    record := Some(LogRecord(kind.value, key.value, value.value, pointer));
  }

  // ---------- the recovery scan ----------

  /** What the scan finds at `pos`: a header, a plausible size, a whole payload with the right checksum. */
  function EntryAt(ck: Checksum, file: seq<byte>, pos: nat): Entry<LogRecord>
  {
    if pos + HEADER_SIZE > |file| then Stop
    else PayloadAt(ck, file, pos, UInt32At(file, pos), Int32At(file, pos + 4))
  }

  function PayloadAt(ck: Checksum, file: seq<byte>, pos: nat, crc: nat, size: int): Entry<LogRecord>
    requires pos + HEADER_SIZE <= |file|
  {
    if size <= 0 || size > MAX_PAYLOAD then Stop
    else if pos + HEADER_SIZE + size > |file| then Stop
    else if ck(file[pos + HEADER_SIZE..pos + HEADER_SIZE + size]) != crc then Stop
    else Decoded(file[pos + HEADER_SIZE..pos + HEADER_SIZE + size], pos + HEADER_SIZE + size)
  }

  function Decoded(payload: seq<byte>, next: nat): Entry<LogRecord>
  {
    if ParseAt(payload, 0).Bad? then Throws else Good(ParseAt(payload, 0).record, next)
  }

  function Encoder(ck: Checksum): LogRecord -> seq<byte>
  {
    (r: LogRecord) => Encode(ck, r)
  }

  function EntryReader(ck: Checksum): Reader<LogRecord>
  {
    (file: seq<byte>, pos: nat) => EntryAt(ck, file, pos)
  }

  lemma HeaderFields(file: seq<byte>, pos: nat)
    requires pos + HEADER_SIZE <= |file|
    ensures var h := file[pos..pos + HEADER_SIZE];
            Int32At(h, 0) % TWO_32 == UInt32At(file, pos) && Int32At(h, 4) == Int32At(file, pos + 4)
  {
  }

  /** The header of a frame as the scan reads it. */
  method ReadHeader(file: seq<byte>, pos: nat) returns (crc: nat, size: int)
    requires pos + HEADER_SIZE <= |file|
    ensures crc == UInt32At(file, pos) && size == Int32At(file, pos + 4)
  {
    HeaderFields(file, pos);
    var header := new ByteReader.ByteReader(file[pos..pos + HEADER_SIZE]);
    var expectedCrc := header.GetInt32BE();
    var payloadSize := header.GetInt32BE();
    crc, size := expectedCrc.value % TWO_32, payloadSize.value;
  }

  /** Reads and checks the frame at `pos`. */
  method ReadEntry(table: seq<Register>, file: seq<byte>, pos: nat) returns (e: Entry<LogRecord>)
    requires TableOk(table)
    ensures e == EntryReader(Crc)(file, pos)
  {
    ghost var ck: Checksum := Crc;
    if pos + HEADER_SIZE > |file| { return Stop; }
    var expectedCrc, payloadSize := ReadHeader(file, pos);
    EntryIs(ck, file, pos, payloadSize);
    if payloadSize <= 0 || payloadSize > MAX_PAYLOAD { return Stop; }
    if pos + HEADER_SIZE + payloadSize > |file| { return Stop; }
    var payload := file[pos + HEADER_SIZE..pos + HEADER_SIZE + payloadSize];
    var actualCrc := ChecksumOf(table, payload, ck);
    if expectedCrc != actualCrc { return Stop; }
    var record := DecodePayload(payload);
    e := if record.None? then Throws else Good(record.value, pos + HEADER_SIZE + payloadSize);
  }

  method ChecksumOf(table: seq<Register>, data: seq<byte>, ghost ck: Checksum) returns (crc: nat)
    requires TableOk(table) && ck == Crc
    ensures crc == ck(data)
  {
    var register := ComputeCrc32(table, data);
    crc := ToNat(register);
  }

  lemma EntryIs(ck: Checksum, file: seq<byte>, pos: nat, size: int)
    requires pos + HEADER_SIZE <= |file| && size == Int32At(file, pos + 4)
    ensures size <= 0 || size > MAX_PAYLOAD || pos + HEADER_SIZE + size > |file| ==> EntryReader(ck)(file, pos) == Stop
    ensures 0 < size <= MAX_PAYLOAD && pos + HEADER_SIZE + size <= |file| ==>
              EntryReader(ck)(file, pos)
              == (var payload := file[pos + HEADER_SIZE..pos + HEADER_SIZE + size];
                  if ck(payload) != UInt32At(file, pos) then Stop else Decoded(payload, pos + HEADER_SIZE + size))
  {
  }

  lemma EntryAdvances(ck: Checksum, file: seq<byte>, pos: nat)
    ensures var e := EntryReader(ck)(file, pos); e.Good? ==> pos < e.next <= |file|
  {
  }

  /** The recovery loop: `records` is what the consumer was given. */
  method Recover(table: seq<Register>, file: seq<byte>) returns (records: seq<LogRecord>, currentPos: nat, threw: bool)
    requires TableOk(table)
    ensures Recovered(records, currentPos, threw) == Scan(EntryReader(Crc), file, 0)
  {
    ghost var at := EntryReader(Crc);
    records, currentPos, threw := [], 0, false;
    while currentPos < |file|
      invariant currentPos <= |file|
      invariant Scan(at, file, 0) == Prepend(records, Scan(at, file, currentPos))
      decreases |file| - currentPos
    {
      var e := ReadEntry(table, file, currentPos);
      EntryAdvances(Crc, file, currentPos);
      match e {
        case Good(record, next) =>
          PrependLast(records, record, Scan(at, file, next));
          records := records + [record];
          currentPos := next;
        case Stop => return;
        case Throws => return records, currentPos, true;
      }
    }
  }

  lemma PrependLast(front: seq<LogRecord>, record: LogRecord, r: Recovered<LogRecord>)
    ensures Prepend(front + [record], r) == Prepend(front, Prepend([record], r))
  {
    assert front + [record] + r.items == front + ([record] + r.items);
  }

  // ---------- what recovery guarantees ----------

  /** A record whose payload recovery accepts. */
  predicate Loggable(r: LogRecord)
  {
    |RecordBytes(r)| <= MAX_PAYLOAD
  }

  lemma FrameHeader(ck: Checksum, file: seq<byte>, pos: nat, payload: seq<byte>, stored: seq<byte>)
    requires Is32Bit(ck)
    requires |payload| < TWO_31 && StandsAt(file, pos, Frame(ck, payload, stored))
    ensures UInt32At(file, pos) == ck(payload) && Int32At(file, pos + 4) == |payload|
    ensures file[pos + HEADER_SIZE..pos + HEADER_SIZE + |stored|] == stored
  {
    var c, n := Int32Bytes(ck(payload)), Int32Bytes(|payload|);
    SplitFront(file, pos, c + n, stored);
    SplitFront(file, pos, c, n);
    ReadUInt32(file, pos, ck(payload));
    ReadInt32(file, pos + 4, |payload|);
  }

  /** The entry at a stored frame, intact or damaged in its payload. */
  lemma FrameEntry(ck: Checksum, file: seq<byte>, pos: nat, r: LogRecord, stored: seq<byte>)
    requires Is32Bit(ck)
    requires Loggable(r) && |stored| == |RecordBytes(r)| && StandsAt(file, pos, Frame(ck, RecordBytes(r), stored))
    ensures EntryAt(ck, file, pos)
         == if ck(stored) == ck(RecordBytes(r)) then Decoded(stored, pos + HEADER_SIZE + |stored|) else Stop
  {
    FrameHeader(ck, file, pos, RecordBytes(r), stored);
  }

  lemma DecodeOwn(r: LogRecord, next: nat)
    requires Loggable(r)
    ensures Decoded(RecordBytes(r), next) == Good(Normalize(r), next)
  {
    ParseRecordBytes([], r, []);
    assert [] + RecordBytes(r) + [] == RecordBytes(r);
  }

  /** A frame cut short stops the scan. */
  lemma TornEntry(ck: Checksum, file: seq<byte>, pos: nat, r: LogRecord)
    requires Is32Bit(ck) && Loggable(r) && TornAt(file, pos, Encode(ck, r))
    ensures EntryAt(ck, file, pos) == Stop
  {
    if pos + HEADER_SIZE <= |file| {
      var kept := RecordBytes(r)[..|file| - pos - HEADER_SIZE];
      assert file[pos..] == Frame(ck, RecordBytes(r), kept);
      assert file[pos..pos + |file[pos..]|] == file[pos..];
      FrameHeader(ck, file, pos, RecordBytes(r), kept);
    }
  }

  /** Every loggable record is recognised: recovered up to an empty pointer reading as none. */
  lemma RecordRecognised(ck: Checksum, r: LogRecord)
    requires Is32Bit(ck) && Loggable(r)
    ensures Recognised(EntryReader(ck), Encoder(ck), Normalize, r)
  {
    var at, enc := EntryReader(ck), Encoder(ck);
    assert enc(r) == Encode(ck, r);
    forall file, pos: nat | StandsAt(file, pos, enc(r)) ensures at(file, pos) == Good(Normalize(r), pos + |enc(r)|) {
      FrameEntry(ck, file, pos, r, RecordBytes(r));
      DecodeOwn(r, pos + |enc(r)|);
    }
    forall file, pos: nat | TornAt(file, pos, enc(r)) ensures at(file, pos) == Stop {
      TornEntry(ck, file, pos, r);
    }
  }

  lemma CrcIs32Bit()
    ensures Is32Bit(Crc)
  {
    forall s ensures Crc(s) < TWO_32 { CrcRange(s); }
  }

  /** For any list of records and any byte cut of their log, recovery delivers exactly the records
      whose frames lie wholly before the cut and stops at the end of the last of them. */
  lemma RecoverAnyCut(rs: seq<LogRecord>, cut: nat)
    requires (forall r :: r in rs ==> Loggable(r)) && cut <= |Log(Encoder(Crc), rs)|
    ensures var n := WholeFrames(Encoder(Crc), rs, cut);
            Scan(EntryReader(Crc), Log(Encoder(Crc), rs)[..cut], 0) ==
              Recovered(Map(Normalize, rs[..n]), |Log(Encoder(Crc), rs[..n])|, false)
  {
    CrcIs32Bit();
    forall r | r in rs ensures Recognised(EntryReader(Crc), Encoder(Crc), Normalize, r) { RecordRecognised(Crc, r); }
    ScanAnyCut(EntryReader(Crc), Encoder(Crc), Normalize, rs, cut);
  }

  lemma Prefix4(file: seq<byte>, t: seq<byte>, i: nat)
    requires i + 4 <= |t| <= |file| && t == file[..|t|]
    ensures UInt32At(t, i) == UInt32At(file, i)
  {
  }

  lemma PayloadLocal(ck: Checksum, file: seq<byte>, t: seq<byte>, pos: nat, crc: nat, size: int)
    requires |t| <= |file| && t == file[..|t|] && pos + HEADER_SIZE <= |t|
    requires var e := PayloadAt(ck, file, pos, crc, size); e.Good? && pos < e.next <= |t|
    ensures PayloadAt(ck, t, pos, crc, size) == PayloadAt(ck, file, pos, crc, size)
  {
    assert t[pos + HEADER_SIZE..pos + HEADER_SIZE + size] == file[pos + HEADER_SIZE..pos + HEADER_SIZE + size];
  }

  lemma EntryLocal(ck: Checksum, file: seq<byte>, end: nat, pos: nat)
    ensures LocalAt(EntryReader(ck), file, end, pos)
  {
    var e := EntryAt(ck, file, pos);
    if end <= |file| && e.Good? && pos < e.next <= end {
      var t := file[..end];
      GoodNext(ck, file, pos);
      Prefix4(file, t, pos);
      Prefix4(file, t, pos + 4);
      PayloadLocal(ck, file, t, pos, UInt32At(file, pos), Int32At(file, pos + 4));
    }
  }

  lemma GoodNext(ck: Checksum, file: seq<byte>, pos: nat)
    requires EntryAt(ck, file, pos).Good?
    ensures pos + HEADER_SIZE < EntryAt(ck, file, pos).next
  {
  }

  /** On any bytes at all, the part of the file that recovery accepted recovers to the same records. */
  lemma RecoverStable(file: seq<byte>)
    ensures var r := Scan(EntryReader(Crc), file, 0);
            Scan(EntryReader(Crc), file[..r.end], 0) == Recovered(r.items, r.end, false)
  {
    forall end, p: nat ensures LocalAt(EntryReader(Crc), file, end, p) { EntryLocal(Crc, file, end, p); }
    ScanStable(EntryReader(Crc), file, 0);
  }

  /** Damage within 32 consecutive bits of the payload of one record ends recovery exactly before
      that record, whatever follows it. */
  lemma RecoverDamaged(rs: seq<LogRecord>, r: LogRecord, stored: seq<byte>, tail: seq<byte>,
                       a: seq<bool>, w: seq<bool>, v: seq<bool>, b: seq<bool>)
    requires (forall q :: q in rs ==> Loggable(q)) && Loggable(r)
    requires MessageBits(RecordBytes(r)) == a + w + b && MessageBits(stored) == a + v + b
    requires |w| == |v| <= 32 && w != v
    ensures Scan(EntryReader(Crc), Log(Encoder(Crc), rs) + Frame(Crc, RecordBytes(r), stored) + tail, 0)
         == Recovered(Map(Normalize, rs), |Log(Encoder(Crc), rs)|, false)
  {
    CrcIs32Bit();
    BurstDetected(RecordBytes(r), stored, a, w, v, b);
    DamagedFrame(Crc, rs, r, stored, tail);
  }

  lemma DamagedFrame(ck: Checksum, rs: seq<LogRecord>, r: LogRecord, stored: seq<byte>, tail: seq<byte>)
    requires Is32Bit(ck) && (forall q :: q in rs ==> Loggable(q)) && Loggable(r)
    requires |stored| == |RecordBytes(r)| && ck(stored) != ck(RecordBytes(r))
    ensures Scan(EntryReader(ck), Log(Encoder(ck), rs) + Frame(ck, RecordBytes(r), stored) + tail, 0)
         == Recovered(Map(Normalize, rs), |Log(Encoder(ck), rs)|, false)
  {
    var log, frame := Log(Encoder(ck), rs), Frame(ck, RecordBytes(r), stored);
    var file := log + frame + tail;
    ThreeParts(log, frame, tail);
    forall q | q in rs ensures Recognised(EntryReader(ck), Encoder(ck), Normalize, q) { RecordRecognised(ck, q); }
    ScanPrefix(EntryReader(ck), Encoder(ck), Normalize, file, 0, rs);
    DamagedStops(ck, file, |log|, r, stored);
    assert Map(Normalize, rs) + [] == Map(Normalize, rs);
  }

  lemma ThreeParts(a: seq<byte>, b: seq<byte>, c: seq<byte>)
    ensures StandsAt(a + b + c, 0, a) && StandsAt(a + b + c, |a|, b)
  {
  }

  /** The scan ends at a frame whose payload was damaged. */
  lemma DamagedStops(ck: Checksum, file: seq<byte>, pos: nat, r: LogRecord, stored: seq<byte>)
    requires Is32Bit(ck) && Loggable(r) && |stored| == |RecordBytes(r)| && ck(stored) != ck(RecordBytes(r))
    requires StandsAt(file, pos, Frame(ck, RecordBytes(r), stored))
    ensures Scan(EntryReader(ck), file, pos) == Recovered([], pos, false)
  {
    FrameEntry(ck, file, pos, r, stored);
  }
}
