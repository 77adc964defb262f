/** The record layout shared by the log payload and the SSTable data blocks:
    [kind 1][keyLen 4][valLen 4][ptrLen 4][key][value][pointer], big-endian. */
module RecordLayout {
  import opened Bytes
  import opened Records

  const FIXED: nat := 13

  function RecordBytes(r: LogRecord): (s: seq<byte>)
    ensures |s| == FIXED + |r.key| + |r.value| + |PointerBytes(r)|
  {
    [r.kind] + Int32Bytes(|r.key|) + Int32Bytes(|r.value|) + Int32Bytes(|PointerBytes(r)|)
    + r.key + r.value + PointerBytes(r)
  }

  /** The lengths fit the signed 32-bit length fields. */
  predicate Encodable(r: LogRecord)
  {
    |r.key| < TWO_31 && |r.value| < TWO_31 && |PointerBytes(r)| < TWO_31
  }

  /** What a length field stands for: itself, or nothing if it is negative. */
  function FieldLength(s: seq<byte>, i: nat): nat
    requires i + 4 <= |s|
  {
    if Int32At(s, i) > 0 then Int32At(s, i) else 0
  }

  /** A record is read exactly if its 13 fixed bytes and the lengths they give lie within the bytes; a length that is
      not positive reads as empty, and an empty pointer as none. */
  lemma ParseExact(s: seq<byte>, i: nat)
    ensures ParseAt(s, i).Parsed? <==> i + 13 <= |s| && i + 13 + FieldLength(s, i + 1) + FieldLength(s, i + 5) + FieldLength(s, i + 9) <= |s|
    ensures ParseAt(s, i).Parsed? ==>
              var k, v, q := i + 13 + FieldLength(s, i + 1), i + 13 + FieldLength(s, i + 1) + FieldLength(s, i + 5), i + 13 + FieldLength(s, i + 1) + FieldLength(s, i + 5) + FieldLength(s, i + 9);
              && ParseAt(s, i).next == q
              && ParseAt(s, i).record == LogRecord(s[i], s[i + 13..k], s[k..v], if v < q then Some(s[v..q]) else None)
  {
  }

  datatype Parsed = Parsed(record: LogRecord, next: nat) | Bad

  function AtLeastZero(v: int): nat
  {
    if v < 0 then 0 else v
  }

  /** Reads one record at position `i`; a length field that is not positive reads as empty, and a
      record that runs past the end is bad. */
  function ParseAt(s: seq<byte>, i: nat): (p: Parsed)
    ensures p.Parsed? ==> i + FIXED <= p.next <= |s|
  {
    if i + FIXED > |s| then Bad
    else Fields(s, i, AtLeastZero(Int32At(s, i + 1)), AtLeastZero(Int32At(s, i + 5)), AtLeastZero(Int32At(s, i + 9)))
  }

  function Fields(s: seq<byte>, i: nat, keyLen: nat, valLen: nat, ptrLen: nat): (p: Parsed)
    requires i + FIXED <= |s|
    ensures p.Parsed? ==> i + FIXED <= p.next <= |s|
  {
    var k := i + FIXED;
    var v := k + keyLen;
    var q := v + valLen;
    if q + ptrLen > |s| then Bad
    else Parsed(LogRecord(s[i], s[k..v], s[v..q], if ptrLen > 0 then Some(s[q..q + ptrLen]) else None), q + ptrLen)
  }

  lemma LengthField(s: seq<byte>, pre: seq<byte>, v: nat, post: seq<byte>)
    requires s == pre + Int32Bytes(v) + post && v < TWO_31
    ensures |pre| + 4 <= |s| && Int32At(s, |pre|) == v
  {
    Int32RoundTrip(v, pre, post);
  }

  lemma LengthFields(pre: seq<byte>, r: LogRecord, post: seq<byte>)
    requires Encodable(r)
    ensures var s, i := pre + RecordBytes(r) + post, |pre|;
            && Int32At(s, i + 1) == |r.key| && Int32At(s, i + 5) == |r.value| && Int32At(s, i + 9) == |PointerBytes(r)|
  {
    var s := pre + RecordBytes(r) + post;
    var kl, vl, pl := Int32Bytes(|r.key|), Int32Bytes(|r.value|), Int32Bytes(|PointerBytes(r)|);
    var tail := r.key + r.value + PointerBytes(r) + post;
    assert s == pre + [r.kind] + kl + vl + pl + tail;
    assert s == (pre + [r.kind]) + kl + (vl + pl + tail);
    LengthField(s, pre + [r.kind], |r.key|, vl + pl + tail);
    assert s == (pre + [r.kind] + kl) + vl + (pl + tail);
    LengthField(s, pre + [r.kind] + kl, |r.value|, pl + tail);
    LengthField(s, pre + [r.kind] + kl + vl, |PointerBytes(r)|, tail);
  }

  /** A record's bytes read back as the record, wherever they stand. */
  lemma ParseRecordBytes(pre: seq<byte>, r: LogRecord, post: seq<byte>)
    requires Encodable(r)
    ensures ParseAt(pre + RecordBytes(r) + post, |pre|) == Parsed(Normalize(r), |pre| + |RecordBytes(r)|)
  {
    LengthFields(pre, r, post);
    FieldsOf(pre, r, post);
  }

  lemma FieldsOf(pre: seq<byte>, r: LogRecord, post: seq<byte>)
    ensures Fields(pre + RecordBytes(r) + post, |pre|, |r.key|, |r.value|, |PointerBytes(r)|)
         == Parsed(Normalize(r), |pre| + |RecordBytes(r)|)
  {
    var s := pre + RecordBytes(r) + post;
    var k := |pre| + FIXED;
    var v := k + |r.key|;
    var q := v + |r.value|;
    assert s[|pre|] == r.kind;
    assert s[k..v] == r.key;
    assert s[v..q] == r.value;
    assert s[q..q + |PointerBytes(r)|] == PointerBytes(r);
  }
}
