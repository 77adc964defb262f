/** The bounds-checked cursor over a byte buffer. A read past the end throws: here it returns None
    and leaves the cursor where it was. */
module ByteReader {
  import opened Bytes

  class ByteReader {
    const data: seq<byte>
    var pos: nat

    constructor (data: seq<byte>)
      ensures this.data == data && pos == 0
    {
      this.data := data;
      pos := 0;
    }

    function Remaining(): int
      reads this
    {
      |data| - pos
    }

    method GetByte() returns (b: Option<byte>)
      modifies this`pos
      ensures b == if old(pos) + 1 <= |data| then Some(data[old(pos)]) else None
      ensures pos == if b.Some? then old(pos) + 1 else old(pos)
    {
      if pos + 1 > |data| { return None; }
      b := Some(data[pos]);
      pos := pos + 1;
    }

    method GetInt32BE() returns (v: Option<int>)
      modifies this`pos
      ensures v == if old(pos) + 4 <= |data| then Some(Int32At(data, old(pos))) else None
      ensures pos == if v.Some? then old(pos) + 4 else old(pos)
    {
      if pos + 4 > |data| { return None; }
      v := Some(Int32At(data, pos));
      pos := pos + 4;
    }

    method GetInt64BE() returns (v: Option<int>)
      modifies this`pos
      ensures v == if old(pos) + 8 <= |data| then Some(Int64At(data, old(pos))) else None
      ensures pos == if v.Some? then old(pos) + 8 else old(pos)
    {
      if pos + 8 > |data| { return None; }
      var acc := 0;
      for i := 0 to 8
        invariant 0 <= acc && acc == Accumulated(data, pos, i)
      {
        acc := acc * 256 + data[pos + i] as int;
      }
      AccumulatedEight(data, pos);
      v := Some(ToInt64(acc));
      pos := pos + 8;
    }

    method GetBytes(n: nat) returns (s: Option<seq<byte>>)
      modifies this`pos
      ensures s == if old(pos) + n <= |data| then Some(data[old(pos)..old(pos) + n]) else None
      ensures pos == if s.Some? then old(pos) + n else old(pos)
    {
      if pos + n > |data| { return None; }
      s := Some(data[pos..pos + n]);
      pos := pos + n;
    }
  }

  /** The unsigned value of the first `n` bytes at `i`, most significant first. */
  function Accumulated(data: seq<byte>, i: nat, n: nat): (v: nat)
    requires i + n <= |data|
  {
    if n == 0 then 0 else Accumulated(data, i, n - 1) * 256 + data[i + n - 1] as int
  }

  lemma AccumulatedEight(data: seq<byte>, i: nat)
    requires i + 8 <= |data|
    ensures Accumulated(data, i, 8) == UInt32At(data, i) * TWO_32 + UInt32At(data, i + 4)
  {
    assert Accumulated(data, i, 1) == data[i] as int;
    assert Accumulated(data, i, 2) == data[i] as int * 0x100 + data[i + 1] as int;
    assert Accumulated(data, i, 4) == UInt32At(data, i);
    var hi := Accumulated(data, i, 4);
    assert Accumulated(data, i, 5) == hi * 0x100 + data[i + 4] as int;
    assert Accumulated(data, i, 6) == hi * 0x1_0000 + data[i + 4] as int * 0x100 + data[i + 5] as int;
    assert Accumulated(data, i, 7) == hi * 0x100_0000 + data[i + 4] as int * 0x1_0000 + data[i + 5] as int * 0x100 + data[i + 6] as int;
  }
}
