/** The bump allocator over a fixed byte buffer. Words are four bytes at aligned offsets; the order of the
    bytes inside a word is never observed. */
module Arena {
  import opened Bytes
  import opened NodeLayout

  /** `b` written over `s` at position `i`. */
  function Overwrite(s: seq<byte>, i: nat, b: seq<byte>): (r: seq<byte>)
    requires i + |b| <= |s|
    ensures |r| == |s|
  {
    s[..i] + b + s[i + |b|..]
  }

  /** The two buffers agree from `lo` up to `hi`. */
  ghost predicate SameOn(s: seq<byte>, t: seq<byte>, lo: nat, hi: nat)
  {
    hi <= |s| && hi <= |t| && forall k :: lo <= k < hi ==> s[k] == t[k]
  }

  lemma OverwriteSame(s: seq<byte>, i: nat, b: seq<byte>, lo: nat, hi: nat)
    requires i + |b| <= |s| && hi <= |s| && (hi <= i || i + |b| <= lo)
    ensures SameOn(s, Overwrite(s, i, b), lo, hi)
  {
  }

  lemma OverwriteThere(s: seq<byte>, i: nat, b: seq<byte>)
    requires i + |b| <= |s|
    ensures Overwrite(s, i, b)[i..i + |b|] == b
  {
  }

  lemma WordThere(s: seq<byte>, i: nat, v: nat)
    requires i + 4 <= |s| && v < TWO_31
    ensures Int32At(Overwrite(s, i, Int32Bytes(v)), i) == v
  {
    Int32RoundTrip(v, s[..i], s[i + 4..]);
  }

  lemma WordSame(s: seq<byte>, t: seq<byte>, i: nat, lo: nat, hi: nat)
    requires SameOn(s, t, lo, hi) && lo <= i && i + 4 <= hi
    ensures Int32At(s, i) == Int32At(t, i)
  {
  }

  class Arena {
    const capacity: nat
    const buffer: array<byte>
    var allocateOffset: nat

    ghost predicate Valid()
      reads this
    {
      buffer.Length == capacity && capacity < TWO_31
    }

    constructor (size: nat)
      requires size < TWO_31
      ensures Valid() && fresh(buffer) && capacity == size && allocateOffset == ALIGN_BYTES
    {
      capacity := size;
      buffer := new byte[size](_ => 0);
      allocateOffset := ALIGN_BYTES;
    }

    /** Takes the next aligned block; None where the program throws because the block does not fit. The
        bump pointer moves either way. */
    method Allocate(size: nat) returns (offset: Option<nat>)
      modifies this`allocateOffset
      ensures allocateOffset == old(allocateOffset) + AlignUp(size)
      ensures offset == if allocateOffset <= capacity then Some(old(allocateOffset)) else None
    {
      var alignedSize := AlignUp(size);
      var begin := allocateOffset;
      allocateOffset := allocateOffset + alignedSize;
      if begin + alignedSize > capacity { return None; }
      return Some(begin);
    }

    method PutBytes(offset: nat, data: seq<byte>)
      requires Valid() && offset + |data| <= capacity
      modifies buffer
      ensures buffer[..] == Overwrite(old(buffer[..]), offset, data)
    {
      ghost var before := buffer[..];
      for i := 0 to |data|
        invariant forall k :: 0 <= k < capacity ==> buffer[k] == if offset <= k < offset + i then data[k - offset] else before[k]
      {
        buffer[offset + i] := data[i];
      }
    }

    method PutInt(offset: nat, value: int)
      requires Valid() && offset + 4 <= capacity
      modifies buffer
      ensures buffer[..] == Overwrite(old(buffer[..]), offset, Int32Bytes(value))
    {
      PutBytes(offset, Int32Bytes(value));
    }

    method PutByte(offset: nat, value: byte)
      requires Valid() && offset < capacity
      modifies buffer
      ensures buffer[..] == Overwrite(old(buffer[..]), offset, [value])
    {
      buffer[offset] := value;
    }

    function GetInt(offset: nat): int
      reads this, buffer
      requires Valid() && offset + 4 <= capacity
    {
      Int32At(buffer[..], offset)
    }

    /** The atomic compare-and-exchange on a word. */
    method CompareExchange(offset: nat, expected: int, desired: int) returns (ok: bool)
      requires Valid() && offset + 4 <= capacity
      modifies buffer
      ensures ok == (old(Int32At(buffer[..], offset)) == expected)
      ensures buffer[..] == if ok then Overwrite(old(buffer[..]), offset, Int32Bytes(desired)) else old(buffer[..])
    {
      ok := GetInt(offset) == expected;
      if ok { PutInt(offset, desired); }
    }
  }
}
