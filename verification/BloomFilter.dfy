/** The Bloom filter of an SSTable. Its bits are exactly the positions of the added keys, so it never
    rejects an added key, also after a round trip through its serialized form. */
module BloomFilter {
  import opened Bytes
  import opened Bits

  /** What the C++ cast to int8_t makes of a byte. */
  function Signed(b: byte): int
  {
    if b < 128 then b as int else b as int - 256
  }

  /** The rolling hash over the first `n` bytes, wrapped to 32 bits at every step. */
  function Rolling(data: seq<byte>, seed: int, n: nat): int
    requires n <= |data|
  {
    if n == 0 then seed else ToInt32(31 * Rolling(data, seed, n - 1) + Signed(data[n - 1]))
  }

  /** The hash with its sign bit masked off. */
  function Hash(data: seq<byte>, seed: int): (h: nat)
    ensures h < TWO_31
  {
    Rolling(data, seed, |data|) % TWO_31
  }

  // ---------- what the hash is ----------

  function Power31(n: nat): int
  {
    if n == 0 then 1 else 31 * Power31(n - 1)
  }

  /** The bytes, signed, as the coefficients of a polynomial at 31, the first byte with the highest power. */
  function AtThirtyOne(data: seq<byte>): int
  {
    if data == [] then 0
    else (if data[0] < 128 then data[0] as int else data[0] as int - 256) * Power31(|data| - 1) + AtThirtyOne(data[1..])
  }

  lemma {:induction false} AtThirtyOneLast(data: seq<byte>, b: byte)
    ensures AtThirtyOne(data + [b]) == 31 * AtThirtyOne(data) + if b < 128 then b as int else b as int - 256
  {
    if data == [] {
      assert [b][1..] == [] && data + [b] == [b];
    } else {
      assert (data + [b])[1..] == data[1..] + [b];
      AtThirtyOneLast(data[1..], b);
      var c := if data[0] < 128 then data[0] as int else data[0] as int - 256;
      Distribute(c, Power31(|data| - 1));
    }
  }

  lemma Distribute(c: int, p: int)
    ensures c * (31 * p) == 31 * (c * p)
  {
  }

  /** Wrapping between the steps or at the end is the same. */
  lemma WrapOnce(x: int, b: int)
    ensures ToInt32(31 * ToInt32(x) + b) == ToInt32(31 * x + b)
  {
    var q := (x - ToInt32(x)) / TWO_32;
    assert x == ToInt32(x) + q * TWO_32;
    SameWrapped(31 * ToInt32(x) + b, 31 * q);
  }

  lemma SameWrapped(y: int, k: int)
    ensures ToInt32(y + k * TWO_32) == ToInt32(y)
  {
    ModUnique(y + k * TWO_32, y / TWO_32 + k, TWO_32, y % TWO_32);
  }

  /** The hash is that polynomial plus the seed times the next power, wrapped to 32 bits, without its sign bit. */
  lemma {:induction false} HashIs(data: seq<byte>, seed: nat)
    requires seed < TWO_31
    ensures Rolling(data, seed, |data|) == ToInt32(seed * Power31(|data|) + AtThirtyOne(data))
    ensures Hash(data, seed) == (seed * Power31(|data|) + AtThirtyOne(data)) % 2147483648
  {
    if data == [] {
      assert ToInt32(seed) == seed;
    } else {
      var last := |data| - 1;
      var front, b := data[..last], data[last];
      HashIs(front, seed);
      RollingFront(data, seed, last);
      assert data == front + [b];
      AtThirtyOneLast(front, b);
      Distribute(seed, Power31(last));
      WrapOnce(seed * Power31(last) + AtThirtyOne(front), Signed(b));
    }
    MaskIs(seed * Power31(|data|) + AtThirtyOne(data));
  }

  lemma {:induction false} RollingFront(data: seq<byte>, seed: int, n: nat)
    requires n <= |data|
    ensures Rolling(data, seed, n) == Rolling(data[..n], seed, n)
    decreases n
  {
    if n > 0 {
      RollingFront(data, seed, n - 1);
      RollingFront(data[..n], seed, n - 1);
      assert data[..n][..n - 1] == data[..n - 1];
    }
  }

  lemma MaskIs(x: int)
    ensures ToInt32(x) % TWO_31 == x % 2147483648
  {
    var w := x % TWO_32;
    var q := x / TWO_32;
    ModUnique(x, 2 * q + w / TWO_31, TWO_31, w % TWO_31);
    if w >= TWO_31 { ModUnique(w - TWO_32, w / TWO_31 - 2, TWO_31, w % TWO_31); }
  }

  /** The hashes of "ab", "ba" and the byte 255. */
  lemma HashValues()
    ensures Hash([97, 98], 0) == 3105 && Hash([98, 97], 0) == 3135 && Hash([255], 0) == 2147483647
  {
    assert Rolling([97, 98], 0, 1) == 97 && Rolling([98, 97], 0, 1) == 98;
    assert Rolling([97, 98], 0, 2) == 3105 && Rolling([98, 97], 0, 2) == 3135 && Rolling([255], 0, 1) == -1;
  }

  function Position(key: seq<byte>, i: nat, bitSize: nat): (p: nat)
    requires bitSize > 0
    ensures p < bitSize
  {
    Hash(key, i) % bitSize
  }

  /** The `i`-th position of a key is its hash from seed `i`, modulo the number of bits. */
  lemma PositionIs(key: seq<byte>, i: nat, bitSize: nat)
    requires bitSize > 0 && i < TWO_31
    ensures Position(key, i, bitSize) == (i * Power31(|key|) + AtThirtyOne(key)) % 2147483648 % bitSize
  {
    HashIs(key, i);
  }

  /** The bit positions of a key, and of a list of keys. */
  function Positions(key: seq<byte>, bitSize: nat, hashes: nat): set<nat>
    requires bitSize > 0
  {
    set i: nat | i < hashes :: Position(key, i, bitSize)
  }

  predicate BitAt(bits: seq<byte>, p: nat)
    requires p < 8 * |bits|
  {
    BitOf(bits[p / 8], p % 8)
  }

  /** `p` is a position of one of the keys. */
  ghost predicate Hit(keys: seq<seq<byte>>, p: nat, bitSize: nat, hashes: nat)
    requires bitSize > 0
  {
    exists j :: 0 <= j < |keys| && p in Positions(keys[j], bitSize, hashes)
  }

  /** The bits are exactly the positions of the keys. */
  ghost predicate Represents(bits: seq<byte>, bitSize: nat, hashes: nat, keys: seq<seq<byte>>)
    requires bitSize > 0
  {
    bitSize <= 8 * |bits| && forall p: nat :: p < bitSize ==> (BitAt(bits, p) <==> Hit(keys, p, bitSize, hashes))
  }

  /** Every bit position of the key is set. */
  predicate AllSet(bits: seq<byte>, bitSize: nat, hashes: nat, key: seq<byte>)
    requires 0 < bitSize <= 8 * |bits|
  {
    forall i: nat :: i < hashes ==> BitAt(bits, Position(key, i, bitSize))
  }

  /** No false negatives: a filter that represents some keys accepts each of them. */
  lemma NoFalseNegatives(bits: seq<byte>, bitSize: nat, hashes: nat, keys: seq<seq<byte>>, key: seq<byte>)
    requires bitSize > 0 && Represents(bits, bitSize, hashes, keys) && key in keys
    ensures AllSet(bits, bitSize, hashes, key)
  {
    var j :| 0 <= j < |keys| && keys[j] == key;
    forall i: nat | i < hashes ensures BitAt(bits, Position(key, i, bitSize)) {
      assert Position(key, i, bitSize) in Positions(keys[j], bitSize, hashes);
    }
  }

  /** A key is accepted exactly when the added keys cover all its positions. */
  lemma AcceptsExactly(bits: seq<byte>, bitSize: nat, hashes: nat, keys: seq<seq<byte>>, key: seq<byte>)
    requires bitSize > 0 && Represents(bits, bitSize, hashes, keys)
    ensures AllSet(bits, bitSize, hashes, key) <==> forall p :: p in Positions(key, bitSize, hashes) ==> Hit(keys, p, bitSize, hashes)
  {
    forall i: nat | i < hashes ensures Position(key, i, bitSize) in Positions(key, bitSize, hashes) { }
  }

  function WithBitAt(bits: seq<byte>, p: nat): (r: seq<byte>)
    requires p < 8 * |bits|
    ensures |r| == |bits|
  {
    bits[p / 8 := WithBit(bits[p / 8], p % 8)]
  }

  lemma WithBitAtIs(bits: seq<byte>, p: nat, q: nat)
    requires p < 8 * |bits| && q < 8 * |bits|
    ensures BitAt(WithBitAt(bits, p), q) <==> q == p || BitAt(bits, q)
  {
    if q / 8 == p / 8 { assert q % 8 == p % 8 ==> q == p; }
  }

  class BloomFilter {
    const bitSize: nat
    const numHashFunctions: nat
    var bits: seq<byte>

    ghost predicate Valid()
      reads this
    {
      0 < bitSize < TWO_31 && numHashFunctions < TWO_31 && bitSize <= 8 * |bits|
    }

    /** An empty filter of a given size. */
    constructor (bitSize: nat, numHashFunctions: nat)
      requires 0 < bitSize < TWO_31 && numHashFunctions < TWO_31
      ensures Valid() && this.bitSize == bitSize && this.numHashFunctions == numHashFunctions
      ensures |bits| == (bitSize + 7) / 8 && Represents(bits, bitSize, numHashFunctions, [])
    {
      this.bitSize := bitSize;
      this.numHashFunctions := numHashFunctions;
      this.bits := Cleared((bitSize + 7) / 8);
      ClearedBits((bitSize + 7) / 8);
    }

    /** A filter restored from its serialized form. */
    constructor Restore(data: seq<byte>)
      requires |data| >= 8 && 0 < Int32At(data, 0) <= 8 * (|data| - 8) && 0 <= Int32At(data, 4)
      ensures Valid() && bitSize == Int32At(data, 0) && numHashFunctions == Int32At(data, 4) && bits == data[8..]
    {
      this.bitSize := Int32At(data, 0);
      this.numHashFunctions := Int32At(data, 4);
      this.bits := data[8..];
    }

    /** A copy of a filter. */
    constructor Copy(bitSize: nat, numHashFunctions: nat, bits: seq<byte>)
      requires 0 < bitSize < TWO_31 && numHashFunctions < TWO_31 && bitSize <= 8 * |bits|
      ensures Valid() && this.bitSize == bitSize && this.numHashFunctions == numHashFunctions && this.bits == bits
    {
      this.bitSize := bitSize;
      this.numHashFunctions := numHashFunctions;
      this.bits := bits;
    }

    method Add(key: seq<byte>, ghost keys: seq<seq<byte>>)
      requires Valid() && Represents(bits, bitSize, numHashFunctions, keys)
      modifies this`bits
      ensures Valid() && |bits| == |old(bits)| && Represents(bits, bitSize, numHashFunctions, keys + [key])
    {
      ghost var before := bits;
      for i := 0 to numHashFunctions
        invariant |bits| == |before|
        invariant forall p: nat :: p < bitSize ==> (BitAt(bits, p) <==> BitAt(before, p) || p in Positions(key, bitSize, i))
      {
        var h := Murmur(key, i);
        assert h % bitSize == Position(key, i, bitSize);
        forall p: nat | p < bitSize
          ensures BitAt(WithBitAt(bits, h % bitSize), p) <==> BitAt(before, p) || p in Positions(key, bitSize, i + 1)
        {
          WithBitAtIs(bits, h % bitSize, p);
          PositionsGrow(key, bitSize, i, p);
        }
        bits := WithBitAt(bits, h % bitSize);
      }
      forall p: nat | p < bitSize ensures BitAt(bits, p) <==> Hit(keys + [key], p, bitSize, numHashFunctions) {
        HitGrows(keys, key, p, bitSize, numHashFunctions);
      }
    }

    method MightContain(key: seq<byte>) returns (yes: bool)
      requires Valid()
      ensures yes == AllSet(bits, bitSize, numHashFunctions, key)
    {
      for i := 0 to numHashFunctions
        invariant forall j: nat :: j < i ==> BitAt(bits, Position(key, j, bitSize))
      {
        var h := Murmur(key, i);
        if !BitAt(bits, h % bitSize) {
          assert h % bitSize == Position(key, i, bitSize);
          return false;
        }
      }
      return true;
    }

    method Serialize() returns (out: seq<byte>)
      requires Valid()
      ensures out == Serialized(bitSize, numHashFunctions, bits)
    {
      out := Int32Bytes(bitSize);
      out := out + Int32Bytes(numHashFunctions);
      out := out + bits;
    }
  }

  /** The hash loop. */
  method Murmur(data: seq<byte>, seed: nat) returns (h: nat)
    ensures h == Hash(data, seed)
  {
    var acc: int := seed;
    for i := 0 to |data|
      invariant acc == Rolling(data, seed, i)
    {
      acc := ToInt32(31 * acc + Signed(data[i]));
    }
    h := acc % TWO_31;
  }

  function Cleared(n: nat): (bits: seq<byte>)
    ensures |bits| == n && forall i :: 0 <= i < n ==> bits[i] == 0
  {
    if n == 0 then [] else [0] + Cleared(n - 1)
  }

  lemma ClearedBits(n: nat)
    ensures forall p: nat :: p < 8 * n ==> !BitAt(Cleared(n), p)
  {
    assert ToBits(0, 8) == [false, false, false, false, false, false, false, false];
  }

  lemma PositionsGrow(key: seq<byte>, bitSize: nat, i: nat, p: nat)
    requires bitSize > 0
    ensures p in Positions(key, bitSize, i + 1) <==> p in Positions(key, bitSize, i) || p == Position(key, i, bitSize)
  {
    if p == Position(key, i, bitSize) { assert i < i + 1; }
  }

  lemma HitGrows(keys: seq<seq<byte>>, key: seq<byte>, p: nat, bitSize: nat, hashes: nat)
    requires bitSize > 0
    ensures Hit(keys + [key], p, bitSize, hashes) <==> Hit(keys, p, bitSize, hashes) || p in Positions(key, bitSize, hashes)
  {
    var all := keys + [key];
    assert all[|keys|] == key;
    if Hit(keys, p, bitSize, hashes) {
      var j :| 0 <= j < |keys| && p in Positions(keys[j], bitSize, hashes);
      assert all[j] == keys[j];
    }
  }

  function Serialized(bitSize: nat, hashes: nat, bits: seq<byte>): (s: seq<byte>)
    ensures |s| == 8 + |bits|
  {
    Int32Bytes(bitSize) + Int32Bytes(hashes) + bits
  }

  /** The serialized form determines the filter. */
  lemma SerializedRoundTrip(bitSize: nat, hashes: nat, bits: seq<byte>)
    requires bitSize < TWO_31 && hashes < TWO_31
    ensures var s := Serialized(bitSize, hashes, bits);
            Int32At(s, 0) == bitSize && Int32At(s, 4) == hashes && s[8..] == bits
  {
    var a, b := Int32Bytes(bitSize), Int32Bytes(hashes);
    var s := Serialized(bitSize, hashes, bits);
    assert s == [] + a + (b + bits) && s == a + b + bits;
    Int32RoundTrip(bitSize, [], b + bits);
    Int32RoundTrip(hashes, a, bits);
  }
}
