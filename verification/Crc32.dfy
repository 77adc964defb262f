/** The reflected CRC-32 with polynomial 0xEDB88320 (section 8 of RFC 1952): the bit-by-bit
    definition, the table-driven loop of the program, and what the checksum detects.
    A 32-bit register is the sequence of its bits, lowest first. */
module Crc32 {
  import opened Bytes
  import opened Bits

  function Zeros(n: nat): (z: seq<bool>)
    ensures |z| == n && forall i :: 0 <= i < n ==> !z[i]
  {
    if n == 0 then [] else [false] + Zeros(n - 1)
  }

  type Register = r: seq<bool> | |r| == 32 witness Zeros(32)

  /** The exponents below 32 of the generator polynomial. */
  const EXPONENTS: set<int> := {0, 1, 2, 4, 5, 7, 8, 10, 11, 12, 16, 22, 23, 26}

  /** The generator, reflected: bit `i` is the coefficient of x^(31 - i). */
  const POLY: Register := Generator()
  const ONES: Register := Ones(32)

  function Generator(): (g: seq<bool>)
    ensures |g| == 32 && forall i :: 0 <= i < 32 ==> g[i] == (31 - i in EXPONENTS)
  {
    seq(32, i => 31 - i in EXPONENTS)
  }

  function Ones(n: nat): (s: seq<bool>)
    ensures |s| == n
  {
    seq(n, _ => true)
  }

  function Xor(a: Register, b: Register): (c: Register)
    ensures forall i :: 0 <= i < 32 ==> c[i] == (a[i] != b[i])
  {
    seq(32, i requires 0 <= i < 32 => a[i] != b[i])
  }

  function ShiftRight(c: Register, n: nat): (d: Register)
    requires n <= 32
    ensures forall i :: 0 <= i < 32 ==> d[i] == (i + n < 32 && c[i + n])
  {
    c[n..] + Zeros(n)
  }

  /** A short bit string as a register. */
  function Pad(bits: seq<bool>): (r: Register)
    requires |bits| <= 32
    ensures forall i :: 0 <= i < 32 ==> r[i] == (i < |bits| && bits[i])
  {
    bits + Zeros(32 - |bits|)
  }

  // ---------- the bit-by-bit definition ----------

  /** Feeds one message bit to the shift register. */
  function FeedBit(crc: Register, bit: bool): Register
  {
    if crc[0] != bit then Xor(POLY, ShiftRight(crc, 1)) else ShiftRight(crc, 1)
  }

  function FeedBits(crc: Register, bits: seq<bool>): Register
    decreases |bits|
  {
    if bits == [] then crc else FeedBits(FeedBit(crc, bits[0]), bits[1..])
  }

  /** The message as a bit stream: each byte lowest bit first. */
  function MessageBits(data: seq<byte>): (bits: seq<bool>)
    ensures |bits| == 8 * |data|
  {
    if data == [] then [] else ToBits(data[0], 8) + MessageBits(data[1..])
  }

  function CrcRegister(data: seq<byte>): Register
  {
    Xor(FeedBits(ONES, MessageBits(data)), ONES)
  }

  /** The checksum as an unsigned 32-bit number. */
  function Crc(data: seq<byte>): nat
  {
    ToNat(CrcRegister(data))
  }

  // ---------- the constants ----------

  lemma CrcRange(data: seq<byte>)
    ensures Crc(data) < TWO_32
  {
    ToNatBound(CrcRegister(data));
    PowersOfTwo();
  }

  lemma OneMoreBit(g: seq<bool>, i: nat, v: nat)
    requires i < |g| && ToNat(g[i + 1..]) == v / 2 && g[i] == (v % 2 == 1)
    ensures ToNat(g[i..]) == v
  {
    assert g[i..][1..] == g[i + 1..];
  }

  lemma FourMoreBits(g: seq<bool>, i: nat, high: nat, b0: bool, b1: bool, b2: bool, b3: bool)
    requires i + 4 <= |g| && ToNat(g[i + 4..]) == high
    requires g[i] == b0 && g[i + 1] == b1 && g[i + 2] == b2 && g[i + 3] == b3
    ensures ToNat(g[i..]) == 16 * high + (if b3 then 8 else 0) + (if b2 then 4 else 0) + (if b1 then 2 else 0) + (if b0 then 1 else 0)
  {
    var v3 := 2 * high + if b3 then 1 else 0;
    var v2 := 2 * v3 + if b2 then 1 else 0;
    var v1 := 2 * v2 + if b1 then 1 else 0;
    OneMoreBit(g, i + 3, v3);
    OneMoreBit(g, i + 2, v2);
    OneMoreBit(g, i + 1, v1);
    OneMoreBit(g, i, 2 * v1 + if b0 then 1 else 0);
  }

  lemma PolyFrom24()
    ensures ToNat(POLY[24..]) == 0xED
  {
    FourMoreBits(POLY, 28, 0x0, false, true, true, true);
    FourMoreBits(POLY, 24, 0xE, true, false, true, true);
  }

  lemma PolyFrom16()
    ensures ToNat(POLY[16..]) == 0xEDB8
  {
    PolyFrom24();
    FourMoreBits(POLY, 20, 0xED, true, true, false, true);
    FourMoreBits(POLY, 16, 0xEDB, false, false, false, true);
  }

  lemma PolyFrom8()
    ensures ToNat(POLY[8..]) == 0xED_B883
  {
    PolyFrom16();
    FourMoreBits(POLY, 12, 0xEDB8, false, false, false, true);
    FourMoreBits(POLY, 8, 0xE_DB88, true, true, false, false);
  }

  /** The reflected generator is the program's constant, read one hexadecimal digit at a time. */
  lemma PolyIsConstant()
    ensures ToNat(POLY) == 0xEDB8_8320
  {
    PolyFrom8();
    FourMoreBits(POLY, 4, 0xED_B883, false, true, false, false);
    FourMoreBits(POLY, 0, 0xEDB_8832, false, false, false, false);
    assert POLY[0..] == POLY;
  }

  // ---------- the register as a linear map ----------

  /** One division step without input. */
  function BitStep(c: Register): Register
  {
    if c[0] then Xor(POLY, ShiftRight(c, 1)) else ShiftRight(c, 1)
  }

  function Steps(c: Register, n: nat): Register
    decreases n
  {
    if n == 0 then c else Steps(BitStep(c), n - 1)
  }

  lemma BitStepLinear(a: Register, b: Register)
    ensures BitStep(Xor(a, b)) == Xor(BitStep(a), BitStep(b))
  {
  }

  lemma {:induction false} StepsLinear(a: Register, b: Register, n: nat)
    ensures Steps(Xor(a, b), n) == Xor(Steps(a, n), Steps(b, n))
    decreases n
  {
    if n > 0 {
      BitStepLinear(a, b);
      StepsLinear(BitStep(a), BitStep(b), n - 1);
    }
  }

  /** Mixing up to 32 message bits in at once and then shifting is feeding them one at a time. */
  lemma {:induction false} FeedBitsIsSteps(c: Register, bits: seq<bool>)
    requires |bits| <= 32
    ensures FeedBits(c, bits) == Steps(Xor(c, Pad(bits)), |bits|)
    decreases |bits|
  {
    if bits == [] {
      assert Xor(c, Pad(bits)) == c;
    } else {
      assert BitStep(Xor(c, Pad(bits))) == Xor(FeedBit(c, bits[0]), Pad(bits[1..]));
      FeedBitsIsSteps(FeedBit(c, bits[0]), bits[1..]);
    }
  }

  /** Low zero bits only move the register down. */
  lemma {:induction false} StepsShift(c: Register, n: nat)
    requires n <= 32 && forall i :: 0 <= i < n ==> !c[i]
    ensures Steps(c, n) == ShiftRight(c, n)
    decreases n
  {
    if n > 0 {
      StepsShift(ShiftRight(c, 1), n - 1);
      assert ShiftRight(ShiftRight(c, 1), n - 1) == ShiftRight(c, n);
    } else {
      assert ShiftRight(c, 0) == c;
    }
  }

  // ---------- the table ----------

  function TableEntry(i: nat): Register
  {
    Steps(Pad(ToBits(i, 8)), 8)
  }

  /** The table index: the low byte of the register mixed with the data byte. */
  function TableIndex(crc: Register, b: byte): nat
  {
    ToNat(Xor(crc, Pad(ToBits(b, 8)))[..8])
  }

  lemma SplitLow(x: Register)
    ensures x == Xor(Pad(x[..8]), Zeros(8) + x[8..])
    ensures ShiftRight(Zeros(8) + x[8..], 8) == ShiftRight(x, 8)
  {
  }

  /** Eight steps act on the low byte; the high bytes only move down. */
  lemma EightSteps(x: Register)
    ensures Steps(x, 8) == Xor(Steps(Pad(x[..8]), 8), ShiftRight(x, 8))
  {
    SplitLow(x);
    StepsLinear(Pad(x[..8]), Zeros(8) + x[8..], 8);
    StepsShift(Zeros(8) + x[8..], 8);
  }

  lemma ByteKeepsHigh(crc: Register, bits: seq<bool>)
    requires |bits| == 8
    ensures ShiftRight(Xor(crc, Pad(bits)), 8) == ShiftRight(crc, 8)
  {
  }

  /** Eight bit feeds are one table lookup. */
  lemma LookupIsFeed(crc: Register, b: byte)
    ensures Xor(TableEntry(TableIndex(crc, b)), ShiftRight(crc, 8)) == FeedBits(crc, ToBits(b, 8))
  {
    var bits := ToBits(b, 8);
    var x := Xor(crc, Pad(bits));
    FeedBitsIsSteps(crc, bits);
    EightSteps(x);
    ByteKeepsHigh(crc, bits);
    BitsRoundTrip(x[..8]);
  }

  lemma TableIndexRange(crc: Register, b: byte)
    ensures TableIndex(crc, b) < 256
  {
    ToNatBound(Xor(crc, Pad(ToBits(b, 8)))[..8]);
  }

  ghost predicate TableOk(table: seq<Register>)
  {
    |table| == 256 && forall i :: 0 <= i < 256 ==> table[i] == TableEntry(i)
  }

  lemma {:induction false} StepsLast(c: Register, n: nat)
    ensures Steps(c, n + 1) == BitStep(Steps(c, n))
    decreases n
  {
    if n > 0 { StepsLast(BitStep(c), n - 1); }
  }

  /** The inner loop: eight division steps from the byte. */
  method ComputeEntry(i: byte) returns (c: Register)
    ensures c == TableEntry(i)
  {
    c := Pad(ToBits(i, 8));
    for k := 0 to 8
      invariant c == Steps(Pad(ToBits(i, 8)), k)
    {
      StepsLast(Pad(ToBits(i, 8)), k);
      c := if c[0] then Xor(POLY, ShiftRight(c, 1)) else ShiftRight(c, 1);
    }
  }

  /** Fills the 256 entries. */
  method MakeCrc32Table() returns (table: array<Register>)
    ensures fresh(table) && TableOk(table[..])
  {
    table := new Register[256](_ => ONES);
    for i := 0 to 256
      invariant forall j :: 0 <= j < i ==> table[j] == TableEntry(j)
    {
      var c := ComputeEntry(i);
      table[i] := c;
    }
  }

  /** The table-driven loop computes the bit-by-bit checksum of every input. */
  method ComputeCrc32(table: seq<Register>, data: seq<byte>) returns (crc: Register)
    requires TableOk(table)
    ensures crc == CrcRegister(data) && ToNat(crc) == Crc(data)
  {
    crc := ONES;
    for i := 0 to |data|
      invariant crc == FeedBits(ONES, MessageBits(data[..i]))
    {
      TableIndexRange(crc, data[i]);
      LookupIsFeed(crc, data[i]);
      MessageBitsLast(data, i);
      FeedConcat(ONES, MessageBits(data[..i]), ToBits(data[i], 8));
      crc := Xor(table[TableIndex(crc, data[i])], ShiftRight(crc, 8));
    }
    assert data[..|data|] == data;
    crc := Xor(crc, ONES);
  }

  lemma {:induction false} FeedConcat(c: Register, a: seq<bool>, b: seq<bool>)
    ensures FeedBits(c, a + b) == FeedBits(FeedBits(c, a), b)
    decreases |a|
  {
    if a == [] {
      assert a + b == b;
    } else {
      assert (a + b)[1..] == a[1..] + b;
      FeedConcat(FeedBit(c, a[0]), a[1..], b);
    }
  }

  lemma {:induction false} MessageBitsConcat(a: seq<byte>, b: seq<byte>)
    ensures MessageBits(a + b) == MessageBits(a) + MessageBits(b)
  {
    if a == [] {
      assert a + b == b;
    } else {
      assert (a + b)[1..] == a[1..] + b;
      MessageBitsConcat(a[1..], b);
    }
  }

  lemma MessageBitsLast(data: seq<byte>, i: nat)
    requires i < |data|
    ensures MessageBits(data[..i + 1]) == MessageBits(data[..i]) + ToBits(data[i], 8)
  {
    assert data[..i + 1] == data[..i] + [data[i]];
    MessageBitsConcat(data[..i], [data[i]]);
    assert MessageBits([data[i]]) == ToBits(data[i], 8) + [];
  }

  // ---------- every step is a bijection on register states ----------

  /** The step undone: the top bit of the polynomial is set, so the top bit shows which case applied. */
  function Unstep(c: Register): Register
  {
    if c[31] then [true] + Xor(c, POLY)[..31] else [false] + c[..31]
  }

  lemma StepThenUnstep(c: Register)
    ensures Unstep(BitStep(c)) == c
  {
    var d := BitStep(c);
    assert d[31] == c[0];
    forall i | 0 <= i < 32 ensures Unstep(d)[i] == c[i] {
      if i > 0 { assert d[i - 1] == ((c[0] && POLY[i - 1]) != c[i]); }
    }
  }

  lemma UnstepThenStep(c: Register)
    ensures BitStep(Unstep(c)) == c
  {
    var d := Unstep(c);
    assert d[0] == c[31];
    forall i | 0 <= i < 32 ensures BitStep(d)[i] == c[i] {
      if i < 31 { assert d[i + 1] == ((c[31] && POLY[i]) != c[i]); }
    }
  }

  lemma BitStepBijective(c: Register)
    ensures Unstep(BitStep(c)) == c && BitStep(Unstep(c)) == c
  {
    StepThenUnstep(c);
    UnstepThenStep(c);
  }

  lemma {:induction false} StepsInjective(a: Register, b: Register, n: nat)
    requires Steps(a, n) == Steps(b, n)
    ensures a == b
    decreases n
  {
    if n > 0 {
      StepsInjective(BitStep(a), BitStep(b), n - 1);
      BitStepBijective(a);
      BitStepBijective(b);
    }
  }

  /** Feeding one byte is undone by undoing eight steps and unmixing the byte, on either side. */
  function FeedByteInverse(c: Register, b: byte): Register
  {
    Xor(Unsteps(c, 8), Pad(ToBits(b, 8)))
  }

  function Unsteps(c: Register, n: nat): Register
    decreases n
  {
    if n == 0 then c else Unsteps(Unstep(c), n - 1)
  }

  lemma {:induction false} UnstepsLast(c: Register, n: nat)
    ensures Unsteps(c, n + 1) == Unstep(Unsteps(c, n))
    decreases n
  {
    if n > 0 { UnstepsLast(Unstep(c), n - 1); }
  }

  lemma {:induction false} StepsBijective(c: Register, n: nat)
    ensures Unsteps(Steps(c, n), n) == c && Steps(Unsteps(c, n), n) == c
    decreases n
  {
    if n > 0 {
      StepsBijective(BitStep(c), n - 1);
      StepsBijective(Unstep(c), n - 1);
      UnstepsLast(Steps(BitStep(c), n - 1), n - 1);
      StepsLast(Unsteps(Unstep(c), n - 1), n - 1);
      BitStepBijective(c);
    }
  }

  lemma XorTwice(a: Register, b: Register)
    ensures Xor(Xor(a, b), b) == a
  {
  }

  lemma FeedByteBijective(c: Register, b: byte)
    ensures FeedByteInverse(FeedBits(c, ToBits(b, 8)), b) == c
    ensures FeedBits(FeedByteInverse(c, b), ToBits(b, 8)) == c
  {
    var m := Pad(ToBits(b, 8));
    FeedBitsIsSteps(c, ToBits(b, 8));
    FeedBitsIsSteps(FeedByteInverse(c, b), ToBits(b, 8));
    StepsBijective(Xor(c, m), 8);
    StepsBijective(c, 8);
    XorTwice(c, m);
    XorTwice(Unsteps(c, 8), m);
  }

  // ---------- error detection ----------

  lemma FeedBitInjective(c: Register, d: Register, bit: bool)
    requires FeedBit(c, bit) == FeedBit(d, bit)
    ensures c == d
  {
    var m := Pad([bit]);
    assert FeedBit(c, bit) == BitStep(Xor(c, m)) && FeedBit(d, bit) == BitStep(Xor(d, m));
    StepThenUnstep(Xor(c, m));
    StepThenUnstep(Xor(d, m));
    XorTwice(c, m);
    XorTwice(d, m);
  }

  /** Different register states stay different under the same input. */
  lemma {:induction false} FeedInjective(c: Register, d: Register, bits: seq<bool>)
    requires FeedBits(c, bits) == FeedBits(d, bits)
    ensures c == d
    decreases |bits|
  {
    if bits != [] {
      FeedInjective(FeedBit(c, bits[0]), FeedBit(d, bits[0]), bits[1..]);
      FeedBitInjective(c, d, bits[0]);
    }
  }

  /** From one state, different bit strings of at most 32 bits lead to different states. */
  lemma ShortFeedInjective(s: Register, w: seq<bool>, v: seq<bool>)
    requires |w| == |v| <= 32 && FeedBits(s, w) == FeedBits(s, v)
    ensures w == v
  {
    FeedBitsIsSteps(s, w);
    FeedBitsIsSteps(s, v);
    StepsInjective(Xor(s, Pad(w)), Xor(s, Pad(v)), |w|);
    forall i | 0 <= i < |w| ensures w[i] == v[i] {
      assert Xor(s, Pad(w))[i] == (s[i] != w[i]) && Xor(s, Pad(v))[i] == (s[i] != v[i]);
    }
  }

  lemma SameCrcSameFeed(a: seq<byte>, b: seq<byte>)
    requires Crc(a) == Crc(b)
    ensures FeedBits(ONES, MessageBits(a)) == FeedBits(ONES, MessageBits(b))
  {
    BitsRoundTrip(CrcRegister(a));
    BitsRoundTrip(CrcRegister(b));
    XorTwice(FeedBits(ONES, MessageBits(a)), ONES);
    XorTwice(FeedBits(ONES, MessageBits(b)), ONES);
  }

  /** A change confined to 32 consecutive bits of the message changes the checksum. */
  lemma BurstDetected(a: seq<byte>, b: seq<byte>, pre: seq<bool>, w: seq<bool>, v: seq<bool>, post: seq<bool>)
    requires MessageBits(a) == pre + w + post && MessageBits(b) == pre + v + post
    requires |w| == |v| <= 32 && w != v
    ensures Crc(a) != Crc(b)
  {
    BitBurst(pre, w, v, post);
    if Crc(a) == Crc(b) { SameCrcSameFeed(a, b); }
  }

  lemma BitBurst(pre: seq<bool>, w: seq<bool>, v: seq<bool>, post: seq<bool>)
    requires |w| == |v| <= 32
    ensures FeedBits(ONES, pre + w + post) == FeedBits(ONES, pre + v + post) ==> w == v
  {
    var s := FeedBits(ONES, pre);
    FeedConcat(ONES, pre + w, post);
    FeedConcat(ONES, pre + v, post);
    FeedConcat(ONES, pre, w);
    FeedConcat(ONES, pre, v);
    if FeedBits(ONES, pre + w + post) == FeedBits(ONES, pre + v + post) {
      FeedInjective(FeedBits(s, w), FeedBits(s, v), post);
      ShortFeedInjective(s, w, v);
    }
  }

  lemma {:induction false} MessageBitsInjective(a: seq<byte>, b: seq<byte>)
    requires |a| == |b| && MessageBits(a) == MessageBits(b)
    ensures a == b
  {
    if a != [] {
      assert ToBits(a[0], 8) == MessageBits(a)[..8] && ToBits(b[0], 8) == MessageBits(b)[..8];
      assert MessageBits(a[1..]) == MessageBits(a)[8..] && MessageBits(b[1..]) == MessageBits(b)[8..];
      PowersOfTwo();
      NatRoundTrip(a[0], 8);
      NatRoundTrip(b[0], 8);
      MessageBitsInjective(a[1..], b[1..]);
      assert a == [a[0]] + a[1..] && b == [b[0]] + b[1..];
    }
  }

  /** In bytes: a change confined to four consecutive bytes changes the checksum. */
  lemma FourBytesDetected(pre: seq<byte>, w: seq<byte>, v: seq<byte>, post: seq<byte>)
    requires |w| == |v| <= 4 && w != v
    ensures Crc(pre + w + post) != Crc(pre + v + post)
  {
    MessageBitsConcat(pre + w, post);
    MessageBitsConcat(pre + v, post);
    MessageBitsConcat(pre, w);
    MessageBitsConcat(pre, v);
    if MessageBits(w) == MessageBits(v) { MessageBitsInjective(w, v); }
    BurstDetected(pre + w + post, pre + v + post, MessageBits(pre), MessageBits(w), MessageBits(v), MessageBits(post));
  }
}
