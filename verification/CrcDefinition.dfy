/** The checksum against the definition in section 8.1.1.6.2 of ITU-T V.42, which section 2.3.1 of RFC 1952 refers to: the
    complement of the remainder of the message, with its first 32 bits complemented and 32 zero bits behind it, divided
    by the generator. A polynomial over two elements is the sequence of its coefficients, highest first. */
module CrcDefinition {
  import opened Bytes
  import opened Bits
  import opened Crc32

  type Poly = seq<bool>

  /** The generator x^32 + x^26 + x^23 + x^22 + x^16 + x^12 + x^11 + x^10 + x^8 + x^7 + x^5 + x^4 + x^2 + x + 1. */
  const GENERATOR: Poly := Coefficients({32, 26, 23, 22, 16, 12, 11, 10, 8, 7, 5, 4, 2, 1, 0})

  function Coefficients(exponents: set<int>): (p: Poly)
    ensures |p| == 33 && forall i :: 0 <= i < 33 ==> p[i] == (32 - i in exponents)
  {
    seq(33, i => 32 - i in exponents)
  }

  /** The sum of two polynomials of the same length. */
  function Plus(a: Poly, b: Poly): (c: Poly)
    requires |a| == |b|
    ensures |c| == |a|
  {
    seq(|a|, i requires 0 <= i < |a| => a[i] != b[i])
  }

  function Nothing(n: nat): (z: Poly)
    ensures |z| == n
  {
    seq(n, _ => false)
  }

  /** The product of a quotient with the generator. */
  function Times(q: Poly): (p: Poly)
    ensures |p| == |q| + 32
    decreases |q|
  {
    if q == [] then Nothing(32)
    else Plus(if q[0] then GENERATOR + Nothing(|q| - 1) else Nothing(|q| + 32), [false] + Times(q[1..]))
  }

  /** The remainder of a dividend, `r`, is what a multiple of the generator leaves below x^32. */
  ghost predicate Divides(dividend: Poly, q: Poly, r: Poly)
  {
    |r| == 32 && |dividend| == |q| + 32 && dividend == Plus(Times(q), Nothing(|q|) + r)
  }

  lemma {:induction false} TimesFirst(q: Poly)
    ensures q != [] ==> Times(q)[0] == q[0]
  {
    if q != [] { assert GENERATOR[0]; }
  }

  /** There is only one quotient and one remainder. */
  lemma {:induction false} RemainderIsUnique(dividend: Poly, q: Poly, r: Poly, q': Poly, r': Poly)
    requires Divides(dividend, q, r) && Divides(dividend, q', r')
    ensures q == q' && r == r'
    decreases |q|
  {
    if q == [] {
      assert Plus(Nothing(32), [] + r) == r && Plus(Nothing(32), [] + r') == r';
    } else {
      TimesFirst(q);
      TimesFirst(q');
      assert dividend[0] == q[0] && dividend[0] == q'[0];
      var rest := Plus(dividend, if q[0] then GENERATOR + Nothing(|q| - 1) else Nothing(|q| + 32))[1..];
      DivideRest(dividend, q, r);
      DivideRest(dividend, q', r');
      RemainderIsUnique(rest, q[1..], r, q'[1..], r');
      assert q == [q[0]] + q[1..] && q' == [q'[0]] + q'[1..];
    }
  }

  lemma DivideRest(dividend: Poly, q: Poly, r: Poly)
    requires q != []
    requires Divides(dividend, q, r)
    ensures Divides(Plus(dividend, if q[0] then GENERATOR + Nothing(|q| - 1) else Nothing(|q| + 32))[1..], q[1..], r)
  {
    var first := if q[0] then GENERATOR + Nothing(|q| - 1) else Nothing(|q| + 32);
    var rest := Plus(dividend, first)[1..];
    forall i | 0 <= i < |rest| ensures rest[i] == Plus(Times(q[1..]), Nothing(|q| - 1) + r)[i] {
      assert dividend[i + 1] == ((first[i + 1] != Times(q[1..])[i]) != (Nothing(|q|) + r)[i + 1]);
    }
  }

  // ---------- the shift register divides ----------

  /** What is left to divide when the register holds `c` and these message bits are still to come. */
  function Left(c: Register, bits: seq<bool>): (p: Poly)
    ensures |p| == |bits| + 32
  {
    Plus(bits + Nothing(32), c + Nothing(|bits|))
  }

  /** One step takes the leading coefficient away. */
  lemma FeedLeft(c: Register, bits: seq<bool>)
    requires bits != []
    ensures var first := if Left(c, bits)[0] then GENERATOR + Nothing(|bits| - 1) else Nothing(|bits| + 32);
            Plus(Left(c, bits), first)[1..] == Left(FeedBit(c, bits[0]), bits[1..])
    ensures Left(c, bits)[0] == (c[0] != bits[0])
  {
    var n := |bits|;
    var first := if Left(c, bits)[0] then GENERATOR + Nothing(n - 1) else Nothing(n + 32);
    var a, b := Plus(Left(c, bits), first)[1..], Left(FeedBit(c, bits[0]), bits[1..]);
    forall i | 0 <= i < n + 31 ensures a[i] == b[i] {
      if i < 32 {
        assert GENERATOR[i + 1] == POLY[i];
      }
    }
  }

  lemma {:induction false} RegisterDivides(c: Register, bits: seq<bool>) returns (q: Poly)
    ensures |q| == |bits| && Divides(Left(c, bits), q, FeedBits(c, bits))
    decreases |bits|
  {
    if bits == [] {
      q := [];
      assert Plus([] + Nothing(32), c + Nothing(0)) == Plus(Times([]), Nothing(0) + c);
    } else {
      var rest := RegisterDivides(FeedBit(c, bits[0]), bits[1..]);
      q := [Left(c, bits)[0]] + rest;
      FeedLeft(c, bits);
      assert q[1..] == rest;
      MultiplyRest(Left(c, bits), q, FeedBits(c, bits));
    }
  }

  function Leading(q: Poly): (p: Poly)
    requires q != []
    ensures |p| == |q| + 32
  {
    if q[0] then GENERATOR + Nothing(|q| - 1) else Nothing(|q| + 32)
  }

  lemma MultiplyRest(dividend: Poly, q: Poly, r: Poly)
    requires q != [] && |dividend| == |q| + 32 && dividend[0] == q[0] && Divides(Plus(dividend, Leading(q))[1..], q[1..], r)
    ensures Divides(dividend, q, r)
  {
    TimesFirst(q);
    PlusBack(dividend, Leading(q), Times(q[1..]), Nothing(|q| - 1) + r);
    assert [false] + (Nothing(|q| - 1) + r) == Nothing(|q|) + r;
    assert Times(q) == Plus(Leading(q), [false] + Times(q[1..]));
  }

  lemma PlusBack(dividend: Poly, first: Poly, t: Poly, r: Poly)
    requires |dividend| == |first| == |t| + 1 == |r| + 1 && dividend[0] == first[0] && Plus(dividend, first)[1..] == Plus(t, r)
    ensures dividend == Plus(Plus(first, [false] + t), [false] + r)
  {
    forall i | 0 <= i < |dividend| ensures dividend[i] == Plus(Plus(first, [false] + t), [false] + r)[i] {
      if i > 0 { assert Plus(dividend, first)[1..][i - 1] == (dividend[i] != first[i]) && Plus(t, r)[i - 1] == (t[i - 1] != r[i - 1]); }
    }
  }

  // ---------- the checksum ----------

  /** The message bits, the first 32 complemented, followed by 32 zero bits; a shorter message has its zero bits complemented too. */
  function Dividend(bits: seq<bool>): (p: Poly)
    ensures |p| == |bits| + 32
  {
    seq(|bits| + 32, i requires 0 <= i < |bits| + 32 => if i < 32 then !(i < |bits| && bits[i]) else i < |bits| && bits[i])
  }

  function Complement(r: Register): (c: Register)
    ensures forall i :: 0 <= i < 32 ==> c[i] == !r[i]
  {
    seq(32, i requires 0 <= i < 32 => !r[i])
  }

  /** The complement of the checksum is the remainder. */
  lemma CrcIsRemainder(data: seq<byte>) returns (q: Poly)
    ensures Divides(Dividend(MessageBits(data)), q, Complement(CrcRegister(data)))
  {
    var bits := MessageBits(data);
    q := RegisterDivides(ONES, bits);
    assert Left(ONES, bits) == Dividend(bits);
    assert FeedBits(ONES, bits) == Complement(CrcRegister(data));
  }

  /** A message followed by its own checksum, lowest bit first, leaves the same register whatever the message. */
  lemma ResidueIsFixed(data: seq<byte>)
    ensures FeedBits(ONES, MessageBits(data) + CrcRegister(data)) == Steps(ONES, 32)
  {
    var c := FeedBits(ONES, MessageBits(data));
    FeedConcat(ONES, MessageBits(data), CrcRegister(data));
    FeedBitsIsSteps(c, CrcRegister(data));
    assert Xor(c, Pad(CrcRegister(data))) == ONES;
  }

  /** Bit `j` of byte `i` is message bit `8 i + j`: within a byte the lowest bit comes first. */
  lemma {:induction false} MessageBitIs(data: seq<byte>, i: nat, j: nat)
    requires i < |data| && j < 8
    ensures MessageBits(data)[8 * i + j] == (data[i] / Pow2(j) % 2 == 1)
  {
    if i == 0 {
      BitIs(data[0], j, 8);
    } else {
      MessageBitIs(data[1..], i - 1, j);
      assert MessageBits(data)[8 * i + j] == MessageBits(data[1..])[8 * (i - 1) + j];
    }
  }
}
