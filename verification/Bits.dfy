/** Bytes and numbers as bit strings, lowest bit first. */
module Bits {
  import opened Bytes

  function ToBits(v: nat, n: nat): (bits: seq<bool>)
    ensures |bits| == n
  {
    if n == 0 then [] else [v % 2 == 1] + ToBits(v / 2, n - 1)
  }

  function ToNat(bits: seq<bool>): nat
  {
    if bits == [] then 0 else (if bits[0] then 1 else 0) + 2 * ToNat(bits[1..])
  }

  lemma {:induction false} BitsRoundTrip(bits: seq<bool>)
    ensures ToBits(ToNat(bits), |bits|) == bits
  {
    if bits != [] {
      BitsRoundTrip(bits[1..]);
      assert bits == [bits[0]] + bits[1..];
    }
  }

  function Pow2(n: nat): (p: nat)
    ensures p > 0
  {
    if n == 0 then 1 else 2 * Pow2(n - 1)
  }

  lemma {:induction false} ToNatBound(bits: seq<bool>)
    ensures ToNat(bits) < Pow2(|bits|)
  {
    if bits != [] { ToNatBound(bits[1..]); }
  }

  lemma {:induction false} NatRoundTrip(v: nat, n: nat)
    requires v < Pow2(n)
    ensures ToNat(ToBits(v, n)) == v
  {
    if n > 0 { NatRoundTrip(v / 2, n - 1); }
  }

  lemma {:induction false} Pow2Sum(m: nat, n: nat)
    ensures Pow2(m + n) == Pow2(m) * Pow2(n)
  {
    if m > 0 { Pow2Sum(m - 1, n); }
  }

  lemma PowersOfTwo()
    ensures Pow2(8) == 256 && Pow2(32) == TWO_32
  {
    assert Pow2(8) == 256;
    Pow2Sum(8, 8);
    Pow2Sum(16, 16);
  }

  /** Bit `k` of a byte, and the byte with bit `k` or-ed in. */
  predicate BitOf(b: byte, k: nat)
    requires k < 8
  {
    ToBits(b, 8)[k]
  }

  function WithBit(b: byte, k: nat): (c: byte)
    requires k < 8
    ensures ToBits(c, 8) == ToBits(b, 8)[k := true]
  {
    BitsRoundTrip(ToBits(b, 8)[k := true]);
    ToNatBound(ToBits(b, 8)[k := true]);
    PowersOfTwo();
    ToNat(ToBits(b, 8)[k := true])
  }

  /** Bit `j` is the binary digit of weight two to the `j`. */
  lemma {:induction false} BitIs(v: nat, j: nat, n: nat)
    requires j < n
    ensures ToBits(v, n)[j] == (v / Pow2(j) % 2 == 1)
  {
    if j > 0 {
      BitIs(v / 2, j - 1, n - 1);
      DivideTwice(v, Pow2(j - 1));
    }
  }

  lemma DivideTwice(v: nat, p: nat)
    requires p > 0
    ensures v / 2 / p == v / (2 * p)
  {
    var q := v / (2 * p);
    var r := v % (2 * p);
    assert v == q * (2 * p) + r;
    assert v / 2 == q * p + r / 2;
    ModUnique(v / 2, q, p, r / 2);
  }
}
