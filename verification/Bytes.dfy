/** Byte strings, the one lexicographic order every component compares keys with,
    and the big-endian wire integers. */
module Bytes {

  type byte = x: int | 0 <= x < 256

  datatype Option<+T> = None | Some(value: T)

  /** Lexicographic order on unsigned bytes; a proper prefix is smaller. */
  predicate Less(a: seq<byte>, b: seq<byte>)
  {
    b != [] && (a == [] || a[0] < b[0] || (a[0] == b[0] && Less(a[1..], b[1..])))
  }

  lemma {:induction false} LessTrichotomy(a: seq<byte>, b: seq<byte>)
    ensures Less(a, b) ==> a != b && !Less(b, a)
    ensures a != b ==> Less(a, b) || Less(b, a)
  {
    if a != [] && b != [] && a[0] == b[0] {
      LessTrichotomy(a[1..], b[1..]);
      assert a == [a[0]] + a[1..] && b == [b[0]] + b[1..];
    }
  }

  lemma {:induction false} LessTransitive(a: seq<byte>, b: seq<byte>, c: seq<byte>)
    requires Less(a, b) && Less(b, c)
    ensures Less(a, c)
  {
    if a != [] && a[0] == b[0] && b[0] == c[0] {
      LessTransitive(a[1..], b[1..], c[1..]);
    }
  }

  /** Replacing either side of a strict comparison by a weak one keeps it. */
  lemma LessThenAtMost(a: seq<byte>, b: seq<byte>, c: seq<byte>)
    requires (Less(a, b) && !Less(c, b)) || (!Less(b, a) && Less(b, c))
    ensures Less(a, c)
  {
    LessTrichotomy(a, b);
    LessTrichotomy(b, c);
    if Less(a, b) && Less(b, c) { LessTransitive(a, b, c); }
  }

  lemma AtMostTransitive(a: seq<byte>, b: seq<byte>, c: seq<byte>)
    requires !Less(b, a) && !Less(c, b)
    ensures !Less(c, a)
  {
    if Less(c, a) { LessThenAtMost(c, a, b); }
  }

  /** The first position where two strings differ decides their order. */
  lemma {:induction false} LessByPrefix(a: seq<byte>, b: seq<byte>, n: nat)
    requires n <= |a| && n <= |b| && a[..n] == b[..n]
    ensures n < |a| && n < |b| && a[n] != b[n] ==> (Less(a, b) <==> a[n] < b[n])
    ensures n == |a| || n == |b| ==> (Less(a, b) <==> |a| < |b|)
  {
    if n > 0 {
      assert a[0] == a[..n][0] == b[..n][0] == b[0];
      assert a[1..][..n - 1] == a[..n][1..] == b[..n][1..] == b[1..][..n - 1];
      LessByPrefix(a[1..], b[1..], n - 1);
    }
  }

  /** The strings agree up to position `i`, where the first has the smaller byte. */
  predicate SmallerAt(a: seq<byte>, b: seq<byte>, i: nat)
  {
    i < |a| && i < |b| && a[..i] == b[..i] && a[i] < b[i]
  }

  /** The order in terms of positions: a proper beginning is smaller, and otherwise the first different byte decides. */
  lemma {:induction false} LessIs(a: seq<byte>, b: seq<byte>)
    ensures Less(a, b) <==> (|a| < |b| && b[..|a|] == a) || exists i: nat :: SmallerAt(a, b, i)
  {
    if Less(a, b) && !(|a| < |b| && b[..|a|] == a) { ghost var i := WhereSmaller(a, b); }
    if |a| < |b| && b[..|a|] == a {
      assert a[..|a|] == a;
      LessByPrefix(a, b, |a|);
    }
    if i: nat :| SmallerAt(a, b, i) { LessByPrefix(a, b, i); }
  }

  lemma BeginsBehind(a: seq<byte>, b: seq<byte>)
    requires a != [] && b != [] && a[0] == b[0]
    ensures |a| < |b| && b[..|a|] == a <==> |a[1..]| < |b[1..]| && b[1..][..|a[1..]|] == a[1..]
  {
    if |a| <= |b| { assert b[..|a|] == [b[0]] + b[1..][..|a| - 1] && a == [a[0]] + a[1..] && b[1..][..|a| - 1] == b[..|a|][1..]; }
  }

  lemma {:induction false} WhereSmaller(a: seq<byte>, b: seq<byte>) returns (i: nat)
    requires Less(a, b) && !(|a| < |b| && b[..|a|] == a)
    ensures SmallerAt(a, b, i)
  {
    if a[0] < b[0] {
      i := 0;
    } else {
      BeginsBehind(a, b);
      var j := WhereSmaller(a[1..], b[1..]);
      i := j + 1;
      assert a[..i] == [a[0]] + a[1..][..j] && b[..i] == [b[0]] + b[1..][..j];
    }
  }

  /** The comparison loop the skip list, reader, engine and compactor each repeat. */
  method CompareKeys(a: seq<byte>, b: seq<byte>) returns (cmp: int)
    ensures cmp < 0 <==> Less(a, b)
    ensures cmp > 0 <==> Less(b, a)
    ensures cmp == 0 <==> a == b
  {
    var minLen := if |a| < |b| then |a| else |b|;
    for i := 0 to minLen
      invariant a[..i] == b[..i]
    {
      if a[i] != b[i] {
        LessByPrefix(a, b, i);
        LessByPrefix(b, a, i);
        return a[i] as int - b[i] as int;
      }
    }
    LessByPrefix(a, b, minLen);
    LessByPrefix(b, a, minLen);
    assert a[..minLen] == b[..minLen];
    if |a| == |b| { assert a == a[..minLen] && b == b[..minLen]; }
    return |a| - |b|;
  }

  // ---------- big-endian integers ----------

  const TWO_31: int := 0x8000_0000
  const TWO_32: int := 0x1_0000_0000
  const TWO_63: int := 0x8000_0000_0000_0000
  const TWO_64: int := 0x1_0000_0000_0000_0000

  /** The int32_t (int64_t) that a value wraps to. */
  function ToInt32(v: int): int
  {
    var u := v % TWO_32;
    if u < TWO_31 then u else u - TWO_32
  }

  function ToInt64(v: int): int
  {
    var u := v % TWO_64;
    if u < TWO_63 then u else u - TWO_64
  }

  function Int32Bytes(v: int): (s: seq<byte>)
    ensures |s| == 4
  {
    var u := v % TWO_32;
    [u / 0x100_0000, u / 0x1_0000 % 0x100, u / 0x100 % 0x100, u % 0x100]
  }

  function UInt32At(s: seq<byte>, i: nat): (u: int)
    requires i + 4 <= |s|
    ensures 0 <= u < TWO_32
  {
    s[i] as int * 0x100_0000 + s[i + 1] as int * 0x1_0000 + s[i + 2] as int * 0x100 + s[i + 3] as int
  }

  function Int32At(s: seq<byte>, i: nat): int
    requires i + 4 <= |s|
  {
    ToInt32(UInt32At(s, i))
  }

  function Int64Bytes(v: int): (s: seq<byte>)
    ensures |s| == 8
  {
    Int32Bytes(v % TWO_64 / TWO_32) + Int32Bytes(v)
  }

  function Int64At(s: seq<byte>, i: nat): int
    requires i + 8 <= |s|
  {
    ToInt64(UInt32At(s, i) * TWO_32 + UInt32At(s, i + 4))
  }

  lemma UInt32RoundTrip(v: int, pre: seq<byte>, post: seq<byte>)
    ensures UInt32At(pre + Int32Bytes(v) + post, |pre|) == v % TWO_32
  {
    var u := v % TWO_32;
    var s := pre + Int32Bytes(v) + post;
    assert s[|pre|] == u / 0x100_0000 && s[|pre| + 1] == u / 0x1_0000 % 0x100
        && s[|pre| + 2] == u / 0x100 % 0x100 && s[|pre| + 3] == u % 0x100;
    assert u == u / 0x100 * 0x100 + u % 0x100;
    assert u / 0x100 == u / 0x100 / 0x100 * 0x100 + u / 0x100 % 0x100;
    assert u / 0x100 / 0x100 == u / 0x1_0000 && u / 0x1_0000 / 0x100 == u / 0x100_0000;
  }

  lemma Int32RoundTrip(v: int, pre: seq<byte>, post: seq<byte>)
    ensures Int32At(pre + Int32Bytes(v) + post, |pre|) == ToInt32(v)
  {
    UInt32RoundTrip(v, pre, post);
  }

  lemma Int64RoundTrip(v: int, pre: seq<byte>, post: seq<byte>)
    ensures Int64At(pre + Int64Bytes(v) + post, |pre|) == ToInt64(v)
  {
    var hi, lo := Int32Bytes(v % TWO_64 / TWO_32), Int32Bytes(v);
    var s := pre + Int64Bytes(v) + post;
    assert s == pre + hi + (lo + post) && s == (pre + hi) + lo + post;
    UInt32RoundTrip(v % TWO_64 / TWO_32, pre, lo + post);
    UInt32RoundTrip(v, pre + hi, post);
    HighLow(v);
  }

  lemma ModUnique(x: int, q: int, m: int, r: int)
    requires 0 <= r < m && x == q * m + r
    ensures x % m == r && x / m == q
  {
    var d := x / m - q;
    assert x == x / m * m + x % m;
    assert d * m == r - x % m;
    MulSign(d, m);
  }

  lemma MulSign(d: int, m: int)
    requires m > 0
    ensures d >= 1 ==> d * m >= m
    ensures d <= -1 ==> d * m <= -m
  {
  }

  lemma HighLow(v: int)
    ensures (v % TWO_64 / TWO_32) % TWO_32 * TWO_32 + v % TWO_32 == v % TWO_64
  {
    var w := v % TWO_64;
    var q, hi, lo := v / TWO_64, w / TWO_32, w % TWO_32;
    assert w == hi * TWO_32 + lo && 0 <= hi < TWO_32;
    assert v == q * TWO_64 + w;
    ModUnique(v, q * TWO_32 + hi, TWO_32, lo);
  }
}
