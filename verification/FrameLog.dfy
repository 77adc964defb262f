/** Scanning a log of self-delimiting frames, for any frame format: `enc` writes an item's frame and
    `at` says what stands at a position of a file. */
module FrameLog {
  import opened Bytes

  /** What stands at a position of the log file. */
  datatype Entry<+R> = Good(item: R, next: nat) | Stop | Throws

  /** The items delivered, the position reached, and whether decoding threw. */
  datatype Recovered<+R> = Recovered(items: seq<R>, end: nat, threw: bool)

  type Reader<!R> = (seq<byte>, nat) -> Entry<R>

  /** Delivers items one after another until the end, a stop or an exception. */
  function Scan<R>(at: Reader<R>, file: seq<byte>, pos: nat): (r: Recovered<R>)
    ensures pos <= r.end && (pos <= |file| ==> r.end <= |file|)
    decreases |file| - pos
  {
    if pos >= |file| then Recovered([], pos, false)
    else match at(file, pos)
      case Good(item, next) =>
        if pos < next <= |file| then Prepend([item], Scan(at, file, next)) else Recovered([], pos, false)
      case Stop => Recovered([], pos, false)
      case Throws => Recovered([], pos, true)
  }

  function Prepend<R>(front: seq<R>, r: Recovered<R>): Recovered<R>
  {
    Recovered(front + r.items, r.end, r.threw)
  }

  /** The log after appending the frames of `rs` in order. */
  function Log<R>(enc: R -> seq<byte>, rs: seq<R>): seq<byte>
  {
    if rs == [] then [] else enc(rs[0]) + Log(enc, rs[1..])
  }

  function Map<R>(f: R -> R, rs: seq<R>): (s: seq<R>)
    ensures |s| == |rs| && forall i :: 0 <= i < |rs| ==> s[i] == f(rs[i])
  {
    if rs == [] then [] else [f(rs[0])] + Map(f, rs[1..])
  }

  /** How many frames lie wholly before the cut. */
  function WholeFrames<R>(enc: R -> seq<byte>, rs: seq<R>, cut: nat): (n: nat)
    ensures n <= |rs|
  {
    if rs == [] || |enc(rs[0])| > cut then 0 else 1 + WholeFrames(enc, rs[1..], cut - |enc(rs[0])|)
  }

  /** `frame` stands at `pos` of the file. */
  ghost predicate StandsAt(file: seq<byte>, pos: nat, frame: seq<byte>)
  {
    pos + |frame| <= |file| && file[pos..pos + |frame|] == frame
  }

  /** Only part of `frame` is left at the end of the file. */
  ghost predicate TornAt(file: seq<byte>, pos: nat, frame: seq<byte>)
  {
    pos < |file| && |file| - pos < |frame| && file[pos..] == frame[..|file| - pos]
  }

  /** The reader recognises the item's frame wherever it stands, and stops at a torn one. */
  ghost predicate Recognised<R(!new)>(at: Reader<R>, enc: R -> seq<byte>, read: R -> R, r: R)
  {
    && |enc(r)| > 0
    && (forall file, pos: nat :: StandsAt(file, pos, enc(r)) ==> at(file, pos) == Good(read(r), pos + |enc(r)|))
    && (forall file, pos: nat :: TornAt(file, pos, enc(r)) ==> at(file, pos) == Stop)
  }

  /** The items of the frames wholly before the cut, and the end of the last of them. */
  function Delivered<R>(enc: R -> seq<byte>, read: R -> R, pos: nat, rs: seq<R>, cut: nat): Recovered<R>
    decreases |rs|
  {
    if rs == [] || |enc(rs[0])| > cut then Recovered([], pos, false)
    else Prepend([read(rs[0])], Delivered(enc, read, pos + |enc(rs[0])|, rs[1..], cut - |enc(rs[0])|))
  }

  ghost predicate AllRecognised<R(!new)>(at: Reader<R>, enc: R -> seq<byte>, read: R -> R, rs: seq<R>)
  {
    forall r :: r in rs ==> Recognised(at, enc, read, r)
  }

  lemma GoodStep<R(!new)>(at: Reader<R>, enc: R -> seq<byte>, read: R -> R, file: seq<byte>, pos: nat, rs: seq<R>)
    requires AllRecognised(at, enc, read, rs) && rs != [] && StandsAt(file, pos, enc(rs[0]))
    ensures AllRecognised(at, enc, read, rs[1..])
    ensures Scan(at, file, pos) == Prepend([read(rs[0])], Scan(at, file, pos + |enc(rs[0])|))
  {
    assert rs[0] in rs && Recognised(at, enc, read, rs[0]);
  }

  lemma TornStep<R(!new)>(at: Reader<R>, enc: R -> seq<byte>, read: R -> R, file: seq<byte>, pos: nat, rs: seq<R>)
    requires AllRecognised(at, enc, read, rs) && rs != [] && TornAt(file, pos, enc(rs[0]))
    ensures Scan(at, file, pos) == Recovered([], pos, false)
  {
    assert rs[0] in rs && Recognised(at, enc, read, rs[0]);
  }

  /** The first frame of a cut log is whole or torn. */
  lemma CutFront(file: seq<byte>, pos: nat, frame: seq<byte>, rest: seq<byte>, cut: nat)
    requires cut <= |frame + rest| && pos + cut == |file| && file[pos..] == (frame + rest)[..cut]
    ensures |frame| > cut > 0 ==> TornAt(file, pos, frame)
    ensures |frame| <= cut ==> StandsAt(file, pos, frame) && file[pos + |frame|..] == rest[..cut - |frame|]
  {
    var log := frame + rest;
    if |frame| > cut {
      assert log[..cut] == frame[..cut];
    } else {
      assert file[pos..pos + |frame|] == file[pos..][..|frame|] == log[..cut][..|frame|] == frame;
      assert file[pos + |frame|..] == file[pos..][|frame|..] == log[..cut][|frame|..] == rest[..cut - |frame|];
    }
  }

  lemma {:induction false} ScanCut<R(!new)>(at: Reader<R>, enc: R -> seq<byte>, read: R -> R, file: seq<byte>, pos: nat, rs: seq<R>, cut: nat)
    requires AllRecognised(at, enc, read, rs)
    requires cut <= |Log(enc, rs)| && pos + cut == |file| && file[pos..] == Log(enc, rs)[..cut]
    ensures Scan(at, file, pos) == Delivered(enc, read, pos, rs, cut)
    decreases |rs|
  {
    if rs != [] {
      CutFront(file, pos, enc(rs[0]), Log(enc, rs[1..]), cut);
      if |enc(rs[0])| <= cut {
        GoodStep(at, enc, read, file, pos, rs);
        ScanCut(at, enc, read, file, pos + |enc(rs[0])|, rs[1..], cut - |enc(rs[0])|);
      } else if cut > 0 {
        TornStep(at, enc, read, file, pos, rs);
      }
    }
  }

  lemma {:induction false} DeliveredIs<R>(enc: R -> seq<byte>, read: R -> R, pos: nat, rs: seq<R>, cut: nat)
    ensures var n := WholeFrames(enc, rs, cut);
            Delivered(enc, read, pos, rs, cut) == Recovered(Map(read, rs[..n]), pos + |Log(enc, rs[..n])|, false)
    decreases |rs|
  {
    var n := WholeFrames(enc, rs, cut);
    if n > 0 {
      DeliveredIs(enc, read, pos + |enc(rs[0])|, rs[1..], cut - |enc(rs[0])|);
      assert rs[..n][0] == rs[0] && rs[..n][1..] == rs[1..][..n - 1];
    }
  }

  /** For any items and any byte cut of their log, the scan delivers exactly the items whose frames
      lie wholly before the cut and stops at the end of the last of them. */
  lemma ScanAnyCut<R(!new)>(at: Reader<R>, enc: R -> seq<byte>, read: R -> R, rs: seq<R>, cut: nat)
    requires AllRecognised(at, enc, read, rs) && cut <= |Log(enc, rs)|
    ensures var n := WholeFrames(enc, rs, cut);
            Scan(at, Log(enc, rs)[..cut], 0) == Recovered(Map(read, rs[..n]), |Log(enc, rs[..n])|, false)
  {
    ScanCut(at, enc, read, Log(enc, rs)[..cut], 0, rs, cut);
    DeliveredIs(enc, read, 0, rs, cut);
  }

  lemma SplitFront(file: seq<byte>, pos: nat, a: seq<byte>, b: seq<byte>)
    requires StandsAt(file, pos, a + b)
    ensures StandsAt(file, pos, a) && StandsAt(file, pos + |a|, b)
  {
    var here := file[pos..pos + |a + b|];
    assert file[pos..pos + |a|] == here[..|a|] == a;
    assert file[pos + |a|..pos + |a| + |b|] == here[|a|..] == b;
  }

  /** Good frames in front of anything are delivered, then the rest is scanned. */
  lemma {:induction false} ScanPrefix<R(!new)>(at: Reader<R>, enc: R -> seq<byte>, read: R -> R, file: seq<byte>, pos: nat, rs: seq<R>)
    requires AllRecognised(at, enc, read, rs) && StandsAt(file, pos, Log(enc, rs))
    ensures Scan(at, file, pos) == Prepend(Map(read, rs), Scan(at, file, pos + |Log(enc, rs)|))
    decreases |rs|
  {
    if rs != [] {
      var frame, rest := enc(rs[0]), Log(enc, rs[1..]);
      SplitFront(file, pos, frame, rest);
      GoodStep(at, enc, read, file, pos, rs);
      ScanPrefix(at, enc, read, file, pos + |frame|, rs[1..]);
      PrependTwice(read(rs[0]), Map(read, rs[1..]), Scan(at, file, pos + |frame| + |rest|));
    }
  }

  lemma PrependTwice<R>(a: R, b: seq<R>, r: Recovered<R>)
    ensures Prepend([a], Prepend(b, r)) == Prepend([a] + b, r)
  {
    assert [a] + (b + r.items) == [a] + b + r.items;
  }

  /** The reader's good answers depend only on bytes before the frame's end. */
  ghost predicate LocalAt<R>(at: Reader<R>, file: seq<byte>, end: nat, pos: nat)
  {
    end <= |file| && pos < |file| && at(file, pos).Good? && pos < at(file, pos).next <= end ==> at(file[..end], pos) == at(file, pos)
  }

  /** On any bytes: keeping only what the scan accepted, and scanning again, delivers the same items. */
  lemma {:induction false} ScanStable<R(!new)>(at: Reader<R>, file: seq<byte>, pos: nat)
    requires pos <= |file| && forall end, p: nat :: LocalAt(at, file, end, p)
    ensures var r := Scan(at, file, pos); Scan(at, file[..r.end], pos) == Recovered(r.items, r.end, false)
    decreases |file| - pos
  {
    var r := Scan(at, file, pos);
    if pos < |file| && at(file, pos).Good? && pos < at(file, pos).next <= |file| {
      assert LocalAt(at, file, r.end, pos);
      ScanStable(at, file, at(file, pos).next);
    }
  }

  // ---------- integers where they stand ----------

  lemma SplitAround(file: seq<byte>, pos: nat, part: seq<byte>)
    requires StandsAt(file, pos, part)
    ensures file == file[..pos] + part + file[pos + |part|..]
  {
  }

  lemma ReadUInt32(file: seq<byte>, pos: nat, v: nat)
    requires StandsAt(file, pos, Int32Bytes(v)) && v < TWO_32
    ensures UInt32At(file, pos) == v
  {
    SplitAround(file, pos, Int32Bytes(v));
    UInt32RoundTrip(v, file[..pos], file[pos + 4..]);
  }

  lemma ReadInt32(file: seq<byte>, pos: nat, v: nat)
    requires StandsAt(file, pos, Int32Bytes(v)) && v < TWO_31
    ensures Int32At(file, pos) == v
  {
    SplitAround(file, pos, Int32Bytes(v));
    Int32RoundTrip(v, file[..pos], file[pos + 4..]);
  }
}
