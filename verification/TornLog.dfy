/** Recovery after failed writes: what the first torn batch decides, when its bytes must stop recovery,
    and a run in which they hide an acknowledged record. */
module TornLog {
  import opened Bytes
  import opened Records
  import opened RecordLayout
  import opened FrameLog
  import opened WalRecovery
  import opened GroupCommit
  import opened CommitDurability
  import Crc32

  /** The first segment whose write stopped inside a request. */
  ghost predicate FirstTear(w: World, i: nat)
  {
    i < |w.log| && Clean(w.data, w.log[..i]) && !AtBoundary(w.data, w.log[i])
  }

  /** The requests standing up to the tear, and where the last of them ends. */
  function UpToTear(w: World, i: nat): seq<Req>
    requires i < |w.log|
  {
    AllStanding(w.data, w.log[..i + 1])
  }

  function TearAt(w: World, i: nat): nat
    requires i < |w.log|
  {
    |Merge(w.data, UpToTear(w, i))|
  }

  /** The log begins with the requests standing up to segment `i`, if only that one may be torn inside. */
  lemma FrontStands(data: seq<seq<byte>>, log: seq<Seg>, i: nat)
    requires i < |log| && AllTornOk(data, log) && Clean(data, log[..i])
    ensures Merge(data, AllStanding(data, log[..i + 1])) <= SegBytes(data, log)
  {
    var front := log[..i];
    assert log[..i + 1][..i] == front;
    forall j | 0 <= j < i ensures TornOk(data, front[j]) { assert TornOk(data, log[j]); }
    StandingNext(data, log, i);
    CleanBytes(data, front);
    SegLast(data, log[..i + 1]);
    SegStands(data, log[i]);
    MergeAppend(data, AllStanding(data, front), Standing(data, log[i]));
    PrefixJoin(SegBytes(data, front), Merge(data, Standing(data, log[i])), OneSeg(data, log[i]));
    SegPrefix(data, log, i + 1, |log|);
    assert log[..|log|] == log;
  }

  lemma FrontTornOk(data: seq<seq<byte>>, log: seq<Seg>, i: nat)
    requires i <= |log| && AllTornOk(data, log)
    ensures AllTornOk(data, log[..i])
  {
    forall j | 0 <= j < i ensures TornOk(data, log[..i][j]) { assert TornOk(data, log[j]); }
  }

  lemma PrefixJoin(a: seq<byte>, b: seq<byte>, c: seq<byte>)
    requires |b| <= |c| && c[..|b|] == b
    ensures a + b <= a + c
  {
  }

  lemma TearStands(s: State, i: nat)
    requires Inv(s) && FirstTear(s.world, i)
    ensures Merge(s.world.data, UpToTear(s.world, i)) <= s.world.file
  {
    FrontStands(s.world.data, s.world.log, i);
  }

  lemma {:induction false} LogPrefix(log: seq<Seg>, limit: int, n: nat)
    requires LogOk(log, limit) && n <= |log|
    ensures LogOk(log[..n], |Reqs(log[..n])|) && |Reqs(log[..n])| <= limit
    decreases |log|
  {
    if n == |log| {
      assert log[..n] == log;
    } else {
      var last := |log| - 1;
      ReqsSplit(log, limit);
      LogPrefix(log[..last], |Reqs(log[..last])|, n);
      assert log[..last][..n] == log[..n];
    }
  }

  /** A request written whole behind a segment arrived after all requests up to that segment. */
  lemma ArrivedLater(log: seq<Seg>, limit: int, i: nat, k: nat)
    requires LogOk(log, limit) && i < k < |log| && log[k].Whole?
    ensures log[k].req >= |Reqs(log[..i + 1])|
  {
    LogPrefix(log, limit, k + 1);
    var upTo := log[..k + 1];
    assert upTo[..k] == log[..k] && upTo[k] == log[k];
    ReqsSplit(upTo, |Reqs(upTo)|);
    LogPrefix(log[..k], |Reqs(log[..k])|, i + 1);
    assert log[..k][..i + 1] == log[..i + 1];
    assert SegReqs(log[k])[0] == log[k].req;
  }

  lemma InPrefix(a: seq<Req>, r: Req, b: seq<Req>)
    requires a + [r] <= b
    ensures r in b
  {
    assert b[|a|] == r;
  }

  lemma StandingBefore(data: seq<seq<byte>>, log: seq<Seg>, i: nat, r: Req)
    requires i < |log| && Logged(log, i, r)
    ensures r in AllStanding(data, log[..i + 1])
  {
    var j :| 0 <= j < i && j < |log| && log[j] == Whole(r);
    StandingAt(data, log, i + 1, j);
    InPrefix(AllStanding(data, log[..j]), r, AllStanding(data, log[..i + 1]));
  }

  lemma NotStandingBehind(data: seq<seq<byte>>, log: seq<Seg>, limit: int, i: nat, k: nat)
    requires LogOk(log, limit) && i < k < |log| && log[k].Whole?
    ensures log[k].req !in AllStanding(data, log[..i + 1])
  {
    LogPrefix(log, limit, i + 1);
    StandingAscends(data, log[..i + 1], |Reqs(log[..i + 1])|);
    ArrivedLater(log, limit, i, k);
  }

  /** Acknowledged requests before the tear stand in front of it, those behind it do not. */
  lemma AcknowledgedSides(s: State, i: nat, r: Req)
    requires Inv(s) && FirstTear(s.world, i) && r in s.world.outcome && s.world.outcome[r]
    ensures r in UpToTear(s.world, i) <==> Logged(s.world.log, i, r)
  {
    var w := s.world;
    var k :| 0 <= k < w.synced && k < |w.log| && w.log[k] == Whole(r);
    if Logged(w.log, i, r) {
      StandingBefore(w.data, w.log, i, r);
    } else {
      assert k > i by { assert w.log[i].Torn?; }
      NotStandingBehind(w.data, w.log, Limit(w, Current(s)), i, k);
    }
  }

  lemma UpToTearBelow(s: State, i: nat)
    requires Inv(s) && i < |s.world.log|
    ensures AllBelow(UpToTear(s.world, i), |s.world.data|)
  {
    var w, limit := s.world, Limit(s.world, Current(s));
    LogPrefix(w.log, limit, i + 1);
    StandingAscends(w.data, w.log[..i + 1], |Reqs(w.log[..i + 1])|);
    assert limit <= |w.data|;
  }

  /** Nothing readable follows the requests up to the tear in the part of the file that is left. */
  ghost predicate StopsAt(file: seq<byte>, cut: nat, p: nat)
    requires cut <= |file|
  {
    cut <= p || !EntryAt(Crc32.Crc, file[..cut], p).Good?
  }

  /** Recovery of a file that begins with the log of some records. */
  lemma FrontScanned(rs: seq<LogRecord>, file: seq<byte>)
    requires (forall q :: q in rs ==> Loggable(q)) && Log(Encoder(Crc32.Crc), rs) <= file
    ensures Scan(EntryReader(Crc32.Crc), file, 0).items
         == Map(Normalize, rs) + Scan(EntryReader(Crc32.Crc), file, |Log(Encoder(Crc32.Crc), rs)|).items
  {
    CrcIs32Bit();
    FrontScannedWith(Crc32.Crc, rs, file);
  }

  lemma FrontScannedWith(ck: Checksum, rs: seq<LogRecord>, file: seq<byte>)
    requires Is32Bit(ck) && (forall q :: q in rs ==> Loggable(q)) && Log(Encoder(ck), rs) <= file
    ensures Scan(EntryReader(ck), file, 0).items == Map(Normalize, rs) + Scan(EntryReader(ck), file, |Log(Encoder(ck), rs)|).items
  {
    forall q | q in rs ensures Recognised(EntryReader(ck), Encoder(ck), Normalize, q) { RecordRecognised(ck, q); }
    assert StandsAt(file, 0, Log(Encoder(ck), rs));
    ScanPrefix(EntryReader(ck), Encoder(ck), Normalize, file, 0, rs);
  }

  lemma FrontDelivered(rs: seq<LogRecord>, order: seq<Req>, file: seq<byte>, cut: nat)
    requires AllBelow(order, |rs|) && (forall q :: q in rs ==> Loggable(q)) && cut <= |file|
    requires var log := Log(Encoder(Crc32.Crc), Pick(rs, order)); log <= file && |log| <= cut
    ensures |order| <= |RecoveredItems(file, cut)| && Delivers(RecoveredItems(file, cut)[..|order|], rs, order, |order|)
    ensures StopsAt(file, cut, |Log(Encoder(Crc32.Crc), Pick(rs, order))|) ==> Delivers(RecoveredItems(file, cut), rs, order, |order|)
  {
    var log, front := Log(Encoder(Crc32.Crc), Pick(rs, order)), Map(Normalize, Pick(rs, order));
    assert log <= file[..cut];
    forall q | q in Pick(rs, order) ensures Loggable(q) { PickMember(rs, order, q); }
    FrontScanned(Pick(rs, order), file[..cut]);
    assert order[..|order|] == order;
    ItemsOf(front, Scan(EntryReader(Crc32.Crc), file[..cut], |log|).items);
    if StopsAt(file, cut, |log|) { ScanStops(file[..cut], |log|); }
  }

  lemma ItemsOf(front: seq<LogRecord>, rest: seq<LogRecord>)
    ensures (front + rest)[..|front|] == front && (rest == [] ==> front + rest == front)
  {
  }

  lemma ScanStops(file: seq<byte>, p: nat)
    requires p >= |file| || !EntryAt(Crc32.Crc, file, p).Good?
    ensures Scan(EntryReader(Crc32.Crc), file, p).items == []
  {
  }

  lemma ScanGoesOn(file: seq<byte>, p: nat)
    requires p < |file| && EntryAt(Crc32.Crc, file, p).Good?
    ensures Scan(EntryReader(Crc32.Crc), file, p).items != []
  {
    EntryAdvances(Crc32.Crc, file, p);
  }

  lemma MoreDelivered(rs: seq<LogRecord>, file: seq<byte>)
    requires (forall q :: q in rs ==> Loggable(q)) && Log(Encoder(Crc32.Crc), rs) <= file
    requires var p := |Log(Encoder(Crc32.Crc), rs)|; p < |file| && EntryAt(Crc32.Crc, file, p).Good?
    ensures |rs| < |Scan(EntryReader(Crc32.Crc), file, 0).items|
  {
    FrontScanned(rs, file);
    ScanGoesOn(file, |Log(Encoder(Crc32.Crc), rs)|);
  }

  // ---------- the first tear decides ----------

  /** Recovery gave exactly the first `n` requests standing up to the tear, and of the acknowledged requests
      exactly those before it. */
  ghost predicate SurvivesToTear(w: World, rs: seq<LogRecord>, i: nat, n: nat, items: seq<LogRecord>)
    requires i < |w.log|
  {
    && Delivers(items, rs, UpToTear(w, i), n)
    && forall r :: r in w.outcome && w.outcome[r] ==> (r in UpToTear(w, i)[..n] <==> Logged(w.log, i, r))
  }

  /** Everything acknowledged before the first tear is recovered, whatever follows it. */
  lemma BeforeTheTear(events: seq<Event>, rs: seq<LogRecord>, cut: nat, i: nat)
    requires var w := Exec(events).world; FirstTear(w, i) && Frames(w.data, Encoder(Crc32.Crc), rs) && w.durable <= cut <= |w.file|
    requires forall q :: q in rs ==> Loggable(q)
    ensures var w := Exec(events).world;
            exists n: nat :: n <= |RecoveredItems(w.file, cut)| && SurvivesToTear(w, rs, i, n, RecoveredItems(w.file, cut)[..n])
  {
    SafeInEveryRun(events);
    ghost var n := TearState(Exec(events), rs, cut, i);
  }

  /** Recovery delivers exactly the requests up to the first tear, and so of the acknowledged records exactly
      those written before it, if and only if what follows them does not read as a record. */
  lemma TheTearDecides(events: seq<Event>, rs: seq<LogRecord>, cut: nat, i: nat)
    requires var w := Exec(events).world; FirstTear(w, i) && Frames(w.data, Encoder(Crc32.Crc), rs) && w.durable <= cut <= |w.file|
    requires forall q :: q in rs ==> Loggable(q)
    ensures var w := Exec(events).world;
            (exists n: nat :: SurvivesToTear(w, rs, i, n, RecoveredItems(w.file, cut))) <==> StopsAt(w.file, cut, TearAt(w, i))
  {
    SafeInEveryRun(events);
    ghost var n := TearState(Exec(events), rs, cut, i);
    var w := Exec(events).world;
    if !StopsAt(w.file, cut, TearAt(w, i)) {
      TearGoesOn(Exec(events), rs, cut, i);
      forall m: nat ensures !SurvivesToTear(w, rs, i, m, RecoveredItems(w.file, cut)) { TooMany(w, rs, i, m, RecoveredItems(w.file, cut)); }
    }
  }

  lemma TearGoesOn(s: State, rs: seq<LogRecord>, cut: nat, i: nat)
    requires Inv(s) && FirstTear(s.world, i) && Frames(s.world.data, Encoder(Crc32.Crc), rs)
    requires cut <= |s.world.file| && (forall q :: q in rs ==> Loggable(q)) && !StopsAt(s.world.file, cut, TearAt(s.world, i))
    ensures |UpToTear(s.world, i)| < |RecoveredItems(s.world.file, cut)|
  {
    var order := UpToTear(s.world, i);
    UpToTearBelow(s, i);
    TearStands(s, i);
    MergeIsLog(s.world.data, Encoder(Crc32.Crc), rs, order);
    forall q | q in Pick(rs, order) ensures Loggable(q) { PickMember(rs, order, q); }
    MoreDelivered(Pick(rs, order), s.world.file[..cut]);
  }

  lemma TooMany(w: World, rs: seq<LogRecord>, i: nat, n: nat, items: seq<LogRecord>)
    requires i < |w.log| && |UpToTear(w, i)| < |items|
    ensures !SurvivesToTear(w, rs, i, n, items)
  {
  }

  lemma TearState(s: State, rs: seq<LogRecord>, cut: nat, i: nat) returns (n: nat)
    requires Inv(s) && FirstTear(s.world, i) && Frames(s.world.data, Encoder(Crc32.Crc), rs)
    requires s.world.durable <= cut <= |s.world.file| && forall q :: q in rs ==> Loggable(q)
    ensures var items := RecoveredItems(s.world.file, cut);
            && n <= |items| && SurvivesToTear(s.world, rs, i, n, items[..n])
            && (StopsAt(s.world.file, cut, TearAt(s.world, i)) ==> SurvivesToTear(s.world, rs, i, n, items))
  {
    var w, enc, order, items := s.world, Encoder(Crc32.Crc), UpToTear(s.world, i), RecoveredItems(s.world.file, cut);
    UpToTearBelow(s, i);
    TearStands(s, i);
    MergeIsLog(w.data, enc, rs, order);
    var log := Log(enc, Pick(rs, order));
    if |log| <= cut {
      n := |order|;
      FrontDelivered(rs, order, w.file, cut);
    } else {
      n := WholeFrames(enc, Pick(rs, order), cut);
      assert w.file[..cut] == log[..cut];
      CutDelivers(rs, order, cut);
      assert items[..n] == items;
    }
    forall r | r in w.outcome && w.outcome[r] ensures r in order[..n] <==> Logged(w.log, i, r) {
      TearSide(s, enc, rs, cut, i, r, n);
    }
  }

  lemma TearSide(s: State, enc: LogRecord -> seq<byte>, rs: seq<LogRecord>, cut: nat, i: nat, r: Req, n: nat)
    requires Inv(s) && FirstTear(s.world, i) && Frames(s.world.data, enc, rs) && AllBelow(UpToTear(s.world, i), |rs|)
    requires s.world.durable <= cut && r in s.world.outcome && s.world.outcome[r] && n <= |UpToTear(s.world, i)|
    requires n == |UpToTear(s.world, i)| || n == WholeFrames(enc, Pick(rs, UpToTear(s.world, i)), cut)
    ensures r in UpToTear(s.world, i)[..n] <==> Logged(s.world.log, i, r)
  {
    var order := UpToTear(s.world, i);
    AcknowledgedSides(s, i, r);
    if Logged(s.world.log, i, r) {
      var before := DurableFront(s, i, r);
      InFront(s.world.data, enc, rs, order, before, r, cut);
    }
    assert order[..|order|] == order;
  }

  /** An acknowledged request before the tear: it and all standing before it are durable. */
  lemma DurableFront(s: State, i: nat, r: Req) returns (before: seq<Req>)
    requires Inv(s) && FirstTear(s.world, i) && r in s.world.outcome && s.world.outcome[r] && Logged(s.world.log, i, r)
    ensures before + [r] <= UpToTear(s.world, i) && |Merge(s.world.data, before + [r])| <= s.world.durable
  {
    var w := s.world;
    var k := WhereLogged(s, i, r);
    FrontOf(w.data, w.log, k, i);
    AcknowledgedBytes(s, r, k);
    before := AllStanding(w.data, w.log[..k]);
  }

  lemma FrontOf(data: seq<seq<byte>>, log: seq<Seg>, k: nat, i: nat)
    requires k < i < |log| && log[k].Whole? && Clean(data, log[..i])
    ensures AllStanding(data, log[..k]) + [log[k].req] <= AllStanding(data, log[..i + 1])
    ensures Clean(data, log[..k])
  {
    StandingAt(data, log, i + 1, k);
    CleanBefore(data, log, k, i);
  }

  lemma CleanBefore(data: seq<seq<byte>>, log: seq<Seg>, k: nat, i: nat)
    requires k <= i <= |log| && Clean(data, log[..i])
    ensures Clean(data, log[..k])
  {
    forall j | 0 <= j < k ensures AtBoundary(data, log[..k][j]) { assert AtBoundary(data, log[..i][j]); }
  }

  /** An acknowledged request before the tear was covered by an fsync where it stands. */
  lemma WhereLogged(s: State, i: nat, r: Req) returns (k: nat)
    requires Inv(s) && FirstTear(s.world, i) && r in s.world.outcome && s.world.outcome[r] && Logged(s.world.log, i, r)
    ensures k < i && k < s.world.synced && s.world.log[k] == Whole(r)
  {
    var w := s.world;
    k :| 0 <= k < w.synced && k < |w.log| && w.log[k] == Whole(r);
    if k > i { NotStandingBehind(w.data, w.log, Limit(w, Current(s)), i, k); StandingBefore(w.data, w.log, i, r); }
    assert w.log[i].Torn?;
  }

  // ---------- torn bytes that must stop recovery ----------

  lemma SliceWord(file: seq<byte>, lo: nat, hi: nat, i: nat)
    requires lo + i + 4 <= hi <= |file|
    ensures Int32At(file[lo..hi], i) == Int32At(file, lo + i)
  {
  }

  /** Where recovery reads a record, the three length fields fit what the size field says. */
  lemma GoodLengths(ck: Checksum, file: seq<byte>, p: nat)
    requires EntryAt(ck, file, p).Good?
    ensures p + HEADER_SIZE + FIXED <= |file|
    ensures var room := Int32At(file, p + 4) - FIXED;
            && room <= MAX_PAYLOAD - FIXED && p + HEADER_SIZE + FIXED + room <= |file|
            && Int32At(file, p + 9) <= room && Int32At(file, p + 13) <= room && Int32At(file, p + 17) <= room
  {
    var size := Int32At(file, p + 4);
    var lo, hi := p + HEADER_SIZE, p + HEADER_SIZE + size;
    var payload := file[lo..hi];
    assert ParseAt(payload, 0).Parsed?;
    SliceWord(file, lo, hi, 1);
    SliceWord(file, lo, hi, 5);
    SliceWord(file, lo, hi, 9);
  }

  /** A word whose first byte is below 128 is at least what its first two bytes say. */
  lemma HighBytes(file: seq<byte>, q: nat)
    requires q + 4 <= |file| && file[q] < 128
    ensures Int32At(file, q) >= file[q] as int * 0x100_0000 + file[q + 1] as int * 0x1_0000
  {
  }

  lemma SmallWord(v: nat)
    requires v < 0x8000
    ensures var b := Int32Bytes(v); b[0] == 0 && b[1] == 0 && b[2] == v / 256 && b[3] == v % 256
  {
  }

  /** The size and key length bytes of a frame. */
  lemma FrameBytes(ck: Checksum, r: LogRecord)
    requires |r.key| < 128
    ensures var e := Encode(ck, r); |e| >= 21 && e[11] == 0 && e[12] == |r.key|
    ensures var e := Encode(ck, r); |RecordBytes(r)| < 0x8000 ==> e[6] == |RecordBytes(r)| / 256 && e[7] == |RecordBytes(r)| % 256
  {
    var c, n, k := Int32Bytes(ck(RecordBytes(r))), Int32Bytes(|RecordBytes(r)|), Int32Bytes(|r.key|);
    var rest := Int32Bytes(|r.value|) + Int32Bytes(|PointerBytes(r)|) + r.key + r.value + PointerBytes(r);
    assert Encode(ck, r) == c + n + ([r.kind] + k + rest);
    SmallWord(|r.key|);
    if |RecordBytes(r)| < 0x8000 { SmallWord(|RecordBytes(r)|); }
  }

  /** One byte of a frame in front of the next one, or its checksum and one size byte: with a key of 7 to
      127 bytes behind it, nothing is read there, whatever the sizes of records and file. */
  lemma TornByteFails(ck: Checksum, file: seq<byte>, p: nat, shift: nat, r: LogRecord)
    requires shift in {1, 5} && StandsAt(file, p + shift, Encode(ck, r)) && 7 <= |r.key| < 128
    ensures !EntryAt(ck, file, p).Good?
  {
    FrameBytes(ck, r);
    var q := p + shift + 12;
    FrameByteAt(file, p + shift, Encode(ck, r), 12);
    HighBytes(file, q);
    if EntryAt(ck, file, p).Good? { GoodLengths(ck, file, p); }
  }

  lemma FrameByteAt(file: seq<byte>, pos: nat, frame: seq<byte>, j: nat)
    requires StandsAt(file, pos, frame) && j < |frame|
    ensures file[pos + j] == frame[j]
  {
    assert file[pos..pos + |frame|][j] == file[pos + j];
  }

  /** A torn checksum or a torn size field in front of the next frame: with at most 64 KiB left to read,
      a key of 1 to 127 bytes and a record below 32 KiB behind it, nothing is read there. */
  lemma TornHeaderFails(ck: Checksum, file: seq<byte>, p: nat, shift: nat, r: LogRecord)
    requires shift in {1, 2, 3, 5, 6, 7} && StandsAt(file, p + shift, Encode(ck, r))
    requires 1 <= |r.key| < 128 && |RecordBytes(r)| < 0x8000 && |file| - p <= 0x1_0000
    ensures !EntryAt(ck, file, p).Good?
  {
    var j := if shift in {1, 5} then 12 else if shift in {2, 6} then 11 else 6;
    LongField(ck, file, p + shift, r, j);
    if EntryAt(ck, file, p).Good? { GoodLengths(ck, file, p); }
  }

  /** Read as a word, the bytes of a frame from one of these places give at least 65536. */
  lemma LongField(ck: Checksum, file: seq<byte>, pos: nat, r: LogRecord, j: nat)
    requires StandsAt(file, pos, Encode(ck, r)) && 1 <= |r.key| < 128 && |RecordBytes(r)| < 0x8000 && j in {6, 11, 12}
    ensures pos + j + 4 <= |file| && Int32At(file, pos + j) >= 0x1_0000
  {
    FrameBytes(ck, r);
    FrameByteAt(file, pos, Encode(ck, r), j);
    FrameByteAt(file, pos, Encode(ck, r), j + 1);
    HighBytes(file, pos + j);
  }

  /** How many bytes of an unfinished request stand at the tear. */
  function Shift(w: World, i: nat): int
    requires i < |w.log|
  {
    |OneSeg(w.data, w.log[i])| - |Merge(w.data, Standing(w.data, w.log[i]))|
  }

  /** The next request written after a torn batch stands right behind the torn bytes. */
  lemma FrameBehindTear(s: State, i: nat, b: Req)
    requires Inv(s) && FirstTear(s.world, i) && i + 1 < |s.world.log| && s.world.log[i + 1] == Whole(b)
    ensures Shift(s.world, i) > 0
    ensures StandsAt(s.world.file, TearAt(s.world, i) + Shift(s.world, i), DataOf(s.world.data, b))
  {
    var w := s.world;
    BehindTear(w.data, w.log, i);
    StandsBefore(SegBytes(w.data, w.log), InFlight(w, Current(s)), TearAt(w, i) + Shift(w, i), DataOf(w.data, b));
  }

  lemma BehindTear(data: seq<seq<byte>>, log: seq<Seg>, i: nat)
    requires i + 1 < |log| && AllTornOk(data, log) && Clean(data, log[..i]) && !AtBoundary(data, log[i]) && log[i + 1].Whole?
    ensures var shift := |OneSeg(data, log[i])| - |Merge(data, Standing(data, log[i]))|;
            shift > 0 && StandsAt(SegBytes(data, log), |Merge(data, AllStanding(data, log[..i + 1]))| + shift, DataOf(data, log[i + 1].req))
  {
    var front := log[..i];
    assert log[..i + 1][..i] == front;
    FrontTornOk(data, log, i);
    StandingNext(data, log, i);
    CleanBytes(data, front);
    SegLast(data, log[..i + 1]);
    assert TornOk(data, log[i]);
    SegStands(data, log[i]);
    MergeAppend(data, AllStanding(data, front), Standing(data, log[i]));
    SegSplit(data, log, i + 1);
  }

  /** Torn bytes of one of these shapes in front of an intact frame, with `left` bytes to read, stop recovery. */
  predicate StoppingShape(shift: int, r: LogRecord, left: int)
  {
    || (shift in {1, 5} && 7 <= |r.key| < 128)
    || (shift in {1, 2, 3, 5, 6, 7} && 1 <= |r.key| < 128 && |RecordBytes(r)| < 0x8000 && left <= 0x1_0000)
  }

  /** A write that failed inside a frame's checksum or size field hides everything written after it: every
      acknowledged record behind the tear is lost, every one before it survives. */
  lemma TornHeaderHides(events: seq<Event>, rs: seq<LogRecord>, cut: nat, i: nat)
    requires var w := Exec(events).world; FirstTear(w, i) && Frames(w.data, Encoder(Crc32.Crc), rs) && w.durable <= cut <= |w.file|
    requires forall q :: q in rs ==> Loggable(q)
    requires var w := Exec(events).world;
             && i + 1 < |w.log| && w.log[i + 1].Whole? && w.log[i + 1].req < |rs|
             && StoppingShape(Shift(w, i), rs[w.log[i + 1].req], cut - TearAt(w, i))
             && TearAt(w, i) + Shift(w, i) + |DataOf(w.data, w.log[i + 1].req)| <= cut
    ensures var w := Exec(events).world; exists n: nat :: SurvivesToTear(w, rs, i, n, RecoveredItems(w.file, cut))
  {
    SafeInEveryRun(events);
    TearNotReadable(Exec(events), rs, cut, i, Encoder(Crc32.Crc), Crc32.Crc);
    TheTearDecides(events, rs, cut, i);
  }

  lemma TearNotReadable(s: State, rs: seq<LogRecord>, cut: nat, i: nat, enc: LogRecord -> seq<byte>, ck: Checksum)
    requires Inv(s) && FirstTear(s.world, i) && Frames(s.world.data, enc, rs) && enc == Encoder(ck) && cut <= |s.world.file|
    requires var w := s.world;
             && i + 1 < |w.log| && w.log[i + 1].Whole? && w.log[i + 1].req < |rs|
             && StoppingShape(Shift(w, i), rs[w.log[i + 1].req], cut - TearAt(w, i))
             && TearAt(w, i) + Shift(w, i) + |DataOf(w.data, w.log[i + 1].req)| <= cut
    ensures !EntryAt(ck, s.world.file[..cut], TearAt(s.world, i)).Good?
  {
    var w, b := s.world, s.world.log[i + 1].req;
    FrameBehindTear(s, i, b);
    NotReadable(ck, w.file, cut, TearAt(w, i), Shift(w, i), rs[b], DataOf(w.data, b));
  }

  lemma NotReadable(ck: Checksum, file: seq<byte>, cut: nat, p: nat, shift: nat, r: LogRecord, frame: seq<byte>)
    requires cut <= |file| && frame == Encode(ck, r) && StoppingShape(shift, r, cut - p)
    requires StandsAt(file, p + shift, frame) && p + shift + |frame| <= cut
    ensures !EntryAt(ck, file[..cut], p).Good?
  {
    StandsInCut(file, cut, p + shift, frame);
    if shift in {1, 5} && 7 <= |r.key| < 128 {
      TornByteFails(ck, file[..cut], p, shift, r);
    } else {
      TornHeaderFails(ck, file[..cut], p, shift, r);
    }
  }

  lemma StandsInCut(file: seq<byte>, cut: nat, pos: nat, frame: seq<byte>)
    requires cut <= |file| && StandsAt(file, pos, frame) && pos + |frame| <= cut
    ensures StandsAt(file[..cut], pos, frame)
  {
    assert file[..cut][pos..pos + |frame|] == file[pos..pos + |frame|];
  }

  // ---------- a tear behind the header ----------

  /** The request that a torn segment broke off inside. */
  function TornReq(w: World, i: nat): Req
    requires i < |w.log| && w.log[i].Torn?
  {
    var k := Fit(w.data, w.log[i].batch, |w.log[i].bytes|);
    if k < |w.log[i].batch| then w.log[i].batch[k] else 0
  }

  lemma {:induction false} FitNext(data: seq<seq<byte>>, batch: seq<Req>, n: nat)
    ensures var k := Fit(data, batch, n);
            && |Merge(data, batch[..k])| <= n
            && (k < |batch| ==> n < |Merge(data, batch[..k])| + |DataOf(data, batch[k])|)
  {
    var k := Fit(data, batch, n);
    FitBytes(data, batch, n);
    if k > 0 {
      FitNext(data, batch[1..], n - |DataOf(data, batch[0])|);
      assert batch[..k][0] == batch[0] && batch[..k][1..] == batch[1..][..k - 1];
    } else {
      assert batch[..k] == [];
    }
  }

  /** A torn segment ends with the first bytes of that request. */
  lemma TornSegment(data: seq<seq<byte>>, batch: seq<Req>, bytes: seq<byte>)
    requires TornOk(data, Torn(batch, bytes)) && !AtBoundary(data, Torn(batch, bytes))
    ensures var k := Fit(data, batch, |bytes|);
            && k < |batch| && |Merge(data, batch[..k])| < |bytes|
            && bytes[|Merge(data, batch[..k])|..] <= DataOf(data, batch[k])
            && |bytes| - |Merge(data, batch[..k])| < |DataOf(data, batch[k])|
  {
    var k := Fit(data, batch, |bytes|);
    FitNext(data, batch, |bytes|);
    SplitBatch(data, batch, k);
  }

  lemma SplitBatch(data: seq<seq<byte>>, batch: seq<Req>, k: nat)
    requires k <= |batch|
    ensures Merge(data, batch) == Merge(data, batch[..k]) + if k < |batch| then DataOf(data, batch[k]) + Merge(data, batch[k + 1..]) else []
  {
    assert batch == batch[..k] + batch[k..];
    MergeAppend(data, batch[..k], batch[k..]);
    if k < |batch| { assert batch[k..][0] == batch[k] && batch[k..][1..] == batch[k + 1..]; }
  }

  lemma TornLengths(data: seq<seq<byte>>, log: seq<Seg>, i: nat)
    requires i < |log| && AllTornOk(data, log) && Clean(data, log[..i])
    ensures SegBytes(data, log[..i]) + OneSeg(data, log[i]) <= SegBytes(data, log)
    ensures |Merge(data, AllStanding(data, log[..i + 1]))| == |SegBytes(data, log[..i])| + |Merge(data, Standing(data, log[i]))|
  {
    var front := log[..i];
    assert log[..i + 1][..i] == front;
    FrontTornOk(data, log, i);
    StandingNext(data, log, i);
    CleanBytes(data, front);
    SegLast(data, log[..i + 1]);
    MergeAppend(data, AllStanding(data, front), Standing(data, log[i]));
    SegPrefix(data, log, i + 1, |log|);
    assert log[..|log|] == log;
  }

  lemma TornStands(data: seq<seq<byte>>, log: seq<Seg>, i: nat, own: seq<byte>)
    requires i < |log| && AllTornOk(data, log) && Clean(data, log[..i]) && log[i].Torn?
    requires var k := |Merge(data, Standing(data, log[i]))|; k <= |log[i].bytes| && log[i].bytes[k..] <= own
    ensures StandsAt(SegBytes(data, log), |Merge(data, AllStanding(data, log[..i + 1]))|, own[..|log[i].bytes| - |Merge(data, Standing(data, log[i]))|])
  {
    TornLengths(data, log, i);
    LastPart(SegBytes(data, log[..i]), log[i].bytes, SegBytes(data, log), |Merge(data, Standing(data, log[i]))|, own);
  }

  /** Where the first tear is, the file holds the first bytes of the torn request. */
  lemma TornBytesStand(s: State, i: nat)
    requires Inv(s) && FirstTear(s.world, i)
    ensures var w := s.world;
            && w.log[i].Torn? && 0 < Shift(w, i) < |DataOf(w.data, TornReq(w, i))|
            && StandsAt(w.file, TearAt(w, i), DataOf(w.data, TornReq(w, i))[..Shift(w, i)])
  {
    var w := s.world;
    assert TornOk(w.data, w.log[i]);
    TornSegment(w.data, w.log[i].batch, w.log[i].bytes);
    TornStands(w.data, w.log, i, DataOf(w.data, TornReq(w, i)));
    StandsBefore(SegBytes(w.data, w.log), InFlight(w, Current(s)), TearAt(w, i), DataOf(w.data, TornReq(w, i))[..Shift(w, i)]);
  }

  lemma LastPart(a: seq<byte>, b: seq<byte>, file: seq<byte>, k: nat, own: seq<byte>)
    requires a + b <= file && k <= |b| && b[k..] <= own
    ensures StandsAt(file, |a| + k, own[..|b| - k])
  {
    assert file[|a| + k..|a| + |b|] == b[k..];
  }

  /** The frame of a record torn behind its header: recovery reads what follows as the rest of its payload. */
  lemma TornPayload(ck: Checksum, file: seq<byte>, p: nat, r: LogRecord, shift: nat)
    requires Is32Bit(ck) && Loggable(r) && HEADER_SIZE <= shift < |Encode(ck, r)| && StandsAt(file, p, Encode(ck, r)[..shift])
    ensures |file| < p + |Encode(ck, r)| ==> EntryAt(ck, file, p) == Stop
    ensures p + |Encode(ck, r)| <= |file| ==>
              var stored := file[p + HEADER_SIZE..p + |Encode(ck, r)|];
              EntryAt(ck, file, p) == if ck(stored) == ck(RecordBytes(r)) then Decoded(stored, p + |Encode(ck, r)|) else Stop
  {
    var end := p + |Encode(ck, r)|;
    var stored := file[p + HEADER_SIZE..if end <= |file| then end else |file|];
    var header := Int32Bytes(ck(RecordBytes(r))) + Int32Bytes(|RecordBytes(r)|);
    TornHeader(file, p, header, RecordBytes(r), shift);
    HeaderStands(file, p, header, stored);
    FrameHeader(ck, file, p, RecordBytes(r), stored);
    if end <= |file| { FrameEntry(ck, file, p, r, stored); }
  }

  lemma HeaderStands(file: seq<byte>, p: nat, header: seq<byte>, stored: seq<byte>)
    requires StandsAt(file, p, header) && p + |header| + |stored| <= |file| && file[p + |header|..p + |header| + |stored|] == stored
    ensures StandsAt(file, p, header + stored)
  {
    assert file[p..p + |header| + |stored|] == file[p..p + |header|] + stored;
  }

  lemma TornHeader(file: seq<byte>, p: nat, header: seq<byte>, payload: seq<byte>, shift: nat)
    requires |header| <= shift < |header + payload| && StandsAt(file, p, (header + payload)[..shift])
    ensures p + shift <= |file| && StandsAt(file, p, header)
  {
    assert file[p..p + |header|] == file[p..p + shift][..|header|] == (header + payload)[..shift][..|header|];
  }

  /** Two payloads that differ in their last four bytes only have different checksums. */
  lemma TailDiffers(a: seq<byte>, b: seq<byte>, m: nat)
    requires |a| == |b| && m <= 4 && m <= |a| && a[..|a| - m] == b[..|a| - m] && a != b
    ensures Crc32.Crc(a) != Crc32.Crc(b)
  {
    var k := |a| - m;
    assert a == a[..k] + a[k..] + [] && b == b[..k] + b[k..] + [];
    Crc32.FourBytesDetected(a[..k], a[k..], b[k..], []);
  }

  predicate Parses(payload: seq<byte>)
  {
    ParseAt(payload, 0).Parsed?
  }

  /** Whether recovery reads on at a tear behind the header: the file is long enough for the payload, and what
      stands in its place has the checksum and reads as a record. */
  predicate ReadsOn(ck: Checksum, file: seq<byte>, p: nat, payload: seq<byte>)
  {
    ReadsOnWith(ck, Parses, file, p + HEADER_SIZE, payload)
  }

  predicate ReadsOnWith(ck: Checksum, parses: seq<byte> -> bool, file: seq<byte>, begin: nat, payload: seq<byte>)
  {
    var end := begin + |payload|;
    end <= |file| && ck(file[begin..end]) == ck(payload) && parses(file[begin..end])
  }

  lemma TornPayloadExact(ck: Checksum, file: seq<byte>, p: nat, r: LogRecord, shift: nat)
    requires Is32Bit(ck) && Loggable(r) && HEADER_SIZE <= shift < |Encode(ck, r)| && StandsAt(file, p, Encode(ck, r)[..shift])
    ensures EntryAt(ck, file, p).Good? <==> ReadsOn(ck, file, p, RecordBytes(r))
  {
    TornPayload(ck, file, p, r, shift);
  }

  /** With at most four bytes missing, recovery reads on exactly if just those bytes follow. */
  lemma TornTail(ck: Checksum, file: seq<byte>, p: nat, header: seq<byte>, payload: seq<byte>, shift: nat)
    requires |header| == HEADER_SIZE <= shift < |header + payload| <= shift + 4
    requires ck == Crc32.Crc && Parses(payload) && StandsAt(file, p, (header + payload)[..shift])
    ensures ReadsOn(ck, file, p, payload) <==> StandsAt(file, p, header + payload)
  {
    TornTailWith(ck, Parses, file, p, header, payload, shift);
  }

  lemma TornTailWith(ck: Checksum, parses: seq<byte> -> bool, file: seq<byte>, p: nat, header: seq<byte>, payload: seq<byte>, shift: nat)
    requires |header| <= shift < |header + payload| <= shift + 4
    requires ck == Crc32.Crc && parses(payload) && StandsAt(file, p, (header + payload)[..shift])
    ensures ReadsOnWith(ck, parses, file, p + |header|, payload) <==> StandsAt(file, p, header + payload)
  {
    if p + |header + payload| <= |file| { TailReads(ck, file, p, header, payload, shift); }
  }

  lemma ParsesOwn(r: LogRecord)
    requires Loggable(r)
    ensures Parses(RecordBytes(r))
  {
    DecodeOwn(r, 0);
  }

  lemma TailReads(ck: Checksum, file: seq<byte>, p: nat, header: seq<byte>, payload: seq<byte>, shift: nat)
    requires |header| <= shift < |header + payload| <= shift + 4
    requires ck == Crc32.Crc && p + |header + payload| <= |file| && StandsAt(file, p, (header + payload)[..shift])
    ensures var stored := file[p + |header|..p + |header| + |payload|];
            (ck(stored) == ck(payload) <==> stored == payload) && (StandsAt(file, p, header + payload) <==> stored == payload)
  {
    var stored := file[p + |header|..p + |header| + |payload|];
    TornHeader(file, p, header, payload, shift);
    SameStart(file, p, header, payload, shift);
    if stored != payload {
      TailDiffers(payload, stored, |header + payload| - shift);
      assert file[p..p + |header + payload|][|header|..] == stored && (header + payload)[|header|..] == payload;
    } else {
      HeaderStands(file, p, header, stored);
    }
  }

  lemma SameStart(file: seq<byte>, p: nat, header: seq<byte>, payload: seq<byte>, shift: nat)
    requires |header| <= shift <= |header + payload| && StandsAt(file, p, (header + payload)[..shift]) && p + |header + payload| <= |file|
    ensures file[p + |header|..p + |header + payload|][..shift - |header|] == payload[..shift - |header|]
  {
    assert file[p + |header|..p + |header + payload|][..shift - |header|] == file[p..p + shift][|header|..];
    assert (header + payload)[..shift][|header|..] == payload[..shift - |header|];
  }

  /** For a first tear behind a record's header, in terms of the file: recovery ends at the tear, and of the
      acknowledged records exactly those before it survive, if and only if recovery does not read on there. With at
      most the last four bytes missing: if and only if what follows is not just those bytes. */
  lemma TornPayloadDecides(events: seq<Event>, rs: seq<LogRecord>, cut: nat, i: nat)
    requires var w := Exec(events).world; FirstTear(w, i) && Frames(w.data, Encoder(Crc32.Crc), rs) && w.durable <= cut <= |w.file|
    requires forall q :: q in rs ==> Loggable(q)
    requires var w := Exec(events).world; w.log[i].Torn? && TornReq(w, i) < |rs| && HEADER_SIZE <= Shift(w, i) && TearAt(w, i) + Shift(w, i) <= cut
    ensures var w := Exec(events).world; var r, p := rs[TornReq(w, i)], TearAt(w, i);
            var ends := exists n: nat :: SurvivesToTear(w, rs, i, n, RecoveredItems(w.file, cut));
            && (ends <==> !ReadsOn(Crc32.Crc, w.file[..cut], p, RecordBytes(r)))
            && (|Encode(Crc32.Crc, r)| <= Shift(w, i) + 4 ==> (ends <==> !StandsAt(w.file[..cut], p, Encode(Crc32.Crc, r))))
  {
    var s := Exec(events);
    SafeInEveryRun(events);
    TornBytesStand(s, i);
    TheTearDecides(events, rs, cut, i);
    CrcIs32Bit();
    TearReads(s.world.file, cut, TearAt(s.world, i), rs[TornReq(s.world, i)], Shift(s.world, i), Encoder(Crc32.Crc), DataOf(s.world.data, TornReq(s.world, i)));
  }

  lemma TearReads(file: seq<byte>, cut: nat, p: nat, r: LogRecord, shift: nat, enc: LogRecord -> seq<byte>, own: seq<byte>)
    requires enc == Encoder(Crc32.Crc) && own == enc(r) && cut <= |file| && Is32Bit(Crc32.Crc) && Loggable(r)
    requires HEADER_SIZE <= shift < |own| && StandsAt(file, p, own[..shift]) && p + shift <= cut
    ensures StopsAt(file, cut, p) <==> !ReadsOn(Crc32.Crc, file[..cut], p, RecordBytes(r))
    ensures |own| <= shift + 4 ==> (ReadsOn(Crc32.Crc, file[..cut], p, RecordBytes(r)) <==> StandsAt(file[..cut], p, own))
    ensures own == Encode(Crc32.Crc, r)
  {
    StandsInCut(file, cut, p, own[..shift]);
    TornPayloadExact(Crc32.Crc, file[..cut], p, r, shift);
    ParsesOwn(r);
    if |own| <= shift + 4 {
      TornTail(Crc32.Crc, file[..cut], p, Int32Bytes(Crc32.Crc(RecordBytes(r))) + Int32Bytes(|RecordBytes(r)|), RecordBytes(r), shift);
    }
  }

  // ---------- a run that loses an acknowledged record ----------

  /** Only thread 0 ever moved. */
  function Solo(w: World, th: Thread): State
  {
    State(w, map[0 := th])
  }

  lemma Next(events: seq<Event>, w: World, th: Thread, call: Call, result: int, w': World, th': Thread)
    requires Exec(events) == Solo(w, th) && Move(w, 0, th, Event(0, call, result)) == (w', th')
    ensures Exec(events + [Event(0, call, result)]) == Solo(w', th')
  {
    ExecLast(events, Event(0, call, result));
    assert map[0 := th][0 := th'] == map[0 := th'];
  }

  /** Draining one request, writing `n` bytes of it, and failing after those. */
  lemma DrainOne(w: World, r: Req)
    requires w.queue == [r]
    ensures DrainStep(w, r) == (w.(queue := []), Writing(r, [r], 0))
  {
    assert w.queue[..1] == [r] && w.queue[1..] == [];
  }

  lemma MergeOne(data: seq<seq<byte>>, r: Req)
    ensures Merge(data, [r]) == DataOf(data, r)
  {
    assert [r][1..] == [];
    assert DataOf(data, r) + Merge(data, []) == DataOf(data, r);
  }

  lemma WriteSome(w: World, r: Req, n: nat)
    requires 0 < n <= |DataOf(w.data, r)|
    ensures WriteStep(w, r, [r], 0, n) == (w.(file := w.file + DataOf(w.data, r)[..n]), Writing(r, [r], n))
  {
    MergeOne(w.data, r);
  }

  lemma WriteFails(w: World, r: Req, n: nat)
    requires n < |DataOf(w.data, r)|
    ensures WriteStep(w, r, [r], n, 0) == (w.(log := w.log + [Torn([r], DataOf(w.data, r)[..n])]), Acking(r, [r], 0, true))
  {
    MergeOne(w.data, r);
  }

  lemma WriteEnds(w: World, r: Req)
    ensures WriteStep(w, r, [r], |DataOf(w.data, r)|, 0) == (w.(log := w.log + [Whole(r)]), SyncBlobs(r, [r]))
  {
    MergeOne(w.data, r);
    assert Wholes([r]) == [Whole(r)];
  }

  const NONE: Call := WriteBlob(0)

  function AfterFailure(d: seq<byte>): World
    requires d != []
  {
    World([d], [0], [], None, map[0 := false], d[..1], 0, 0, 0, [Torn([0], d[..1])], 0)
  }

  function AfterRetry(d: seq<byte>): World
    requires d != []
  {
    World([d, d], [0, 0], [], Some(0), map[0 := false, 1 := true], d[..1] + d, 1 + |d|, 0, 0, [Torn([0], d[..1]), Whole(1)], 2)
  }

  function Started(d: seq<byte>): World
  {
    World([d], [0], [0], None, map[], [], 0, 0, 0, [], 0)
  }

  lemma FirstLeads(d: seq<byte>) returns (es: seq<Event>)
    ensures Exec(es) == Solo(Started(d).(leader := Some(0)), Drain(0))
  {
    var w0 := Started(d);
    es := [Event(0, Append(d), 0)];
    assert es[..0] == [] && Exec(es) == Step(INIT, es[0]) == Solo(w0, Waiting(0));
    Next(es, w0, Waiting(0), NONE, 0, w0, TryLock(0)); es := es + [Event(0, NONE, 0)];
    Next(es, w0, TryLock(0), NONE, 0, w0.(leader := Some(0)), Holding(0)); es := es + [Event(0, NONE, 0)];
    Next(es, w0.(leader := Some(0)), Holding(0), NONE, 0, w0.(leader := Some(0)), Drain(0)); es := es + [Event(0, NONE, 0)];
  }

  /** An append leads, writes one byte and fails. */
  lemma WritesOneByte(d: seq<byte>) returns (es: seq<Event>)
    requires |d| > 1
    ensures Exec(es) == Solo(AfterFailure(d).(leader := Some(0), outcome := map[]), Acking(0, [0], 0, true))
  {
    es := FirstLeads(d);
    var w1 := Started(d).(leader := Some(0));
    var w2 := w1.(queue := []);
    DrainOne(w1, 0);
    Next(es, w1, Drain(0), NONE, 0, w2, Writing(0, [0], 0)); es := es + [Event(0, NONE, 0)];
    var w3 := w2.(file := d[..1]);
    WriteSome(w2, 0, 1);
    assert [] + d[..1] == d[..1];
    Next(es, w2, Writing(0, [0], 0), NONE, 1, w3, Writing(0, [0], 1)); es := es + [Event(0, NONE, 1)];
    var w4 := w3.(log := [Torn([0], d[..1])]);
    WriteFails(w3, 0, 1);
    assert w3.log + [Torn([0], d[..1])] == w4.log;
    Next(es, w3, Writing(0, [0], 1), NONE, 0, w4, Acking(0, [0], 0, true)); es := es + [Event(0, NONE, 0)];
  }

  lemma FailedAppend(d: seq<byte>) returns (es: seq<Event>)
    requires |d| > 1
    ensures Exec(es) == Solo(AfterFailure(d), Idle)
  {
    es := WritesOneByte(d);
    var w4 := AfterFailure(d).(leader := Some(0), outcome := map[]);
    var w5 := w4.(outcome := map[0 := false]);
    Next(es, w4, Acking(0, [0], 0, true), NONE, 0, w5, Acking(0, [0], 1, true)); es := es + [Event(0, NONE, 0)];
    Next(es, w5, Acking(0, [0], 1, true), NONE, 0, w5, Drain(0)); es := es + [Event(0, NONE, 0)];
    Next(es, w5, Drain(0), NONE, 0, w5, Release(0)); es := es + [Event(0, NONE, 0)];
    Next(es, w5, Release(0), NONE, 0, AfterFailure(d), Waiting(0)); es := es + [Event(0, NONE, 0)];
    Next(es, AfterFailure(d), Waiting(0), NONE, 0, AfterFailure(d), Returned(0, false)); es := es + [Event(0, NONE, 0)];
    Next(es, AfterFailure(d), Returned(0, false), NONE, 0, AfterFailure(d), Idle); es := es + [Event(0, NONE, 0)];
  }

  function Retrying(d: seq<byte>): World
    requires d != []
  {
    World([d, d], [0, 0], [1], None, map[0 := false], d[..1], 0, 0, 0, [Torn([0], d[..1])], 0)
  }

  /** The caller's retry appends the same bytes again and leads. */
  lemma RetryLeads(d: seq<byte>) returns (es: seq<Event>)
    requires |d| > 1
    ensures Exec(es) == Solo(Retrying(d).(leader := Some(0)), Drain(1))
  {
    es := FailedAppend(d);
    var w0 := Retrying(d);
    assert [d] + [d] == [d, d] && [0] + [0] == [0, 0] && [] + [1] == [1];
    Next(es, AfterFailure(d), Idle, Append(d), 0, w0, Waiting(1)); es := es + [Event(0, Append(d), 0)];
    Next(es, w0, Waiting(1), NONE, 0, w0, TryLock(1)); es := es + [Event(0, NONE, 0)];
    Next(es, w0, TryLock(1), NONE, 0, w0.(leader := Some(0)), Holding(1)); es := es + [Event(0, NONE, 0)];
    Next(es, w0.(leader := Some(0)), Holding(1), NONE, 0, w0.(leader := Some(0)), Drain(1)); es := es + [Event(0, NONE, 0)];
  }

  /** The retry is written behind the torn byte, synced and acknowledged. */
  lemma RetriedAppend(d: seq<byte>) returns (es: seq<Event>)
    requires |d| > 1
    ensures Exec(es) == Solo(AfterRetry(d), Acking(1, [1], 1, false))
  {
    es := RetryLeads(d);
    var w1 := Retrying(d).(leader := Some(0));
    var w2 := w1.(queue := []);
    DrainOne(w1, 1);
    Next(es, w1, Drain(1), NONE, 0, w2, Writing(1, [1], 0)); es := es + [Event(0, NONE, 0)];
    var w3 := w2.(file := d[..1] + d);
    WriteSome(w2, 1, |d|);
    assert d[..|d|] == d;
    Next(es, w2, Writing(1, [1], 0), NONE, |d|, w3, Writing(1, [1], |d|)); es := es + [Event(0, NONE, |d|)];
    var w4 := w3.(log := [Torn([0], d[..1]), Whole(1)]);
    WriteEnds(w3, 1);
    assert w3.log + [Whole(1)] == w4.log;
    Next(es, w3, Writing(1, [1], |d|), NONE, 0, w4, SyncBlobs(1, [1])); es := es + [Event(0, NONE, 0)];
    Next(es, w4, SyncBlobs(1, [1]), NONE, 0, w4, SyncFile(1, [1])); es := es + [Event(0, NONE, 0)];
    var w5 := w4.(durable := 1 + |d|, synced := 2);
    Next(es, w4, SyncFile(1, [1]), NONE, 0, w5, Acking(1, [1], 0, false)); es := es + [Event(0, NONE, 0)];
    Next(es, w5, Acking(1, [1], 0, false), NONE, 0, AfterRetry(d), Acking(1, [1], 1, false)); es := es + [Event(0, NONE, 0)];
  }

  /** An append of a record fails after one byte; the retry of the same record is acknowledged and durable;
      recovery of the whole file delivers nothing. */
  lemma AcknowledgedRetryLost(r: LogRecord) returns (es: seq<Event>)
    requires 7 <= |r.key| < 128
    ensures var w := Exec(es).world;
            && w.data == [Encode(Crc32.Crc, r), Encode(Crc32.Crc, r)] && w.outcome == map[0 := false, 1 := true] && w.durable == |w.file|
            && RecoveredItems(w.file, |w.file|) == []
  {
    var d := Encode(Crc32.Crc, r);
    es := RetriedAppend(d);
    LostBehindByte(Crc32.Crc, d[0], r);
    assert d[..1] == [d[0]] && Exec(es).world.file == [d[0]] + d;
    assert ([d[0]] + d)[..|[d[0]] + d|] == [d[0]] + d;
  }

  lemma LostBehindByte(ck: Checksum, x: byte, r: LogRecord)
    requires 7 <= |r.key| < 128
    ensures Scan(EntryReader(ck), [x] + Encode(ck, r), 0).items == []
  {
    var file := [x] + Encode(ck, r);
    assert StandsAt(file, 1, Encode(ck, r));
    TornByteFails(ck, file, 0, 1, r);
  }
}
