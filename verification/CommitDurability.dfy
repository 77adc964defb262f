/** Group commit and recovery together: what a crash leaves of the acknowledged writes, in runs with and
    without failed writes. */
module CommitDurability {
  import opened Bytes
  import opened Records
  import opened RecordLayout
  import opened FrameLog
  import opened WalRecovery
  import opened GroupCommit
  import Crc32

  /** Every request appended the frame of one record. */
  ghost predicate Frames(data: seq<seq<byte>>, enc: LogRecord -> seq<byte>, rs: seq<LogRecord>)
  {
    |rs| == |data| && forall i :: 0 <= i < |rs| ==> data[i] == enc(rs[i])
  }

  /** The records of some requests. */
  function Pick(rs: seq<LogRecord>, ids: seq<Req>): (s: seq<LogRecord>)
    requires AllBelow(ids, |rs|)
    ensures |s| == |ids| && forall i :: 0 <= i < |ids| ==> s[i] == rs[ids[i]]
  {
    if ids == [] then [] else [rs[ids[0]]] + Pick(rs, ids[1..])
  }

  lemma {:induction false} MergeIsLog(data: seq<seq<byte>>, enc: LogRecord -> seq<byte>, rs: seq<LogRecord>, ids: seq<Req>)
    requires Frames(data, enc, rs) && AllBelow(ids, |rs|)
    ensures Merge(data, ids) == Log(enc, Pick(rs, ids))
  {
    if ids != [] {
      assert ids[0] < |rs| && Pick(rs, ids)[1..] == Pick(rs, ids[1..]);
      MergeIsLog(data, enc, rs, ids[1..]);
    }
  }

  lemma PickPrefix(rs: seq<LogRecord>, ids: seq<Req>, n: nat)
    requires AllBelow(ids, |rs|) && n <= |ids|
    ensures AllBelow(ids[..n], |rs|) && Pick(rs, ids)[..n] == Pick(rs, ids[..n])
  {
  }

  lemma {:induction false} WholeFramesAtLeast<R>(enc: R -> seq<byte>, rs: seq<R>, k: nat, cut: nat)
    requires k <= |rs| && |Log(enc, rs[..k])| <= cut
    ensures k <= WholeFrames(enc, rs, cut)
    decreases |rs|
  {
    if k > 0 {
      assert rs[..k][0] == rs[0] && rs[..k][1..] == rs[1..][..k - 1];
      WholeFramesAtLeast(enc, rs[1..], k - 1, cut - |enc(rs[0])|);
    }
  }

  // ---------- what a segment leaves standing ----------

  /** How many requests of a batch lie wholly within its first `n` bytes. */
  function Fit(data: seq<seq<byte>>, batch: seq<Req>, n: nat): (k: nat)
    ensures k <= |batch|
  {
    if batch == [] || |DataOf(data, batch[0])| > n then 0
    else 1 + Fit(data, batch[1..], n - |DataOf(data, batch[0])|)
  }

  lemma {:induction false} FitBytes(data: seq<seq<byte>>, batch: seq<Req>, n: nat)
    ensures |Merge(data, batch[..Fit(data, batch, n)])| <= n
  {
    var k := Fit(data, batch, n);
    if k > 0 {
      assert batch[..k][0] == batch[0] && batch[..k][1..] == batch[1..][..k - 1];
      FitBytes(data, batch[1..], n - |DataOf(data, batch[0])|);
    }
  }

  /** The requests of which a segment holds the whole bytes. */
  function Standing(data: seq<seq<byte>>, seg: Seg): seq<Req>
  {
    match seg case Whole(r) => [r] case Torn(batch, bytes) => batch[..Fit(data, batch, |bytes|)]
  }

  function AllStanding(data: seq<seq<byte>>, log: seq<Seg>): seq<Req>
  {
    if log == [] then [] else AllStanding(data, log[..|log| - 1]) + Standing(data, log[|log| - 1])
  }

  /** A failed write that stopped between two requests, or before the first one. */
  ghost predicate AtBoundary(data: seq<seq<byte>>, seg: Seg)
  {
    seg.Torn? ==> |Merge(data, Standing(data, seg))| == |seg.bytes|
  }

  ghost predicate Clean(data: seq<seq<byte>>, log: seq<Seg>)
  {
    forall i :: 0 <= i < |log| ==> AtBoundary(data, log[i])
  }

  function OneSeg(data: seq<seq<byte>>, seg: Seg): seq<byte>
  {
    match seg case Whole(r) => DataOf(data, r) case Torn(_, bytes) => bytes
  }

  lemma SegLast(data: seq<seq<byte>>, log: seq<Seg>)
    requires log != []
    ensures SegBytes(data, log) == SegBytes(data, log[..|log| - 1]) + OneSeg(data, log[|log| - 1])
  {
    var last := |log| - 1;
    assert log == log[..last] + [log[last]];
    SegAppend(data, log[..last], [log[last]]);
    assert SegBytes(data, [log[last]]) == OneSeg(data, log[last]) + [];
  }

  /** The bytes of a segment begin with the requests it holds whole; at a boundary they are nothing else. */
  lemma SegStands(data: seq<seq<byte>>, seg: Seg)
    requires TornOk(data, seg)
    ensures var front := Merge(data, Standing(data, seg));
            && |front| <= |OneSeg(data, seg)| && OneSeg(data, seg)[..|front|] == front
            && (AtBoundary(data, seg) ==> OneSeg(data, seg) == front)
  {
    match seg
    case Whole(r) => assert Merge(data, [r]) == DataOf(data, r) + [];
    case Torn(batch, bytes) =>
      var k := Fit(data, batch, |bytes|);
      FitBytes(data, batch, |bytes|);
      assert batch == batch[..k] + batch[k..];
      MergeAppend(data, batch[..k], batch[k..]);
  }

  lemma {:induction false} CleanBytes(data: seq<seq<byte>>, log: seq<Seg>)
    requires AllTornOk(data, log) && Clean(data, log)
    ensures SegBytes(data, log) == Merge(data, AllStanding(data, log))
  {
    if log != [] {
      var last := |log| - 1;
      CleanBytes(data, log[..last]);
      SegLast(data, log);
      assert TornOk(data, log[last]) && AtBoundary(data, log[last]);
      SegStands(data, log[last]);
      MergeAppend(data, AllStanding(data, log[..last]), Standing(data, log[last]));
    }
  }

  ghost predicate Ascending(ids: seq<Req>)
  {
    forall i, j :: 0 <= i < j < |ids| ==> ids[i] < ids[j]
  }

  lemma ReqsSplit(log: seq<Seg>, limit: int)
    requires log != [] && LogOk(log, limit)
    ensures var front, last := log[..|log| - 1], log[|log| - 1]; var m := |Reqs(front)|;
            m <= limit && LogOk(front, m) && SegReqs(last) == Ids(m, limit)
  {
    var front, last := log[..|log| - 1], log[|log| - 1];
    var m := |Reqs(front)|;
    assert Reqs(log) == Reqs(front) + SegReqs(last);
    assert Reqs(front) == Reqs(log)[..m] && SegReqs(last) == Reqs(log)[m..];
    assert Ids(0, limit)[..m] == Ids(0, m) && Ids(0, limit)[m..] == Ids(m, limit);
  }

  /** The standing requests are in order of arrival, each once. */
  lemma {:induction false} StandingAscends(data: seq<seq<byte>>, log: seq<Seg>, limit: int)
    requires LogOk(log, limit)
    ensures Ascending(AllStanding(data, log)) && AllBelow(AllStanding(data, log), limit)
  {
    if log != [] {
      var front, last := log[..|log| - 1], log[|log| - 1];
      ReqsSplit(log, limit);
      StandingAscends(data, front, |Reqs(front)|);
      AscendingAppend(AllStanding(data, front), Standing(data, last), |Reqs(front)|, limit);
    }
  }

  lemma AscendingAppend(a: seq<Req>, b: seq<Req>, m: nat, limit: int)
    requires Ascending(a) && AllBelow(a, m) && m <= limit && |b| <= limit - m && b == Ids(m, limit)[..|b|]
    ensures Ascending(a + b) && AllBelow(a + b, limit)
  {
    assert forall i :: 0 <= i < |b| ==> b[i] == m + i;
  }

  lemma StandingNext(data: seq<seq<byte>>, log: seq<Seg>, n: nat)
    requires n < |log|
    ensures AllStanding(data, log[..n + 1]) == AllStanding(data, log[..n]) + Standing(data, log[n])
  {
    assert log[..n + 1][..n] == log[..n];
  }

  lemma {:induction false} StandingPrefix(data: seq<seq<byte>>, log: seq<Seg>, m: nat, n: nat)
    requires m <= n <= |log|
    ensures AllStanding(data, log[..m]) <= AllStanding(data, log[..n])
    decreases n
  {
    if m < n {
      StandingPrefix(data, log, m, n - 1);
      StandingNext(data, log, n - 1);
    }
  }

  /** A request written whole is standing, behind exactly the requests standing before it. */
  lemma StandingAt(data: seq<seq<byte>>, log: seq<Seg>, n: nat, k: nat)
    requires k < n <= |log| && log[k].Whole?
    ensures AllStanding(data, log[..k]) + [log[k].req] <= AllStanding(data, log[..n])
  {
    StandingNext(data, log, k);
    StandingPrefix(data, log, k + 1, n);
  }

  // ---------- which acknowledged records a crash leaves ----------

  /** The requests whose bytes the file holds or is being given, in file order. */
  ghost function FileOrder(s: State): seq<Req>
  {
    AllStanding(s.world.data, s.world.log) + if Current(s).Writing? then BatchOf(Current(s)) else []
  }

  lemma FileOrderAscends(s: State)
    requires Inv(s)
    ensures Ascending(FileOrder(s)) && AllBelow(FileOrder(s), |s.world.data|)
  {
    var w, cur := s.world, Current(s);
    var limit := Limit(w, cur);
    assert limit <= |w.data|;
    StandingAscends(w.data, w.log, limit);
    if cur.Writing? {
      assert BatchOf(cur) == Ids(limit, Taken(w))[..|BatchOf(cur)|];
      AscendingAppend(AllStanding(w.data, w.log), BatchOf(cur), limit, Taken(w));
    }
  }

  lemma CleanFile(s: State)
    requires Inv(s) && Clean(s.world.data, s.world.log)
    ensures |s.world.file| <= |Merge(s.world.data, FileOrder(s))|
    ensures s.world.file == Merge(s.world.data, FileOrder(s))[..|s.world.file|]
  {
    var w, cur := s.world, Current(s);
    CleanBytes(w.data, w.log);
    var batch := if cur.Writing? then BatchOf(cur) else [];
    MergeAppend(w.data, AllStanding(w.data, w.log), batch);
    PrefixOf(w.file, SegBytes(w.data, w.log), InFlight(w, cur), Merge(w.data, batch));
  }

  /** The bytes up to and including an acknowledged request are durable. */
  lemma AcknowledgedBytes(s: State, r: Req, k: nat)
    requires Inv(s) && k < s.world.synced && k < |s.world.log| && s.world.log[k] == Whole(r)
    requires Clean(s.world.data, s.world.log[..k])
    ensures |Merge(s.world.data, AllStanding(s.world.data, s.world.log[..k]) + [r])| <= s.world.durable
  {
    var w := s.world;
    var front := w.log[..k + 1];
    assert front[..k] == w.log[..k] && front[k] == Whole(r);
    assert forall i :: 0 <= i < |front| ==> front[i] == w.log[i] && TornOk(w.data, w.log[i]);
    assert Clean(w.data, front) by {
      forall i | 0 <= i < |front| ensures AtBoundary(w.data, front[i]) { if i < k { assert AtBoundary(w.data, w.log[..k][i]); } }
    }
    CleanBytes(w.data, front);
    StandingNext(w.data, w.log, k);
    SegPrefix(w.data, w.log, k + 1, w.synced);
  }

  lemma SegPrefix(data: seq<seq<byte>>, log: seq<Seg>, m: nat, n: nat)
    requires m <= n <= |log|
    ensures SegBytes(data, log[..m]) <= SegBytes(data, log[..n])
  {
    assert log[..n] == log[..m] + log[m..n];
    SegAppend(data, log[..m], log[m..n]);
  }

  /** The recovered records are those of the first `n` requests of `order`. */
  ghost predicate Delivers(items: seq<LogRecord>, rs: seq<LogRecord>, order: seq<Req>, n: nat)
  {
    n <= |order| && AllBelow(order, |rs|) && items == Map(Normalize, Pick(rs, order[..n]))
  }

  /** Every acknowledged request is among the given ones. */
  ghost predicate AckedIn(w: World, ids: seq<Req>)
  {
    forall r :: r in w.outcome && w.outcome[r] ==> r in ids
  }

  /** Recovery gave the records of the first requests in file order, all acknowledged ones among them. */
  ghost predicate AllSurvive(s: State, rs: seq<LogRecord>, items: seq<LogRecord>)
  {
    Ascending(FileOrder(s)) && exists n: nat :: Delivers(items, rs, FileOrder(s), n) && AckedIn(s.world, FileOrder(s)[..n])
  }

  /** What recovery delivers of the first `cut` bytes of a file. */
  function RecoveredItems(file: seq<byte>, cut: nat): seq<LogRecord>
    requires cut <= |file|
  {
    Scan(EntryReader(Crc32.Crc), file[..cut], 0).items
  }

  /** If every failed write stopped between two requests or before the first (no failure at all included):
      whatever part of the file beyond the durable bytes a crash keeps, recovery delivers the first
      records in file order, which is order of arrival, and every acknowledged record is among them. */
  lemma AcknowledgedSurviveCrash(events: seq<Event>, rs: seq<LogRecord>, cut: nat)
    requires var w := Exec(events).world; Clean(w.data, w.log) && Frames(w.data, Encoder(Crc32.Crc), rs) && w.durable <= cut <= |w.file|
    requires forall q :: q in rs ==> Loggable(q)
    ensures AllSurvive(Exec(events), rs, RecoveredItems(Exec(events).world.file, cut))
  {
    SafeInEveryRun(events);
    StateSurvives(Exec(events), rs, cut);
  }

  lemma StateSurvives(s: State, rs: seq<LogRecord>, cut: nat)
    requires Inv(s) && Clean(s.world.data, s.world.log) && Frames(s.world.data, Encoder(Crc32.Crc), rs)
    requires s.world.durable <= cut <= |s.world.file| && forall q :: q in rs ==> Loggable(q)
    ensures AllSurvive(s, rs, RecoveredItems(s.world.file, cut))
  {
    var order := FileOrder(s);
    FileOrderAscends(s);
    CrashOf(s, rs, cut, Encoder(Crc32.Crc));
    CutDelivers(rs, order, cut);
    assert Delivers(RecoveredItems(s.world.file, cut), rs, order, WholeFrames(Encoder(Crc32.Crc), Pick(rs, order), cut));
  }

  /** Recovering a cut of the log of some requests. */
  lemma CutDelivers(rs: seq<LogRecord>, order: seq<Req>, cut: nat)
    requires AllBelow(order, |rs|) && (forall q :: q in rs ==> Loggable(q)) && cut <= |Log(Encoder(Crc32.Crc), Pick(rs, order))|
    ensures var log := Log(Encoder(Crc32.Crc), Pick(rs, order));
            Delivers(Scan(EntryReader(Crc32.Crc), log[..cut], 0).items, rs, order, WholeFrames(Encoder(Crc32.Crc), Pick(rs, order), cut))
  {
    forall q | q in Pick(rs, order) ensures Loggable(q) { PickMember(rs, order, q); }
    RecoverAnyCut(Pick(rs, order), cut);
    PickPrefix(rs, order, WholeFrames(Encoder(Crc32.Crc), Pick(rs, order), cut));
  }

  lemma PickMember(rs: seq<LogRecord>, ids: seq<Req>, q: LogRecord)
    requires AllBelow(ids, |rs|) && q in Pick(rs, ids)
    ensures q in rs
  {
    var i :| 0 <= i < |ids| && Pick(rs, ids)[i] == q;
    assert rs[ids[i]] == q;
  }

  lemma CrashOf(s: State, rs: seq<LogRecord>, cut: nat, enc: LogRecord -> seq<byte>)
    requires Inv(s) && Clean(s.world.data, s.world.log) && Frames(s.world.data, enc, rs) && s.world.durable <= cut <= |s.world.file|
    requires AllBelow(FileOrder(s), |rs|)
    ensures var log := Log(enc, Pick(rs, FileOrder(s))); cut <= |log| && s.world.file[..cut] == log[..cut]
    ensures var n := WholeFrames(enc, Pick(rs, FileOrder(s)), cut);
            AckedIn(s.world, FileOrder(s)[..n])
  {
    var w, order := s.world, FileOrder(s);
    CleanFile(s);
    MergeIsLog(w.data, enc, rs, order);
    forall r | r in w.outcome && w.outcome[r] ensures r in order[..WholeFrames(enc, Pick(rs, order), cut)] {
      var k :| 0 <= k < w.synced && k < |w.log| && w.log[k] == Whole(r);
      assert w.log[..|w.log|] == w.log;
      StandingAt(w.data, w.log, |w.log|, k);
      AcknowledgedBytes(s, r, k);
      InFront(w.data, enc, rs, order, AllStanding(w.data, w.log[..k]), r, cut);
    }
  }

  /** A request whose bytes and all bytes before it lie before the cut is among the whole frames. */
  lemma InFront(data: seq<seq<byte>>, enc: LogRecord -> seq<byte>, rs: seq<LogRecord>, order: seq<Req>, before: seq<Req>, r: Req, cut: nat)
    requires Frames(data, enc, rs) && AllBelow(order, |rs|) && before + [r] <= order
    requires |Merge(data, before + [r])| <= cut
    ensures r in order[..WholeFrames(enc, Pick(rs, order), cut)]
  {
    var k := |before| + 1;
    assert order[..k] == before + [r];
    PickPrefix(rs, order, k);
    MergeIsLog(data, enc, rs, order[..k]);
    WholeFramesAtLeast(enc, Pick(rs, order), k, cut);
    assert order[..WholeFrames(enc, Pick(rs, order), cut)][k - 1] == r;
  }

  /** A run without a failed write leaves no torn batch at all. */
  lemma NoFailureIsClean(events: seq<Event>)
    requires NoFailedWrite(events)
    ensures Clean(Exec(events).world.data, Exec(events).world.log)
  {
    FailuresShow(events);
  }
}
