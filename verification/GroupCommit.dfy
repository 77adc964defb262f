/** The group commit of the write-ahead log as a step machine: any number of threads append, one of
    them at a time leads, drains the queue in batches and completes the requests of the batch. One
    step is one critical section or one system call. */
module GroupCommit {
  import opened Bytes
  import opened FrameLog

  const MAX_BATCH_SIZE: nat := 1000

  type Tid = nat
  /** A request is named by its position in the order of arrival. */
  type Req = nat

  /** What a batch left in the file: each request of a written batch whole, or what was written of a failed one. */
  datatype Seg = Whole(req: Req) | Torn(batch: seq<Req>, bytes: seq<byte>)

  /** `data` and `marks` hold, for each request, its bytes and how many blob bytes its caller had
      written before appending. `outcome` is the fulfilled promises: true for a value, false for an
      exception. `durable` and `blobDurable` count the bytes the last syncs covered. `log` and `synced`
      are history that no step reads: what the file consists of, and how much of it an fsync covered. */
  datatype World = World(
    data: seq<seq<byte>>, marks: seq<nat>, queue: seq<Req>, leader: Option<Tid>, outcome: map<Req, bool>,
    file: seq<byte>, durable: nat, blob: nat, blobDurable: nat, log: seq<Seg>, synced: nat)

  /** Where a thread stands in `append`. */
  datatype Thread =
    | Idle
    | Waiting(req: Req)
    | TryLock(req: Req)
    | Holding(req: Req)
    | Drain(req: Req)
    | Writing(req: Req, batch: seq<Req>, written: nat)
    | SyncBlobs(req: Req, batch: seq<Req>)
    | SyncFile(req: Req, batch: seq<Req>)
    | Acking(req: Req, batch: seq<Req>, next: nat, failed: bool)
    | Release(req: Req)
    | Returned(req: Req, ok: bool)

  datatype Call = Append(bytes: seq<byte>) | WriteBlob(size: nat)

  /** `tid` moves; `call` is what it does when idle, `result` what `write` returns to it. */
  datatype Event = Event(tid: Tid, call: Call, result: int)

  datatype State = State(world: World, threads: map<Tid, Thread>)

  function DataOf(data: seq<seq<byte>>, r: Req): seq<byte>
  {
    if r < |data| then data[r] else []
  }

  /** The bytes of some requests, one after another: the buffer a batch is written from. */
  function Merge(data: seq<seq<byte>>, ids: seq<Req>): seq<byte>
  {
    if ids == [] then [] else DataOf(data, ids[0]) + Merge(data, ids[1..])
  }

  function SegBytes(data: seq<seq<byte>>, log: seq<Seg>): seq<byte>
  {
    if log == [] then [] else (match log[0] case Whole(r) => DataOf(data, r) case Torn(_, bytes) => bytes) + SegBytes(data, log[1..])
  }

  function Wholes(ids: seq<Req>): (log: seq<Seg>)
    ensures |log| == |ids| && forall i :: 0 <= i < |log| ==> log[i] == Whole(ids[i])
  {
    if ids == [] then [] else [Whole(ids[0])] + Wholes(ids[1..])
  }

  /** The requests from `lo` up to `hi` in order of arrival. */
  function Ids(lo: nat, hi: nat): (s: seq<Req>)
    requires lo <= hi
    ensures |s| == hi - lo && forall i :: 0 <= i < |s| ==> s[i] == lo + i
  {
    seq(hi - lo, i requires 0 <= i => lo + i)
  }

  // ---------- the steps ----------

  const INIT: State := State(World([], [], [], None, map[], [], 0, 0, 0, [], 0), map[])

  function ThreadOf(s: State, t: Tid): Thread
  {
    if t in s.threads then s.threads[t] else Idle
  }

  /** A call of an idle thread: enqueue a request, or write blob bytes first. */
  function Invoke(w: World, call: Call): (World, Thread)
  {
    match call
    case Append(bytes) =>
      (w.(data := w.data + [bytes], marks := w.marks + [w.blob], queue := w.queue + [|w.data|]), Waiting(|w.data|))
    case WriteBlob(size) => (w.(blob := w.blob + size), Idle)
  }

  function DrainStep(w: World, req: Req): (World, Thread)
  {
    if w.queue == [] then (w, Release(req))
    else
      var n := if |w.queue| < MAX_BATCH_SIZE then |w.queue| else MAX_BATCH_SIZE;
      (w.(queue := w.queue[n..]), Writing(req, w.queue[..n], 0))
  }

  /** One `write` of what is left of the batch: all of it, part of it, or a failure. */
  function WriteStep(w: World, req: Req, batch: seq<Req>, written: nat, result: int): (World, Thread)
  {
    var merged := Merge(w.data, batch);
    var left := |merged| - written;
    if left <= 0 then (w.(log := w.log + Wholes(batch)), SyncBlobs(req, batch))
    else if result <= 0 then (w.(log := w.log + [Torn(batch, merged[..written])]), Acking(req, batch, 0, true))
    else
      var n := if result < left then result else left;
      (w.(file := w.file + merged[written..written + n]), Writing(req, batch, written + n))
  }

  function AckStep(w: World, req: Req, batch: seq<Req>, next: nat, failed: bool): (World, Thread)
  {
    if next < |batch| then (w.(outcome := w.outcome[batch[next] := !failed]), Acking(req, batch, next + 1, failed))
    else (w, Drain(req))
  }

  function Move(w: World, t: Tid, th: Thread, e: Event): (World, Thread)
  {
    match th
    case Idle => Invoke(w, e.call)
    case Waiting(req) => (w, if req in w.outcome then Returned(req, w.outcome[req]) else TryLock(req))
    case TryLock(req) => if w.leader.None? then (w.(leader := Some(t)), Holding(req)) else (w, Waiting(req))
    case Holding(req) => (w, if req in w.outcome then Release(req) else Drain(req))
    case Drain(req) => DrainStep(w, req)
    case Writing(req, batch, written) => WriteStep(w, req, batch, written, e.result)
    case SyncBlobs(req, batch) => (w.(blobDurable := w.blob), SyncFile(req, batch))
    case SyncFile(req, batch) => (w.(durable := |w.file|, synced := |w.log|), Acking(req, batch, 0, false))
    case Acking(req, batch, next, failed) => AckStep(w, req, batch, next, failed)
    case Release(req) => (w.(leader := None), Waiting(req))
    case Returned(_, _) => (w, Idle)
  }

  function Step(s: State, e: Event): State
  {
    var (world, thread) := Move(s.world, e.tid, ThreadOf(s, e.tid), e);
    State(world, s.threads[e.tid := thread])
  }

  function Exec(events: seq<Event>): State
  {
    if events == [] then INIT else Step(Exec(events[..|events| - 1]), events[|events| - 1])
  }

  // ---------- the invariant ----------

  /** Inside the leader's critical section. */
  predicate Leads(th: Thread)
  {
    !th.Idle? && !th.Waiting? && !th.TryLock? && !th.Returned?
  }

  function BatchOf(th: Thread): seq<Req>
  {
    match th
    case Writing(_, batch, _) => batch
    case SyncBlobs(_, batch) => batch
    case SyncFile(_, batch) => batch
    case Acking(_, batch, _, _) => batch
    case _ => []
  }

  /** How many requests of the batch have their promise fulfilled. */
  function AckedOf(th: Thread): nat
  {
    if th.Acking? then th.next else 0
  }

  /** The requests no longer in the queue, and those before the current batch. */
  function Taken(w: World): int
  {
    |w.data| - |w.queue|
  }

  function Settled(w: World, cur: Thread): int
  {
    Taken(w) - |BatchOf(cur)|
  }

  /** Exactly the requests that have not been taken are queued, in order of arrival; exactly those of
      earlier batches and the acknowledged part of this one are completed. */
  ghost predicate QueueOk(w: World, cur: Thread)
  {
    && |w.marks| == |w.data| && 0 <= Settled(w, cur)
    && w.queue == Ids(Taken(w), |w.data|)
    && BatchOf(cur) == Ids(Settled(w, cur), Taken(w))
    && AckedOf(cur) <= |BatchOf(cur)|
    && (forall r: Req :: r in w.outcome <==> r < Settled(w, cur) + AckedOf(cur))
  }

  ghost predicate NoFailure(log: seq<Seg>)
  {
    forall i :: 0 <= i < |log| ==> log[i].Whole?
  }

  /** The requests that may stand in the log. */
  function Limit(w: World, cur: Thread): int
  {
    if cur.Writing? then Settled(w, cur) else Taken(w)
  }

  /** The requests a segment came from. */
  function SegReqs(seg: Seg): seq<Req>
  {
    match seg case Whole(r) => [r] case Torn(batch, _) => batch
  }

  function Reqs(log: seq<Seg>): seq<Req>
  {
    if log == [] then [] else Reqs(log[..|log| - 1]) + SegReqs(log[|log| - 1])
  }

  /** The segments come from all requests before `limit`, in order of arrival, each once. */
  ghost predicate LogOk(log: seq<Seg>, limit: int)
  {
    0 <= limit && Reqs(log) == Ids(0, limit)
  }

  /** What a failed batch left is the beginning of its merged bytes. */
  ghost predicate TornOk(data: seq<seq<byte>>, seg: Seg)
  {
    seg.Torn? ==> |seg.bytes| <= |Merge(data, seg.batch)| && seg.bytes == Merge(data, seg.batch)[..|seg.bytes|]
  }

  ghost predicate AllTornOk(data: seq<seq<byte>>, log: seq<Seg>)
  {
    forall i :: 0 <= i < |log| ==> TornOk(data, log[i])
  }

  /** The part of the current batch already in the file but not yet part of the log. */
  function InFlight(w: World, cur: Thread): seq<byte>
  {
    if cur.Writing? && cur.written <= |Merge(w.data, cur.batch)| then Merge(w.data, cur.batch)[..cur.written] else []
  }

  ghost predicate FileOk(w: World, cur: Thread)
  {
    && w.file == SegBytes(w.data, w.log) + InFlight(w, cur)
    && w.synced <= |w.log| && |SegBytes(w.data, w.log[..w.synced])| <= w.durable <= |w.file|
    && (cur.Writing? ==> cur.written <= |Merge(w.data, cur.batch)|)
  }

  ghost predicate BlobsSynced(marks: seq<nat>, blobDurable: nat, r: Req)
  {
    r < |marks| && marks[r] <= blobDurable
  }

  ghost predicate Logged(log: seq<Seg>, n: nat, r: Req)
  {
    exists i :: 0 <= i < n && i < |log| && log[i] == Whole(r)
  }

  /** A value was set only for requests that an fsync covered, their blobs before them. */
  ghost predicate AckedOk(w: World)
  {
    forall r: Req :: r in w.outcome && w.outcome[r] ==> Logged(w.log, w.synced, r) && BlobsSynced(w.marks, w.blobDurable, r)
  }

  ghost predicate LeaderOk(w: World, cur: Thread)
  {
    match cur
    case SyncBlobs(_, batch) => forall r :: r in batch ==> Logged(w.log, |w.log|, r)
    case SyncFile(_, batch) =>
      forall r :: r in batch ==> Logged(w.log, |w.log|, r) && BlobsSynced(w.marks, w.blobDurable, r)
    case Acking(_, batch, _, failed) =>
      failed || forall r :: r in batch ==> Logged(w.log, w.synced, r) && BlobsSynced(w.marks, w.blobDurable, r)
    case _ => true
  }

  /** A thread's own request exists, and is completed once it leaves or has left. */
  ghost predicate OwnOk(w: World, th: Thread)
  {
    match th
    case Idle => true
    case Returned(req, ok) => req in w.outcome && w.outcome[req] == ok
    case Release(req) => req in w.outcome
    case _ => th.req < |w.data|
  }

  ghost predicate WorldOk(w: World, cur: Thread)
  {
    QueueOk(w, cur) && LogOk(w.log, Limit(w, cur)) && AllTornOk(w.data, w.log) && FileOk(w, cur) && AckedOk(w) && LeaderOk(w, cur) && OwnOk(w, cur)
  }

  /** No request waits for blob bytes that were not written before it. */
  ghost predicate BlobsOk(w: World)
  {
    w.blobDurable <= w.blob && forall r :: 0 <= r < |w.marks| ==> w.marks[r] <= w.blob
  }

  function Current(s: State): Thread
  {
    if s.world.leader.Some? then ThreadOf(s, s.world.leader.value) else Idle
  }

  ghost predicate Inv(s: State)
  {
    && (forall t: Tid :: Leads(ThreadOf(s, t)) <==> s.world.leader == Some(t))
    && (forall t: Tid :: OwnOk(s.world, ThreadOf(s, t)))
    && BlobsOk(s.world)
    && WorldOk(s.world, Current(s))
  }

  // ---------- bytes of requests ----------

  lemma {:induction false} SegAppend(data: seq<seq<byte>>, a: seq<Seg>, b: seq<Seg>)
    ensures SegBytes(data, a + b) == SegBytes(data, a) + SegBytes(data, b)
  {
    if a == [] {
      assert a + b == b;
    } else {
      assert (a + b)[1..] == a[1..] + b;
      SegAppend(data, a[1..], b);
    }
  }

  lemma {:induction false} WholesBytes(data: seq<seq<byte>>, ids: seq<Req>)
    ensures SegBytes(data, Wholes(ids)) == Merge(data, ids)
  {
    if ids != [] {
      assert Wholes(ids)[1..] == Wholes(ids[1..]);
      WholesBytes(data, ids[1..]);
    }
  }

  lemma {:induction false} MergeExtend(data: seq<seq<byte>>, d: seq<byte>, ids: seq<Req>)
    requires forall i :: 0 <= i < |ids| ==> ids[i] < |data|
    ensures Merge(data + [d], ids) == Merge(data, ids)
  {
    if ids != [] { MergeExtend(data, d, ids[1..]); }
  }

  lemma {:induction false} SegExtend(data: seq<seq<byte>>, d: seq<byte>, log: seq<Seg>)
    requires forall i :: 0 <= i < |log| ==> AllBelow(SegReqs(log[i]), |data|)
    ensures SegBytes(data + [d], log) == SegBytes(data, log)
  {
    if log != [] {
      assert AllBelow(SegReqs(log[0]), |data|);
      if log[0].Whole? { assert SegReqs(log[0])[0] == log[0].req; }
      SegExtend(data, d, log[1..]);
    }
  }

  lemma ReqsLast(log: seq<Seg>, seg: Seg)
    ensures Reqs(log + [seg]) == Reqs(log) + SegReqs(seg)
  {
    assert (log + [seg])[..|log|] == log;
  }

  lemma {:induction false} ReqsContain(log: seq<Seg>, i: nat, r: Req)
    requires i < |log| && r in SegReqs(log[i])
    ensures r in Reqs(log)
  {
    if i < |log| - 1 { ReqsContain(log[..|log| - 1], i, r); }
  }

  lemma ReqsSmall(log: seq<Seg>, limit: int)
    requires LogOk(log, limit)
    ensures forall i :: 0 <= i < |log| ==> AllBelow(SegReqs(log[i]), limit)
  {
    forall i | 0 <= i < |log| ensures AllBelow(SegReqs(log[i]), limit) {
      forall k | 0 <= k < |SegReqs(log[i])| ensures SegReqs(log[i])[k] < limit { ReqsContain(log, i, SegReqs(log[i])[k]); }
    }
  }

  ghost predicate AllBelow(ids: seq<Req>, n: int)
  {
    forall k :: 0 <= k < |ids| ==> ids[k] < n
  }

  lemma {:induction false} ReqsOfWholes(log: seq<Seg>)
    requires NoFailure(log)
    ensures log == Wholes(Reqs(log))
  {
    if log != [] {
      var last := |log| - 1;
      ReqsOfWholes(log[..last]);
      WholesLast(Reqs(log[..last]), log[last].req);
      assert log == log[..last] + [log[last]];
    }
  }

  lemma {:induction false} WholesLast(ids: seq<Req>, r: Req)
    ensures Wholes(ids + [r]) == Wholes(ids) + [Whole(r)]
  {
    if ids == [] {
      assert [r][1..] == [];
    } else {
      assert (ids + [r])[1..] == ids[1..] + [r];
      WholesLast(ids[1..], r);
    }
  }

  // ---------- steps of threads that do not lead ----------

  /** What every step keeps of requests, outcomes and the log. */
  ghost predicate Grows(w: World, w': World)
  {
    && |w.data| <= |w'.data| && (forall r :: 0 <= r < |w.data| ==> w'.data[r] == w.data[r])
    && |w.log| <= |w'.log| && w'.log[..|w.log|] == w.log
    && |w.file| <= |w'.file| && w'.file[..|w.file|] == w.file
    && w.durable <= w'.durable && w.blobDurable <= w'.blobDurable && w.synced <= w'.synced
    && (forall r :: r in w.outcome ==> r in w'.outcome && w'.outcome[r] == w.outcome[r])
  }

  function Enqueued(w: World, bytes: seq<byte>): World
  {
    w.(data := w.data + [bytes], marks := w.marks + [w.blob], queue := w.queue + [|w.data|])
  }

  lemma EnqueueQueue(w: World, cur: Thread, bytes: seq<byte>)
    requires QueueOk(w, cur)
    ensures QueueOk(Enqueued(w, bytes), cur) && Limit(Enqueued(w, bytes), cur) == Limit(w, cur)
  {
    assert Ids(Taken(w), |w.data|) + [|w.data|] == Ids(Taken(w), |w.data| + 1);
  }

  lemma SegSmall(w: World, cur: Thread)
    requires QueueOk(w, cur) && LogOk(w.log, Limit(w, cur))
    ensures forall i :: 0 <= i < |w.log| ==> AllBelow(SegReqs(w.log[i]), |w.data|)
  {
    ReqsSmall(w.log, Limit(w, cur));
    assert Limit(w, cur) <= |w.data|;
  }

  lemma EnqueueTorn(w: World, cur: Thread, bytes: seq<byte>)
    requires QueueOk(w, cur) && LogOk(w.log, Limit(w, cur)) && AllTornOk(w.data, w.log)
    ensures AllTornOk(w.data + [bytes], w.log)
  {
    SegSmall(w, cur);
    forall i | 0 <= i < |w.log| ensures TornOk(w.data + [bytes], w.log[i]) {
      assert TornOk(w.data, w.log[i]) && AllBelow(SegReqs(w.log[i]), |w.data|);
      if w.log[i].Torn? { MergeExtend(w.data, bytes, w.log[i].batch); }
    }
  }

  lemma EnqueueFile(w: World, cur: Thread, bytes: seq<byte>)
    requires QueueOk(w, cur) && LogOk(w.log, Limit(w, cur)) && FileOk(w, cur)
    ensures FileOk(Enqueued(w, bytes), cur)
  {
    SegSmall(w, cur);
    SegExtend(w.data, bytes, w.log);
    SegExtend(w.data, bytes, w.log[..w.synced]);
    MergeExtend(w.data, bytes, BatchOf(cur));
  }

  lemma EnqueueKeeps(w: World, cur: Thread, bytes: seq<byte>)
    requires WorldOk(w, cur)
    ensures WorldOk(Enqueued(w, bytes), cur) && Grows(w, Enqueued(w, bytes))
  {
    EnqueueQueue(w, cur, bytes);
    EnqueueFile(w, cur, bytes);
    EnqueueTorn(w, cur, bytes);
  }

  lemma OwnGrows(w: World, w': World, th: Thread)
    requires OwnOk(w, th) && Grows(w, w')
    ensures OwnOk(w', th)
  {
  }

  // ---------- steps of the leader ----------

  ghost predicate Preserved(w: World, r: (World, Thread))
  {
    WorldOk(r.0, r.1) && Grows(w, r.0)
  }

  lemma DrainQueue(w: World, req: Req, n: nat)
    requires QueueOk(w, Drain(req)) && n <= |w.queue|
    ensures QueueOk(w.(queue := w.queue[n..]), Writing(req, w.queue[..n], 0))
  {
    assert w.queue[n..] == Ids(Taken(w) + n, |w.data|);
    assert w.queue[..n] == Ids(Taken(w), Taken(w) + n);
  }

  lemma DrainSome(w: World, req: Req, n: nat)
    requires WorldOk(w, Drain(req)) && n <= |w.queue|
    ensures Preserved(w, (w.(queue := w.queue[n..]), Writing(req, w.queue[..n], 0)))
  {
    DrainQueue(w, req, n);
  }

  /** With an empty queue every request is completed, the leader's own among them. */
  lemma DrainNone(w: World, req: Req)
    requires WorldOk(w, Drain(req)) && w.queue == []
    ensures Preserved(w, (w, Release(req)))
  {
    assert req < |w.data| == Taken(w);
  }

  lemma DrainKeeps(w: World, req: Req)
    requires WorldOk(w, Drain(req))
    ensures Preserved(w, DrainStep(w, req))
  {
    if w.queue != [] {
      var n := if |w.queue| < MAX_BATCH_SIZE then |w.queue| else MAX_BATCH_SIZE;
      DrainSome(w, req, n);
      assert DrainStep(w, req) == (w.(queue := w.queue[n..]), Writing(req, w.queue[..n], 0));
    } else {
      DrainNone(w, req);
    }
  }

  /** A step of the leader that neither drains nor fulfils. */
  ghost predicate Frame(w: World, w': World, cur: Thread, cur': Thread)
  {
    && w'.data == w.data && w'.marks == w.marks && w'.queue == w.queue && w'.outcome == w.outcome
    && BatchOf(cur') == BatchOf(cur) && AckedOf(cur') == AckedOf(cur)
    && |w.file| <= |w'.file| && w'.file[..|w.file|] == w.file
    && |w.log| <= |w'.log| && w'.log[..|w.log|] == w.log
    && w.durable <= w'.durable && w.blobDurable <= w'.blobDurable && w.synced <= w'.synced
  }

  lemma LoggedGrows(log: seq<Seg>, n: nat, log': seq<Seg>, n': nat, r: Req)
    requires Logged(log, n, r) && n <= n' && |log| <= |log'| && log'[..|log|] == log
    ensures Logged(log', n', r)
  {
    var i :| 0 <= i < n && i < |log| && log[i] == Whole(r);
    assert log'[..|log|][i] == log'[i];
  }

  lemma FrameKeeps(w: World, w': World, cur: Thread, cur': Thread)
    requires Frame(w, w', cur, cur') && QueueOk(w, cur) && AckedOk(w)
    ensures Grows(w, w') && QueueOk(w', cur') && AckedOk(w')
  {
    forall r: Req | Logged(w.log, w.synced, r) ensures Logged(w'.log, w'.synced, r) {
      LoggedGrows(w.log, w.synced, w'.log, w'.synced, r);
    }
  }

  /** Turning the bytes in flight into a segment of the log. */
  lemma SegmentFile(w: World, req: Req, batch: seq<Req>, written: nat, segs: seq<Seg>, cur': Thread)
    requires FileOk(w, Writing(req, batch, written)) && !cur'.Writing?
    requires SegBytes(w.data, segs) == Merge(w.data, batch)[..written]
    ensures FileOk(w.(log := w.log + segs), cur')
  {
    SegAppend(w.data, w.log, segs);
    assert (w.log + segs)[..w.synced] == w.log[..w.synced];
  }

  lemma WrittenLog(w: World, req: Req, batch: seq<Req>, written: nat)
    requires QueueOk(w, Writing(req, batch, written)) && LogOk(w.log, Limit(w, Writing(req, batch, written)))
    ensures LogOk(w.log + Wholes(batch), Taken(w))
  {
    LogAppend(w.log, batch, Settled(w, Writing(req, batch, written)), Taken(w));
  }

  /** The batch is in the file: from here its requests count as written whole. */
  lemma WrittenKeeps(w: World, req: Req, batch: seq<Req>, written: nat)
    requires WorldOk(w, Writing(req, batch, written)) && written == |Merge(w.data, batch)|
    ensures Preserved(w, (w.(log := w.log + Wholes(batch)), SyncBlobs(req, batch)))
  {
    var w' := w.(log := w.log + Wholes(batch));
    FrameKeeps(w, w', Writing(req, batch, written), SyncBlobs(req, batch));
    WrittenLog(w, req, batch, written);
    WholesBytes(w.data, batch);
    SegmentFile(w, req, batch, written, Wholes(batch), SyncBlobs(req, batch));
    AllLogged(w.log, batch);
    TornAppend(w.data, w.log, Wholes(batch));
  }

  lemma TornAppend(data: seq<seq<byte>>, log: seq<Seg>, segs: seq<Seg>)
    requires AllTornOk(data, log) && AllTornOk(data, segs)
    ensures AllTornOk(data, log + segs)
  {
  }

  lemma AllLogged(log: seq<Seg>, batch: seq<Req>)
    ensures forall r :: r in batch ==> Logged(log + Wholes(batch), |log + Wholes(batch)|, r)
  {
    forall r | r in batch ensures Logged(log + Wholes(batch), |log + Wholes(batch)|, r) { BatchLogged(log, batch, r); }
  }

  lemma BatchLogged(log: seq<Seg>, batch: seq<Req>, r: Req)
    requires r in batch
    ensures Logged(log + Wholes(batch), |log + Wholes(batch)|, r)
  {
    var k :| 0 <= k < |batch| && batch[k] == r;
    assert (log + Wholes(batch))[|log| + k] == Whole(r);
  }

  lemma {:induction false} LogAppend(log: seq<Seg>, batch: seq<Req>, lo: int, hi: int)
    requires 0 <= lo <= hi && batch == Ids(lo, hi) && LogOk(log, lo)
    ensures LogOk(log + Wholes(batch), hi)
    decreases |batch|
  {
    if batch == [] {
      assert log + Wholes(batch) == log;
    } else {
      LogOne(log, lo);
      IdsTail(lo, hi);
      LogAppend(log + [Whole(lo)], batch[1..], lo + 1, hi);
      WholesTail(log, batch);
    }
  }

  lemma IdsTail(lo: nat, hi: nat)
    requires lo < hi
    ensures Ids(lo, hi)[0] == lo && Ids(lo, hi)[1..] == Ids(lo + 1, hi)
  {
  }

  lemma WholesTail(log: seq<Seg>, batch: seq<Req>)
    requires batch != []
    ensures log + Wholes(batch) == log + [Whole(batch[0])] + Wholes(batch[1..])
  {
  }

  lemma IdsJoin(lo: nat, mid: nat, hi: nat)
    requires lo <= mid <= hi
    ensures Ids(lo, mid) + Ids(mid, hi) == Ids(lo, hi)
  {
  }

  lemma LogOne(log: seq<Seg>, r: Req)
    requires LogOk(log, r)
    ensures LogOk(log + [Whole(r)], r + 1)
  {
    ReqsLast(log, Whole(r));
    IdsJoin(0, r, r + 1);
    assert Ids(r, r + 1) == [r];
  }

  lemma LogTorn(log: seq<Seg>, torn: Seg, lo: int, hi: int)
    requires 0 <= lo <= hi && LogOk(log, lo) && torn.Torn? && torn.batch == Ids(lo, hi)
    ensures LogOk(log + [torn], hi)
  {
    ReqsLast(log, torn);
    IdsJoin(0, lo, hi);
  }

  lemma PartialFile(w: World, req: Req, batch: seq<Req>, written: nat, n: nat)
    requires FileOk(w, Writing(req, batch, written)) && written + n <= |Merge(w.data, batch)|
    ensures FileOk(w.(file := w.file + Merge(w.data, batch)[written..written + n]), Writing(req, batch, written + n))
  {
    SliceJoin(SegBytes(w.data, w.log), Merge(w.data, batch), written, n);
    var w' := w.(file := w.file + Merge(w.data, batch)[written..written + n]);
    assert InFlight(w', Writing(req, batch, written + n)) == Merge(w.data, batch)[..written + n];
  }

  lemma SliceJoin(front: seq<byte>, merged: seq<byte>, written: nat, n: nat)
    requires written + n <= |merged|
    ensures front + merged[..written] + merged[written..written + n] == front + merged[..written + n]
  {
  }

  lemma PartialKeeps(w: World, req: Req, batch: seq<Req>, written: nat, n: nat)
    requires WorldOk(w, Writing(req, batch, written)) && written + n <= |Merge(w.data, batch)|
    ensures Preserved(w, (w.(file := w.file + Merge(w.data, batch)[written..written + n]), Writing(req, batch, written + n)))
  {
    var w' := w.(file := w.file + Merge(w.data, batch)[written..written + n]);
    FrameKeeps(w, w', Writing(req, batch, written), Writing(req, batch, written + n));
    PartialFile(w, req, batch, written, n);
  }

  lemma FailKeeps(w: World, req: Req, batch: seq<Req>, written: nat)
    requires WorldOk(w, Writing(req, batch, written)) && written <= |Merge(w.data, batch)|
    ensures Preserved(w, (w.(log := w.log + [Torn(batch, Merge(w.data, batch)[..written])]), Acking(req, batch, 0, true)))
  {
    var torn := Torn(batch, Merge(w.data, batch)[..written]);
    var w' := w.(log := w.log + [torn]);
    FrameKeeps(w, w', Writing(req, batch, written), Acking(req, batch, 0, true));
    LogTorn(w.log, torn, Limit(w, Writing(req, batch, written)), Taken(w));
    assert SegBytes(w.data, [torn]) == torn.bytes;
    SegmentFile(w, req, batch, written, [torn], Acking(req, batch, 0, true));
    assert TornOk(w.data, torn);
    TornAppend(w.data, w.log, [torn]);
  }

  lemma WriteKeeps(w: World, req: Req, batch: seq<Req>, written: nat, result: int)
    requires WorldOk(w, Writing(req, batch, written))
    ensures Preserved(w, WriteStep(w, req, batch, written, result))
  {
    WriteBound(w, req, batch, written);
    WriteCases(w, req, batch, written, result);
    var left := |Merge(w.data, batch)| - written;
    if left <= 0 {
      WrittenKeeps(w, req, batch, written);
    } else if result <= 0 {
      FailKeeps(w, req, batch, written);
    } else {
      PartialKeeps(w, req, batch, written, if result < left then result else left);
    }
  }

  lemma WriteBound(w: World, req: Req, batch: seq<Req>, written: nat)
    requires WorldOk(w, Writing(req, batch, written))
    ensures written <= |Merge(w.data, batch)|
  {
  }

  lemma WriteCases(w: World, req: Req, batch: seq<Req>, written: nat, result: int)
    requires written <= |Merge(w.data, batch)|
    ensures var merged, r := Merge(w.data, batch), WriteStep(w, req, batch, written, result);
            var left := |merged| - written;
            && (left <= 0 ==> r == (w.(log := w.log + Wholes(batch)), SyncBlobs(req, batch)))
            && (left > 0 && result <= 0 ==> r == (w.(log := w.log + [Torn(batch, merged[..written])]), Acking(req, batch, 0, true)))
            && (left > 0 && result > 0 ==>
                  var n := if result < left then result else left;
                  r == (w.(file := w.file + merged[written..written + n]), Writing(req, batch, written + n)))
  {
  }

  lemma SyncBlobsKeeps(w: World, req: Req, batch: seq<Req>)
    requires WorldOk(w, SyncBlobs(req, batch)) && BlobsOk(w)
    ensures Preserved(w, (w.(blobDurable := w.blob), SyncFile(req, batch)))
  {
    FrameKeeps(w, w.(blobDurable := w.blob), SyncBlobs(req, batch), SyncFile(req, batch));
  }

  lemma SyncFileKeeps(w: World, req: Req, batch: seq<Req>)
    requires WorldOk(w, SyncFile(req, batch))
    ensures Preserved(w, (w.(durable := |w.file|, synced := |w.log|), Acking(req, batch, 0, false)))
  {
    FrameKeeps(w, w.(durable := |w.file|, synced := |w.log|), SyncFile(req, batch), Acking(req, batch, 0, false));
    assert w.log[..|w.log|] == w.log;
  }

  lemma AckKeeps(w: World, req: Req, batch: seq<Req>, next: nat, failed: bool)
    requires WorldOk(w, Acking(req, batch, next, failed))
    ensures Preserved(w, AckStep(w, req, batch, next, failed))
  {
    if next < |batch| {
      assert batch[next] in batch;
      assert batch[next] == Settled(w, Acking(req, batch, next, failed)) + next;
    } else {
      assert Ids(Taken(w), Taken(w)) == [];
    }
  }

  lemma HoldingKeeps(w: World, req: Req)
    requires WorldOk(w, Holding(req))
    ensures Preserved(w, (w, if req in w.outcome then Release(req) else Drain(req)))
  {
  }

  lemma LeaderMove(w: World, t: Tid, th: Thread, e: Event)
    requires WorldOk(w, th) && BlobsOk(w) && Leads(th) && !th.Release?
    ensures Preserved(w, Move(w, t, th, e))
  {
    match th
    case Holding(req) => HoldingKeeps(w, req);
    case Drain(req) => DrainKeeps(w, req);
    case Writing(req, batch, written) => WriteKeeps(w, req, batch, written, e.result);
    case SyncBlobs(req, batch) => SyncBlobsKeeps(w, req, batch);
    case SyncFile(req, batch) => SyncFileKeeps(w, req, batch);
    case Acking(req, batch, next, failed) => AckKeeps(w, req, batch, next, failed);
  }

  lemma LeaderStays(w: World, t: Tid, th: Thread, e: Event)
    requires Leads(th) && !th.Release?
    ensures Leads(Move(w, t, th, e).1) && Move(w, t, th, e).0.leader == w.leader
  {
  }

  // ---------- every step ----------

  lemma MoveBlobs(w: World, t: Tid, th: Thread, e: Event)
    requires BlobsOk(w)
    ensures BlobsOk(Move(w, t, th, e).0)
  {
  }

  lemma ReleaseMove(w: World, req: Req)
    requires WorldOk(w, Release(req))
    ensures var w' := w.(leader := None); WorldOk(w', Idle) && Grows(w, w') && OwnOk(w', Waiting(req))
  {
  }

  /** What a step of a thread outside the critical section keeps: the leader's state, or it leads now. */
  ghost predicate OtherOk(w: World, t: Tid, r: (World, Thread), cur: Thread)
  {
    && Grows(w, r.0) && OwnOk(r.0, r.1)
    && WorldOk(r.0, if Leads(r.1) then r.1 else cur)
    && r.0.leader == (if Leads(r.1) then Some(t) else w.leader)
    && (Leads(r.1) ==> w.leader.None?)
  }

  lemma InvokeMove(w: World, t: Tid, call: Call, cur: Thread)
    requires WorldOk(w, cur)
    ensures OtherOk(w, t, Invoke(w, call), cur)
  {
    match call
    case Append(bytes) => EnqueueKeeps(w, cur, bytes);
    case WriteBlob(size) => BlobKeeps(w, cur, size);
  }

  lemma BlobKeeps(w: World, cur: Thread, size: nat)
    requires WorldOk(w, cur)
    ensures WorldOk(w.(blob := w.blob + size), cur) && Grows(w, w.(blob := w.blob + size))
  {
    var w' := w.(blob := w.blob + size);
    SameLeaderOk(w, w', cur);
    assert Limit(w', cur) == Limit(w, cur);
  }

  lemma SameLeaderOk(w: World, w': World, cur: Thread)
    requires AckedOk(w) && LeaderOk(w, cur) && w' == w.(blob := w'.blob)
    ensures AckedOk(w') && LeaderOk(w', cur)
  {
  }

  lemma LockMove(w: World, t: Tid, req: Req)
    requires WorldOk(w, Idle) && req < |w.data| && w.leader.None?
    ensures OtherOk(w, t, (w.(leader := Some(t)), Holding(req)), Idle)
  {
  }

  lemma OtherMove(w: World, t: Tid, th: Thread, e: Event, cur: Thread)
    requires WorldOk(w, cur) && OwnOk(w, th) && !Leads(th) && (w.leader.None? ==> cur.Idle?)
    ensures OtherOk(w, t, Move(w, t, th, e), cur)
  {
    match th
    case Idle => InvokeMove(w, t, e.call, cur);
    case Waiting(req) =>
    case TryLock(req) => if w.leader.None? { LockMove(w, t, req); }
    case Returned(req, ok) =>
  }

  lemma StepKeepsInv(s: State, e: Event)
    requires Inv(s)
    ensures Inv(Step(s, e)) && Grows(s.world, Step(s, e).world)
  {
    var t, th, s' := e.tid, ThreadOf(s, e.tid), Step(s, e);
    var (w', th') := Move(s.world, t, th, e);
    MoveBlobs(s.world, t, th, e);
    if th.Release? {
      ReleaseMove(s.world, th.req);
    } else if Leads(th) {
      LeaderMove(s.world, t, th, e);
      LeaderStays(s.world, t, th, e);
    } else {
      OtherMove(s.world, t, th, e, Current(s));
    }
    forall u: Tid ensures OwnOk(w', ThreadOf(s', u)) {
      if u != t { OwnGrows(s.world, w', ThreadOf(s, u)); }
    }
    assert forall u: Tid :: u != t ==> ThreadOf(s', u) == ThreadOf(s, u);
    assert ThreadOf(s', t) == th';
  }

  // ---------- what every run guarantees ----------

  lemma StartsSafe()
    ensures Inv(INIT)
  {
    assert Ids(0, 0) == [] && Reqs([]) == [];
    assert SegBytes([], []) == [] && QueueOk(INIT.world, Idle);
  }

  lemma {:induction false} SafeInEveryRun(events: seq<Event>)
    ensures Inv(Exec(events))
  {
    if events == [] {
      StartsSafe();
    } else {
      SafeInEveryRun(events[..|events| - 1]);
      StepKeepsInv(Exec(events[..|events| - 1]), events[|events| - 1]);
    }
  }

  /** Every later world extends an earlier one: files and sync marks only grow, outcomes stay. */
  lemma {:induction false} GrowsAlong(events: seq<Event>, more: seq<Event>)
    ensures Grows(Exec(events).world, Exec(events + more).world)
  {
    if more == [] {
      assert events + more == events;
    } else {
      var last := |more| - 1;
      var front := events + more[..last];
      assert events + more == front + [more[last]];
      GrowsAlong(events, more[..last]);
      GrowsOnce(front, more[last]);
      GrowsTwice(Exec(events).world, Exec(front).world, Exec(events + more).world);
    }
  }

  lemma ExecLast(events: seq<Event>, e: Event)
    ensures Exec(events + [e]) == Step(Exec(events), e)
  {
    var all := events + [e];
    assert all[..|all| - 1] == events && all[|all| - 1] == e;
  }

  lemma GrowsOnce(events: seq<Event>, e: Event)
    ensures Grows(Exec(events).world, Exec(events + [e]).world)
  {
    ExecLast(events, e);
    SafeInEveryRun(events);
    StepKeepsInv(Exec(events), e);
  }

  lemma GrowsTwice(a: World, b: World, c: World)
    requires Grows(a, b) && Grows(b, c)
    ensures Grows(a, c)
  {
    assert c.log[..|a.log|] == c.log[..|b.log|][..|a.log|];
    assert c.file[..|a.file|] == c.file[..|b.file|][..|a.file|];
  }

  /** A `write` that fails with bytes left to write. */
  ghost predicate FailedWrite(s: State, e: Event)
  {
    match ThreadOf(s, e.tid)
    case Writing(_, batch, written) => written < |Merge(s.world.data, batch)| && e.result <= 0
    case _ => false
  }

  ghost predicate NoFailedWrite(events: seq<Event>)
  {
    forall k :: 0 <= k < |events| ==> !FailsAt(events, k)
  }

  ghost predicate FailsAt(events: seq<Event>, k: nat)
    requires k < |events|
  {
    FailedWrite(Exec(events[..k]), events[k])
  }

  lemma FailureShows(s: State, e: Event)
    ensures NoFailure(Step(s, e).world.log) <==> NoFailure(s.world.log) && !FailedWrite(s, e)
  {
    var w, th, w' := s.world, ThreadOf(s, e.tid), Step(s, e).world;
    if th.Writing? {
      assert forall i :: 0 <= i < |w.log| ==> w'.log[i] == w.log[i];
      if FailedWrite(s, e) { assert w'.log[|w.log|].Torn?; }
    }
  }

  lemma NoFailedWriteLast(events: seq<Event>)
    requires events != []
    ensures var last := |events| - 1;
            NoFailedWrite(events) <==> NoFailedWrite(events[..last]) && !FailsAt(events, last)
  {
    var last := |events| - 1;
    forall k | 0 <= k < last ensures FailsAt(events, k) <==> FailsAt(events[..last], k) {
      assert events[..last][..k] == events[..k];
    }
  }

  lemma {:induction false} FailuresShow(events: seq<Event>)
    ensures NoFailure(Exec(events).world.log) <==> NoFailedWrite(events)
  {
    if events != [] {
      var last := |events| - 1;
      FailuresShow(events[..last]);
      FailureShows(Exec(events[..last]), events[last]);
      NoFailedWriteLast(events);
    }
  }

  lemma LogIsIds(w: World, cur: Thread)
    requires WorldOk(w, cur) && NoFailure(w.log)
    ensures 0 <= Limit(w, cur) <= |w.data| && w.log == Wholes(Ids(0, Limit(w, cur)))
    ensures SegBytes(w.data, w.log) == Merge(w.data, Ids(0, Limit(w, cur)))
  {
    ReqsOfWholes(w.log);
    WholesBytes(w.data, Ids(0, Limit(w, cur)));
  }

  lemma {:induction false} MergeAppend(data: seq<seq<byte>>, a: seq<Req>, b: seq<Req>)
    ensures Merge(data, a + b) == Merge(data, a) + Merge(data, b)
  {
    if a == [] {
      assert a + b == b;
    } else {
      assert (a + b)[1..] == a[1..] + b;
      MergeAppend(data, a[1..], b);
    }
  }

  lemma MergeSplit(data: seq<seq<byte>>, lo: nat, mid: nat, hi: nat)
    requires lo <= mid <= hi
    ensures Merge(data, Ids(lo, hi)) == Merge(data, Ids(lo, mid)) + Merge(data, Ids(mid, hi))
  {
    assert Ids(lo, hi) == Ids(lo, mid) + Ids(mid, hi);
    MergeAppend(data, Ids(lo, mid), Ids(mid, hi));
  }

  ghost predicate InOrder(w: World)
  {
    && |w.file| <= |Merge(w.data, Ids(0, |w.data|))| && w.file == Merge(w.data, Ids(0, |w.data|))[..|w.file|]
    && (w.leader.None? ==> |w.queue| <= |w.data| && w.file == Merge(w.data, Ids(0, |w.data| - |w.queue|)))
  }

  /** In every run without a failed write the log is, at every moment, a prefix of all requests' bytes in
      order of arrival; with the lock free it holds exactly the requests that left the queue, each once. */
  lemma LogInOrderOfArrival(events: seq<Event>)
    requires NoFailedWrite(events)
    ensures InOrder(Exec(events).world)
  {
    SafeInEveryRun(events);
    FailuresShow(events);
    FileInOrder(Exec(events));
  }

  lemma FileInOrder(s: State)
    requires Inv(s) && NoFailure(s.world.log)
    ensures InOrder(s.world)
  {
    FileIsPrefix(s.world, Current(s));
  }

  lemma FileIsPrefix(w: World, cur: Thread)
    requires WorldOk(w, cur) && NoFailure(w.log)
    ensures |w.file| <= |Merge(w.data, Ids(0, |w.data|))| && w.file == Merge(w.data, Ids(0, |w.data|))[..|w.file|]
    ensures cur.Idle? ==> |w.queue| <= |w.data| && w.file == Merge(w.data, Ids(0, |w.data| - |w.queue|))
  {
    var limit, taken, n := Limit(w, cur), Taken(w), |w.data|;
    LogIsIds(w, cur);
    MergeSplit(w.data, 0, limit, n);
    if cur.Writing? { MergeSplit(w.data, limit, taken, n); }
    PrefixOf(w.file, Merge(w.data, Ids(0, limit)), InFlight(w, cur), Merge(w.data, Ids(limit, n)));
  }

  lemma PrefixOf(file: seq<byte>, a: seq<byte>, b: seq<byte>, c: seq<byte>)
    requires file == a + b && |b| <= |c| && b == c[..|b|]
    ensures |file| <= |a + c| && file == (a + c)[..|file|]
  {
  }

  /** Whenever no thread holds the leader lock, the queue holds exactly the requests without an outcome. */
  lemma LockFreeMeansQueued(events: seq<Event>, r: Req)
    requires Exec(events).world.leader.None?
    ensures var w := Exec(events).world; r in w.queue <==> r < |w.data| && r !in w.outcome
  {
    SafeInEveryRun(events);
    var w := Exec(events).world;
    assert QueueOk(w, Idle);
    if Taken(w) <= r < |w.data| { assert w.queue[r - Taken(w)] == r; }
  }

  /** At most one thread leads, and it gives the lock up only with its own request completed. */
  lemma LeaderLeavesCompleted(events: seq<Event>, t: Tid, u: Tid)
    ensures var s := Exec(events);
            && (Leads(ThreadOf(s, t)) && Leads(ThreadOf(s, u)) ==> t == u)
            && (ThreadOf(s, t).Release? ==> ThreadOf(s, t).req in s.world.outcome)
            && (ThreadOf(s, t).Returned? ==> s.world.outcome.Items >= {(ThreadOf(s, t).req, ThreadOf(s, t).ok)})
  {
    SafeInEveryRun(events);
    var s := Exec(events);
    assert OwnOk(s.world, ThreadOf(s, t));
  }

  /** The bytes stand somewhere in the part of the file that is durable. */
  ghost predicate Durable(w: World, bytes: seq<byte>)
  {
    exists p: nat :: StandsAt(w.file, p, bytes) && p + |bytes| <= w.durable
  }

  /** In every run, failed writes or not: a request completed with a value stands whole in the durable part
      of the file, and the blob bytes written before it were synced. */
  lemma AcknowledgedIsDurable(events: seq<Event>, r: Req)
    requires var w := Exec(events).world; r in w.outcome && w.outcome[r]
    ensures var w := Exec(events).world; r < |w.data| && Durable(w, w.data[r]) && BlobsSynced(w.marks, w.blobDurable, r)
  {
    SafeInEveryRun(events);
    var w, cur := Exec(events).world, Current(Exec(events));
    assert QueueOk(w, cur) && AckedOk(w);
    assert r < |w.data|;
    SyncedStands(w, cur, r);
  }

  lemma SyncedStands(w: World, cur: Thread, r: Req)
    requires FileOk(w, cur) && Logged(w.log, w.synced, r)
    ensures Durable(w, DataOf(w.data, r))
  {
    var k :| 0 <= k < w.synced && k < |w.log| && w.log[k] == Whole(r);
    var own := DataOf(w.data, r);
    var p := |SegBytes(w.data, w.log[..k])|;
    SegSplit(w.data, w.log, k);
    SegSplit(w.data, w.log[..w.synced], k);
    assert w.log[..w.synced][..k] == w.log[..k];
    StandsBefore(SegBytes(w.data, w.log), InFlight(w, cur), p, own);
  }

  lemma StandsBefore(a: seq<byte>, b: seq<byte>, p: nat, own: seq<byte>)
    requires StandsAt(a, p, own)
    ensures StandsAt(a + b, p, own)
  {
    assert (a + b)[p..p + |own|] == a[p..p + |own|];
  }

  lemma SegSplit(data: seq<seq<byte>>, log: seq<Seg>, k: nat)
    requires k < |log| && log[k].Whole?
    ensures var own, p := DataOf(data, log[k].req), |SegBytes(data, log[..k])|;
            StandsAt(SegBytes(data, log), p, own)
  {
    var front, own, back := SegBytes(data, log[..k]), DataOf(data, log[k].req), SegBytes(data, log[k + 1..]);
    assert log == log[..k] + log[k..];
    SegAppend(data, log[..k], log[k..]);
    assert log[k..][0] == log[k] && log[k..][1..] == log[k + 1..];
    var all := front + (own + back);
    assert all[|front|..|front| + |own|] == own;
  }
}
