/** What an append tells its caller: a value exactly if its bytes were written whole, an exception exactly if the
    write of its batch failed. */
module CommitOutcomes {
  import opened Bytes
  import opened FrameLog
  import opened GroupCommit

  /** Some failed batch held the request. */
  ghost predicate InTorn(log: seq<Seg>, r: Req)
  {
    exists i :: 0 <= i < |log| && TornAt(log[i], r)
  }

  predicate TornAt(seg: Seg, r: Req)
  {
    seg.Torn? && r in seg.batch
  }

  ghost predicate OutcomesOk(w: World)
  {
    forall r :: r in w.outcome ==> (w.outcome[r] <==> Logged(w.log, |w.log|, r))
  }

  /** A batch that is completed with exceptions is the last failed one. */
  ghost predicate FateOk(w: World, cur: Thread)
  {
    cur.Acking? && cur.failed ==> w.log != [] && w.log[|w.log| - 1].Torn? && w.log[|w.log| - 1].batch == cur.batch
  }

  ghost predicate OutInv(s: State)
  {
    OutcomesOk(s.world) && FateOk(s.world, Current(s))
  }

  // ---------- each request stands in one segment ----------

  lemma {:induction false} ReqsMember(log: seq<Seg>, r: Req)
    requires r in Reqs(log)
    ensures exists i :: 0 <= i < |log| && r in SegReqs(log[i])
  {
    var last := |log| - 1;
    if r in Reqs(log[..last]) {
      ReqsMember(log[..last], r);
      var i :| 0 <= i < |log[..last]| && r in SegReqs(log[..last][i]);
      assert r in SegReqs(log[i]);
    } else {
      assert r in SegReqs(log[last]);
    }
  }

  /** The requests of the segments before the last one are the earlier ones. */
  lemma LastSegment(log: seq<Seg>, limit: int)
    requires LogOk(log, limit) && log != []
    ensures var last := |log| - 1; var n := |Reqs(log[..last])|;
            n <= limit && LogOk(log[..last], n) && forall r :: r in SegReqs(log[last]) ==> n <= r
  {
    var last := |log| - 1;
    var front, seg := Reqs(log[..last]), SegReqs(log[last]);
    assert Reqs(log) == front + seg;
    FrontIds(front, seg, limit);
  }

  lemma FrontIds(front: seq<Req>, seg: seq<Req>, limit: nat)
    requires front + seg == Ids(0, limit)
    ensures |front| <= limit && front == Ids(0, |front|) && forall r :: r in seg ==> |front| <= r
  {
    assert |front + seg| == limit;
    forall i | 0 <= i < |front| ensures front[i] == i { assert (front + seg)[i] == i; }
    forall i | 0 <= i < |seg| ensures seg[i] == |front| + i { assert (front + seg)[|front| + i] == |front| + i; }
  }

  /** No request stands in two segments. */
  lemma {:induction false} OneSegment(log: seq<Seg>, limit: int, i: nat, j: nat, r: Req)
    requires LogOk(log, limit) && i < |log| && j < |log| && r in SegReqs(log[i]) && r in SegReqs(log[j])
    ensures i == j
    decreases |log|
  {
    var last := |log| - 1;
    LastSegment(log, limit);
    if i < last { ReqsContain(log[..last], i, r); }
    if j < last { ReqsContain(log[..last], j, r); }
    if i < last && j < last { OneSegment(log[..last], |Reqs(log[..last])|, i, j, r); }
  }

  lemma WholeHas(log: seq<Seg>, i: nat, r: Req)
    requires i < |log| && log[i] == Whole(r)
    ensures r in SegReqs(log[i])
  {
    assert SegReqs(log[i])[0] == r;
  }

  /** A request before the limit is written whole or in a failed batch, never both. */
  lemma WholeOrTorn(log: seq<Seg>, limit: int, r: Req)
    requires LogOk(log, limit)
    ensures !(Logged(log, |log|, r) && InTorn(log, r))
    ensures r < limit ==> Logged(log, |log|, r) || InTorn(log, r)
    ensures Logged(log, |log|, r) || InTorn(log, r) ==> r < limit
  {
    if Logged(log, |log|, r) {
      var i :| 0 <= i < |log| && log[i] == Whole(r);
      WholeHas(log, i, r);
      ReqsContain(log, i, r);
    }
    if InTorn(log, r) {
      var j :| 0 <= j < |log| && TornAt(log[j], r);
      ReqsContain(log, j, r);
    }
    if Logged(log, |log|, r) && InTorn(log, r) {
      var i :| 0 <= i < |log| && log[i] == Whole(r);
      var j :| 0 <= j < |log| && TornAt(log[j], r);
      WholeHas(log, i, r);
      OneSegment(log, limit, i, j, r);
    }
    if r < limit {
      assert Ids(0, limit)[r] == r;
      ReqsMember(log, r);
      SomeSegment(log, r);
    }
  }

  lemma SomeSegment(log: seq<Seg>, r: Req)
    requires exists i :: 0 <= i < |log| && r in SegReqs(log[i])
    ensures Logged(log, |log|, r) || InTorn(log, r)
  {
    var i :| 0 <= i < |log| && r in SegReqs(log[i]);
    if log[i].Torn? { assert TornAt(log[i], r); } else { assert log[i] == Whole(r); }
  }

  // ---------- the steps ----------

  /** Appending a written batch or a failed one changes nothing about requests outside it. */
  lemma LoggedBefore(log: seq<Seg>, more: seq<Seg>, r: Req)
    requires forall i :: 0 <= i < |more| ==> more[i] != Whole(r)
    ensures Logged(log + more, |log + more|, r) <==> Logged(log, |log|, r)
  {
    if Logged(log, |log|, r) {
      var i :| 0 <= i < |log| && log[i] == Whole(r);
      assert (log + more)[i] == Whole(r);
    }
    if Logged(log + more, |log + more|, r) {
      var i :| 0 <= i < |log + more| && (log + more)[i] == Whole(r);
      if i >= |log| { assert more[i - |log|] == Whole(r); }
    }
  }

  lemma WriteOutcomes(w: World, req: Req, batch: seq<Req>, written: nat, result: int)
    requires WorldOk(w, Writing(req, batch, written)) && OutcomesOk(w)
    ensures var (w', th') := WriteStep(w, req, batch, written, result); OutcomesOk(w') && FateOk(w', th')
  {
    var cur := Writing(req, batch, written);
    var merged := Merge(w.data, batch);
    forall r | r in w.outcome
      ensures Logged(w.log + Wholes(batch), |w.log + Wholes(batch)|, r) <==> Logged(w.log, |w.log|, r)
      ensures forall bytes :: Logged(w.log + [Torn(batch, bytes)], |w.log| + 1, r) <==> Logged(w.log, |w.log|, r)
    {
      assert r < Settled(w, cur) && batch == Ids(Settled(w, cur), Taken(w));
      LoggedBefore(w.log, Wholes(batch), r);
      forall bytes ensures Logged(w.log + [Torn(batch, bytes)], |w.log| + 1, r) <==> Logged(w.log, |w.log|, r) {
        LoggedBefore(w.log, [Torn(batch, bytes)], r);
      }
    }
  }

  lemma AckOutcomes(w: World, req: Req, batch: seq<Req>, next: nat, failed: bool)
    requires WorldOk(w, Acking(req, batch, next, failed)) && OutcomesOk(w) && FateOk(w, Acking(req, batch, next, failed))
    ensures var (w', th') := AckStep(w, req, batch, next, failed); OutcomesOk(w') && FateOk(w', th')
  {
    if next < |batch| { BatchFate(w, req, batch, next, failed, batch[next]); }
  }

  /** The requests of a batch being completed are written whole exactly if the batch did not fail. */
  lemma BatchFate(w: World, req: Req, batch: seq<Req>, next: nat, failed: bool, r: Req)
    requires WorldOk(w, Acking(req, batch, next, failed)) && FateOk(w, Acking(req, batch, next, failed)) && r in batch
    ensures Logged(w.log, |w.log|, r) <==> !failed
  {
    if failed {
      assert TornAt(w.log[|w.log| - 1], r);
      WholeOrTorn(w.log, Taken(w), r);
    } else {
      assert Logged(w.log, w.synced, r);
      var i :| 0 <= i < w.synced && i < |w.log| && w.log[i] == Whole(r);
    }
  }

  lemma LeaderOutcomes(w: World, t: Tid, th: Thread, e: Event)
    requires WorldOk(w, th) && OutcomesOk(w) && FateOk(w, th) && Leads(th)
    ensures var (w', th') := Move(w, t, th, e); OutcomesOk(w') && FateOk(w', th')
  {
    match th
    case Writing(req, batch, written) => WriteOutcomes(w, req, batch, written, e.result);
    case Acking(req, batch, next, failed) => AckOutcomes(w, req, batch, next, failed);
    case _ =>
  }

  lemma OtherOutcomes(w: World, t: Tid, th: Thread, e: Event)
    requires OutcomesOk(w) && !Leads(th)
    ensures var (w', th') := Move(w, t, th, e); OutcomesOk(w') && w'.log == w.log && FateOk(w', th')
  {
  }

  lemma StepKeepsOutcomes(s: State, e: Event)
    requires Inv(s) && OutInv(s)
    ensures OutInv(Step(s, e))
  {
    var t, th, s' := e.tid, ThreadOf(s, e.tid), Step(s, e);
    assert forall u: Tid :: u != t ==> ThreadOf(s', u) == ThreadOf(s, u);
    if Leads(th) {
      assert Current(s) == th;
      LeaderOutcomes(s.world, t, th, e);
      if !th.Release? { LeaderStays(s.world, t, th, e); }
    } else {
      OtherOutcomes(s.world, t, th, e);
      CurrentAfter(s, e);
    }
  }

  /** A thread that does not lead leaves the leader where it is, or takes the free lock. */
  lemma CurrentAfter(s: State, e: Event)
    requires Inv(s) && !Leads(ThreadOf(s, e.tid))
    ensures Current(Step(s, e)) == Current(s) || !Current(Step(s, e)).Acking?
  {
    var th := ThreadOf(s, e.tid);
    if s.world.leader.Some? { assert s.world.leader != Some(e.tid); }
  }

  lemma {:induction false} OutcomesInEveryRun(events: seq<Event>)
    ensures OutInv(Exec(events))
  {
    if events != [] {
      OutcomesInEveryRun(events[..|events| - 1]);
      SafeInEveryRun(events[..|events| - 1]);
      StepKeepsOutcomes(Exec(events[..|events| - 1]), events[|events| - 1]);
    }
  }

  // ---------- what every run guarantees ----------

  /** In every run a completed request has a value exactly if its bytes were written whole, and an exception exactly if
      it stands in a batch whose write failed. */
  lemma OutcomeExact(events: seq<Event>, r: Req)
    requires r in Exec(events).world.outcome
    ensures var w := Exec(events).world;
            && (w.outcome[r] <==> Logged(w.log, |w.log|, r))
            && (!w.outcome[r] <==> InTorn(w.log, r))
  {
    SafeInEveryRun(events);
    OutcomesInEveryRun(events);
    CompletedBelow(Exec(events), r);
  }

  lemma CompletedBelow(s: State, r: Req)
    requires Inv(s) && OutInv(s) && r in s.world.outcome
    ensures InTorn(s.world.log, r) <==> !Logged(s.world.log, |s.world.log|, r)
  {
    var w, cur := s.world, Current(s);
    assert r < Settled(w, cur) + AckedOf(cur) <= Taken(w);
    assert cur.Writing? ==> AckedOf(cur) == 0;
    WholeOrTorn(w.log, Limit(w, cur), r);
  }

  /** So an append returns normally exactly if its bytes were written whole. */
  lemma ReturnsExactly(events: seq<Event>, t: Tid)
    requires ThreadOf(Exec(events), t).Returned?
    ensures var s := Exec(events);
            ThreadOf(s, t).ok <==> Logged(s.world.log, |s.world.log|, ThreadOf(s, t).req)
  {
    SafeInEveryRun(events);
    assert OwnOk(Exec(events).world, ThreadOf(Exec(events), t));
    OutcomeExact(events, ThreadOf(Exec(events), t).req);
  }

  /** A run without a failed write completes every request with a value: with the lock free, all that left the queue. */
  lemma NoFailureAllSucceed(events: seq<Event>, r: Req)
    requires NoFailedWrite(events)
    ensures var w := Exec(events).world;
            && (r in w.outcome ==> w.outcome[r])
            && (w.leader.None? && r < |w.data| && r !in w.queue ==> r in w.outcome && w.outcome[r])
  {
    var w := Exec(events).world;
    FailuresShow(events);
    if w.leader.None? { LockFreeMeansQueued(events, r); }
    if r in w.outcome {
      OutcomeExact(events, r);
      NoTorn(w.log, r);
    }
  }

  lemma NoTorn(log: seq<Seg>, r: Req)
    requires NoFailure(log)
    ensures !InTorn(log, r)
  {
  }

  /** A leader takes the first thousand waiting requests, or all if they are fewer, and leaves the others waiting. */
  lemma DrainTakes(w: World, req: Req)
    requires w.queue != []
    ensures var (w', th') := DrainStep(w, req);
            && th'.Writing? && th'.written == 0 && th'.batch + w'.queue == w.queue
            && |th'.batch| == if |w.queue| < 1000 then |w.queue| else 1000
  {
  }
}
