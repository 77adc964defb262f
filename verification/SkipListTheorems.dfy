/** What the skip list guarantees over every schedule: safety of the structure and
    linearizability of `put` and `getRecord`. */
module SkipListTheorems {
  import opened Bytes
  import opened Records
  import opened NodeLayout
  import opened SkipListMachine
  import opened SkipListInvariant

  /** The constructor allocates the head, so it needs this much room. */
  const HEAD_END: nat := ALIGN_BYTES + AlignUp(NodeSize(DUMMY, MAX_HEIGHT))

  lemma InitInv(capacity: nat)
    requires HEAD_END <= capacity
    ensures Inv(Init(capacity))
  {
    var sh := Init(capacity).shared;
    assert sh.nodes.Keys == {HEAD};
    assert Load(sh, HEAD, 0) == 0 && StepsTo(sh, 0);
    forall a, level | a in sh.chain && 1 <= level < HeightOf(sh, a) ensures LinkOk(sh, a, level) {
      assert Load(sh, a, level) == 0;
    }
  }

  /** In every interleaving of any number of threads the invariant holds: level 0 is an acyclic
      list in key order with the newest version of a key first, holding every published node; every
      upper link, stale or not, leads strictly forward to a published node tall enough for it. */
  lemma {:induction false} SafeInEverySchedule(capacity: nat, events: seq<Event>)
    requires HEAD_END <= capacity
    ensures Inv(Exec(capacity, events))
  {
    if events == [] {
      InitInv(capacity);
    } else {
      SafeInEverySchedule(capacity, events[..|events| - 1]);
      StepKeepsInv(Exec(capacity, events[..|events| - 1]), events[|events| - 1]);
    }
  }

  /** The pointer cell the next move of a thread reads or writes, if any. */
  ghost function Touches(sh: Shared, th: Thread): Option<(Offset, nat)>
  {
    match th
    case Start(_, _, _, _) => Some((HEAD, MAX_HEIGHT - 1))
    case Search(node, _, level, cur, nxt, _, _) =>
      if nxt != 0 && Less(KeyOf(sh, nxt), KeyOf(sh, node)) then Some((nxt, level))
      else if level > 0 then Some((cur, level - 1)) else None
    case Get(key, level, cur, nxt) =>
      if nxt != 0 && Less(KeyOf(sh, nxt), key) then Some((nxt, level))
      else if level > 0 then Some((cur, level - 1)) else None
    case Wire(node, i, preds, _) => if i < HeightOf(sh, node) then Some((node, i)) else Some((preds[0], 0))
    case LinkUp(node, i, preds, _) => if i < HeightOf(sh, node) && i < MAX_HEIGHT then Some((preds[i], i)) else None
    case _ => None
  }

  lemma TouchInRange(sh: Shared, th: Thread)
    requires ListOk(sh) && ThreadOk(sh, th)
    ensures var cell := Touches(sh, th); cell.Some? ==> InRange(sh, cell.value.0, cell.value.1)
  {
    match th
    case Wire(node, i, preds, succs) => assert PredOk(sh, KeyOf(sh, node), preds[0], 0);
    case LinkUp(node, i, preds, succs) =>
      if i < MAX_HEIGHT { assert PredOk(sh, KeyOf(sh, node), preds[i], i); }
    case _ =>
  }

  lemma ListSafe(capacity: nat, events: seq<Event>, t: Tid)
    requires HEAD_END <= capacity
    ensures ListOk(Exec(capacity, events).shared) && ThreadOk(Exec(capacity, events).shared, ThreadOf(Exec(capacity, events), t))
  {
    SafeInEverySchedule(capacity, events);
  }

  /** No thread ever reads or writes outside an allocated node's pointer array. */
  lemma AccessInRange(capacity: nat, events: seq<Event>, t: Tid)
    requires HEAD_END <= capacity
    ensures var s := Exec(capacity, events);
            var cell := Touches(s.shared, ThreadOf(s, t));
            cell.Some? ==> InRange(s.shared, cell.value.0, cell.value.1)
  {
    ListSafe(capacity, events, t);
    TouchInRange(Exec(capacity, events).shared, ThreadOf(Exec(capacity, events), t));
  }

  /** The state after the first `m` events. */
  ghost function At(capacity: nat, events: seq<Event>, m: nat): State
    requires m <= |events|
  {
    Exec(capacity, events[..m])
  }

  // ---------- nothing published is ever lost or reordered ----------

  lemma ExecStep(capacity: nat, events: seq<Event>, m: nat)
    requires m < |events|
    ensures Exec(capacity, events[..m + 1]) == Step(Exec(capacity, events[..m]), events[m])
  {
    assert events[..m + 1][..m] == events[..m];
  }

  lemma StepParts(s: State, e: Event, t: Tid)
    ensures Step(s, e).shared == Move(s.shared, ThreadOf(s, e.tid), e.call).0
    ensures ThreadOf(Step(s, e), t) == if t == e.tid then Move(s.shared, ThreadOf(s, e.tid), e.call).1 else ThreadOf(s, t)
  {
  }

  lemma MovePublishes(sh: Shared, th: Thread, call: Call)
    ensures var p, p' := sh.published, Move(sh, th, call).0.published; p' == p || (|p'| == |p| + 1 && p <= p')
  {
  }

  lemma StepGrows(s: State, e: Event)
    requires Inv(s)
    ensures Grows(s.shared, Step(s, e).shared)
    ensures var p, p' := s.shared.published, Step(s, e).shared.published; p' == p || (|p'| == |p| + 1 && p <= p')
  {
    NoNodeAtTop(s.shared);
    MoveEffect(s.shared, ThreadOf(s, e.tid), e.call);
    MovePublishes(s.shared, ThreadOf(s, e.tid), e.call);
    StepParts(s, e, e.tid);
  }

  lemma ExecStepGrows(capacity: nat, events: seq<Event>, m: nat)
    requires HEAD_END <= capacity && m < |events|
    ensures Grows(At(capacity, events, m).shared, At(capacity, events, m + 1).shared)
    ensures var p, p' := At(capacity, events, m).shared.published, At(capacity, events, m + 1).shared.published;
            p' == p || (|p'| == |p| + 1 && p <= p')
  {
    SafeInEverySchedule(capacity, events[..m]);
    ExecStep(capacity, events, m);
    StepGrows(At(capacity, events, m), events[m]);
  }

  lemma GrowsTransitive(a: Shared, b: Shared, c: Shared)
    requires Grows(a, b) && Grows(b, c)
    ensures Grows(a, c)
  {
  }

  /** Along a schedule the publication order only grows at its end, and no node, key or height changes. */
  lemma {:induction false} GrowsAlong(capacity: nat, events: seq<Event>, m: nat, n: nat)
    requires HEAD_END <= capacity && m <= n <= |events|
    ensures Grows(At(capacity, events, m).shared, At(capacity, events, n).shared)
    ensures At(capacity, events, m).shared.published <= At(capacity, events, n).shared.published
    decreases n
  {
    if m < n {
      GrowsAlong(capacity, events, m, n - 1);
      ExecStepGrows(capacity, events, n - 1);
      GrowsTransitive(At(capacity, events, m).shared, At(capacity, events, n - 1).shared, At(capacity, events, n).shared);
    }
  }

  // ---------- linearizability ----------

  /** The specification of a read: the last node published under the key. */
  ghost function NewestIn(sh: Shared, published: seq<Offset>, key: seq<byte>): Option<Offset>
  {
    if published == [] then None
    else if KeyOf(sh, published[|published| - 1]) == key then Some(published[|published| - 1])
    else NewestIn(sh, published[..|published| - 1], key)
  }

  ghost function Newest(sh: Shared, key: seq<byte>): Option<Offset>
  {
    NewestIn(sh, sh.published, key)
  }

  lemma {:induction false} NewestIs(sh: Shared, published: seq<Offset>, key: seq<byte>, p: nat)
    requires p < |published| && KeyOf(sh, published[p]) == key
    requires forall q :: p < q < |published| ==> KeyOf(sh, published[q]) != key
    ensures NewestIn(sh, published, key) == Some(published[p])
  {
    if p < |published| - 1 { NewestIs(sh, published[..|published| - 1], key, p); }
  }

  lemma {:induction false} NewestNone(sh: Shared, published: seq<Offset>, key: seq<byte>)
    requires forall q :: 0 <= q < |published| ==> KeyOf(sh, published[q]) != key
    ensures NewestIn(sh, published, key) == None
  {
    if published != [] { NewestNone(sh, published[..|published| - 1], key); }
  }

  /** Every published version of `key` lies at or after the level-0 successor of a predecessor for `key`. */
  lemma AtOrAfterSuccessor(sh: Shared, key: seq<byte>, cur: Offset, x: Offset)
    requires ListOk(sh) && PredOk(sh, key, cur, 0) && x in sh.chain && x != HEAD && KeyOf(sh, x) == key
    ensures var nxt := Load(sh, cur, 0);
            nxt in sh.chain && nxt != HEAD && IndexOf(sh.chain, nxt) <= IndexOf(sh.chain, x) && !Less(key, KeyOf(sh, nxt))
  {
    var i := IndexOf(sh.chain, cur);
    assert StepsTo(sh, i);
    LessTrichotomy(key, key);
    AfterPred(sh, key, cur, 0, x);
    assert sh.chain[i + 1] in sh.chain && IndexOf(sh.chain, sh.chain[i + 1]) == i + 1;
  }

  /** A level-0 pointer read that ends the search decides the answer: at that instant the node it
      found is the newest published version of the key, or there is none. */
  lemma LastReadDecides(sh: Shared, key: seq<byte>, cur: Offset)
    requires ListOk(sh) && PredOk(sh, key, cur, 0)
    requires Load(sh, cur, 0) == 0 || !Less(KeyOf(sh, Load(sh, cur, 0)), key)
    ensures var nxt := Load(sh, cur, 0);
            Newest(sh, key) == if nxt != 0 && KeyOf(sh, nxt) == key then Some(nxt) else None
  {
    var nxt := Load(sh, cur, 0);
    if nxt != 0 && KeyOf(sh, nxt) == key {
      FollowLink(sh, key, cur, 0);
      assert nxt in sh.published;
      var p :| 0 <= p < |sh.published| && sh.published[p] == nxt;
      forall q | p < q < |sh.published| ensures KeyOf(sh, sh.published[q]) != key {
        if KeyOf(sh, sh.published[q]) == key {
          assert sh.published[q] in sh.published;
          AtOrAfterSuccessor(sh, key, cur, sh.published[q]);
        }
      }
      NewestIs(sh, sh.published, key, p);
    } else {
      forall q | 0 <= q < |sh.published| ensures KeyOf(sh, sh.published[q]) != key {
        if KeyOf(sh, sh.published[q]) == key {
          assert sh.published[q] in sh.published;
          AtOrAfterSuccessor(sh, key, cur, sh.published[q]);
          LessTrichotomy(KeyOf(sh, nxt), key);
        }
      }
      NewestNone(sh, sh.published, key);
    }
  }

  /** Thread `t` invokes `getRecord(key)` with event `begin` and is still inside it before moment `end`. */
  ghost predicate Reading(capacity: nat, events: seq<Event>, t: Tid, key: seq<byte>, begin: nat, end: nat)
  {
    && begin < end <= |events|
    && events[begin] == Event(t, CallGet(key)) && ThreadOf(At(capacity, events, begin), t) == Idle
    && (forall m :: begin < m < end ==>
          ThreadOf(At(capacity, events, m), t).Get? && ThreadOf(At(capacity, events, m), t).key == key)
  }

  lemma GetMove(sh: Shared, th: Thread, call: Call)
    requires th.Get? || (th.Idle? && call.CallGet?)
    ensures var (sh', th') := Move(sh, th, call);
            && sh' == sh
            && (th'.Get? && th'.level == 0 ==> th'.nxt == Load(sh, th'.cur, 0))
            && (th'.GetDone? ==> th.Get? && th.level == 0 && !(th.nxt != 0 && Less(KeyOf(sh, th.nxt), th.key)))
            && (th'.GetDone? ==> th' == GetDone(th.key, if th.nxt != 0 && KeyOf(sh, th.nxt) == th.key then Some(th.nxt) else None))
  {
  }

  /** A reader on level 0 holds a pointer it loaded at some moment of its call. */
  lemma {:induction false} ReadMoment(capacity: nat, events: seq<Event>, t: Tid, key: seq<byte>, begin: nat, end: nat, m: nat)
    returns (k: nat)
    requires Reading(capacity, events, t, key, begin, end) && begin < m < end
    requires ThreadOf(At(capacity, events, m), t).level == 0
    ensures begin < k <= m && ThreadOf(At(capacity, events, k), t) == ThreadOf(At(capacity, events, m), t)
    ensures var th := ThreadOf(At(capacity, events, m), t); Load(At(capacity, events, k).shared, th.cur, 0) == th.nxt
    decreases m
  {
    OneMove(capacity, events, t, key, begin, end, m);
    if events[m - 1].tid != t {
      k := ReadMoment(capacity, events, t, key, begin, end, m - 1);
    } else {
      k := m;
    }
  }

  /** An event of another thread leaves the reader where it was; its own leaves it with a pointer just loaded. */
  lemma OneMove(capacity: nat, events: seq<Event>, t: Tid, key: seq<byte>, begin: nat, end: nat, m: nat)
    requires Reading(capacity, events, t, key, begin, end) && begin < m < end
    requires ThreadOf(At(capacity, events, m), t).level == 0
    ensures events[m - 1].tid != t ==>
              m - 1 > begin && ThreadOf(At(capacity, events, m - 1), t) == ThreadOf(At(capacity, events, m), t)
    ensures events[m - 1].tid == t ==>
              var th := ThreadOf(At(capacity, events, m), t); Load(At(capacity, events, m).shared, th.cur, 0) == th.nxt
  {
    var s, e := At(capacity, events, m - 1), events[m - 1];
    ExecStep(capacity, events, m - 1);
    StepParts(s, e, t);
    assert m - 1 > begin ==> ThreadOf(s, t).Get?;
    if e.tid == t { GetStepped(s, e); }
  }

  lemma GetStepped(s: State, e: Event)
    requires ThreadOf(s, e.tid).Get? || (ThreadOf(s, e.tid).Idle? && e.call.CallGet?)
    ensures var th := ThreadOf(Step(s, e), e.tid);
            th.Get? && th.level == 0 ==> Load(Step(s, e).shared, th.cur, 0) == th.nxt
  {
    StepParts(s, e, e.tid);
    GetMove(s.shared, ThreadOf(s, e.tid), e.call);
  }

  /** `getRecord` is linearizable: at some moment between its invocation and its return, its result
      was the newest published version of the key, or none exactly when no version was published. */
  lemma GetLinearizable(capacity: nat, events: seq<Event>, t: Tid, key: seq<byte>, begin: nat, end: nat)
    requires HEAD_END <= capacity && Reading(capacity, events, t, key, begin, end)
    requires ThreadOf(At(capacity, events, end), t).GetDone?
    ensures exists k :: begin < k <= end
              && ThreadOf(At(capacity, events, end), t) == GetDone(key, Newest(At(capacity, events, k).shared, key))
  {
    var last := end - 1;
    var s, e := At(capacity, events, last), events[last];
    var th := ThreadOf(s, t);
    ExecStep(capacity, events, last);
    StepParts(s, e, t);
    GetMove(s.shared, th, e.call);
    var k := ReadMoment(capacity, events, t, key, begin, end, last);
    ListSafe(capacity, events[..k], t);
    GrowsAlong(capacity, events, k, last);
    ListSafe(capacity, events[..last], t);
    SameKey(At(capacity, events, k).shared, s.shared, th);
    LastReadDecides(At(capacity, events, k).shared, key, th.cur);
  }

  lemma SameKey(sh: Shared, sh': Shared, th: Thread)
    requires ListOk(sh) && Grows(sh, sh') && th.Get? && ThreadOk(sh, th)
    ensures PredOk(sh, th.key, th.cur, th.level) && (th.nxt != 0 ==> KeyOf(sh', th.nxt) == KeyOf(sh, th.nxt))
  {
  }

  /** A node that was unpublished at one moment and is published at a later one
      was appended to the publication order by a step in between. */
  lemma {:induction false} PutLinearizable(capacity: nat, events: seq<Event>, node: Offset, begin: nat, end: nat)
    returns (k: nat)
    requires HEAD_END <= capacity && begin <= end <= |events|
    requires node !in At(capacity, events, begin).shared.published
    requires node in At(capacity, events, end).shared.published
    ensures begin <= k < end
    ensures At(capacity, events, k + 1).shared.published == At(capacity, events, k).shared.published + [node]
    decreases end
  {
    ExecStepGrows(capacity, events, end - 1);
    var p, p' := At(capacity, events, end - 1).shared.published, At(capacity, events, end).shared.published;
    if node in p {
      k := PutLinearizable(capacity, events, node, begin, end - 1);
    } else {
      k := end - 1;
      assert p' == p + [node];
    }
  }

  /** The node a thread inside `put` works on. */
  ghost function NodeOf(th: Thread): Option<Offset>
  {
    match th
    case Start(node, _, _, _) => Some(node)
    case Search(node, _, _, _, _, _, _) => Some(node)
    case Wire(node, _, _, _) => Some(node)
    case LinkUp(node, _, _, _) => Some(node)
    case PutDone(node) => Some(node)
    case _ => None
  }

  ghost predicate InPut(s: State, t: Tid)
  {
    NodeOf(ThreadOf(s, t)).Some? && !ThreadOf(s, t).PutDone?
  }

  /** Thread `t` invokes `put(record)` with event `begin` and is inside it until moment `end`, when it is done. */
  ghost predicate Putting(capacity: nat, events: seq<Event>, t: Tid, record: LogRecord, height: nat, begin: nat, end: nat)
  {
    && begin < end <= |events|
    && events[begin] == Event(t, CallPut(record, height)) && ThreadOf(At(capacity, events, begin), t) == Idle
    && (forall m :: begin < m < end ==> InPut(At(capacity, events, m), t))
    && ThreadOf(At(capacity, events, end), t).PutDone?
  }

  lemma PutMove(sh: Shared, th: Thread, call: Call)
    requires NodeOf(th).Some? && !th.PutDone?
    ensures NodeOf(Move(sh, th, call).1) == NodeOf(th)
  {
  }

  lemma PutStarts(sh: Shared, record: LogRecord, height: nat)
    ensures var (sh', th') := Move(sh, Idle, CallPut(record, height));
            && sh'.published == sh.published && !th'.PutDone?
            && (NodeOf(th').Some? ==> NodeOf(th') == Some(sh.top) && sh.top in sh'.nodes
                                      && sh'.nodes[sh.top].record == record && sh'.nodes[sh.top].height == height)
  {
  }

  /** The heap holds the node of the call, with its record. */
  ghost predicate OwnNode(s: State, t: Tid, node: Offset, record: LogRecord, height: nat)
  {
    && NodeOf(ThreadOf(s, t)) == Some(node)
    && node in s.shared.nodes && s.shared.nodes[node].record == record && s.shared.nodes[node].height == height
  }

  lemma OwnNodeStep(s: State, e: Event, t: Tid, node: Offset, record: LogRecord, height: nat)
    requires OwnNode(s, t, node, record, height) && !ThreadOf(s, t).PutDone? && Grows(s.shared, Step(s, e).shared)
    ensures OwnNode(Step(s, e), t, node, record, height)
  {
    StepParts(s, e, t);
    if e.tid == t { PutMove(s.shared, ThreadOf(s, t), e.call); }
  }

  lemma OwnNodeStart(s: State, e: Event, t: Tid, record: LogRecord, height: nat)
    requires e == Event(t, CallPut(record, height)) && ThreadOf(s, t) == Idle && NodeOf(ThreadOf(Step(s, e), t)).Some?
    ensures OwnNode(Step(s, e), t, s.shared.top, record, height) && !ThreadOf(Step(s, e), t).PutDone?
  {
    StepParts(s, e, t);
    PutStarts(s.shared, record, height);
  }

  lemma FirstOfCall(capacity: nat, events: seq<Event>, t: Tid, record: LogRecord, height: nat, begin: nat, end: nat)
    requires Putting(capacity, events, t, record, height, begin, end)
    ensures OwnNode(At(capacity, events, begin + 1), t, At(capacity, events, begin).shared.top, record, height)
  {
    ExecStep(capacity, events, begin);
    assert begin + 1 < end ==> InPut(At(capacity, events, begin + 1), t);
    assert NodeOf(ThreadOf(At(capacity, events, begin + 1), t)).Some?;
    OwnNodeStart(At(capacity, events, begin), events[begin], t, record, height);
  }

  lemma NextOfCall(capacity: nat, events: seq<Event>, t: Tid, record: LogRecord, height: nat, node: Offset, m: nat)
    requires HEAD_END <= capacity && m < |events| && InPut(At(capacity, events, m), t)
    requires OwnNode(At(capacity, events, m), t, node, record, height)
    ensures OwnNode(At(capacity, events, m + 1), t, node, record, height)
  {
    ExecStep(capacity, events, m);
    ExecStepGrows(capacity, events, m);
    OwnNodeStep(At(capacity, events, m), events[m], t, node, record, height);
  }

  /** The node of a call is the block it allocated with its first step, and holds its record. */
  lemma {:induction false} NodeOfCall(capacity: nat, events: seq<Event>, t: Tid, record: LogRecord, height: nat, begin: nat, end: nat, m: nat)
    requires HEAD_END <= capacity && Putting(capacity, events, t, record, height, begin, end) && begin < m <= end
    ensures OwnNode(At(capacity, events, m), t, At(capacity, events, begin).shared.top, record, height)
    decreases m
  {
    if m == begin + 1 {
      FirstOfCall(capacity, events, t, record, height, begin, end);
    } else {
      NodeOfCall(capacity, events, t, record, height, begin, end, m - 1);
      NextOfCall(capacity, events, t, record, height, At(capacity, events, begin).shared.top, m - 1);
    }
  }

  lemma AppendedTwice(before: seq<Offset>, node: Offset)
    requires node in before
    ensures !Distinct(before + [node])
  {
    var i :| 0 <= i < |before| && before[i] == node;
    assert (before + [node])[i] == (before + [node])[|before|];
  }

  /** Step `k` publishes the node. */
  ghost predicate PublishesAt(capacity: nat, events: seq<Event>, node: Offset, k: nat)
    requires k < |events|
  {
    At(capacity, events, k + 1).shared.published == At(capacity, events, k).shared.published + [node]
  }

  /** No two steps publish one node. */
  lemma PublishedOnce(capacity: nat, events: seq<Event>, node: Offset, k: nat, l: nat)
    requires HEAD_END <= capacity && k < l < |events|
    requires PublishesAt(capacity, events, node, k)
    ensures !PublishesAt(capacity, events, node, l)
  {
    var first, before := At(capacity, events, k + 1).shared.published, At(capacity, events, l).shared.published;
    SafeInEverySchedule(capacity, events[..l + 1]);
    GrowsAlong(capacity, events, k + 1, l);
    assert first[|first| - 1] == node && before[|first| - 1] == node;
    AppendedTwice(before, node);
  }

  lemma MovePublishesOwn(sh: Shared, th: Thread, call: Call, node: Offset)
    requires Move(sh, th, call).0.published == sh.published + [node]
    ensures Unpublished(th) == Some(node)
  {
    var p, p' := sh.published, Move(sh, th, call).0.published;
    assert |p'| == |p| + 1 && p'[|p|] == node;
  }

  /** Only the thread that owns a node publishes it. */
  lemma OwnerPublishes(s: State, e: Event, t: Tid, node: Offset)
    requires Inv(s) && Unpublished(ThreadOf(s, t)) == Some(node)
    requires Step(s, e).shared.published == s.shared.published + [node]
    ensures e.tid == t
  {
    StepParts(s, e, t);
    MovePublishesOwn(s.shared, ThreadOf(s, e.tid), e.call, node);
  }

  /** A thread inside `put` whose node is not published owns it. */
  lemma StillOwned(sh: Shared, th: Thread, node: Offset)
    requires ListOk(sh) && ThreadOk(sh, th) && NodeOf(th) == Some(node) && node !in sh.published
    ensures Unpublished(th) == Some(node)
  {
  }

  /** `put` takes effect once: between the invocation of a put and its return exactly one step publishes the
      node of the call, it is a step of the calling thread, and the node holds the record. */
  lemma PutTakesEffect(capacity: nat, events: seq<Event>, t: Tid, record: LogRecord, height: nat, begin: nat, end: nat)
    returns (k: nat)
    requires HEAD_END <= capacity && Putting(capacity, events, t, record, height, begin, end)
    ensures begin < k < end && events[k].tid == t
    ensures var node, sh := ThreadOf(At(capacity, events, end), t).node, At(capacity, events, k + 1).shared;
            && PublishesAt(capacity, events, node, k)
            && (forall l :: 0 <= l < |events| && l != k ==> !PublishesAt(capacity, events, node, l))
            && node in sh.nodes && sh.nodes[node].record == record && sh.nodes[node].height == height
  {
    var node := At(capacity, events, begin).shared.top;
    NodeOfCall(capacity, events, t, record, height, begin, end, end);
    NodeUnpublished(capacity, events, begin);
    assert events[..end][..end] == events[..end];
    PutPublishes(capacity, events[..end], t);
    k := PutLinearizable(capacity, events, node, begin, end);
    PublishedByOwner(capacity, events, t, record, height, begin, end, node, k);
    NodeOfCall(capacity, events, t, record, height, begin, end, k + 1);
    forall l | 0 <= l < |events| && l != k ensures !PublishesAt(capacity, events, node, l) {
      if l < k && PublishesAt(capacity, events, node, l) {
        PublishedOnce(capacity, events, node, l, k);
      } else if k < l {
        PublishedOnce(capacity, events, node, k, l);
      }
    }
  }

  lemma NodeUnpublished(capacity: nat, events: seq<Event>, begin: nat)
    requires HEAD_END <= capacity && begin <= |events|
    ensures At(capacity, events, begin).shared.top !in At(capacity, events, begin).shared.published
  {
    SafeInEverySchedule(capacity, events[..begin]);
    NoNodeAtTop(At(capacity, events, begin).shared);
  }

  lemma PublishedByOwner(capacity: nat, events: seq<Event>, t: Tid, record: LogRecord, height: nat, begin: nat, end: nat, node: Offset, k: nat)
    requires HEAD_END <= capacity && Putting(capacity, events, t, record, height, begin, end) && begin <= k < end
    requires node == At(capacity, events, begin).shared.top && PublishesAt(capacity, events, node, k)
    ensures begin < k && events[k].tid == t
  {
    var s := At(capacity, events, k);
    SafeInEverySchedule(capacity, events[..k]);
    ExecStep(capacity, events, k);
    if k == begin {
      StepParts(s, events[k], t);
      PutStarts(s.shared, record, height);
      MovePublishesOwn(s.shared, Idle, CallPut(record, height), node);
    } else {
      NodeOfCall(capacity, events, t, record, height, begin, end, k);
      SafeInEverySchedule(capacity, events[..k + 1]);
      if node in s.shared.published { AppendedTwice(s.shared.published, node); }
      StillOwned(s.shared, ThreadOf(s, t), node);
      OwnerPublishes(s, events[k], t, node);
    }
  }

  /** A put that returned has its node published. */
  lemma PutPublishes(capacity: nat, events: seq<Event>, t: Tid)
    requires HEAD_END <= capacity && ThreadOf(At(capacity, events, |events|), t).PutDone?
    ensures var s := At(capacity, events, |events|); ThreadOf(s, t).node in s.shared.published
  {
    ListSafe(capacity, events[..|events|], t);
  }
}
