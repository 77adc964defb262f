/** Every step of every thread keeps the skip-list invariant. */
module SkipListInvariant {
  import opened Bytes
  import opened Records
  import opened NodeLayout
  import opened SkipListMachine

  /** What a thread may rely on while others move: nodes stay, keys and heights never change,
      and the chain only gains members. */
  ghost predicate Grows(sh: Shared, sh': Shared)
  {
    && (forall o :: o in sh.nodes ==>
          o in sh'.nodes && sh'.nodes[o].record == sh.nodes[o].record && sh'.nodes[o].height == sh.nodes[o].height)
    && (forall x :: x in sh.chain ==> x in sh'.chain)
  }

  lemma ThreadFrame(sh: Shared, sh': Shared, th: Thread)
    requires ChainOk(sh) && Grows(sh, sh') && ThreadOk(sh, th)
    requires Unpublished(th).Some? ==>
      Unpublished(th).value !in sh'.chain && sh'.nodes[Unpublished(th).value].next == sh.nodes[Unpublished(th).value].next
    ensures ThreadOk(sh', th)
  {
  }

  /** Following a link from a usable predecessor leads to a usable node. */
  lemma FollowLink(sh: Shared, key: seq<byte>, cur: Offset, level: nat)
    requires ShapeOk(sh) && ChainOk(sh) && Level0Ok(sh) && UpperOk(sh) && PredOk(sh, key, cur, level)
    ensures InRange(sh, cur, level) && NextOk(sh, Load(sh, cur, level), level)
  {
    var i := IndexOf(sh.chain, cur);
    if level == 0 {
      assert StepsTo(sh, i);
    } else {
      assert LinkOk(sh, cur, level);
    }
  }

  lemma SearchKeeps(sh: Shared, th: Thread)
    requires ListOk(sh) && th.Search? && ThreadOk(sh, th)
    ensures ThreadOk(sh, SearchStep(sh, th)) && Unpublished(SearchStep(sh, th)) == Unpublished(th)
  {
    var Search(node, goal, level, cur, nxt, preds, succs) := th;
    if nxt != 0 && Less(KeyOf(sh, nxt), KeyOf(sh, node)) {
      FollowLink(sh, KeyOf(sh, node), nxt, level);
    } else if level > 0 {
      FollowLink(sh, KeyOf(sh, node), cur, level - 1);
    }
  }

  lemma GetKeeps(sh: Shared, th: Thread)
    requires ListOk(sh) && th.Get? && ThreadOk(sh, th)
    ensures ThreadOk(sh, GetStep(sh, th))
  {
    var Get(key, level, cur, nxt) := th;
    if nxt != 0 && Less(KeyOf(sh, nxt), key) {
      FollowLink(sh, key, nxt, level);
    } else if level > 0 {
      FollowLink(sh, key, cur, level - 1);
    }
  }

  // ---------- frames ----------

  /** Pointer writes and allocations leave every existing key and height alone. */
  ghost predicate SameContents(sh: Shared, sh': Shared)
  {
    forall o :: o in sh.nodes ==>
      o in sh'.nodes && sh'.nodes[o].record == sh.nodes[o].record && sh'.nodes[o].height == sh.nodes[o].height
  }

  lemma SortedFrame(sh: Shared, sh': Shared)
    requires ChainOk(sh) && SameContents(sh, sh') && sh'.chain == sh.chain && sh'.published == sh.published
    requires SortedOk(sh) && PublishedOk(sh)
    ensures SortedOk(sh') && PublishedOk(sh') && ChainOk(sh')
  {
    assert forall o :: o in sh.chain ==> KeyOf(sh', o) == KeyOf(sh, o);
  }

  lemma LinksFrame(sh: Shared, sh': Shared)
    requires ChainOk(sh) && SameContents(sh, sh') && sh'.chain == sh.chain
    requires forall o, l :: o in sh.chain ==> Load(sh', o, l) == Load(sh, o, l)
    requires Level0Ok(sh) && UpperOk(sh)
    ensures Level0Ok(sh') && UpperOk(sh')
  {
    forall i: nat | i < |sh'.chain| ensures StepsTo(sh', i) {
      assert StepsTo(sh, i) && sh.chain[i] in sh.chain;
    }
    forall a, level | a in sh'.chain && 1 <= level < HeightOf(sh', a) ensures LinkOk(sh', a, level) {
      assert LinkOk(sh, a, level);
    }
  }

  lemma RegionsFrame(sh: Shared, sh': Shared)
    requires RegionsOk(sh) && SameContents(sh, sh') && sh'.nodes.Keys == sh.nodes.Keys
    requires sh'.top == sh.top && sh'.capacity == sh.capacity
    ensures RegionsOk(sh')
  {
    assert forall o :: o in sh.nodes ==> o in sh'.nodes && EndOf(sh', o) == EndOf(sh, o);
  }

  lemma StoreFrame(sh: Shared, o: Offset, level: nat, target: Offset)
    requires ShapeOk(sh) && o in sh.nodes && level < HeightOf(sh, o)
    ensures var sh' := Store(sh, o, level, target);
            && ShapeOk(sh') && SameContents(sh, sh') && sh'.nodes.Keys == sh.nodes.Keys
            && (forall p :: p in sh.nodes && p != o ==> sh'.nodes[p] == sh.nodes[p])
            && (forall p :: KeyOf(sh', p) == KeyOf(sh, p))
            && (forall p, l :: Load(sh', p, l) == if p == o && l == level then target else Load(sh, p, l))
  {
  }

  // ---------- allocation ----------

  lemma AllocateRegions(sh: Shared, record: LogRecord, height: nat)
    requires RegionsOk(sh) && 1 <= height
    ensures sh.top !in sh.nodes && sh.top > 0 && RegionsOk(Allocate(sh, record, height).0)
  {
    assert forall o :: o in sh.nodes ==> o < EndOf(sh, o);
    var sh' := Allocate(sh, record, height).0;
    assert forall o :: o in sh.nodes ==> EndOf(sh', o) == EndOf(sh, o);
  }

  lemma AllocateKeeps(sh: Shared, record: LogRecord, height: nat)
    requires ListOk(sh) && 1 <= height <= MAX_HEIGHT && sh.top !in sh.nodes && sh.top > 0
    ensures var (sh', th) := Allocate(sh, record, height);
            && ListOk(sh') && Grows(sh, sh') && ThreadOk(sh', th)
            && sh'.chain == sh.chain
            && (forall o :: o in sh.nodes ==> sh'.nodes[o] == sh.nodes[o])
            && (Unpublished(th).Some? ==> Unpublished(th).value !in sh.nodes)
  {
    var (sh', th) := Allocate(sh, record, height);
    SortedFrame(sh, sh');
    LinksFrame(sh, sh');
  }

  // ---------- wiring the node's own pointers ----------

  lemma WiringKeeps(sh: Shared, node: Offset, i: nat, preds: Lane, succs: Lane)
    requires ListOk(sh) && ThreadOk(sh, Wire(node, i, preds, succs)) && i < HeightOf(sh, node)
    ensures var sh' := Store(sh, node, i, succs[i]);
            && ListOk(sh') && Grows(sh, sh') && ThreadOk(sh', Wire(node, i + 1, preds, succs)) && sh'.chain == sh.chain
            && (forall p :: p in sh.nodes && p != node ==> sh'.nodes[p] == sh.nodes[p])
  {
    var sh' := Store(sh, node, i, succs[i]);
    StoreFrame(sh, node, i, succs[i]);
    SortedFrame(sh, sh');
    LinksFrame(sh, sh');
    LanesFrame(sh, sh', KeyOf(sh, node), preds, succs, 0);
  }

  lemma LanesFrame(sh: Shared, sh': Shared, key: seq<byte>, preds: Lane, succs: Lane, from: nat)
    requires ChainOk(sh) && Grows(sh, sh') && LanesOk(sh, key, preds, succs, from)
    ensures LanesOk(sh', key, preds, succs, from)
  {
    forall l | from <= l < MAX_HEIGHT ensures PredOk(sh', key, preds[l], l) && SuccOk(sh', key, succs[l], l) {
      assert PredOk(sh, key, preds[l], l) && SuccOk(sh, key, succs[l], l);
    }
  }

  // ---------- the level-0 CAS ----------

  lemma PublishLevel0(sh: Shared, pred: Offset, node: Offset)
    requires ShapeOk(sh) && ChainOk(sh) && Level0Ok(sh)
    requires pred in sh.chain && node in sh.nodes && node !in sh.chain
    requires Load(sh, node, 0) == Load(sh, pred, 0)
    ensures ChainOk(PublishNode(sh, pred, node)) && Level0Ok(PublishNode(sh, pred, node))
  {
    var sh' := PublishNode(sh, pred, node);
    StoreFrame(sh, pred, 0, node);
    InsertAfterFacts(sh.chain, pred, node);
    var i := IndexOf(sh.chain, pred);
    var c, c' := sh.chain, sh'.chain;
    assert forall p, l :: Load(sh', p, l) == if p == pred && l == 0 then node else Load(sh, p, l);
    assert StepsTo(sh, i);
    forall j: nat | j < |c'| ensures StepsTo(sh', j) {
      if j < i {
        assert c'[j] == c[j] && c'[j + 1] == c[j + 1] && StepsTo(sh, j);
      } else if j > i + 1 {
        assert c'[j] == c[j - 1] && StepsTo(sh, j - 1);
      }
    }
  }

  /** The new key lands between the keys of its predecessor and of the predecessor's old successor. */
  lemma PublishSorted(sh: Shared, pred: Offset, node: Offset)
    requires ShapeOk(sh) && ChainOk(sh) && Level0Ok(sh) && SortedOk(sh) && node !in sh.chain
    requires PredOk(sh, KeyOf(sh, node), pred, 0) && SuccOk(sh, KeyOf(sh, node), Load(sh, pred, 0), 0)
    ensures InKeyOrder(sh, InsertAfter(sh.chain, pred, node))
  {
    InsertAfterFacts(sh.chain, pred, node);
    var i, c, c' := IndexOf(sh.chain, pred), sh.chain, InsertAfter(sh.chain, pred, node);
    assert StepsTo(sh, i);
    forall a, b | 1 <= a < b < |c'| ensures !Less(KeyOf(sh, c'[b]), KeyOf(sh, c'[a])) {
      if b == i + 1 {
        assert c'[a] == c[a];
        AtMostPred(sh, KeyOf(sh, node), i, a);
      } else if a == i + 1 {
        assert c'[b] == c[b - 1];
        if b - 1 > i + 1 { AtMostTransitive(KeyOf(sh, node), KeyOf(sh, c[i + 1]), KeyOf(sh, c[b - 1])); }
      }
    }
  }

  lemma SortedTransfer(sh: Shared, sh': Shared)
    requires forall x :: KeyOf(sh', x) == KeyOf(sh, x)
    requires InKeyOrder(sh, sh'.chain)
    ensures SortedOk(sh')
  {
  }

  lemma AtMostPred(sh: Shared, key: seq<byte>, i: nat, a: nat)
    requires SortedOk(sh) && 1 <= a <= i < |sh.chain| && Less(KeyOf(sh, sh.chain[i]), key)
    ensures !Less(key, KeyOf(sh, sh.chain[a]))
  {
    LessTrichotomy(KeyOf(sh, sh.chain[i]), key);
    if a < i && Less(key, KeyOf(sh, sh.chain[a])) {
      LessTransitive(KeyOf(sh, sh.chain[i]), key, KeyOf(sh, sh.chain[a]));
    }
  }

  /** After the CAS the new node's wired pointers, set before it was visible, all lead forward. */
  lemma PublishUpper(sh: Shared, node: Offset, preds: Lane, succs: Lane)
    requires ShapeOk(sh) && ChainOk(sh) && SortedOk(sh) && UpperOk(sh)
    requires GoalOk(sh, node, Publish) && LanesOk(sh, KeyOf(sh, node), preds, succs, 0)
    requires Wired(sh, node, HeightOf(sh, node), succs)
    ensures UpperOk(PublishNode(sh, preds[0], node))
  {
    var pred := preds[0];
    var sh' := PublishNode(sh, pred, node);
    assert PredOk(sh, KeyOf(sh, node), pred, 0);
    StoreFrame(sh, pred, 0, node);
    InsertAfterFacts(sh.chain, pred, node);
    forall a, level | a in sh'.chain && 1 <= level < HeightOf(sh', a) ensures LinkOk(sh', a, level) {
      assert Load(sh', a, level) == Load(sh, a, level);
      if a == node {
        var b := succs[level];
        assert SuccOk(sh, KeyOf(sh, node), b, level);
        if b != 0 { AfterPred(sh, KeyOf(sh, node), pred, 0, b); }
      } else {
        assert LinkOk(sh, a, level);
      }
    }
  }

  /** Every published version of the new node's key lies behind its place. */
  lemma OlderBehind(sh: Shared, pred: Offset, node: Offset, x: Offset)
    requires ShapeOk(sh) && ChainOk(sh) && SortedOk(sh) && PredOk(sh, KeyOf(sh, node), pred, 0) && node !in sh.chain
    requires x in sh.chain && x != HEAD && KeyOf(sh, x) == KeyOf(sh, node)
    ensures var c := InsertAfter(sh.chain, pred, node); node in c && x in c && IndexOf(c, node) < IndexOf(c, x)
  {
    LessTrichotomy(KeyOf(sh, x), KeyOf(sh, node));
    AfterPred(sh, KeyOf(sh, node), pred, 0, x);
    InsertAfterFacts(sh.chain, pred, node);
  }

  lemma OrderKept(chain: seq<Offset>, pred: Offset, node: Offset, x: Offset, y: Offset)
    requires Distinct(chain) && pred in chain && node !in chain && x in chain && y in chain
    requires IndexOf(chain, x) < IndexOf(chain, y)
    ensures var c := InsertAfter(chain, pred, node); x in c && y in c && IndexOf(c, x) < IndexOf(c, y)
  {
    InsertAfterFacts(chain, pred, node);
  }

  lemma PublishHistory(sh: Shared, pred: Offset, node: Offset)
    requires ShapeOk(sh) && ChainOk(sh) && SortedOk(sh) && PublishedOk(sh)
    requires GoalOk(sh, node, Publish) && PredOk(sh, KeyOf(sh, node), pred, 0)
    ensures PublishedOk(PublishNode(sh, pred, node))
  {
    var sh' := PublishNode(sh, pred, node);
    InsertAfterFacts(sh.chain, pred, node);
    var pub' := sh'.published;
    assert forall x :: x in pub' <==> x in sh.published || x == node;
    forall p, q | 0 <= p < q < |pub'| && KeyOf(sh', pub'[p]) == KeyOf(sh', pub'[q])
      ensures IndexOf(sh'.chain, pub'[q]) < IndexOf(sh'.chain, pub'[p])
    {
      assert pub'[p] == sh.published[p] && sh.published[p] in sh.published;
      if q == |sh.published| {
        OlderBehind(sh, pred, node, pub'[p]);
      } else {
        assert pub'[q] == sh.published[q];
        OrderKept(sh.chain, pred, node, pub'[q], pub'[p]);
      }
    }
  }

  lemma PublishKeeps(sh: Shared, node: Offset, i: nat, preds: Lane, succs: Lane)
    requires ListOk(sh) && ThreadOk(sh, Wire(node, i, preds, succs)) && i == HeightOf(sh, node)
    requires Load(sh, preds[0], 0) == succs[0]
    ensures var sh' := PublishNode(sh, preds[0], node);
            && ListOk(sh') && Grows(sh, sh') && ThreadOk(sh', LinkUp(node, 1, preds, succs))
            && (forall x :: x in sh'.chain ==> x in sh.chain || x == node)
            && (forall o :: o in sh.nodes && o !in sh.chain ==> sh'.nodes[o] == sh.nodes[o])
  {
    var pred := preds[0];
    var sh' := PublishNode(sh, pred, node);
    assert PredOk(sh, KeyOf(sh, node), pred, 0) && SuccOk(sh, KeyOf(sh, node), succs[0], 0);
    StoreFrame(sh, pred, 0, node);
    PublishLevel0(sh, pred, node);
    PublishSorted(sh, pred, node);
    SortedTransfer(sh, sh');
    PublishUpper(sh, node, preds, succs);
    PublishHistory(sh, pred, node);
    InsertAfterFacts(sh.chain, pred, node);
    LanesFrame(sh, sh', KeyOf(sh, node), preds, succs, 0);
  }

  // ---------- the upper-level CAS ----------

  lemma LinkKeeps(sh: Shared, node: Offset, i: nat, preds: Lane, succs: Lane)
    requires ListOk(sh) && ThreadOk(sh, LinkUp(node, i, preds, succs)) && i < HeightOf(sh, node)
    ensures var sh' := Store(sh, preds[i], i, node);
            && ListOk(sh') && Grows(sh, sh') && ThreadOk(sh', LinkUp(node, i + 1, preds, succs)) && sh'.chain == sh.chain
            && (forall o :: o in sh.nodes && o !in sh.chain ==> sh'.nodes[o] == sh.nodes[o])
  {
    var pred := preds[i];
    assert PredOk(sh, KeyOf(sh, node), pred, i);
    var sh' := Store(sh, pred, i, node);
    StoreFrame(sh, pred, i, node);
    SortedFrame(sh, sh');
    LessTrichotomy(KeyOf(sh, node), KeyOf(sh, node));
    AfterPred(sh, KeyOf(sh, node), pred, i, node);
    forall j: nat | j < |sh'.chain| ensures StepsTo(sh', j) { assert StepsTo(sh, j); }
    forall a, level | a in sh'.chain && 1 <= level < HeightOf(sh', a) ensures LinkOk(sh', a, level) {
      assert LinkOk(sh, a, level);
    }
    LanesFrame(sh, sh', KeyOf(sh, node), preds, succs, 0);
  }

  // ---------- one step ----------

  /** What one move does to the thread that moves, and what it leaves alone for the others. */
  ghost predicate Effect(sh: Shared, th: Thread, sh': Shared, th': Thread)
  {
    && ListOk(sh') && Grows(sh, sh') && ThreadOk(sh', th')
    && (forall x :: x in sh'.chain ==> x in sh.chain || Unpublished(th) == Some(x))
    && (forall o :: o in sh.nodes && o !in sh.chain && Unpublished(th) != Some(o) ==> sh'.nodes[o] == sh.nodes[o])
    && (Unpublished(th').Some? && Unpublished(th') != Unpublished(th) ==> Unpublished(th').value !in sh.nodes)
  }

  /** A step that writes nothing. */
  lemma ReadEffect(sh: Shared, th: Thread, th': Thread)
    requires ListOk(sh) && ThreadOk(sh, th') && (Unpublished(th').Some? ==> Unpublished(th') == Unpublished(th))
    ensures Effect(sh, th, sh, th')
  {
  }

  lemma InvokeEffect(sh: Shared, call: Call)
    requires ListOk(sh) && sh.top !in sh.nodes && sh.top > 0
    ensures var (sh', th') := Move(sh, Idle, call); Effect(sh, Idle, sh', th')
  {
    match call {
      case CallPut(record, height) => if 1 <= height <= MAX_HEIGHT { AllocateKeeps(sh, record, height); }
      case CallGet(key) =>
        FollowLink(sh, key, HEAD, MAX_HEIGHT - 1);
        ReadEffect(sh, Idle, Move(sh, Idle, call).1);
    }
  }

  lemma WireEffect(sh: Shared, th: Thread)
    requires ListOk(sh) && th.Wire? && ThreadOk(sh, th)
    ensures var (sh', th') := WireStep(sh, th); Effect(sh, th, sh', th')
  {
    var Wire(node, i, preds, succs) := th;
    if i < HeightOf(sh, node) { WiringKeeps(sh, node, i, preds, succs); }
    else if Load(sh, preds[0], 0) == succs[0] { PublishKeeps(sh, node, i, preds, succs); }
    else { ReadEffect(sh, th, Start(node, Publish, preds, succs)); }
  }

  lemma LinkUpEffect(sh: Shared, th: Thread)
    requires ListOk(sh) && th.LinkUp? && ThreadOk(sh, th)
    ensures var (sh', th') := LinkStep(sh, th); Effect(sh, th, sh', th')
  {
    var LinkUp(node, i, preds, succs) := th;
    if i < HeightOf(sh, node) && Load(sh, preds[i], i) == succs[i] { LinkKeeps(sh, node, i, preds, succs); }
    else { ReadEffect(sh, th, LinkStep(sh, th).1); }
  }

  lemma MoveEffect(sh: Shared, th: Thread, call: Call)
    requires ListOk(sh) && ThreadOk(sh, th) && sh.top !in sh.nodes && sh.top > 0
    ensures var (sh', th') := Move(sh, th, call); Effect(sh, th, sh', th')
  {
    match th
    case Idle => InvokeEffect(sh, call);
    case Start(node, goal, _, _) =>
      FollowLink(sh, KeyOf(sh, node), HEAD, MAX_HEIGHT - 1);
      ReadEffect(sh, th, Move(sh, th, call).1);
    case Search(_, _, _, _, _, _, _) =>
      SearchKeeps(sh, th);
      ReadEffect(sh, th, SearchStep(sh, th));
    case Wire(_, _, _, _) => WireEffect(sh, th);
    case LinkUp(_, _, _, _) => LinkUpEffect(sh, th);
    case Get(_, _, _, _) =>
      GetKeeps(sh, th);
      ReadEffect(sh, th, GetStep(sh, th));
    case PutDone(_) => ReadEffect(sh, th, Idle);
    case PutFailed => ReadEffect(sh, th, Idle);
    case GetDone(_, _) => ReadEffect(sh, th, Idle);
  }

  lemma MoveContents(sh: Shared, th: Thread, call: Call)
    requires !(th.Idle? && call.CallPut?)
    ensures var sh' := Move(sh, th, call).0;
            SameContents(sh, sh') && sh'.nodes.Keys == sh.nodes.Keys && sh'.top == sh.top && sh'.capacity == sh.capacity
  {
  }

  lemma MoveRegions(sh: Shared, th: Thread, call: Call)
    requires RegionsOk(sh)
    ensures RegionsOk(Move(sh, th, call).0)
  {
    if th.Idle? && call.CallPut? {
      if 1 <= call.height <= MAX_HEIGHT { AllocateRegions(sh, call.record, call.height); }
    } else {
      MoveContents(sh, th, call);
      RegionsFrame(sh, Move(sh, th, call).0);
    }
  }

  lemma NoNodeAtTop(sh: Shared)
    requires RegionsOk(sh)
    ensures sh.top !in sh.nodes && sh.top > 0
  {
    assert forall o :: o in sh.nodes ==> o < EndOf(sh, o);
  }

  /** Safety of one step: whatever thread moves, the list, every thread's position and the
      ownership of unpublished nodes stay good. */
  lemma StepKeepsInv(s: State, e: Event)
    requires Inv(s)
    ensures Inv(Step(s, e))
  {
    NoNodeAtTop(s.shared);
    MoveRegions(s.shared, ThreadOf(s, e.tid), e.call);
    MoveEffect(s.shared, ThreadOf(s, e.tid), e.call);
    StepThreads(s, e);
  }

  lemma StepThreads(s: State, e: Event)
    requires ListOk(s.shared) && OwnersOk(s) && (forall t :: t in s.threads ==> ThreadOk(s.shared, s.threads[t]))
    requires var (sh', th') := Move(s.shared, ThreadOf(s, e.tid), e.call); Effect(s.shared, ThreadOf(s, e.tid), sh', th')
    ensures OwnersOk(Step(s, e))
    ensures var s' := Step(s, e); forall t :: t in s'.threads ==> ThreadOk(s'.shared, s'.threads[t])
  {
    var th := ThreadOf(s, e.tid);
    var (sh', th') := Move(s.shared, th, e.call);
    forall u | u in s.threads && u != e.tid
      ensures ThreadOk(sh', s.threads[u])
      ensures Unpublished(s.threads[u]).Some? ==> Unpublished(th') != Unpublished(s.threads[u])
    {
      OtherThread(s.shared, sh', th, th', s.threads[u]);
    }
  }

  lemma OtherThread(sh: Shared, sh': Shared, th: Thread, th': Thread, other: Thread)
    requires ListOk(sh) && Effect(sh, th, sh', th') && ThreadOk(sh, other)
    requires Unpublished(other).Some? ==> Unpublished(other) != Unpublished(th)
    ensures ThreadOk(sh', other) && (Unpublished(other).Some? ==> Unpublished(th') != Unpublished(other))
  {
    if Unpublished(other).Some? {
      assert Unpublished(other).value in sh.nodes && Unpublished(other).value !in sh.chain;
    }
    ThreadFrame(sh, sh', other);
  }
}
