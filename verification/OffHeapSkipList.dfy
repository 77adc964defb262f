/** The skip list over the byte arena, one caller at a time. Its nodes are the abstract heap of the step
    machine; its level-0 list is the memtable's ordered list of versions. */
module OffHeapSkipList {
  import opened Bytes
  import opened Records
  import opened NodeLayout
  import opened Arena
  import opened NodeAccessor
  import opened SkipListMachine
  import opened SkipListInvariant
  import opened SparseIndex
  import opened Layers
  import SkipListTheorems

  // ---------- the list of versions ----------

  function RecordAt(sh: Shared, o: Offset): LogRecord
  {
    if o in sh.nodes then Normalize(sh.nodes[o].record) else DUMMY
  }

  function RecordsOf(sh: Shared, chain: seq<Offset>): (rs: Layer)
    ensures |rs| == |chain| && forall i :: 0 <= i < |chain| ==> rs[i] == RecordAt(sh, chain[i])
  {
    seq(|chain|, i requires 0 <= i < |chain| => RecordAt(sh, chain[i]))
  }

  /** The versions in level-0 order, without the head. */
  function ContentsOf(sh: Shared): Layer
    requires sh.chain != []
  {
    RecordsOf(sh, sh.chain[1..])
  }

  lemma {:induction false} InsertAt(rs: Layer, r: LogRecord, i: nat)
    requires i <= |rs| && (forall j :: 0 <= j < i ==> Less(rs[j].key, r.key)) && (i < |rs| ==> !Less(rs[i].key, r.key))
    ensures Insert(rs, r) == rs[..i] + [r] + rs[i..]
  {
    if i > 0 {
      InsertAt(rs[1..], r, i - 1);
      assert rs[..i] == [rs[0]] + rs[1..][..i - 1] && rs[i..] == rs[1..][i - 1..];
    }
  }

  lemma {:induction false} FindAt(rs: Layer, key: seq<byte>, i: nat)
    requires i <= |rs| && (forall j :: 0 <= j < i ==> Less(rs[j].key, key))
    requires forall j :: i <= j < |rs| ==> !Less(rs[j].key, key)
    requires forall j :: i < j < |rs| ==> !Less(rs[j].key, rs[i].key)
    ensures FirstWithKey(rs, key) == if i < |rs| && rs[i].key == key then Some(rs[i]) else None
  {
    if i > 0 {
      LessTrichotomy(rs[0].key, key);
      FindAt(rs[1..], key, i - 1);
    } else if rs != [] && rs[0].key != key {
      LessTrichotomy(rs[0].key, key);
      forall q | q in rs ensures q.key != key {
        var j :| 0 <= j < |rs| && rs[j] == q;
      }
    }
  }

  lemma KeysOfList(sh: Shared)
    requires ListOk(sh)
    ensures forall j :: 0 <= j < |ContentsOf(sh)| ==> ContentsOf(sh)[j].key == KeyOf(sh, sh.chain[j + 1])
  {
    forall j | 0 <= j < |ContentsOf(sh)| ensures ContentsOf(sh)[j].key == KeyOf(sh, sh.chain[j + 1]) {
      assert sh.chain[j + 1] in sh.chain;
    }
  }

  lemma BeforePred(sh: Shared, key: seq<byte>, pred: Offset, j: nat)
    requires ListOk(sh) && PredOk(sh, key, pred, 0) && 1 <= j <= IndexOf(sh.chain, pred)
    ensures Less(KeyOf(sh, sh.chain[j]), key)
  {
    var i := IndexOf(sh.chain, pred);
    if j < i { LessThenAtMost(KeyOf(sh, sh.chain[j]), KeyOf(sh, sh.chain[i]), key); }
  }

  lemma BehindPred(sh: Shared, key: seq<byte>, pred: Offset, j: nat)
    requires ListOk(sh) && PredOk(sh, key, pred, 0) && IndexOf(sh.chain, pred) < j < |sh.chain|
    requires var nxt := Load(sh, pred, 0); nxt == 0 || !Less(KeyOf(sh, nxt), key)
    ensures !Less(KeyOf(sh, sh.chain[j]), key)
  {
    var i := IndexOf(sh.chain, pred);
    assert StepsTo(sh, i) && sh.chain[i + 1] in sh.chain;
    if i + 1 < j { AtMostTransitive(key, KeyOf(sh, sh.chain[i + 1]), KeyOf(sh, sh.chain[j])); }
  }

  /** Around a predecessor: everything before is below the key, everything after is not. */
  lemma AroundPred(sh: Shared, key: seq<byte>, pred: Offset)
    requires ListOk(sh) && PredOk(sh, key, pred, 0)
    requires var nxt := Load(sh, pred, 0); nxt == 0 || !Less(KeyOf(sh, nxt), key)
    ensures var i, rs := IndexOf(sh.chain, pred), ContentsOf(sh);
            && i <= |rs|
            && (forall j :: 0 <= j < i ==> Less(rs[j].key, key))
            && (forall j :: i <= j < |rs| ==> !Less(rs[j].key, key))
            && (forall j :: i < j < |rs| ==> !Less(rs[j].key, rs[i].key))
            && Load(sh, pred, 0) == (if i < |rs| then sh.chain[i + 1] else 0)
  {
    var i, rs := IndexOf(sh.chain, pred), ContentsOf(sh);
    KeysOfList(sh);
    assert StepsTo(sh, i);
    forall j | 0 <= j < i ensures Less(rs[j].key, key) { BeforePred(sh, key, pred, j + 1); }
    forall j | i <= j < |rs| ensures !Less(rs[j].key, key) { BehindPred(sh, key, pred, j + 1); }
  }

  /** A level-0 read that ends a search finds the first version of the key in the list. */
  lemma ReadIsFirst(sh: Shared, key: seq<byte>, pred: Offset)
    requires ListOk(sh) && PredOk(sh, key, pred, 0)
    requires var nxt := Load(sh, pred, 0); nxt == 0 || !Less(KeyOf(sh, nxt), key)
    ensures var nxt := Load(sh, pred, 0);
            FirstWithKey(ContentsOf(sh), key) == if nxt != 0 && KeyOf(sh, nxt) == key then Some(RecordAt(sh, nxt)) else None
  {
    AroundPred(sh, key, pred);
    var i := IndexOf(sh.chain, pred);
    FindAt(ContentsOf(sh), key, i);
    if i < |ContentsOf(sh)| { assert sh.chain[i + 1] in sh.chain; }
  }

  lemma SameRecords(sh: Shared, sh': Shared, chain: seq<Offset>)
    requires SameContents(sh, sh') && forall o :: o in chain ==> o in sh.nodes
    ensures RecordsOf(sh', chain) == RecordsOf(sh, chain)
  {
  }

  lemma RecordsSplit(sh: Shared, chain: seq<Offset>, i: nat, node: Offset)
    requires i <= |chain|
    ensures RecordsOf(sh, chain[..i] + [node] + chain[i..])
         == RecordsOf(sh, chain)[..i] + [RecordAt(sh, node)] + RecordsOf(sh, chain)[i..]
  {
  }

  /** Publishing a node is an insertion into the list of versions. */
  lemma PublishInserts(sh: Shared, pred: Offset, node: Offset)
    requires ListOk(sh) && node in sh.nodes && node !in sh.chain && PredOk(sh, KeyOf(sh, node), pred, 0)
    requires var nxt := Load(sh, pred, 0); nxt == 0 || !Less(KeyOf(sh, nxt), KeyOf(sh, node))
    ensures PublishNode(sh, pred, node).chain != []
    ensures ContentsOf(PublishNode(sh, pred, node)) == Insert(ContentsOf(sh), RecordAt(sh, node))
  {
    var i, c := IndexOf(sh.chain, pred), sh.chain;
    AroundPred(sh, KeyOf(sh, node), pred);
    InsertAt(ContentsOf(sh), RecordAt(sh, node), i);
    InsertedTail(c, pred, node);
    StoreFrame(sh, pred, 0, node);
    RecordsSplit(sh, c[1..], i, node);
    SameRecords(sh, PublishNode(sh, pred, node), c[1..][..i] + [node] + c[1..][i..]);
  }

  lemma InsertedTail(c: seq<Offset>, pred: Offset, node: Offset)
    requires Distinct(c) && pred in c && node !in c
    ensures var i, d := IndexOf(c, pred), InsertAfter(c, pred, node); d != [] && d[1..] == c[1..][..i] + [node] + c[1..][i..]
  {
    var i := IndexOf(c, pred);
    InsertAfterSplit(c, pred, node, i);
    TailOfSplit(c, i, node);
  }

  lemma TailOfSplit(c: seq<Offset>, i: nat, node: Offset)
    requires i < |c|
    ensures (c[..i + 1] + [node] + c[i + 1..])[1..] == c[1..][..i] + [node] + c[1..][i..]
  {
  }

  // ---------- the list ----------

  lemma StoreRegions(sh: Shared, o: Offset, level: nat, target: Offset)
    requires RegionsOk(sh) && ShapeOk(sh) && o in sh.nodes && level < HeightOf(sh, o)
    ensures RegionsOk(Store(sh, o, level, target))
  {
    StoreFrame(sh, o, level, target);
    RegionsFrame(sh, Store(sh, o, level, target));
  }

  lemma PublishRegions(sh: Shared, o: Offset, node: Offset)
    requires RegionsOk(sh) && ShapeOk(sh) && o in sh.nodes
    ensures RegionsOk(PublishNode(sh, o, node))
  {
    StoreRegions(sh, o, 0, node);
    RegionsFrame(Store(sh, o, 0, node), PublishNode(sh, o, node));
  }

  /** A walk on a level stopped between `pred` and `next`. */
  ghost predicate Stops(sh: Shared, key: seq<byte>, level: nat, pred: Offset, next: Offset)
  {
    PredOk(sh, key, pred, level) && next == Load(sh, pred, level) && SuccOk(sh, key, next, level)
  }

  /** From level `from` up, the lanes hold where a walk stops. */
  ghost predicate Found(sh: Shared, key: seq<byte>, preds: Lane, succs: Lane, from: nat)
    decreases MAX_HEIGHT - from
  {
    from < MAX_HEIGHT ==> Stops(sh, key, from, preds[from], succs[from]) && Found(sh, key, preds, succs, from + 1)
  }

  lemma {:induction false} FoundFrame(sh: Shared, key: seq<byte>, preds: Lane, succs: Lane, preds': Lane, succs': Lane, from: nat)
    requires Found(sh, key, preds, succs, from)
    requires forall l :: from <= l < MAX_HEIGHT ==> preds'[l] == preds[l] && succs'[l] == succs[l]
    ensures Found(sh, key, preds', succs', from)
    decreases MAX_HEIGHT - from
  {
    if from < MAX_HEIGHT { FoundFrame(sh, key, preds, succs, preds', succs', from + 1); }
  }

  lemma FoundMore(sh: Shared, key: seq<byte>, preds: Lane, succs: Lane, level: nat, pred: Offset, next: Offset)
    requires level < MAX_HEIGHT && Found(sh, key, preds, succs, level + 1) && Stops(sh, key, level, pred, next)
    ensures Found(sh, key, preds[level := pred], succs[level := next], level)
  {
    FoundFrame(sh, key, preds, succs, preds[level := pred], succs[level := next], level + 1);
  }

  lemma {:induction false} FoundAt(sh: Shared, key: seq<byte>, preds: Lane, succs: Lane, from: nat, level: nat)
    requires Found(sh, key, preds, succs, from) && from <= level < MAX_HEIGHT
    ensures Stops(sh, key, level, preds[level], succs[level])
    decreases level - from
  {
    if from < level { FoundAt(sh, key, preds, succs, from + 1, level); }
  }

  lemma FoundLanes(sh: Shared, key: seq<byte>, preds: Lane, succs: Lane)
    requires Found(sh, key, preds, succs, 0)
    ensures LanesOk(sh, key, preds, succs, 0)
    ensures forall l :: 0 <= l < MAX_HEIGHT ==> Load(sh, preds[l], l) == succs[l]
  {
    forall l | 0 <= l < MAX_HEIGHT
      ensures PredOk(sh, key, preds[l], l) && SuccOk(sh, key, succs[l], l) && Load(sh, preds[l], l) == succs[l]
    {
      FoundAt(sh, key, preds, succs, 0, l);
    }
  }

  lemma PredBelow(sh: Shared, key: seq<byte>, pred: Offset, level: nat, from: nat)
    requires PredOk(sh, key, pred, from) && level <= from
    ensures PredOk(sh, key, pred, level)
  {
  }

  lemma HeadIsPred(sh: Shared, key: seq<byte>)
    requires ShapeOk(sh) && ChainOk(sh)
    ensures PredOk(sh, key, HEAD, MAX_HEIGHT - 1)
  {
  }

  // ---------- the phases of a put ----------

  /** What the walks found is still current from level `from` up. */
  ghost predicate CurrentFrom(sh: Shared, preds: Lane, succs: Lane, from: nat)
  {
    forall l :: from <= l < MAX_HEIGHT ==> Load(sh, preds[l], l) == succs[l]
  }

  /** The node is being wired: `i` of its own pointers are set. */
  ghost predicate Wiring(sh: Shared, node: Offset, i: nat, preds: Lane, succs: Lane)
  {
    ListOk(sh) && ThreadOk(sh, Wire(node, i, preds, succs)) && CurrentFrom(sh, preds, succs, 0)
  }

  /** The node is published and linked on the levels below `i`. */
  ghost predicate Linking(sh: Shared, node: Offset, i: nat, preds: Lane, succs: Lane)
  {
    ListOk(sh) && ThreadOk(sh, LinkUp(node, i, preds, succs)) && CurrentFrom(sh, preds, succs, i)
  }

  lemma StartsWiring(sh: Shared, node: Offset, preds: Lane, succs: Lane)
    requires ListOk(sh) && GoalOk(sh, node, Publish) && Found(sh, KeyOf(sh, node), preds, succs, 0)
    ensures Wiring(sh, node, 0, preds, succs)
  {
    WireThread(sh, node, preds, succs);
  }

  lemma WireThread(sh: Shared, node: Offset, preds: Lane, succs: Lane)
    requires GoalOk(sh, node, Publish) && Found(sh, KeyOf(sh, node), preds, succs, 0)
    ensures ThreadOk(sh, Wire(node, 0, preds, succs)) && CurrentFrom(sh, preds, succs, 0)
  {
    FoundLanes(sh, KeyOf(sh, node), preds, succs);
  }

  lemma WireOne(sh: Shared, node: Offset, i: nat, preds: Lane, succs: Lane)
    requires Wiring(sh, node, i, preds, succs) && i < HeightOf(sh, node)
    ensures var sh' := Store(sh, node, i, succs[i]);
            Wiring(sh', node, i + 1, preds, succs) && HeightOf(sh', node) == HeightOf(sh, node) && ContentsOf(sh') == ContentsOf(sh)
  {
    var sh' := Store(sh, node, i, succs[i]);
    WiringKeeps(sh, node, i, preds, succs);
    StoreFrame(sh, node, i, succs[i]);
    forall l | 0 <= l < MAX_HEIGHT ensures Load(sh', preds[l], l) == succs[l] {
      assert PredOk(sh, KeyOf(sh, node), preds[l], l);
    }
    TailInNodes(sh);
    SameRecords(sh, sh', sh.chain[1..]);
  }

  lemma TailInNodes(sh: Shared)
    requires ChainOk(sh)
    ensures forall o :: o in sh.chain[1..] ==> o in sh.chain && o in sh.nodes
  {
    forall o | o in sh.chain[1..] ensures o in sh.chain {
      var i :| 0 <= i < |sh.chain[1..]| && sh.chain[1..][i] == o;
      assert sh.chain[i + 1] == o;
    }
  }

  lemma PublishOne(sh: Shared, node: Offset, preds: Lane, succs: Lane)
    requires Wiring(sh, node, HeightOf(sh, node), preds, succs)
    ensures Load(sh, preds[0], 0) == succs[0] && preds[0] in sh.nodes && HeightOf(sh, preds[0]) > 0
    ensures var sh' := PublishNode(sh, preds[0], node);
            && Linking(sh', node, 1, preds, succs) && HeightOf(sh', node) == HeightOf(sh, node)
            && ContentsOf(sh') == Insert(ContentsOf(sh), RecordAt(sh, node))
  {
    assert PredOk(sh, KeyOf(sh, node), preds[0], 0) && SuccOk(sh, KeyOf(sh, node), succs[0], 0);
    PublishKeeps(sh, node, HeightOf(sh, node), preds, succs);
    PublishInserts(sh, preds[0], node);
    StillCurrent(sh, preds, succs, node);
  }

  lemma StillCurrent(sh: Shared, preds: Lane, succs: Lane, node: Offset)
    requires ShapeOk(sh) && preds[0] in sh.nodes && CurrentFrom(sh, preds, succs, 1)
    ensures CurrentFrom(PublishNode(sh, preds[0], node), preds, succs, 1)
    ensures HeightOf(PublishNode(sh, preds[0], node), node) == HeightOf(sh, node)
  {
    StoreFrame(sh, preds[0], 0, node);
    var sh' := PublishNode(sh, preds[0], node);
    assert forall l :: 1 <= l < MAX_HEIGHT ==> Load(sh', preds[l], l) == Load(sh, preds[l], l);
  }

  lemma LinkOne(sh: Shared, node: Offset, i: nat, preds: Lane, succs: Lane)
    requires Linking(sh, node, i, preds, succs) && i < HeightOf(sh, node)
    ensures Load(sh, preds[i], i) == succs[i] && preds[i] in sh.nodes && i < HeightOf(sh, preds[i])
    ensures var sh' := Store(sh, preds[i], i, node);
            Linking(sh', node, i + 1, preds, succs) && HeightOf(sh', node) == HeightOf(sh, node) && ContentsOf(sh') == ContentsOf(sh)
  {
    var sh' := Store(sh, preds[i], i, node);
    assert PredOk(sh, KeyOf(sh, node), preds[i], i);
    LinkKeeps(sh, node, i, preds, succs);
    StoreFrame(sh, preds[i], i, node);
    assert forall l :: i + 1 <= l < MAX_HEIGHT ==> Load(sh', preds[l], l) == Load(sh, preds[l], l);
    TailInNodes(sh);
    SameRecords(sh, sh', sh.chain[1..]);
  }

  lemma AllocateOne(sh: Shared, record: LogRecord, height: nat)
    requires ListOk(sh) && RegionsOk(sh) && 1 <= height <= MAX_HEIGHT
    ensures var (sh', th) := Allocate(sh, record, height);
            && ListOk(sh') && RegionsOk(sh') && ContentsOf(sh') == ContentsOf(sh)
            && (th.Start? ==> GoalOk(sh', sh.top, Publish) && HeightOf(sh', sh.top) == height && RecordAt(sh', sh.top) == Normalize(record))
  {
    AllocateRegions(sh, record, height);
    AllocateKeeps(sh, record, height);
    TailInNodes(sh);
    SameRecords(sh, Allocate(sh, record, height).0, sh.chain[1..]);
  }

  /** On each of these levels the pointer of the predecessor leads to the node. */
  ghost predicate EnteredBelow(sh: Shared, node: Offset, preds: Lane, levels: nat)
  {
    forall l: nat :: l < levels && l < MAX_HEIGHT ==> Load(sh, preds[l], l) == node
  }

  /** A node of this height that the list did not hold before. */
  ghost predicate NewIn(before: seq<Offset>, sh: Shared, node: Offset, height: nat)
  {
    node !in before && node in sh.chain && HeightOf(sh, node) == height
  }

  lemma LoadOther(sh: Shared, p: Offset, i: nat, target: Offset, q: Offset, l: nat)
    requires InRange(sh, p, i)
    ensures Load(Store(sh, p, i, target), q, l) == if q == p && l == i then target else Load(sh, q, l)
  {
  }

  lemma EnterOne(sh: Shared, node: Offset, preds: Lane, i: nat)
    requires EnteredBelow(sh, node, preds, i) && i < MAX_HEIGHT && InRange(sh, preds[i], i)
    ensures EnteredBelow(Store(sh, preds[i], i, node), node, preds, i + 1)
  {
    forall l: nat | l < i + 1 && l < MAX_HEIGHT ensures Load(Store(sh, preds[i], i, node), preds[l], l) == node {
      LoadOther(sh, preds[i], i, node, preds[l], l);
    }
  }

  lemma PublishEnters(sh: Shared, node: Offset, preds: Lane)
    requires InRange(sh, preds[0], 0)
    ensures EnteredBelow(PublishNode(sh, preds[0], node), node, preds, 1)
  {
    LoadOther(sh, preds[0], 0, node, preds[0], 0);
  }

  class OffHeapSkipList {
    const arena: Arena
    const headOffset: Offset
    ghost var heap: Shared

    /** The arena's bytes are the heap. */
    ghost predicate Backed()
      reads this, arena, arena.buffer
    {
      && arena.Valid() && heap.capacity == arena.capacity && heap.top == arena.allocateOffset
      && RegionsOk(heap) && Holds(arena.buffer[..], heap)
    }

    ghost predicate Valid()
      reads this, arena, arena.buffer
    {
      Backed() && ListOk(heap) && headOffset == HEAD
    }

    /** The versions, in key order and newest first within a key. */
    ghost function Contents(): Layer
      reads this, arena, arena.buffer
      requires Valid()
    {
      ContentsOf(heap)
    }

    constructor (arena: Arena)
      requires arena.Valid() && arena.allocateOffset == ALIGN_BYTES && SkipListTheorems.HEAD_END <= arena.capacity
      modifies arena`allocateOffset, arena.buffer
      ensures Valid() && this.arena == arena && Contents() == [] && arena.allocateOffset == SkipListTheorems.HEAD_END
    {
      var head := AllocateAndWriteNode(arena, DUMMY, MAX_HEIGHT);
      this.arena := arena;
      headOffset := head.value;
      heap := Init(arena.capacity).shared;
      new;
      SkipListTheorems.InitInv(arena.capacity);
    }

    method Next(o: Offset, level: nat) returns (next: Offset)
      requires Valid() && o in heap.nodes && level < HeightOf(heap, o)
      ensures next == Load(heap, o, level)
    {
      next := GetNextOffset(arena, o, level, heap.nodes[o]);
    }

    method KeyAt(o: Offset) returns (key: seq<byte>)
      requires Valid() && o in heap.nodes
      ensures key == KeyOf(heap, o)
    {
      key := GetKey(arena, o, heap.nodes[o]);
    }

    /** The neighbours of a key on every level. */
    method FindPredecessors(targetKey: seq<byte>) returns (preds: Lane, succs: Lane)
      requires Valid()
      ensures Found(heap, targetKey, preds, succs, 0)
    {
      var currentOffset := headOffset;
      HeadIsPred(heap, targetKey);
      currentOffset, preds, succs := SearchLevel(targetKey, currentOffset, MAX_HEIGHT - 1, ZEROS, ZEROS);
      for level := MAX_HEIGHT - 1 downto 0
        invariant PredOk(heap, targetKey, currentOffset, level) && Found(heap, targetKey, preds, succs, level)
      {
        PredBelow(heap, targetKey, currentOffset, level, level + 1);
        currentOffset, preds, succs := SearchLevel(targetKey, currentOffset, level, preds, succs);
      }
    }

    /** Walks one level and records where it stopped. */
    method SearchLevel(targetKey: seq<byte>, from: Offset, level: nat, preds0: Lane, succs0: Lane)
        returns (pred: Offset, preds: Lane, succs: Lane)
      requires Valid() && level < MAX_HEIGHT && PredOk(heap, targetKey, from, level) && Found(heap, targetKey, preds0, succs0, level + 1)
      ensures PredOk(heap, targetKey, pred, level) && Found(heap, targetKey, preds, succs, level)
    {
      var nextOffset;
      pred, nextOffset := Walk(targetKey, from, level);
      FoundMore(heap, targetKey, preds0, succs0, level, pred, nextOffset);
      preds, succs := preds0[level := pred], succs0[level := nextOffset];
    }

    /** Follows one level while the next key is smaller. */
    method Walk(targetKey: seq<byte>, from: Offset, level: nat) returns (pred: Offset, nextOffset: Offset)
      requires Valid() && level < MAX_HEIGHT && PredOk(heap, targetKey, from, level)
      ensures Stops(heap, targetKey, level, pred, nextOffset)
    {
      pred := from;
      FollowLink(heap, targetKey, pred, level);
      nextOffset := Next(pred, level);
      while nextOffset != 0
        invariant PredOk(heap, targetKey, pred, level) && nextOffset == Load(heap, pred, level) && NextOk(heap, nextOffset, level)
        decreases |heap.chain| - IndexOf(heap.chain, pred)
      {
        var nextKey := KeyAt(nextOffset);
        var cmp := CompareKeys(nextKey, targetKey);
        if cmp >= 0 { return; }
        LinkForward(heap, pred, level);
        pred := nextOffset;
        FollowLink(heap, targetKey, pred, level);
        nextOffset := Next(pred, level);
      }
    }

    /** Sets one pointer of a node. */
    method SetNext(o: Offset, level: nat, target: Offset)
      requires Backed() && ShapeOk(heap) && o in heap.nodes && level < HeightOf(heap, o) && target < TWO_31
      modifies this`heap, arena.buffer
      ensures Backed() && heap == Store(old(heap), o, level, target)
    {
      RegionsApart(heap);
      StoreHolds(arena.buffer[..], heap, o, level, target);
      StoreRegions(heap, o, level, target);
      arena.PutInt(NextAddress(o, level), target);
      heap := Store(heap, o, level, target);
    }

    /** The compare-and-swap of one pointer. */
    method CasNext(o: Offset, level: nat, expected: Offset, target: Offset) returns (ok: bool)
      requires Backed() && ShapeOk(heap) && o in heap.nodes && level < HeightOf(heap, o) && target < TWO_31
      modifies this`heap, arena.buffer
      ensures Backed() && ok == (Load(old(heap), o, level) == expected)
      ensures heap == if ok then Store(old(heap), o, level, target) else old(heap)
    {
      RegionsApart(heap);
      StoreHolds(arena.buffer[..], heap, o, level, target);
      StoreRegions(heap, o, level, target);
      NextWord(arena.buffer[..], heap, o, level);
      ok := arena.CompareExchange(NextAddress(o, level), expected, target);
      if ok { heap := Store(heap, o, level, target); }
    }

    /** Allocates and writes a node that no list holds yet. */
    method NewNode(record: LogRecord, height: nat) returns (node: Option<Offset>)
      requires Valid() && LengthsFit(record) && 1 <= height <= MAX_HEIGHT
      modifies this`heap, arena`allocateOffset, arena.buffer
      ensures Valid() && Contents() == old(Contents())
      ensures arena.allocateOffset == old(arena.allocateOffset) + AlignUp(NodeSize(record, height))
      ensures node.Some? <==> arena.allocateOffset <= arena.capacity
      ensures heap.chain == old(heap.chain)
      ensures node.Some? ==> GoalOk(heap, node.value, Goal.Publish) && HeightOf(heap, node.value) == height
                             && RecordAt(heap, node.value) == Normalize(record) && KeyOf(heap, node.value) == record.key
                             && node.value < TWO_31
    {
      AllocateOne(heap, record, height);
      RegionsBelow(heap);
      ghost var before := arena.buffer[..];
      node := AllocateAndWriteNode(arena, record, height);
      if node.Some? { FreshHolds(before, arena.buffer[..], heap, record, height); }
      heap := Allocate(heap, record, height).0;
    }

    /** Copies the neighbours into the node's own pointers. */
    method WireNode(node: Offset, height: nat, preds: Lane, succs: Lane)
      requires Valid() && Wiring(heap, node, 0, preds, succs) && HeightOf(heap, node) == height <= MAX_HEIGHT
      modifies this`heap, arena.buffer
      ensures Valid() && Wiring(heap, node, height, preds, succs) && HeightOf(heap, node) == height
      ensures Contents() == old(Contents()) && RecordAt(heap, node) == RecordAt(old(heap), node)
    {
      for i := 0 to height
        invariant Backed() && Wiring(heap, node, i, preds, succs) && HeightOf(heap, node) == height
        invariant ContentsOf(heap) == ContentsOf(old(heap)) && RecordAt(heap, node) == RecordAt(old(heap), node)
      {
        WireOne(heap, node, i, preds, succs);
        SuccSmall(heap, node, preds, succs, i);
        StoreKeepsRecord(heap, node, i, succs[i]);
        SetNext(node, i, succs[i]);
      }
    }

    /** The level-0 compare-and-swap. With one caller it cannot fail, so the program's retry is not entered. */
    method LinkLevel0(node: Offset, preds: Lane, succs: Lane)
      requires Valid() && Wiring(heap, node, HeightOf(heap, node), preds, succs)
      modifies this`heap, arena.buffer
      ensures Valid() && Linking(heap, node, 1, preds, succs) && HeightOf(heap, node) == HeightOf(old(heap), node)
      ensures Contents() == Insert(old(Contents()), RecordAt(old(heap), node))
      ensures EnteredBelow(heap, node, preds, 1)
    {
      PublishOne(heap, node, preds, succs);
      PublishEnters(heap, node, preds);
      PublishRegions(heap, preds[0], node);
      NodeSmall(heap, node);
      ghost var before := heap;
      var ok := CasNext(preds[0], 0, succs[0], node);
      heap := PublishNode(before, preds[0], node);
    }

    /** The upper-level compare-and-swaps; with one caller none can fail. */
    method LinkNode(node: Offset, height: nat, preds: Lane, succs: Lane)
      requires Valid() && Linking(heap, node, 1, preds, succs) && 1 <= HeightOf(heap, node) == height <= MAX_HEIGHT
      requires EnteredBelow(heap, node, preds, 1)
      modifies this`heap, arena.buffer
      ensures Valid() && Contents() == old(Contents())
      ensures EnteredBelow(heap, node, preds, height) && node in heap.chain && HeightOf(heap, node) == height
    {
      for i := 1 to height
        invariant EnteredBelow(heap, node, preds, i)
        invariant Backed() && Linking(heap, node, i, preds, succs) && HeightOf(heap, node) == height
        invariant ContentsOf(heap) == ContentsOf(old(heap))
      {
        LinkOne(heap, node, i, preds, succs);
        NodeSmall(heap, node);
        EnterOne(heap, node, preds, i);
        var ok := CasNext(preds[i], i, succs[i], node);
      }
    }

    /** Inserts a version: it becomes the first one of its key. A full arena leaves the list as it was. */
    method Put(record: LogRecord, height: nat) returns (ok: bool)
      requires Valid() && LengthsFit(record) && 1 <= height <= MAX_HEIGHT
      modifies this`heap, arena`allocateOffset, arena.buffer
      ensures Valid() && arena.allocateOffset == old(arena.allocateOffset) + AlignUp(NodeSize(record, height))
      ensures ok == (arena.allocateOffset <= arena.capacity)
      ensures Contents() == if ok then Insert(old(Contents()), Normalize(record)) else old(Contents())
      ensures ok ==> exists node, preds: Lane :: NewIn(old(heap.chain), heap, node, height) && EnteredBelow(heap, node, preds, height)
    {
      var node := NewNode(record, height);
      if node.None? { return false; }
      ghost var preds := InsertNode(node.value, record, height);
      return true;
    }

    /** Finds the node's place and links it in, level by level from the bottom. */
    method InsertNode(node: Offset, record: LogRecord, height: nat) returns (ghost preds: Lane)
      requires Valid() && 1 <= height <= MAX_HEIGHT && GoalOk(heap, node, Goal.Publish) && HeightOf(heap, node) == height
      requires RecordAt(heap, node) == Normalize(record) && KeyOf(heap, node) == record.key
      modifies this`heap, arena.buffer
      ensures Valid() && Contents() == Insert(old(Contents()), Normalize(record))
      ensures EnteredBelow(heap, node, preds, height) && node in heap.chain && HeightOf(heap, node) == height
    {
      var before, behind := FindPredecessors(record.key);
      StartsWiring(heap, node, before, behind);
      WireNode(node, height, before, behind);
      LinkLevel0(node, before, behind);
      LinkNode(node, height, before, behind);
      preds := before;
    }

    /** Returns the newest version of a key. */
    method GetRecord(targetKey: seq<byte>) returns (r: Option<LogRecord>)
      requires Valid()
      ensures r == FirstWithKey(Contents(), targetKey)
    {
      var pred, nextOffset := headOffset, 0;
      HeadIsPred(heap, targetKey);
      for level := MAX_HEIGHT downto 0
        invariant PredOk(heap, targetKey, pred, if level == MAX_HEIGHT then MAX_HEIGHT - 1 else level)
        invariant level < MAX_HEIGHT ==> Stops(heap, targetKey, level, pred, nextOffset)
      {
        PredBelow(heap, targetKey, pred, level, if level + 1 == MAX_HEIGHT then MAX_HEIGHT - 1 else level + 1);
        pred, nextOffset := Walk(targetKey, pred, level);
      }
      ReadIsFirst(heap, targetKey, pred);
      if nextOffset == 0 { return None; }
      var nextKey := KeyAt(nextOffset);
      if nextKey != targetKey { return None; }
      var record := GetRecordAt(arena, nextOffset, heap.nodes[nextOffset]);
      return Some(record);
    }

    /** Visits every version in order. */
    method ForEach() returns (visited: seq<LogRecord>)
      requires Valid()
      ensures visited == Contents()
    {
      visited := [];
      VisitStep(heap, 0);
      var currentOffset := Next(headOffset, 0);
      while currentOffset != 0
        invariant |visited| < |heap.chain| && visited == Contents()[..|visited|]
        invariant currentOffset == if |visited| + 1 < |heap.chain| then heap.chain[|visited| + 1] else 0
        decreases |heap.chain| - |visited|
      {
        VisitStep(heap, |visited| + 1);
        var record := GetRecordAt(arena, currentOffset, heap.nodes[currentOffset]);
        visited := visited + [record];
        currentOffset := Next(currentOffset, 0);
      }
    }
  }

  /** The node at position `i` of the list: its level-0 pointer and its place among the versions. */
  lemma VisitStep(sh: Shared, i: nat)
    requires ListOk(sh) && i < |sh.chain|
    ensures var o := sh.chain[i];
            && o in sh.nodes && HeightOf(sh, o) > 0
            && (i + 1 < |sh.chain| ==> sh.chain[i + 1] in sh.nodes && sh.chain[i + 1] != 0)
            && Load(sh, o, 0) == (if i + 1 < |sh.chain| then sh.chain[i + 1] else 0)
            && (i > 0 ==> ContentsOf(sh)[..i] == ContentsOf(sh)[..i - 1] + [Normalize(sh.nodes[o].record)])
  {
    assert StepsTo(sh, i) && sh.chain[i] in sh.chain;
    if i + 1 < |sh.chain| { assert sh.chain[i + 1] in sh.chain; }
  }

  lemma NodeSmall(sh: Shared, node: Offset)
    requires RegionsOk(sh) && node in sh.nodes && sh.capacity < TWO_31
    ensures node < TWO_31
  {
    assert EndOf(sh, node) <= sh.capacity;
  }

  lemma SuccSmall(sh: Shared, node: Offset, preds: Lane, succs: Lane, i: nat)
    requires Wiring(sh, node, i, preds, succs) && i < HeightOf(sh, node) && RegionsOk(sh) && sh.capacity < TWO_31
    ensures node in sh.nodes && succs[i] < TWO_31
  {
    assert SuccOk(sh, KeyOf(sh, node), succs[i], i);
    if succs[i] != 0 { NodeSmall(sh, succs[i]); }
  }

  lemma StoreKeepsRecord(sh: Shared, o: Offset, level: nat, target: Offset)
    ensures RecordAt(Store(sh, o, level, target), o) == RecordAt(sh, o)
  {
  }

  lemma NextWord(b: seq<byte>, sh: Shared, o: Offset, level: nat)
    requires Holds(b, sh) && o in sh.nodes && level < HeightOf(sh, o)
    ensures NextAddress(o, level) + 4 <= |b| && Int32At(b, NextAddress(o, level)) == Load(sh, o, level)
  {
    assert NodeAt(b, o, sh.nodes[o]);
    assert NextAt(b, o, level, sh.nodes[o].next[level]);
  }

  /** Following a link moves forward along level 0. */
  lemma LinkForward(sh: Shared, o: Offset, level: nat)
    requires ListOk(sh) && o in sh.chain && level < HeightOf(sh, o) && Load(sh, o, level) != 0
    ensures Load(sh, o, level) in sh.chain && IndexOf(sh.chain, o) < IndexOf(sh.chain, Load(sh, o, level))
  {
    if level == 0 {
      var i := IndexOf(sh.chain, o);
      assert StepsTo(sh, i);
      assert sh.chain[i + 1] in sh.chain;
    } else {
      assert LinkOk(sh, o, level);
    }
  }

  // ---------- after any concurrent schedule ----------

  /** The last node of the list that lies before a key. */
  lemma {:induction false} LastPred(sh: Shared, key: seq<byte>, from: nat) returns (pred: Offset)
    requires ListOk(sh) && from < |sh.chain| && PredOk(sh, key, sh.chain[from], 0)
    ensures PredOk(sh, key, pred, 0)
    ensures Load(sh, pred, 0) == 0 || !Less(KeyOf(sh, Load(sh, pred, 0)), key)
    decreases |sh.chain| - from
  {
    VisitStep(sh, from);
    pred := sh.chain[from];
    var next := Load(sh, pred, 0);
    if next != 0 && Less(KeyOf(sh, next), key) {
      assert sh.chain[from + 1] in sh.chain;
      pred := LastPred(sh, key, from + 1);
    }
  }

  /** However many threads built the list, its first version of a key is the last one published: what a
      flush writes first and a later lookup finds. */
  lemma FirstVersionIsNewest(capacity: nat, events: seq<Event>, key: seq<byte>)
    requires SkipListTheorems.HEAD_END <= capacity
    ensures var sh := Exec(capacity, events).shared;
            && sh.chain != [] && SortedByKey(ContentsOf(sh))
            && FirstWithKey(ContentsOf(sh), key) ==
                 match SkipListTheorems.Newest(sh, key) case None => None case Some(o) => Some(RecordAt(sh, o))
  {
    var sh := Exec(capacity, events).shared;
    SkipListTheorems.SafeInEverySchedule(capacity, events);
    FirstIsNewest(sh, key);
    ContentsSorted(sh);
  }

  lemma FirstIsNewest(sh: Shared, key: seq<byte>)
    requires ListOk(sh)
    ensures FirstWithKey(ContentsOf(sh), key) ==
              match SkipListTheorems.Newest(sh, key) case None => None case Some(o) => Some(RecordAt(sh, o))
  {
    var pred := LastPred(sh, key, 0);
    ReadIsFirst(sh, key, pred);
    SkipListTheorems.LastReadDecides(sh, key, pred);
  }

  lemma ContentsSorted(sh: Shared)
    requires ListOk(sh)
    ensures SortedByKey(ContentsOf(sh))
  {
    KeysOfList(sh);
  }
}
