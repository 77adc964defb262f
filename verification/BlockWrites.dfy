/** Byte writes of many threads into one arena, in any order. Every node keeps to its own block, so what
    stands there depends on the writes into that block alone, and the bytes hold the node heap. */
module BlockWrites {
  import opened Bytes
  import opened Records
  import opened NodeLayout
  import opened Arena
  import opened SkipListMachine
  import opened SkipListInvariant
  import opened SkipListTheorems
  import opened NodeAccessor

  /** Bytes written at an address into the block of the node `owner`, by whatever thread. */
  datatype Write = Write(owner: Offset, at: nat, data: seq<byte>)

  predicate Fits(w: Write, size: nat)
  {
    w.at + |w.data| <= size
  }

  function Put(b: seq<byte>, w: Write): (c: seq<byte>)
    ensures |c| == |b|
  {
    if Fits(w, |b|) then Overwrite(b, w.at, w.data) else b
  }

  /** The buffer after the writes, in order. */
  function Applied(b: seq<byte>, ws: seq<Write>): (c: seq<byte>)
    ensures |c| == |b|
  {
    if ws == [] then b else Put(Applied(b, ws[..|ws| - 1]), ws[|ws| - 1])
  }

  /** The writes into one block, in order. */
  function Into(ws: seq<Write>, owner: Offset): seq<Write>
  {
    if ws == [] then []
    else Into(ws[..|ws| - 1], owner) + if ws[|ws| - 1].owner == owner then [ws[|ws| - 1]] else []
  }

  /** The write touches no byte from `lo` up to `hi`. */
  predicate Misses(w: Write, lo: nat, hi: nat)
  {
    w.at + |w.data| <= lo || hi <= w.at
  }

  lemma PutSame(b: seq<byte>, c: seq<byte>, w: Write, lo: nat, hi: nat)
    requires SameOn(b, c, lo, hi) && |b| == |c|
    ensures SameOn(Put(b, w), Put(c, w), lo, hi)
    ensures Misses(w, lo, hi) ==> SameOn(b, Put(c, w), lo, hi)
  {
  }

  lemma AppliedLast(b: seq<byte>, ws: seq<Write>, w: Write)
    ensures Applied(b, ws + [w]) == Put(Applied(b, ws), w)
  {
    assert (ws + [w])[..|ws|] == ws;
  }

  lemma {:induction false} AppliedAppend(b: seq<byte>, ws: seq<Write>, more: seq<Write>)
    ensures Applied(b, ws + more) == Applied(Applied(b, ws), more)
  {
    if more == [] {
      assert ws + more == ws;
    } else {
      assert (ws + more)[..|ws + more| - 1] == ws + more[..|more| - 1];
      AppliedAppend(b, ws, more[..|more| - 1]);
    }
  }

  /** In any interleaving a block ends up as its own writes alone make it. */
  lemma {:induction false} OwnWritesDecide(b: seq<byte>, ws: seq<Write>, owner: Offset, lo: nat, hi: nat)
    requires hi <= |b| && forall w :: w in ws && w.owner != owner ==> Misses(w, lo, hi)
    ensures SameOn(Applied(b, Into(ws, owner)), Applied(b, ws), lo, hi)
  {
    if ws != [] {
      var front, w := ws[..|ws| - 1], ws[|ws| - 1];
      OwnWritesDecide(b, front, owner, lo, hi);
      assert w in ws;
      if w.owner == owner {
        AppliedLast(b, Into(front, owner), w);
      } else {
        assert Into(front, owner) + [] == Into(front, owner);
      }
      PutSame(Applied(b, Into(front, owner)), Applied(b, front), w, lo, hi);
    }
  }

  // ---------- the writes of one node ----------

  function HeaderWrites(o: Offset, record: LogRecord, height: nat): seq<Write>
  {
    [Write(o, o, [record.kind]), Write(o, o + KEY_LEN_OFFSET, Int32Bytes(|record.key|)),
     Write(o, o + VAL_LEN_OFFSET, Int32Bytes(|record.value|)), Write(o, o + PTR_LEN_OFFSET, Int32Bytes(|PointerBytes(record)|)),
     Write(o, o + HEIGHT_OFFSET, Int32Bytes(height))]
  }

  function ClearWrites(o: Offset, height: nat): seq<Write>
  {
    if height == 0 then [] else ClearWrites(o, height - 1) + [Write(o, NextAddress(o, height - 1), Int32Bytes(0))]
  }

  function DataWrites(o: Offset, at: nat, record: LogRecord): seq<Write>
  {
    [Write(o, at, record.key), Write(o, at + |record.key|, record.value),
     Write(o, at + |record.key| + |record.value|, PointerBytes(record))]
  }

  /** What `allocateAndWriteNode` writes, field by field. */
  function NodeWrites(o: Offset, record: LogRecord, height: nat): seq<Write>
  {
    HeaderWrites(o, record, height) + ClearWrites(o, height) + DataWrites(o, NextAddress(o, height), record)
  }

  lemma Applied3(b: seq<byte>, x: Write, y: Write, z: Write)
    ensures Applied(b, [x, y, z]) == Put(Put(Put(b, x), y), z)
  {
    assert [x, y, z] == [] + [x] + [y] + [z];
    AppliedLast(b, [], x);
    AppliedLast(b, [] + [x], y);
    AppliedLast(b, [] + [x] + [y], z);
  }

  lemma Applied5(b: seq<byte>, v: Write, w: Write, x: Write, y: Write, z: Write)
    ensures Applied(b, [v, w, x, y, z]) == Put(Put(Put(Put(Put(b, v), w), x), y), z)
  {
    Applied3(b, v, w, x);
    AppliedLast(b, [v, w, x], y);
    AppliedLast(b, [v, w, x] + [y], z);
    assert [v, w, x, y, z] == [v, w, x] + [y] + [z];
  }

  lemma HeaderApplied(b: seq<byte>, o: Offset, record: LogRecord, height: nat)
    requires o + HEADER_SIZE <= |b| && LengthsFit(record) && height < TWO_31
    ensures HeaderAt(Applied(b, HeaderWrites(o, record, height)), o, record, height)
  {
    var b1 := Overwrite(b, o, [record.kind]);
    var b2 := Overwrite(b1, o + KEY_LEN_OFFSET, Int32Bytes(|record.key|));
    var b3 := Overwrite(b2, o + VAL_LEN_OFFSET, Int32Bytes(|record.value|));
    var b4 := Overwrite(b3, o + PTR_LEN_OFFSET, Int32Bytes(|PointerBytes(record)|));
    var b5 := Overwrite(b4, o + HEIGHT_OFFSET, Int32Bytes(height));
    HeaderPuts(b, b1, b2, b3, b4, b5, o, record, height);
    HeaderWritten(b, o, record, height, b5);
  }

  lemma HeaderPuts(b: seq<byte>, b1: seq<byte>, b2: seq<byte>, b3: seq<byte>, b4: seq<byte>, b5: seq<byte>, o: Offset, record: LogRecord, height: nat)
    requires |b| == |b1| == |b2| == |b3| == |b4| && o + HEADER_SIZE <= |b|
    requires b1 == Put(b, Write(o, o, [record.kind]))
    requires b2 == Put(b1, Write(o, o + KEY_LEN_OFFSET, Int32Bytes(|record.key|)))
    requires b3 == Put(b2, Write(o, o + VAL_LEN_OFFSET, Int32Bytes(|record.value|)))
    requires b4 == Put(b3, Write(o, o + PTR_LEN_OFFSET, Int32Bytes(|PointerBytes(record)|)))
    requires b5 == Put(b4, Write(o, o + HEIGHT_OFFSET, Int32Bytes(height)))
    ensures Applied(b, HeaderWrites(o, record, height)) == b5
  {
    Applied5(b, Write(o, o, [record.kind]), Write(o, o + KEY_LEN_OFFSET, Int32Bytes(|record.key|)),
      Write(o, o + VAL_LEN_OFFSET, Int32Bytes(|record.value|)), Write(o, o + PTR_LEN_OFFSET, Int32Bytes(|PointerBytes(record)|)),
      Write(o, o + HEIGHT_OFFSET, Int32Bytes(height)));
  }

  lemma {:induction false} ClearApplied(b: seq<byte>, o: Offset, height: nat)
    requires NextAddress(o, height) <= |b|
    ensures SameOn(b, Applied(b, ClearWrites(o, height)), 0, o + HEADER_SIZE)
    ensures forall l :: 0 <= l < height ==> NextAt(Applied(b, ClearWrites(o, height)), o, l, 0)
  {
    if height > 0 {
      var b1 := Applied(b, ClearWrites(o, height - 1));
      ClearApplied(b, o, height - 1);
      AppliedLast(b, ClearWrites(o, height - 1), Write(o, NextAddress(o, height - 1), Int32Bytes(0)));
      ClearOne(b, b1, o, height - 1);
    }
  }

  lemma ClearOne(b: seq<byte>, b1: seq<byte>, o: Offset, i: nat)
    requires NextAddress(o, i) + 4 <= |b1| && SameOn(b, b1, 0, o + HEADER_SIZE) && forall l :: 0 <= l < i ==> NextAt(b1, o, l, 0)
    ensures var c := Put(b1, Write(o, NextAddress(o, i), Int32Bytes(0)));
            SameOn(b, c, 0, o + HEADER_SIZE) && forall l :: 0 <= l < i + 1 ==> NextAt(c, o, l, 0)
  {
    ClearedNext(b, b1, o, i);
  }

  lemma DataApplied(b: seq<byte>, o: Offset, at: nat, record: LogRecord)
    requires at + |record.key| + |record.value| + |PointerBytes(record)| <= |b|
    ensures DataAt(Applied(b, DataWrites(o, at, record)), at, record) && SameOn(b, Applied(b, DataWrites(o, at, record)), 0, at)
  {
    DataWritten(b, at, record);
    var b1 := Overwrite(b, at, record.key);
    var b2 := Overwrite(b1, at + |record.key|, record.value);
    DataPuts(b, b1, b2, Overwrite(b2, at + |record.key| + |record.value|, PointerBytes(record)), o, at, record);
  }

  lemma DataPuts(b: seq<byte>, b1: seq<byte>, b2: seq<byte>, b3: seq<byte>, o: Offset, at: nat, record: LogRecord)
    requires b1 == Put(b, Write(o, at, record.key))
    requires b2 == Put(b1, Write(o, at + |record.key|, record.value))
    requires b3 == Put(b2, Write(o, at + |record.key| + |record.value|, PointerBytes(record)))
    ensures Applied(b, DataWrites(o, at, record)) == b3
  {
    Applied3(b, Write(o, at, record.key), Write(o, at + |record.key|, record.value),
      Write(o, at + |record.key| + |record.value|, PointerBytes(record)));
  }

  /** A node's own writes put it into its block. */
  lemma NodeApplied(b: seq<byte>, o: Offset, record: LogRecord, height: nat)
    requires o + NodeSize(record, height) <= |b| && LengthsFit(record) && height < TWO_31
    ensures NodeAt(Applied(b, NodeWrites(o, record, height)), o, Node(record, height, Zeros(height)))
  {
    var at := NextAddress(o, height);
    var b1 := Applied(b, HeaderWrites(o, record, height));
    var b2 := Applied(b1, ClearWrites(o, height));
    ThreeParts(b, HeaderWrites(o, record, height), ClearWrites(o, height), DataWrites(o, at, record));
    HeaderApplied(b, o, record, height);
    ClearApplied(b1, o, height);
    DataApplied(b2, o, at, record);
    ClearedAll(b2, o, height);
    NodeWritten(b1, b2, Applied(b2, DataWrites(o, at, record)), o, record, height);
  }

  lemma ThreeParts(b: seq<byte>, x: seq<Write>, y: seq<Write>, z: seq<Write>)
    ensures Applied(b, x + y + z) == Applied(Applied(Applied(b, x), y), z)
  {
    AppliedAppend(b, x, y);
    AppliedAppend(b, x + y, z);
  }

  lemma ClearedAll(b: seq<byte>, o: Offset, height: nat)
    requires forall l :: 0 <= l < height ==> NextAt(b, o, l, 0)
    ensures NextsAt(b, o, Zeros(height))
  {
  }

  // ---------- the writes of a schedule ----------

  function PointerWrite(o: Offset, level: nat, target: Offset): Write
  {
    Write(o, NextAddress(o, level), Int32Bytes(target))
  }

  /** The bytes that a step of the machine writes: a fresh node field by field, or one pointer. */
  function WritesBy(sh: Shared, th: Thread, call: Call): seq<Write>
  {
    match th
    case Idle =>
      (match call
       case CallPut(record, height) =>
         if 1 <= height <= MAX_HEIGHT && sh.top + AlignUp(NodeSize(record, height)) <= sh.capacity
         then NodeWrites(sh.top, record, height) else []
       case CallGet(_) => [])
    case Wire(node, i, preds, succs) =>
      if i < HeightOf(sh, node) && i < MAX_HEIGHT then [PointerWrite(node, i, succs[i])]
      else if Load(sh, preds[0], 0) == succs[0] then [PointerWrite(preds[0], 0, node)] else []
    case LinkUp(node, i, preds, succs) =>
      if i < HeightOf(sh, node) && i < MAX_HEIGHT && Load(sh, preds[i], i) == succs[i] then [PointerWrite(preds[i], i, node)] else []
    case _ => []
  }

  /** All writes of a schedule in the order of its steps, after those of the list head. */
  function Written(capacity: nat, events: seq<Event>): seq<Write>
  {
    if events == [] then NodeWrites(HEAD, DUMMY, MAX_HEIGHT)
    else
      var s, e := Exec(capacity, events[..|events| - 1]), events[|events| - 1];
      Written(capacity, events[..|events| - 1]) + WritesBy(s.shared, ThreadOf(s, e.tid), e.call)
  }

  ghost predicate Inside(nodes: map<Offset, Node>, w: Write)
  {
    w.owner in nodes && w.owner <= w.at && w.at + |w.data| <= NodeEnd(w.owner, nodes[w.owner])
  }

  /** Every write stays inside its block, and the writes into a block put its node there. */
  ghost predicate OwnBytes(b: seq<byte>, nodes: map<Offset, Node>, ws: seq<Write>)
  {
    && (forall w :: w in ws ==> Inside(nodes, w))
    && (forall o {:trigger Into(ws, o)} :: o in nodes ==> NodeAt(Applied(b, Into(ws, o)), o, nodes[o]))
  }

  lemma {:induction false} IntoAppend(ws: seq<Write>, more: seq<Write>, owner: Offset)
    ensures Into(ws + more, owner) == Into(ws, owner) + Into(more, owner)
  {
    if more == [] {
      assert ws + more == ws;
    } else {
      assert (ws + more)[..|ws + more| - 1] == ws + more[..|more| - 1];
      IntoAppend(ws, more[..|more| - 1], owner);
    }
  }

  lemma {:induction false} IntoMember(ws: seq<Write>, owner: Offset)
    ensures forall w :: w in Into(ws, owner) <==> w in ws && w.owner == owner
  {
    if ws != [] { IntoMember(ws[..|ws| - 1], owner); }
  }

  lemma {:induction false} IntoOwn(ws: seq<Write>, o: Offset, owner: Offset)
    requires forall w :: w in ws ==> w.owner == o
    ensures Into(ws, owner) == if owner == o then ws else []
  {
    if ws != [] {
      assert ws[|ws| - 1] in ws;
      IntoOwn(ws[..|ws| - 1], o, owner);
      assert ws == ws[..|ws| - 1] + [ws[|ws| - 1]];
    }
  }

  lemma {:induction false} ClearInside(o: Offset, height: nat)
    ensures forall w :: w in ClearWrites(o, height) ==> w.owner == o && o <= w.at && w.at + |w.data| <= NextAddress(o, height)
  {
    if height > 0 { ClearInside(o, height - 1); }
  }

  lemma NodeInside(o: Offset, record: LogRecord, height: nat)
    ensures forall w :: w in NodeWrites(o, record, height) ==> w.owner == o && o <= w.at && w.at + |w.data| <= o + NodeSize(record, height)
  {
    ClearInside(o, height);
    HeaderInside(o, record, height);
    DataInside(o, NextAddress(o, height), record);
  }

  lemma HeaderInside(o: Offset, record: LogRecord, height: nat)
    ensures forall w :: w in HeaderWrites(o, record, height) ==> w.owner == o && o <= w.at && w.at + |w.data| <= o + HEADER_SIZE
  {
  }

  lemma DataInside(o: Offset, at: nat, record: LogRecord)
    ensures forall w :: w in DataWrites(o, at, record) ==>
              w.owner == o && at <= w.at && w.at + |w.data| <= at + |record.key| + |record.value| + |PointerBytes(record)|
  {
  }

  /** Writes into one block change its node only. */
  lemma UpdateOwn(b: seq<byte>, nodes: map<Offset, Node>, ws: seq<Write>, o: Offset, n: Node, more: seq<Write>)
    requires OwnBytes(b, nodes, ws) && (forall w :: w in more ==> w.owner == o && Inside(map[o := n], w))
    requires (o in nodes ==> NodeEnd(o, n) == NodeEnd(o, nodes[o])) && NodeAt(Applied(b, Into(ws + more, o)), o, n)
    ensures OwnBytes(b, nodes[o := n], ws + more)
  {
    UpdateInside(nodes, ws, o, n, more);
    forall p | p in nodes && p != o ensures Into(ws + more, p) == Into(ws, p) { Elsewhere(ws, more, o, p); }
  }

  lemma UpdateInside(nodes: map<Offset, Node>, ws: seq<Write>, o: Offset, n: Node, more: seq<Write>)
    requires (forall w :: w in ws ==> Inside(nodes, w)) && (forall w :: w in more ==> w.owner == o && Inside(map[o := n], w))
    requires o in nodes ==> NodeEnd(o, n) == NodeEnd(o, nodes[o])
    ensures forall w :: w in ws + more ==> Inside(nodes[o := n], w)
  {
    forall w | w in ws + more ensures Inside(nodes[o := n], w) {
      if w in more { assert Inside(map[o := n], w); } else { assert Inside(nodes, w); }
    }
  }

  lemma Elsewhere(ws: seq<Write>, more: seq<Write>, o: Offset, p: Offset)
    requires p != o && forall w :: w in more ==> w.owner == o
    ensures Into(ws + more, p) == Into(ws, p)
  {
    IntoAppend(ws, more, p);
    NothingInto(more, p);
  }

  lemma FreshBlock(nodes: map<Offset, Node>, ws: seq<Write>, o: Offset, more: seq<Write>)
    requires (forall w :: w in ws ==> Inside(nodes, w)) && o !in nodes && forall w :: w in more ==> w.owner == o
    ensures Into(ws + more, o) == more
  {
    forall w | w in ws ensures w.owner != o { assert Inside(nodes, w); }
    IntoAppend(ws, more, o);
    NothingInto(ws, o);
    IntoOwn(more, o, o);
    assert [] + more == more;
  }

  lemma FreshInside(o: Offset, record: LogRecord, height: nat)
    ensures forall w :: w in NodeWrites(o, record, height) ==> w.owner == o && Inside(map[o := Node(record, height, Zeros(height))], w)
  {
    NodeInside(o, record, height);
  }

  /** A fresh block gets its node. */
  lemma FreshOwn(b: seq<byte>, nodes: map<Offset, Node>, ws: seq<Write>, o: Offset, record: LogRecord, height: nat)
    requires OwnBytes(b, nodes, ws) && o !in nodes && o + NodeSize(record, height) <= |b| < TWO_31
    ensures OwnBytes(b, nodes[o := Node(record, height, Zeros(height))], ws + NodeWrites(o, record, height))
  {
    FreshInside(o, record, height);
    FreshBlock(nodes, ws, o, NodeWrites(o, record, height));
    NodeApplied(b, o, record, height);
    UpdateOwn(b, nodes, ws, o, Node(record, height, Zeros(height)), NodeWrites(o, record, height));
  }

  lemma {:induction false} NothingInto(ws: seq<Write>, o: Offset)
    requires forall w :: w in ws ==> w.owner != o
    ensures Into(ws, o) == []
  {
    if ws != [] {
      assert ws[|ws| - 1] in ws;
      NothingInto(ws[..|ws| - 1], o);
    }
  }

  lemma PointerBlock(b: seq<byte>, n: Node, ws: seq<Write>, o: Offset, level: nat, target: Offset)
    requires NodeAt(Applied(b, Into(ws, o)), o, n) && level < n.height == |n.next| && target < TWO_31
    ensures NodeAt(Applied(b, Into(ws + [PointerWrite(o, level, target)], o)), o, n.(next := n.next[level := target]))
  {
    PointerWritten(Applied(b, Into(ws, o)), o, n, level, target);
    PointerPut(b, ws, o, level, target);
  }

  lemma PointerPut(b: seq<byte>, ws: seq<Write>, o: Offset, level: nat, target: Offset)
    requires NextAddress(o, level) + 4 <= |b|
    ensures Applied(b, Into(ws + [PointerWrite(o, level, target)], o)) == Overwrite(Applied(b, Into(ws, o)), NextAddress(o, level), Int32Bytes(target))
  {
    var w := PointerWrite(o, level, target);
    IntoAppend(ws, [w], o);
    IntoOwn([w], o, o);
    AppliedLast(b, Into(ws, o), w);
  }

  lemma PointerInside(o: Offset, n: Node, level: nat, target: Offset)
    requires level < n.height
    ensures Inside(map[o := n], PointerWrite(o, level, target))
  {
  }

  /** A pointer write does to its own block what the machine does to the node. */
  lemma PointerOwn(b: seq<byte>, nodes: map<Offset, Node>, ws: seq<Write>, o: Offset, level: nat, target: Offset)
    requires OwnBytes(b, nodes, ws) && o in nodes && level < nodes[o].height == |nodes[o].next| && target < TWO_31
    ensures OwnBytes(b, nodes[o := nodes[o].(next := nodes[o].next[level := target])], ws + [PointerWrite(o, level, target)])
  {
    var n := nodes[o].(next := nodes[o].next[level := target]);
    assert NodeAt(Applied(b, Into(ws, o)), o, nodes[o]);
    PointerBlock(b, nodes[o], ws, o, level, target);
    PointerInside(o, n, level, target);
    UpdateOwn(b, nodes, ws, o, n, [PointerWrite(o, level, target)]);
  }

  lemma SmallOffset(sh: Shared, o: Offset)
    requires RegionsOk(sh) && sh.capacity < TWO_31 && o in sh.nodes
    ensures o < TWO_31
  {
    assert EndOf(sh, o) <= sh.capacity;
  }

  lemma StoreOwn(b: seq<byte>, sh: Shared, ws: seq<Write>, o: Offset, level: nat, target: Offset)
    requires RegionsOk(sh) && ShapeOk(sh) && sh.capacity < TWO_31 && OwnBytes(b, sh.nodes, ws)
    requires o in sh.nodes && level < HeightOf(sh, o) && (target == 0 || target in sh.nodes)
    ensures OwnBytes(b, Store(sh, o, level, target).nodes, ws + [PointerWrite(o, level, target)])
  {
    if target != 0 { SmallOffset(sh, target); }
    PointerOwn(b, sh.nodes, ws, o, level, target);
  }

  lemma MoveOwn(b: seq<byte>, sh: Shared, th: Thread, call: Call, ws: seq<Write>)
    requires RegionsOk(sh) && ListOk(sh) && ThreadOk(sh, th) && |b| == sh.capacity < TWO_31 && OwnBytes(b, sh.nodes, ws)
    ensures OwnBytes(b, Move(sh, th, call).0.nodes, ws + WritesBy(sh, th, call))
  {
    assert ws + [] == ws;
    match th
    case Idle => if call.CallPut? { AllocateOwn(b, sh, call.record, call.height, ws); }
    case Wire(_, _, _, _) => WireOwn(b, sh, th, call, ws);
    case LinkUp(_, _, _, _) => LinkOwn(b, sh, th, call, ws);
    case _ =>
  }

  lemma AllocateOwn(b: seq<byte>, sh: Shared, record: LogRecord, height: nat, ws: seq<Write>)
    requires RegionsOk(sh) && |b| == sh.capacity < TWO_31 && OwnBytes(b, sh.nodes, ws)
    ensures OwnBytes(b, Move(sh, Idle, CallPut(record, height)).0.nodes, ws + WritesBy(sh, Idle, CallPut(record, height)))
  {
    assert ws + [] == ws;
    NoNodeAtTop(sh);
    if 1 <= height <= MAX_HEIGHT && sh.top + AlignUp(NodeSize(record, height)) <= sh.capacity {
      FreshOwn(b, sh.nodes, ws, sh.top, record, height);
    }
  }

  lemma WireOwn(b: seq<byte>, sh: Shared, th: Thread, call: Call, ws: seq<Write>)
    requires RegionsOk(sh) && ListOk(sh) && th.Wire? && ThreadOk(sh, th) && |b| == sh.capacity < TWO_31 && OwnBytes(b, sh.nodes, ws)
    ensures OwnBytes(b, Move(sh, th, call).0.nodes, ws + WritesBy(sh, th, call))
  {
    var Wire(node, i, preds, succs) := th;
    assert ws + [] == ws;
    if i < HeightOf(sh, node) && i < MAX_HEIGHT {
      assert SuccOk(sh, KeyOf(sh, node), succs[i], i);
      StoreOwn(b, sh, ws, node, i, succs[i]);
    } else if Load(sh, preds[0], 0) == succs[0] {
      assert PredOk(sh, KeyOf(sh, node), preds[0], 0);
      StoreOwn(b, sh, ws, preds[0], 0, node);
    }
  }

  lemma LinkOwn(b: seq<byte>, sh: Shared, th: Thread, call: Call, ws: seq<Write>)
    requires RegionsOk(sh) && ListOk(sh) && th.LinkUp? && ThreadOk(sh, th) && |b| == sh.capacity < TWO_31 && OwnBytes(b, sh.nodes, ws)
    ensures OwnBytes(b, Move(sh, th, call).0.nodes, ws + WritesBy(sh, th, call))
  {
    var LinkUp(node, i, preds, succs) := th;
    assert ws + [] == ws;
    if i < HeightOf(sh, node) && i < MAX_HEIGHT && Load(sh, preds[i], i) == succs[i] {
      assert PredOk(sh, KeyOf(sh, node), preds[i], i);
      StoreOwn(b, sh, ws, preds[i], i, node);
    }
  }

  lemma MoveCapacity(sh: Shared, th: Thread, call: Call)
    ensures Move(sh, th, call).0.capacity == sh.capacity
  {
  }

  /** In every schedule the writes into each block put its node there. */
  lemma {:induction false} ScheduleWrites(capacity: nat, events: seq<Event>, b: seq<byte>)
    requires HEAD_END <= capacity == |b| < TWO_31
    ensures Exec(capacity, events).shared.capacity == capacity
    ensures OwnBytes(b, Exec(capacity, events).shared.nodes, Written(capacity, events))
  {
    if events == [] {
      HeadWrites(capacity, b);
    } else {
      var front, e := events[..|events| - 1], events[|events| - 1];
      var s := Exec(capacity, front);
      ScheduleWrites(capacity, front, b);
      ListSafe(capacity, front, e.tid);
      SafeInEverySchedule(capacity, front);
      MoveCapacity(s.shared, ThreadOf(s, e.tid), e.call);
      MoveOwn(b, s.shared, ThreadOf(s, e.tid), e.call, Written(capacity, front));
    }
  }

  lemma HeadWrites(capacity: nat, b: seq<byte>)
    requires HEAD_END <= capacity == |b| < TWO_31
    ensures OwnBytes(b, Init(capacity).shared.nodes, Written(capacity, []))
  {
    var none: seq<Write>, nodes: map<Offset, Node> := [], map[];
    FreshOwn(b, nodes, none, HEAD, DUMMY, MAX_HEIGHT);
    assert none + NodeWrites(HEAD, DUMMY, MAX_HEIGHT) == NodeWrites(HEAD, DUMMY, MAX_HEIGHT);
  }

  // ---------- any order ----------

  /** The same writes, each block's in the same order. */
  ghost predicate SamePerBlock(ws: seq<Write>, order: seq<Write>)
  {
    forall o :: Into(ws, o) == Into(order, o)
  }

  /** However the byte writes of a schedule are reordered across blocks, the buffer holds the node heap. */
  lemma AnyInterleavingHolds(capacity: nat, events: seq<Event>, b: seq<byte>, ws: seq<Write>)
    requires HEAD_END <= capacity == |b| < TWO_31 && SamePerBlock(ws, Written(capacity, events))
    ensures Holds(Applied(b, ws), Exec(capacity, events).shared)
  {
    var sh := Exec(capacity, events).shared;
    ScheduleWrites(capacity, events, b);
    SafeInEverySchedule(capacity, events);
    RegionsApart(sh);
    forall o | o in sh.nodes ensures NodeAt(Applied(b, ws), o, sh.nodes[o]) { OneBlock(sh, b, ws, Written(capacity, events), o); }
  }

  lemma OneBlock(sh: Shared, b: seq<byte>, ws: seq<Write>, order: seq<Write>, o: Offset)
    requires Apart(sh) && |b| == sh.capacity && OwnBytes(b, sh.nodes, order) && SamePerBlock(ws, order) && o in sh.nodes
    ensures NodeAt(Applied(b, ws), o, sh.nodes[o])
  {
    var end := NodeEnd(o, sh.nodes[o]);
    forall w | w in ws && w.owner != o ensures Misses(w, o, end) { OtherBlock(sh, ws, order, o, w); }
    OwnWritesDecide(b, ws, o, o, end);
    assert Into(ws, o) == Into(order, o);
    NodeFrame(Applied(b, Into(ws, o)), Applied(b, ws), o, sh.nodes[o]);
  }

  lemma OtherBlock(sh: Shared, ws: seq<Write>, order: seq<Write>, o: Offset, w: Write)
    requires Apart(sh) && SamePerBlock(ws, order) && (forall x :: x in order ==> Inside(sh.nodes, x))
    requires o in sh.nodes && w in ws && w.owner != o
    ensures Misses(w, o, NodeEnd(o, sh.nodes[o]))
  {
    IntoMember(ws, w.owner);
    IntoMember(order, w.owner);
    assert Into(ws, w.owner) == Into(order, w.owner);
    assert Inside(sh.nodes, w);
  }
}
