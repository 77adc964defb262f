/** A put that returns has entered its node into the list of every level below its height. */
module SkipListLinks {
  import opened Bytes
  import opened Records
  import opened NodeLayout
  import opened SkipListMachine
  import opened SkipListInvariant
  import opened SkipListTheorems

  /** The level a put works on: 0 until its node is published. */
  function LevelOf(th: Thread): nat
  {
    match th
    case Start(_, Link(at), _, _) => at
    case Search(_, Link(at), _, _, _, _, _) => at
    case LinkUp(_, i, _, _) => i
    case _ => 0
  }

  /** The compare-and-swap of a level: the pointer of the predecessor found still holds the successor found and is set
      to the node; nothing else changes. */
  ghost predicate Swaps(sh: Shared, th: Thread, sh': Shared, l: nat, node: Offset)
  {
    && th.LinkUp? && l < MAX_HEIGHT && InRange(sh, th.preds[l], l)
    && Load(sh, th.preds[l], l) == th.succs[l] && sh' == Store(sh, th.preds[l], l, node)
  }

  lemma LinkMove(sh: Shared, th: Thread)
    requires ListOk(sh) && ThreadOk(sh, th) && th.LinkUp?
    ensures var (sh', th') := LinkStep(sh, th);
            || (!th'.PutDone? && LevelOf(th') == th.i && sh' == sh)
            || (!th'.PutDone? && LevelOf(th') == th.i + 1 && Swaps(sh, th, sh', th.i, th.node))
            || (th'.PutDone? && th.i >= HeightOf(sh, th.node) && sh' == sh)
  {
    var LinkUp(node, i, preds, succs) := th;
    if i < HeightOf(sh, node) && i < MAX_HEIGHT && Load(sh, preds[i], i) == succs[i] {
      assert PredOk(sh, KeyOf(sh, node), preds[i], i);
      assert InRange(sh, preds[i], i);
    }
  }

  /** One move of a put: it stays on its level, publishes, links its level and goes on to the next, or is done. */
  lemma LevelMove(sh: Shared, th: Thread, call: Call, node: Offset)
    requires ListOk(sh) && ThreadOk(sh, th) && NodeOf(th) == Some(node) && !th.PutDone?
    ensures var (sh', th') := Move(sh, th, call);
            || (!th'.PutDone? && LevelOf(th') == LevelOf(th))
            || (LevelOf(th) == 0 && LevelOf(th') == 1)
            || (!th'.PutDone? && LevelOf(th) >= 1 && LevelOf(th') == LevelOf(th) + 1 && Swaps(sh, th, sh', LevelOf(th), node))
            || (th'.PutDone? && LevelOf(th) >= HeightOf(sh, node))
  {
    match th
    case LinkUp(_, _, _, _) => LinkMove(sh, th);
    case Wire(_, _, _, _) => WireLevel(sh, th);
    case Start(_, _, _, _) => SearchLevel(sh, th, call);
    case Search(_, _, _, _, _, _, _) => SearchLevel(sh, th, call);
  }

  lemma SearchLevel(sh: Shared, th: Thread, call: Call)
    requires th.Start? || th.Search?
    ensures var th' := Move(sh, th, call).1; !th'.PutDone? && LevelOf(th') == LevelOf(th)
  {
  }

  lemma WireLevel(sh: Shared, th: Thread)
    requires th.Wire?
    ensures var th' := WireStep(sh, th).1; !th'.PutDone? && (LevelOf(th') == 0 || LevelOf(th') == 1)
  {
  }

  /** Step `k` of thread `t` enters the node on level `l`. */
  ghost predicate EntersAt(capacity: nat, events: seq<Event>, t: Tid, node: Offset, l: nat, k: nat)
    requires k < |events|
  {
    events[k].tid == t && Swaps(At(capacity, events, k).shared, ThreadOf(At(capacity, events, k), t), At(capacity, events, k + 1).shared, l, node)
  }

  ghost predicate Entered(capacity: nat, events: seq<Event>, t: Tid, node: Offset, l: nat, begin: nat, m: nat)
    requires m <= |events|
  {
    exists k: nat :: begin <= k < m && EntersAt(capacity, events, t, node, l, k)
  }

  /** The levels a put has behind it. */
  function DoneOf(th: Thread, height: nat): nat
  {
    if th.PutDone? then height else LevelOf(th)
  }

  ghost function Done(capacity: nat, events: seq<Event>, t: Tid, height: nat, m: nat): nat
    requires m <= |events|
  {
    DoneOf(ThreadOf(At(capacity, events, m), t), height)
  }

  lemma EnteredStays(capacity: nat, events: seq<Event>, t: Tid, node: Offset, l: nat, begin: nat, m: nat)
    requires m < |events| && Entered(capacity, events, t, node, l, begin, m)
    ensures Entered(capacity, events, t, node, l, begin, m + 1)
  {
    var k: nat :| begin <= k < m && EntersAt(capacity, events, t, node, l, k);
  }

  /** One step of any thread during a put. */
  lemma DoneMove(s: State, e: Event, t: Tid, node: Offset, record: LogRecord, height: nat, l: nat)
    requires ListOk(s.shared) && ThreadOk(s.shared, ThreadOf(s, t)) && OwnNode(s, t, node, record, height) && InPut(s, t)
    requires DoneOf(ThreadOf(s, t), height) <= l < DoneOf(ThreadOf(Step(s, e), t), height) && l >= 1
    ensures e.tid == t && Swaps(s.shared, ThreadOf(s, t), Step(s, e).shared, l, node)
  {
    StepParts(s, e, t);
    if e.tid == t { LevelMove(s.shared, ThreadOf(s, t), e.call, node); }
  }

  lemma DoneStep(capacity: nat, events: seq<Event>, t: Tid, node: Offset, record: LogRecord, height: nat, m: nat, l: nat)
    requires HEAD_END <= capacity && m < |events| && OwnNode(At(capacity, events, m), t, node, record, height)
    requires InPut(At(capacity, events, m), t) && 1 <= l < Done(capacity, events, t, height, m + 1)
    ensures l < Done(capacity, events, t, height, m) || EntersAt(capacity, events, t, node, l, m)
  {
    ExecStep(capacity, events, m);
    ListSafe(capacity, events[..m], t);
    if l >= Done(capacity, events, t, height, m) { DoneMove(At(capacity, events, m), events[m], t, node, record, height, l); }
  }

  lemma {:induction false} EnteredSoFar(capacity: nat, events: seq<Event>, t: Tid, record: LogRecord, height: nat, begin: nat, end: nat, m: nat, l: nat)
    requires HEAD_END <= capacity && Putting(capacity, events, t, record, height, begin, end) && begin < m <= end
    requires 1 <= l < Done(capacity, events, t, height, m)
    ensures Entered(capacity, events, t, At(capacity, events, begin).shared.top, l, begin, m)
    decreases m
  {
    var node := At(capacity, events, begin).shared.top;
    if m == begin + 1 {
      FirstLevel(capacity, events, t, record, height, begin, end);
    } else {
      NodeOfCall(capacity, events, t, record, height, begin, end, m - 1);
      DoneStep(capacity, events, t, node, record, height, m - 1, l);
      if l < Done(capacity, events, t, height, m - 1) {
        EnteredSoFar(capacity, events, t, record, height, begin, end, m - 1, l);
        EnteredStays(capacity, events, t, node, l, begin, m - 1);
      }
    }
  }

  /** The first step of a put allocates; it is on no level yet. */
  lemma FirstLevel(capacity: nat, events: seq<Event>, t: Tid, record: LogRecord, height: nat, begin: nat, end: nat)
    requires Putting(capacity, events, t, record, height, begin, end)
    ensures Done(capacity, events, t, height, begin + 1) == 0
  {
    var s := At(capacity, events, begin);
    ExecStep(capacity, events, begin);
    StepParts(s, events[begin], t);
    PutStarts(s.shared, record, height);
  }

  /** Between the call of a put and its return its thread enters the node, besides publishing it on level 0, on every
      other level below the height of the call. */
  lemma PutEntersEveryLevel(capacity: nat, events: seq<Event>, t: Tid, record: LogRecord, height: nat, begin: nat, end: nat, l: nat)
    requires HEAD_END <= capacity && Putting(capacity, events, t, record, height, begin, end) && 1 <= l < height
    ensures Entered(capacity, events, t, ThreadOf(At(capacity, events, end), t).node, l, begin, end)
  {
    NodeOfCall(capacity, events, t, record, height, begin, end, end);
    EnteredSoFar(capacity, events, t, record, height, begin, end, end, l);
  }

  /** A step changes a pointer of a node in the list only from the value its thread found there to the thread's own
      node: any other pointer of a listed node keeps its value. */
  lemma OnlySwaps(sh: Shared, th: Thread, call: Call, p: Offset, l: nat)
    requires ListOk(sh) && ThreadOk(sh, th) && RegionsOk(sh) && p in sh.chain && Load(Move(sh, th, call).0, p, l) != Load(sh, p, l)
    ensures (th.Wire? && l == 0 && p == th.preds[0] && Load(sh, p, 0) == th.succs[0])
         || (th.LinkUp? && l == th.i < MAX_HEIGHT && p == th.preds[l] && Load(sh, p, l) == th.succs[l])
    ensures NodeOf(th) == Some(Load(Move(sh, th, call).0, p, l))
  {
    match th
    case Idle => if call.CallPut? { AllocateLoads(sh, call.record, call.height, p, l); }
    case Wire(_, _, _, _) => WireLoads(sh, th, p, l);
    case LinkUp(_, _, _, _) => LinkLoads(sh, th, p, l);
    case _ =>
  }

  lemma StoreLoads(sh: Shared, o: Offset, i: nat, target: Offset, p: Offset, l: nat)
    ensures Load(Store(sh, o, i, target), p, l) == if InRange(sh, o, i) && p == o && l == i then target else Load(sh, p, l)
  {
  }

  lemma AllocateLoads(sh: Shared, record: LogRecord, height: nat, p: Offset, l: nat)
    requires RegionsOk(sh) && p in sh.nodes
    ensures Load(Move(sh, Idle, CallPut(record, height)).0, p, l) == Load(sh, p, l)
  {
    NoNodeAtTop(sh);
  }

  lemma WireLoads(sh: Shared, th: Thread, p: Offset, l: nat)
    requires th.Wire? && ListOk(sh) && ThreadOk(sh, th) && p in sh.chain && Load(WireStep(sh, th).0, p, l) != Load(sh, p, l)
    ensures l == 0 && p == th.preds[0] && Load(sh, p, 0) == th.succs[0] && Load(WireStep(sh, th).0, p, l) == th.node
  {
    var Wire(node, i, preds, succs) := th;
    if i < HeightOf(sh, node) && i < MAX_HEIGHT {
      StoreLoads(sh, node, i, succs[i], p, l);
    } else {
      StoreLoads(sh, preds[0], 0, node, p, l);
    }
  }

  lemma LinkLoads(sh: Shared, th: Thread, p: Offset, l: nat)
    requires th.LinkUp? && ListOk(sh) && ThreadOk(sh, th) && p in sh.chain && Load(LinkStep(sh, th).0, p, l) != Load(sh, p, l)
    ensures l == th.i < MAX_HEIGHT && p == th.preds[l] && Load(sh, p, l) == th.succs[l] && Load(LinkStep(sh, th).0, p, l) == th.node
  {
    var LinkUp(node, i, preds, succs) := th;
    if i < MAX_HEIGHT { StoreLoads(sh, preds[i], i, node, p, l); }
  }
}
