/** The lock-free skip list as a step machine. Any number of threads run `put` and `getRecord`;
    one step of one thread performs at most one shared access: an allocation, a pointer read,
    a pointer write or a compare-and-swap. A schedule is a sequence of events naming the thread
    that moves, so a statement over all schedules is a statement over all interleavings. */
module SkipListMachine {
  import opened Bytes
  import opened Records
  import opened NodeLayout

  type Offset = nat
  type Tid = nat
  type Lane = s: seq<Offset> | |s| == MAX_HEIGHT witness [0, 0, 0, 0, 0, 0, 0, 0, 0, 0, 0, 0]

  /** The list head is the first node an arena hands out. */
  const HEAD: Offset := 4

  datatype Node = Node(record: LogRecord, height: nat, next: seq<Offset>)

  /** `nodes`, `top` and `capacity` are the arena. `chain` and `published` are history that no step
      reads: the level-0 list from the head, and the nodes in the order their level-0 CAS succeeded. */
  datatype Shared = Shared(nodes: map<Offset, Node>, top: nat, capacity: nat,
                           chain: seq<Offset>, published: seq<Offset>)

  /** What a predecessor search is for: the level-0 CAS, or the retry of an upper-level CAS. */
  datatype Goal = Publish | Link(at: nat)

  datatype Thread =
    | Idle
    | Start(node: Offset, goal: Goal, preds: Lane, succs: Lane)
    | Search(node: Offset, goal: Goal, level: nat, cur: Offset, nxt: Offset, preds: Lane, succs: Lane)
    | Wire(node: Offset, i: nat, preds: Lane, succs: Lane)
    | LinkUp(node: Offset, i: nat, preds: Lane, succs: Lane)
    | PutDone(node: Offset)
    | PutFailed
    | Get(key: seq<byte>, level: nat, cur: Offset, nxt: Offset)
    | GetDone(key: seq<byte>, result: Option<Offset>)

  datatype Call = CallPut(record: LogRecord, height: nat) | CallGet(key: seq<byte>)

  /** `tid` moves; `call` is what it invokes when it is idle. */
  datatype Event = Event(tid: Tid, call: Call)

  datatype State = State(shared: Shared, threads: map<Tid, Thread>)

  function KeyOf(sh: Shared, o: Offset): seq<byte>
  {
    if o in sh.nodes then sh.nodes[o].record.key else []
  }

  function HeightOf(sh: Shared, o: Offset): nat
  {
    if o in sh.nodes then sh.nodes[o].height else 0
  }

  predicate InRange(sh: Shared, o: Offset, level: nat)
  {
    o in sh.nodes && level < |sh.nodes[o].next|
  }

  function Load(sh: Shared, o: Offset, level: nat): Offset
  {
    if InRange(sh, o, level) then sh.nodes[o].next[level] else 0
  }

  function Store(sh: Shared, o: Offset, level: nat, target: Offset): Shared
  {
    if InRange(sh, o, level)
    then sh.(nodes := sh.nodes[o := sh.nodes[o].(next := sh.nodes[o].next[level := target])])
    else sh
  }

  function InsertAfter(chain: seq<Offset>, pred: Offset, node: Offset): seq<Offset>
  {
    if chain == [] then []
    else if chain[0] == pred then [pred, node] + chain[1..]
    else [chain[0]] + InsertAfter(chain[1..], pred, node)
  }

  // ---------- the steps ----------

  function Zeros(n: nat): (s: seq<Offset>)
    ensures |s| == n
  {
    seq(n, _ => 0)
  }

  const ZEROS: Lane := Zeros(MAX_HEIGHT)
  const DUMMY: LogRecord := LogRecord(0, [], [], None)

  function Init(capacity: nat): State
  {
    State(Shared(map[HEAD := Node(DUMMY, MAX_HEIGHT, ZEROS)], ALIGN_BYTES + AlignUp(NodeSize(DUMMY, MAX_HEIGHT)),
                 capacity, [HEAD], []),
          map[])
  }

  function ThreadOf(s: State, t: Tid): Thread
  {
    if t in s.threads then s.threads[t] else Idle
  }

  /** `fetch_add` moves the bump pointer even when the block does not fit. */
  function Allocate(sh: Shared, record: LogRecord, height: nat): (Shared, Thread)
  {
    var top' := sh.top + AlignUp(NodeSize(record, height));
    if top' > sh.capacity then (sh.(top := top'), PutFailed)
    else (sh.(top := top', nodes := sh.nodes[sh.top := Node(record, height, Zeros(height))]),
          Start(sh.top, Publish, ZEROS, ZEROS))
  }

  function SearchStep(sh: Shared, th: Thread): Thread
    requires th.Search?
  {
    var Search(node, goal, level, cur, nxt, preds, succs) := th;
    if nxt != 0 && Less(KeyOf(sh, nxt), KeyOf(sh, node)) then
      Search(node, goal, level, nxt, Load(sh, nxt, level), preds, succs)
    else
      var preds' := if level < MAX_HEIGHT then preds[level := cur] else preds;
      var succs' := if level < MAX_HEIGHT then succs[level := nxt] else succs;
      if level > 0 then
        Search(node, goal, level - 1, cur, Load(sh, cur, level - 1), preds', succs')
      else
        match goal
        case Publish => Wire(node, 0, preds', succs')
        case Link(i) => LinkUp(node, i, preds', succs')
  }

  /** Writes the new node's own pointers, then tries the level-0 CAS. */
  function WireStep(sh: Shared, th: Thread): (Shared, Thread)
    requires th.Wire?
  {
    var Wire(node, i, preds, succs) := th;
    if i < HeightOf(sh, node) && i < MAX_HEIGHT then
      (Store(sh, node, i, succs[i]), Wire(node, i + 1, preds, succs))
    else if Load(sh, preds[0], 0) == succs[0] then
      (PublishNode(sh, preds[0], node), LinkUp(node, 1, preds, succs))
    else
      (sh, Start(node, Publish, preds, succs))
  }

  /** The successful level-0 CAS. */
  function PublishNode(sh: Shared, pred: Offset, node: Offset): Shared
  {
    Store(sh, pred, 0, node).(chain := InsertAfter(sh.chain, pred, node), published := sh.published + [node])
  }

  /** An upper-level CAS. A failure searches again but leaves the node's own pointer as it was wired. */
  function LinkStep(sh: Shared, th: Thread): (Shared, Thread)
    requires th.LinkUp?
  {
    var LinkUp(node, i, preds, succs) := th;
    if i >= HeightOf(sh, node) || i >= MAX_HEIGHT then (sh, PutDone(node))
    else if Load(sh, preds[i], i) == succs[i] then
      (Store(sh, preds[i], i, node), LinkUp(node, i + 1, preds, succs))
    else (sh, Start(node, Link(i), preds, succs))
  }

  function GetStep(sh: Shared, th: Thread): Thread
    requires th.Get?
  {
    var Get(key, level, cur, nxt) := th;
    if nxt != 0 && Less(KeyOf(sh, nxt), key) then
      Get(key, level, nxt, Load(sh, nxt, level))
    else if nxt != 0 && KeyOf(sh, nxt) == key && level == 0 then
      GetDone(key, Some(nxt))
    else if level > 0 then
      Get(key, level - 1, cur, Load(sh, cur, level - 1))
    else
      GetDone(key, None)
  }

  function Move(sh: Shared, th: Thread, call: Call): (Shared, Thread)
  {
    match th
    case Idle =>
      (match call
       case CallPut(record, height) => if 1 <= height <= MAX_HEIGHT then Allocate(sh, record, height) else (sh, Idle)
       case CallGet(key) => (sh, Get(key, MAX_HEIGHT - 1, HEAD, Load(sh, HEAD, MAX_HEIGHT - 1))))
    case Start(node, goal, preds, succs) =>
      (sh, Search(node, goal, MAX_HEIGHT - 1, HEAD, Load(sh, HEAD, MAX_HEIGHT - 1), preds, succs))
    case Search(_, _, _, _, _, _, _) => (sh, SearchStep(sh, th))
    case Wire(_, _, _, _) => WireStep(sh, th)
    case LinkUp(_, _, _, _) => LinkStep(sh, th)
    case Get(_, _, _, _) => (sh, GetStep(sh, th))
    case PutDone(_) => (sh, Idle)
    case PutFailed => (sh, Idle)
    case GetDone(_, _) => (sh, Idle)
  }

  function Step(s: State, e: Event): State
  {
    var (shared, thread) := Move(s.shared, ThreadOf(s, e.tid), e.call);
    State(shared, s.threads[e.tid := thread])
  }

  function Exec(capacity: nat, events: seq<Event>): State
  {
    if events == [] then Init(capacity)
    else Step(Exec(capacity, events[..|events| - 1]), events[|events| - 1])
  }

  // ---------- the invariant ----------

  function EndOf(sh: Shared, o: Offset): nat
    requires o in sh.nodes
  {
    o + AlignUp(NodeSize(sh.nodes[o].record, sh.nodes[o].height))
  }

  /** Every node lies inside the arena, aligned, off the null offset and apart from every other node. */
  ghost predicate RegionsOk(sh: Shared)
  {
    && sh.top % ALIGN_BYTES == 0 && sh.top > 0
    && (forall o :: o in sh.nodes ==>
          o > 0 && o % ALIGN_BYTES == 0 && EndOf(sh, o) <= sh.top && EndOf(sh, o) <= sh.capacity)
    && (forall o, p :: o in sh.nodes && p in sh.nodes && o < p ==> EndOf(sh, o) <= p)
  }

  ghost predicate ShapeOk(sh: Shared)
  {
    && HEAD in sh.nodes && sh.nodes[HEAD].height == MAX_HEIGHT && 0 !in sh.nodes
    && (forall o :: o in sh.nodes ==> 1 <= sh.nodes[o].height <= MAX_HEIGHT && |sh.nodes[o].next| == sh.nodes[o].height)
  }

  ghost predicate Distinct(chain: seq<Offset>)
  {
    forall i, j :: 0 <= i < j < |chain| ==> chain[i] != chain[j]
  }

  /** The position of a member. */
  ghost function IndexOf(chain: seq<Offset>, x: Offset): (i: nat)
    requires x in chain
    ensures i < |chain| && chain[i] == x
  {
    var i :| 0 <= i < |chain| && chain[i] == x;
    i
  }

  ghost predicate ChainOk(sh: Shared)
  {
    && sh.chain != [] && sh.chain[0] == HEAD
    && Distinct(sh.chain)
    && (forall x :: x in sh.chain ==> x in sh.nodes)
  }

  /** The level-0 pointer of the node at position `i` names the node at position `i + 1`. */
  ghost predicate StepsTo(sh: Shared, i: nat)
    requires i < |sh.chain|
  {
    Load(sh, sh.chain[i], 0) == if i + 1 < |sh.chain| then sh.chain[i + 1] else 0
  }

  /** The level-0 pointers spell out the chain, which ends in null: no cycle, nothing lost. */
  ghost predicate Level0Ok(sh: Shared)
  {
    forall i: nat :: i < |sh.chain| ==> StepsTo(sh, i)
  }

  ghost predicate InKeyOrder(sh: Shared, chain: seq<Offset>)
  {
    forall i, j :: 1 <= i < j < |chain| ==> !Less(KeyOf(sh, chain[j]), KeyOf(sh, chain[i]))
  }

  ghost predicate SortedOk(sh: Shared)
  {
    InKeyOrder(sh, sh.chain)
  }

  /** A link at `level` is null or leads strictly forward in level-0 order to a node tall enough. */
  ghost predicate LinkOk(sh: Shared, a: Offset, level: nat)
  {
    Load(sh, a, level) == 0 || Ahead(sh, a, Load(sh, a, level), level)
  }

  ghost predicate Ahead(sh: Shared, a: Offset, b: Offset, level: nat)
  {
    a in sh.chain && b in sh.chain && level < HeightOf(sh, b) && IndexOf(sh.chain, a) < IndexOf(sh.chain, b)
  }

  ghost predicate UpperOk(sh: Shared)
  {
    forall a, level :: a in sh.chain && 1 <= level < HeightOf(sh, a) ==> LinkOk(sh, a, level)
  }

  /** The chain holds exactly the published nodes, newest first within a key. */
  ghost predicate PublishedOk(sh: Shared)
  {
    && Distinct(sh.published)
    && (forall x :: x in sh.published <==> x in sh.chain && x != HEAD)
    && (forall p :: 0 <= p < |sh.published| ==> sh.published[p] in sh.chain)
    && (forall p, q :: 0 <= p < q < |sh.published| && KeyOf(sh, sh.published[p]) == KeyOf(sh, sh.published[q])
          ==> IndexOf(sh.chain, sh.published[q]) < IndexOf(sh.chain, sh.published[p]))
  }

  ghost predicate ListOk(sh: Shared)
  {
    ShapeOk(sh) && ChainOk(sh) && Level0Ok(sh) && SortedOk(sh) && UpperOk(sh) && PublishedOk(sh)
  }

  ghost predicate PredOk(sh: Shared, key: seq<byte>, o: Offset, level: nat)
  {
    o in sh.chain && level < HeightOf(sh, o) && (o == HEAD || Less(KeyOf(sh, o), key))
  }

  ghost predicate NextOk(sh: Shared, o: Offset, level: nat)
  {
    o == 0 || (o in sh.chain && o != HEAD && level < HeightOf(sh, o))
  }

  ghost predicate SuccOk(sh: Shared, key: seq<byte>, o: Offset, level: nat)
  {
    NextOk(sh, o, level) && (o == 0 || !Less(KeyOf(sh, o), key))
  }

  /** The search results are usable on every level from `from` up. */
  ghost predicate LanesOk(sh: Shared, key: seq<byte>, preds: Lane, succs: Lane, from: nat)
  {
    forall l :: from <= l < MAX_HEIGHT ==> PredOk(sh, key, preds[l], l) && SuccOk(sh, key, succs[l], l)
  }

  ghost predicate GoalOk(sh: Shared, node: Offset, goal: Goal)
  {
    && node in sh.nodes && node != HEAD
    && (goal.Publish? ==> node !in sh.chain)
    && (goal.Link? ==> node in sh.chain && 1 <= goal.at < HeightOf(sh, node))
  }

  ghost predicate Wired(sh: Shared, node: Offset, count: nat, succs: Lane)
  {
    forall l :: 0 <= l < count && l < MAX_HEIGHT ==> Load(sh, node, l) == succs[l]
  }

  ghost predicate ThreadOk(sh: Shared, th: Thread)
  {
    match th
    case Idle => true
    case Start(node, goal, _, _) => GoalOk(sh, node, goal)
    case Search(node, goal, level, cur, nxt, preds, succs) =>
      && GoalOk(sh, node, goal) && level < MAX_HEIGHT
      && PredOk(sh, KeyOf(sh, node), cur, level) && NextOk(sh, nxt, level)
      && LanesOk(sh, KeyOf(sh, node), preds, succs, level + 1)
    case Wire(node, i, preds, succs) =>
      && GoalOk(sh, node, Publish) && i <= HeightOf(sh, node)
      && LanesOk(sh, KeyOf(sh, node), preds, succs, 0)
      && Wired(sh, node, i, succs)
    case LinkUp(node, i, preds, succs) =>
      && node in sh.chain && node != HEAD && 1 <= i <= HeightOf(sh, node)
      && LanesOk(sh, KeyOf(sh, node), preds, succs, 0)
    case PutDone(node) => node in sh.chain && node != HEAD
    case PutFailed => true
    case Get(key, level, cur, nxt) =>
      level < MAX_HEIGHT && PredOk(sh, key, cur, level) && NextOk(sh, nxt, level)
    case GetDone(key, result) =>
      result.Some? ==> result.value in sh.chain && result.value != HEAD && KeyOf(sh, result.value) == key
  }

  /** The allocated but not yet published node a thread works on. */
  function Unpublished(th: Thread): Option<Offset>
  {
    match th
    case Start(node, Publish, _, _) => Some(node)
    case Search(node, Publish, _, _, _, _, _) => Some(node)
    case Wire(node, _, _, _) => Some(node)
    case _ => None
  }

  ghost predicate OwnersOk(s: State)
  {
    forall t, u :: t in s.threads && u in s.threads && t != u && Unpublished(s.threads[t]).Some? ==>
      Unpublished(s.threads[t]) != Unpublished(s.threads[u])
  }

  ghost predicate Inv(s: State)
  {
    && RegionsOk(s.shared) && ListOk(s.shared)
    && (forall t :: t in s.threads ==> ThreadOk(s.shared, s.threads[t]))
    && OwnersOk(s)
  }

  // ---------- positions in the chain ----------

  lemma {:induction false} InsertAfterSplit(chain: seq<Offset>, pred: Offset, node: Offset, i: nat)
    requires Distinct(chain) && i < |chain| && chain[i] == pred
    ensures InsertAfter(chain, pred, node) == chain[..i + 1] + [node] + chain[i + 1..]
  {
    if i > 0 {
      InsertAfterSplit(chain[1..], pred, node, i - 1);
      assert chain[..i + 1] == [chain[0]] + chain[1..][..i];
    }
  }

  /** Inserting shifts exactly the positions after the predecessor by one. */
  lemma InsertAfterFacts(chain: seq<Offset>, pred: Offset, node: Offset)
    requires Distinct(chain) && pred in chain && node !in chain
    ensures var i, c := IndexOf(chain, pred), InsertAfter(chain, pred, node);
            && c == chain[..i + 1] + [node] + chain[i + 1..]
            && Distinct(c) && node in c && IndexOf(c, node) == i + 1
            && (forall x :: x in c <==> x in chain || x == node)
            && (forall x :: x in chain ==> IndexOf(c, x) == if IndexOf(chain, x) <= i then IndexOf(chain, x) else IndexOf(chain, x) + 1)
  {
    var i := IndexOf(chain, pred);
    var c := InsertAfter(chain, pred, node);
    InsertAfterSplit(chain, pred, node, i);
    assert c[i + 1] == node;
    forall a, b | 0 <= a < b < |c| ensures c[a] != c[b] {
      var a' := if a <= i then a else a - 1;
      var b' := if b <= i then b else b - 1;
      if a != i + 1 && b != i + 1 { assert c[a] == chain[a'] && c[b] == chain[b']; }
    }
    forall x | x in chain
      ensures x in c && IndexOf(c, x) == if IndexOf(chain, x) <= i then IndexOf(chain, x) else IndexOf(chain, x) + 1
    {
      var p := IndexOf(chain, x);
      var q := if p <= i then p else p + 1;
      assert c[q] == x;
    }
  }

  /** A chain node whose key is not below `key` lies after any predecessor for `key`. */
  lemma AfterPred(sh: Shared, key: seq<byte>, pred: Offset, level: nat, x: Offset)
    requires ChainOk(sh) && SortedOk(sh)
    requires PredOk(sh, key, pred, level)
    requires x in sh.chain && x != HEAD && !Less(KeyOf(sh, x), key)
    ensures IndexOf(sh.chain, pred) < IndexOf(sh.chain, x)
  {
    var i, j := IndexOf(sh.chain, pred), IndexOf(sh.chain, x);
    if j < i { LessThenAtMost(KeyOf(sh, x), KeyOf(sh, pred), key); }
  }
}
