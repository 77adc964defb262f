/** The memtable: log first, then insert into the skip list; it freezes itself when the arena is nearly full.
    What the engine sees of a memtable is its state; the class shows that the arena and the skip list give it. */
module MemTable {
  import opened Bytes
  import opened Records
  import opened NodeLayout
  import opened SparseIndex
  import opened Layers
  import opened NodeAccessor
  import Arena
  import OffHeapSkipList
  import SkipListTheorems

  const MEMTABLE_CAPACITY: nat := 64 * 1024 * 1024

  /** The versions in list order, the arena space taken, whether the table is frozen, and its log. */
  datatype State = State(records: Layer, usage: nat, isImmutable: bool, wal: seq<LogRecord>)

  /** Arena space of one node. */
  function Room(record: LogRecord, height: nat): nat
  {
    AlignUp(NodeSize(record, height))
  }

  /** Space taken before the first put: the null sentinel and the list head. */
  function EmptyUsage(): nat
  {
    SkipListTheorems.HEAD_END
  }

  function Fresh(): State
  {
    State([], EmptyUsage(), false, [])
  }

  predicate Accepts(m: State, capacity: nat, record: LogRecord, height: nat)
  {
    !m.isImmutable && m.usage + Room(record, height) <= capacity
  }

  function Threshold(capacity: nat): nat
  {
    capacity * 9 / 10
  }

  /** A put logs the record and inserts it. A full arena throws after the record was logged: it stays in the
      log and its space stays taken, but it is not in the table. */
  function AfterPut(m: State, capacity: nat, record: LogRecord, height: nat): State
  {
    if m.isImmutable then m
    else
      var usage, wal := m.usage + Room(record, height), m.wal + [record];
      if usage > capacity then State(m.records, usage, false, wal)
      else State(Insert(m.records, Normalize(record)), usage, usage >= Threshold(capacity), wal)
  }

  ghost predicate Ordered(m: State)
  {
    SortedByKey(m.records) && forall r :: r in m.records ==> Normalize(r) == r
  }

  /** A put keeps the list in key order. */
  lemma AfterPutOrdered(m: State, capacity: nat, record: LogRecord, height: nat)
    requires Ordered(m)
    ensures Ordered(AfterPut(m, capacity, record, height))
  {
    InsertSorted(m.records, Normalize(record));
    InsertIn(m.records, Normalize(record));
  }

  /** What a put does to a memtable of 64 MiB. It is logged unless the table is frozen; it takes the node's bytes (20,
      four for each level, key, value, pointer) rounded up to a multiple of four, even if they do not fit; it is
      inserted exactly if they do; and from 60397977 bytes on, nine tenths, the table is frozen. */
  lemma PutRules(m: State, record: LogRecord, height: nat, room: nat)
    requires 20 + 4 * height + |record.key| + |record.value| + |PointerBytes(record)| <= room && room % 4 == 0
    requires room < 24 + 4 * height + |record.key| + |record.value| + |PointerBytes(record)|
    ensures var after := AfterPut(m, MEMTABLE_CAPACITY, record, height);
            && (m.isImmutable ==> after == m)
            && (!m.isImmutable ==> after.wal == m.wal + [record] && after.usage == m.usage + room)
            && (!m.isImmutable && m.usage + room > 67108864 ==> after.records == m.records && !after.isImmutable)
            && (!m.isImmutable && m.usage + room <= 67108864 ==>
                  after.records == Insert(m.records, Normalize(record)) && (after.isImmutable <==> after.usage >= 60397977))
            && (Accepts(m, MEMTABLE_CAPACITY, record, height) <==> !m.isImmutable && m.usage + room <= 67108864)
    ensures Fresh() == State([], 72, false, [])
  {
    RoomIs(record, height, room);
  }

  lemma RoomIs(record: LogRecord, height: nat, room: nat)
    requires NodeSize(record, height) <= room < NodeSize(record, height) + 4 && room % 4 == 0
    ensures Room(record, height) == room
  {
  }

  class MemTable {
    const memoryThreshold: nat
    const walFileName: nat
    const arena: Arena.Arena
    const skipList: OffHeapSkipList.OffHeapSkipList
    var isImmutable: bool
    /** The records appended to this table's log. */
    var wal: seq<LogRecord>

    ghost predicate Valid()
      reads this, arena, arena.buffer, skipList
    {
      skipList.arena == arena && skipList.Valid() && memoryThreshold == Threshold(arena.capacity)
    }

    ghost function Current(): State
      reads this, arena, arena.buffer, skipList
      requires Valid()
    {
      State(skipList.Contents(), arena.allocateOffset, isImmutable, wal)
    }

    constructor (capacity: nat, walFileName: nat)
      requires SkipListTheorems.HEAD_END <= capacity < TWO_31
      ensures Valid() && Current() == Fresh() && arena.capacity == capacity && this.walFileName == walFileName
      ensures fresh(arena) && fresh(arena.buffer) && fresh(skipList)
    {
      this.walFileName := walFileName;
      memoryThreshold := capacity * 9 / 10;
      var block := new Arena.Arena(capacity);
      var list := new OffHeapSkipList.OffHeapSkipList(block);
      arena, skipList := block, list;
      isImmutable, wal := false, [];
    }

    /** `appended` says whether the log append succeeds; when it throws, nothing is inserted. */
    method Put(record: LogRecord, height: nat, appended: bool) returns (ok: bool)
      requires Valid() && LengthsFit(record) && 1 <= height <= MAX_HEIGHT
      modifies this, arena, arena.buffer, skipList
      ensures Valid() && ok == (appended && Accepts(old(Current()), arena.capacity, record, height))
      ensures Current() == if appended then AfterPut(old(Current()), arena.capacity, record, height) else old(Current())
    {
      if isImmutable || !appended { return false; }
      wal := wal + [record];
      ok := skipList.Put(record, height);
      if ok && arena.allocateOffset >= memoryThreshold { isImmutable := true; }
    }

    /** The newest version of the key. */
    method GetRecord(key: seq<byte>) returns (r: Option<LogRecord>)
      requires Valid()
      ensures r == FirstWithKey(Current().records, key)
    {
      r := skipList.GetRecord(key);
    }

    /** Every version in order, for a flush; None where the program throws because the table is not frozen. */
    method ForEach() returns (visited: Option<seq<LogRecord>>)
      requires Valid()
      ensures visited == if isImmutable then Some(Current().records) else None
    {
      if !isImmutable { return None; }
      var all := skipList.ForEach();
      return Some(all);
    }

    method Freeze()
      requires Valid()
      modifies this`isImmutable
      ensures Valid() && Current() == old(Current()).(isImmutable := true)
    {
      isImmutable := true;
    }
  }
}
