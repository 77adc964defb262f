/** Crashes between the steps of put, switch and flush, and the recoveries after them. One writer at a time
    logs a record, inserts it and returns; memtables freeze and are flushed oldest first; a log is removed only
    after its SSTable exists. A recovery replays every log, oldest first, into one fresh memtable, logs each
    record again there, and removes each old log once it is replayed. It fails when that memtable's arena is
    full, and a second crash may interrupt it. Directory listings are in name order, which is creation order.
    Every SSTable here answers with the newest version of a key (`ReaderStack.Searchable`). */
module CrashRecovery {
  import opened Bytes
  import opened Records
  import opened RecordLayout
  import opened SparseIndex
  import opened Layers
  import WalRecovery
  import MemTable

  type Puts = seq<LogRecord>

  const CAPACITY: nat := MemTable.MEMTABLE_CAPACITY

  /** A memtable and its log file: `wal` is what the file holds, `puts` what was inserted, in order, `usage`
      the arena space taken. `given` is history: the records that a call gave up on here although the log
      delivers them. `frozen` matters for the active table only. */
  datatype Segment = Segment(wal: Puts, puts: Puts, given: Puts, usage: nat, frozen: bool)

  const FRESH: Segment := Segment([], [], [], MemTable.EmptyUsage(), false)

  /** How far the writer got with its record in the active table. */
  datatype Stage = Unlogged | Logged | Rejected | Inserted

  datatype Writer = NoWriter | Writing(record: LogRecord, stage: Stage)

  /** A call that returned: its record was stored, or no table took it; `logged` if recovery can find it. */
  datatype Call = Stored(record: LogRecord) | Refused(record: LogRecord, logged: bool)

  /** `segments` are the tables not flushed yet, oldest first, the active one last; their `wal` parts and
      `tables` (oldest first) are on disk, the rest is memory, lost while the engine is not `up`. `flushing`:
      the SSTable of the oldest segment exists but its log was not removed yet. `returned` and `flushed` (the
      puts behind each table) are history that no step reads. */
  datatype State = State(tables: seq<Layer>, segments: seq<Segment>, flushing: bool, writer: Writer, up: bool,
                         returned: seq<Call>, flushed: seq<Puts>)

  datatype Event =
    | Begin(record: LogRecord)    // a put or remove call
    | AppendLog                   // the log append of `MemTable::put`, also of its retries
    | InsertRecord(height: nat)   // the skip list insertion; a full arena refuses it
    | Return                      // the call returns
    | GiveUp                      // the call returns although a table that holds nothing else refused its record
    | Switch                      // freeze, queue, and a fresh memtable with a fresh log
    | CreateTable                 // the flush has written its SSTable
    | RemoveLog                   // the flush has removed the log
    | Crash                       // everything in memory is lost
    // A recovery with these node heights. A second crash comes before it replays more than `limit` records;
    // if it does not complete, `dropped` logs were removed.
    | Restart(heights: seq<nat>, limit: nat, dropped: nat)

  const INIT: State := State([], [FRESH], false, NoWriter, true, [], [])

  function Join(parts: seq<Puts>): Puts
  {
    if parts == [] then [] else Join(parts[..|parts| - 1]) + parts[|parts| - 1]
  }

  /** Recovery reads a log up to the first record whose payload is over its size bound. */
  predicate Readable(r: LogRecord)
  {
    |RecordBytes(r)| <= WalRecovery.MAX_PAYLOAD
  }

  function Delivered(wal: Puts): Puts
  {
    if wal == [] then []
    else
      var front := Delivered(wal[..|wal| - 1]);
      if |front| == |wal| - 1 && Readable(wal[|wal| - 1]) then front + [wal[|wal| - 1]] else front
  }

  function Wals(segments: seq<Segment>): (s: seq<Puts>)
    ensures |s| == |segments|
  {
    seq(|segments|, i requires 0 <= i < |segments| => Delivered(segments[i].wal))
  }

  /** What a recovery would replay. */
  function LogOf(s: State): Puts
  {
    Join(Wals(s.segments))
  }

  /** What was inserted into each table, and from table `j` on what was given up as well. */
  function Contents(segments: seq<Segment>, j: nat): (s: seq<Puts>)
    ensures |s| == |segments|
  {
    seq(|segments|, i requires 0 <= i < |segments| => if i < j then segments[i].puts else segments[i].puts + segments[i].given)
  }

  /** All that the logs were made for. */
  function AllCalls(segments: seq<Segment>): Puts
  {
    Join(Contents(segments, 0))
  }

  /** How many given-up records the logs from segment `j` on deliver. */
  function Pending(segments: seq<Segment>, j: nat): nat
  {
    if |segments| <= j then 0 else Pending(segments[..|segments| - 1], j) + |segments[|segments| - 1].given|
  }

  /** The records that took effect if the last `g` logged but refused ones did. */
  function Effects(calls: seq<Call>, g: nat): Puts
  {
    if calls == [] then []
    else
      var front := calls[..|calls| - 1];
      match calls[|calls| - 1]
      case Stored(r) => Effects(front, g) + [r]
      case Refused(r, logged) => if logged && g > 0 then Effects(front, g - 1) + [r] else Effects(front, g)
  }

  /** The history in which they did. */
  function Settled(calls: seq<Call>, g: nat): seq<Call>
  {
    if calls == [] then []
    else
      var front, last := calls[..|calls| - 1], calls[|calls| - 1];
      if last.Refused? && last.logged && g > 0 then Settled(front, g - 1) + [Stored(last.record)]
      else Settled(front, g) + [last]
  }

  function StoredAll(rs: Puts): (s: seq<Call>)
    ensures |s| == |rs| && forall i :: 0 <= i < |s| ==> s[i] == Stored(rs[i])
  {
    seq(|rs|, i requires 0 <= i < |rs| => Stored(rs[i]))
  }

  function NewestFirst(tables: seq<Layer>): seq<Layer>
  {
    if tables == [] then [] else [tables[|tables| - 1]] + NewestFirst(tables[..|tables| - 1])
  }

  /** What a key would read after a complete recovery of what is on disk at this moment: the replayed logs in
      one active table, then the SSTables, newest first. */
  function Recovered(s: State, key: seq<byte>): Option<LogRecord>
  {
    FirstIn([InsertAll(LogOf(s))] + NewestFirst(s.tables), key)
  }

  /** The record in flight, if recovery finds it in the logs. */
  function Adopted(s: State): Puts
  {
    if s.writer.NoWriter? then []
    else if s.writer.stage.Inserted? then [s.writer.record]
    else if Squash(LogOf(s)) == Squash(AllCalls(s.segments)) then []
    else [s.writer.record]
  }

  // ---------- arena space ----------

  function HeightAt(heights: seq<nat>, i: nat): (h: nat)
    ensures h >= 1
  {
    if i < |heights| && heights[i] >= 1 then heights[i] else 1
  }

  /** Arena space taken once the records are replayed into a fresh table. */
  function UsageAfter(records: Puts, heights: seq<nat>): nat
  {
    if records == [] then MemTable.EmptyUsage()
    else
      var last := |records| - 1;
      UsageAfter(records[..last], heights) + MemTable.Room(records[last], HeightAt(heights, last))
  }

  /** How many records are replayed before the arena is full. */
  function Fitting(records: Puts, heights: seq<nat>): (n: nat)
    ensures n <= |records|
  {
    if records == [] then 0
    else
      var n := Fitting(records[..|records| - 1], heights);
      if n == |records| - 1 && UsageAfter(records, heights) <= CAPACITY then |records| else n
  }

  /** How many records are replayed and logged again before the recovery completes, fails or is interrupted. */
  function Replayed(records: Puts, heights: seq<nat>, limit: nat): (n: nat)
    ensures n <= |records|
  {
    if limit < Fitting(records, heights) then limit else Fitting(records, heights)
  }

  predicate Completes(records: Puts, heights: seq<nat>, limit: nat)
  {
    Fitting(records, heights) == |records| < limit
  }

  // ---------- steps ----------

  function Last(segments: seq<Segment>): Segment
    requires segments != []
  {
    segments[|segments| - 1]
  }

  function UpdateLast(segments: seq<Segment>, x: Segment): seq<Segment>
    requires segments != []
  {
    segments[..|segments| - 1] + [x]
  }

  function LogIn(x: Segment, r: LogRecord): Segment
  {
    x.(wal := x.wal + [r])
  }

  function InsertIn(x: Segment, r: LogRecord, height: nat): Segment
  {
    var usage := x.usage + MemTable.Room(r, height);
    if usage > CAPACITY then x.(usage := usage)
    else x.(puts := x.puts + [r], usage := usage, frozen := usage >= MemTable.Threshold(CAPACITY))
  }

  predicate Refuses(x: Segment, r: LogRecord, height: nat)
  {
    x.usage + MemTable.Room(r, height) > CAPACITY
  }

  function Recover(s: State, heights: seq<nat>, limit: nat, dropped: nat): State
  {
    var records := LogOf(s);
    if Completes(records, heights, limit) then
      var usage := UsageAfter(records, heights);
      s.(segments := [Segment(records, records, [], usage, usage >= MemTable.Threshold(CAPACITY))], up := true)
    else
      var n := Replayed(records, heights, limit);
      s.(segments := s.segments[Dropped(s, n, dropped)..] + [FRESH.(wal := records[..n])])
  }

  /** A log is removed once all its records are replayed. */
  function Dropped(s: State, n: nat, dropped: nat): (d: nat)
    ensures d <= |s.segments|
  {
    if dropped <= |s.segments| && |Join(Wals(s.segments[..dropped]))| <= n then dropped else 0
  }

  predicate CanLog(s: State)
  {
    s.up && s.writer.Writing? && (s.writer.stage.Unlogged? || s.writer.stage.Rejected?) && s.segments != [] && !Last(s.segments).frozen
  }

  predicate CanInsert(s: State)
  {
    s.up && s.writer.Writing? && s.writer.stage.Logged? && s.segments != []
  }

  /** After a switch a record that is not inserted is not logged in the active table either. */
  function Switched(w: Writer): Writer
  {
    if w.Writing? && !w.stage.Inserted? then Writing(w.record, Unlogged) else w
  }

  /** A table that holds nothing else refused the record, so the call returns without having stored it. */
  predicate CanGiveUp(s: State)
  {
    s.up && s.writer.Writing? && s.writer.stage.Rejected? && s.segments != [] && Last(s.segments).wal == [s.writer.record]
  }

  function GivenUp(s: State): State
    requires CanGiveUp(s)
  {
    var r, x := s.writer.record, Last(s.segments);
    s.(segments := UpdateLast(s.segments, if Readable(r) then x.(given := x.given + [r]) else x),
       writer := NoWriter, returned := s.returned + [Refused(r, Readable(r))])
  }

  function Step(s: State, e: Event): State
  {
    match e
    case Begin(record) => if s.up && s.writer.NoWriter? then s.(writer := Writing(record, Unlogged)) else s
    case AppendLog =>
      if CanLog(s) then
        s.(segments := UpdateLast(s.segments, LogIn(Last(s.segments), s.writer.record)), writer := Writing(s.writer.record, Logged))
      else s
    case InsertRecord(height) =>
      if CanInsert(s) then
        var r, x := s.writer.record, Last(s.segments);
        s.(segments := UpdateLast(s.segments, InsertIn(x, r, height)), writer := Writing(r, if Refuses(x, r, height) then Rejected else Inserted))
      else s
    case Return =>
      if s.up && s.writer.Writing? && s.writer.stage.Inserted? then s.(writer := NoWriter, returned := s.returned + [Stored(s.writer.record)]) else s
    case GiveUp => if CanGiveUp(s) then GivenUp(s) else s
    case Switch =>
      if s.up then
        s.(segments := s.segments + [FRESH],
           writer := Switched(s.writer))
      else s
    case CreateTable =>
      if s.up && |s.segments| > 1 && !s.flushing then
        s.(tables := s.tables + [InsertAll(s.segments[0].puts)], flushing := true, flushed := s.flushed + [s.segments[0].puts])
      else s
    case RemoveLog =>
      if s.up && |s.segments| > 1 && s.flushing then s.(segments := s.segments[1..], flushing := false) else s
    case Crash =>
      if s.up then
        s.(flushing := false, writer := NoWriter, up := false,
           returned := Settled(s.returned, Pending(s.segments, 0)) + StoredAll(Adopted(s)))
      else s
    case Restart(heights, limit, dropped) => if s.up then s else Recover(s, heights, limit, dropped)
  }

  function Exec(events: seq<Event>): State
  {
    if events == [] then INIT else Step(Exec(events[..|events| - 1]), events[|events| - 1])
  }

  /** An incomplete recovery does no harm to a key: none of its records is replayed, or the replayed ones are
      the last, or the newest replayed one equals the newest one behind. */
  predicate HarmlessFor(s: State, e: Event, key: seq<byte>)
  {
    e.Restart? && !s.up && !Completes(LogOf(s), e.heights, e.limit) ==>
      var n := Replayed(LogOf(s), e.heights, e.limit);
      var replayed, rest := Newest(LogOf(s)[..n], key), Newest(LogOf(s)[n..], key);
      replayed.None? || rest.None? || replayed == rest
  }

  ghost predicate Harmless(s: State, e: Event)
  {
    forall key :: HarmlessFor(s, e, key)
  }

  /** Every incomplete recovery of the run is harmless. */
  ghost predicate HarmlessRun(events: seq<Event>)
  {
    events != [] ==> HarmlessRun(events[..|events| - 1]) && Harmless(Exec(events[..|events| - 1]), events[|events| - 1])
  }

  // ---------- segments and memtables ----------

  /** A segment as the memtable it stands for. */
  function TableOf(x: Segment): MemTable.State
  {
    MemTable.State(InsertAll(x.puts), x.usage, x.frozen, x.wal)
  }

  /** The log append and the insertion together are the memtable's put. */
  lemma AttemptIsPut(x: Segment, r: LogRecord, height: nat)
    requires !x.frozen && Normalize(r) == r
    ensures TableOf(InsertIn(LogIn(x, r), r, height)) == MemTable.AfterPut(TableOf(x), CAPACITY, r, height)
    ensures Refuses(x, r, height) <==> !MemTable.Accepts(TableOf(x), CAPACITY, r, height)
  {
    assert (x.puts + [r])[..|x.puts|] == x.puts;
  }

  // ---------- repeated records ----------

  /** The list without immediate repetitions. */
  function Squash(rs: Puts): Puts
  {
    if rs == [] then []
    else
      var front, last := Squash(rs[..|rs| - 1]), rs[|rs| - 1];
      if front != [] && front[|front| - 1] == last then front else front + [last]
  }

  lemma {:induction false} SquashNewest(rs: Puts, key: seq<byte>)
    ensures Newest(Squash(rs), key) == Newest(rs, key)
  {
    if rs != [] {
      var front, last := Squash(rs[..|rs| - 1]), rs[|rs| - 1];
      SquashNewest(rs[..|rs| - 1], key);
      assert (front + [last])[..|front|] == front;
    }
  }

  lemma SquashPush(a: Puts, b: Puts, r: LogRecord)
    requires Squash(a) == Squash(b)
    ensures Squash(a + [r]) == Squash(b + [r])
    ensures Squash(a + [r] + [r]) == Squash(a + [r])
  {
    assert (a + [r])[..|a|] == a && (b + [r])[..|b|] == b && (a + [r] + [r])[..|a + [r]|] == a + [r];
  }

  // ---------- the invariant ----------

  /** The active log holds a record that recovery stops at; its table takes no more records. */
  predicate Blocked(x: Segment)
  {
    Delivered(x.wal) != x.wal
  }

  /** A table that was blocked, that gave up a record, or that has just refused one, is full. */
  predicate FullOk(s: State)
  {
    s.segments != [] && Last(s.segments).usage <= CAPACITY ==>
      && Last(s.segments).given == [] && !(s.writer.Writing? && s.writer.stage.Rejected?)
      && (Blocked(Last(s.segments)) ==> s.writer.Writing? && s.writer.stage.Logged? && !Readable(s.writer.record))
  }

  /** Some logs hold what the calls wrote, up to repetitions, and perhaps the record in flight. */
  predicate LogMatches(writer: Writer, log: Puts, calls: Puts, blocked: bool, none: bool)
  {
    match writer
    case NoWriter => Squash(log) == Squash(calls)
    case Writing(record, stage) =>
      match stage
      case Unlogged => Squash(log) == Squash(calls) || (Readable(record) && Squash(log) == Squash(calls + [record]))
      case Inserted => Squash(log) == Squash(calls)
      case _ => none || (Readable(record) && Squash(log) == Squash(calls + [record])) || (blocked && Squash(log) == Squash(calls))
  }

  /** This holds of the logs from segment `j` on. */
  predicate SuffixOk(s: State, j: nat)
    requires j <= |s.segments|
  {
    LogMatches(s.writer, Join(Wals(s.segments[j..])), AllCalls(s.segments[j..]), s.segments != [] && Blocked(Last(s.segments)), j == |s.segments|)
  }

  /** The record that is inserted although its call has not returned. */
  function InEffect(s: State): Puts
  {
    if s.writer.Writing? && s.writer.stage.Inserted? then [s.writer.record] else []
  }

  /** The writes that took effect while the engine runs: the stored ones and one that is inserted but has not returned. */
  function Effective(s: State): Puts
  {
    Effects(s.returned, 0) + InEffect(s)
  }

  function ContentOf(s: State, j: nat): Puts
  {
    Join(Contents(s.segments, j))
  }

  function EffectOf(s: State, j: nat): Puts
  {
    Effects(s.returned, Pending(s.segments, j)) + InEffect(s)
  }

  /** The tables, the memtables before segment `j` and the logs from there on hold the newest version of every key,
      counting the given-up records in these logs as if they had taken effect. */
  ghost predicate CoversFrom(s: State, j: nat)
  {
    Alike(Join(s.flushed) + ContentOf(s, j), EffectOf(s, j))
  }

  /** Both hold the same newest version of every key. */
  ghost predicate Alike(a: Puts, b: Puts)
  {
    forall key :: Newest(a, key) == Newest(b, key)
  }

  ghost predicate Covers(s: State)
  {
    forall j: nat :: CoversFrom(s, j)
  }

  ghost predicate TablesOk(s: State)
  {
    && |s.tables| == |s.flushed| && s.segments != []
    && (forall i :: 0 <= i < |s.tables| ==> s.tables[i] == InsertAll(s.flushed[i]))
    && (s.flushing ==> |s.segments| > 1 && s.flushed != [] && s.flushed[|s.flushed| - 1] == s.segments[0].puts)
  }

  /** Tables and logs together hold the newest version of every key. */
  ghost predicate DiskCovers(s: State)
  {
    Alike(Join(s.flushed) + LogOf(s), Effects(s.returned, 0))
  }

  ghost predicate SuffixesOk(s: State)
  {
    forall j :: 0 <= j <= |s.segments| ==> SuffixOk(s, j)
  }

  ghost predicate UpOk(s: State)
  {
    TablesOk(s) && Covers(s) && FullOk(s) && SuffixesOk(s)
  }

  ghost predicate DownOk(s: State)
  {
    TablesOk(s) && DiskCovers(s) && s.writer.NoWriter? && !s.flushing
  }

  ghost predicate Inv(s: State)
  {
    if s.up then UpOk(s) else DownOk(s)
  }

  // ---------- lists of parts ----------

  lemma JoinLast(parts: seq<Puts>, p: Puts)
    ensures Join(parts + [p]) == Join(parts) + p
  {
    assert (parts + [p])[..|parts|] == parts;
  }

  lemma {:induction false} JoinFirst(parts: seq<Puts>)
    requires parts != []
    ensures Join(parts) == parts[0] + Join(parts[1..])
  {
    var last := |parts| - 1;
    if last == 0 {
      assert parts[..0] == [] && parts[1..] == [];
    } else {
      JoinFirst(parts[..last]);
      assert parts[..last][1..] == parts[1..][..last - 1];
    }
  }

  lemma {:induction false} JoinAppend(a: seq<Puts>, b: seq<Puts>)
    ensures Join(a + b) == Join(a) + Join(b)
  {
    if b == [] {
      assert a + b == a;
    } else {
      var last := |b| - 1;
      assert (a + b)[..|a + b| - 1] == a + b[..last];
      JoinAppend(a, b[..last]);
      assert Join(a) + (Join(b[..last]) + b[last]) == Join(a) + Join(b[..last]) + b[last];
    }
  }

  lemma PartsLast(front: seq<Segment>, last: Segment)
    ensures Join(Wals(front + [last])) == Join(Wals(front)) + Delivered(last.wal)
    ensures AllCalls(front + [last]) == AllCalls(front) + (last.puts + last.given)
  {
    assert Wals(front + [last]) == Wals(front) + [Delivered(last.wal)];
    JoinLast(Wals(front), Delivered(last.wal));
    ContentsLast(front, last, 0);
  }

  lemma ContentsLast(front: seq<Segment>, last: Segment, j: nat)
    ensures Join(Contents(front + [last], j)) == Join(Contents(front, j)) + if |front| < j then last.puts else last.puts + last.given
    ensures Pending(front + [last], j) == Pending(front, j) + if |front| < j then 0 else |last.given|
  {
    var part := if |front| < j then last.puts else last.puts + last.given;
    assert Contents(front + [last], j) == Contents(front, j) + [part];
    JoinLast(Contents(front, j), part);
    assert (front + [last])[..|front|] == front;
  }

  /** What appending to the last segment does to a suffix. */
  lemma UpdateSuffix(segments: seq<Segment>, x: Segment, log: Puts, calls: Puts, j: nat)
    requires segments != [] && j < |segments|
    requires Delivered(x.wal) == Delivered(Last(segments).wal) + log
    requires x.puts + x.given == Last(segments).puts + Last(segments).given + calls
    ensures var after := UpdateLast(segments, x);
            && |after| == |segments|
            && Join(Wals(after[j..])) == Join(Wals(segments[j..])) + log
            && AllCalls(after[j..]) == AllCalls(segments[j..]) + calls
  {
    var n := |segments| - 1;
    var last, front := segments[n], segments[j..n];
    assert segments[j..] == front + [last];
    assert UpdateLast(segments, x)[j..] == front + [x];
    PartsLast(front, last);
    PartsLast(front, x);
    AddRight(Join(Wals(front)), Delivered(last.wal), log);
    AddRight(AllCalls(front), last.puts + last.given, calls);
  }

  /** And to the contents. */
  lemma UpdateContents(segments: seq<Segment>, x: Segment, puts: Puts, given: Puts, j: nat)
    requires segments != [] && x.puts == Last(segments).puts + puts && x.given == Last(segments).given + given
    requires puts == [] || Last(segments).given + given == []
    ensures var after, more := UpdateLast(segments, x), if j < |segments| then given else [];
            && Join(Contents(after, j)) == Join(Contents(segments, j)) + (puts + more)
            && Pending(after, j) == Pending(segments, j) + |more|
  {
    var n := |segments| - 1;
    var front, last := segments[..n], segments[n];
    assert segments == front + [last];
    ContentsLast(front, last, j);
    ContentsLast(front, x, j);
    var more := if j < |segments| then given else [];
    PartAdds(last, x, puts, given);
    AddRight(Join(Contents(front, j)), if n < j then last.puts else last.puts + last.given, puts + more);
  }

  lemma PartAdds(last: Segment, x: Segment, puts: Puts, given: Puts)
    requires x.puts == last.puts + puts && x.given == last.given + given && (puts == [] || last.given + given == [])
    ensures x.puts == last.puts + (puts + []) && x.puts + x.given == last.puts + last.given + (puts + given)
  {
    if puts == [] {
      assert x.puts + x.given == last.puts + last.given + given && puts + given == given;
    }
  }

  lemma AddRight(a: Puts, b: Puts, c: Puts)
    ensures a + (b + c) == a + b + c && a + [] == a
  {
  }

  lemma DeliveredPush(wal: Puts, r: LogRecord)
    ensures Delivered(wal + [r]) == Delivered(wal) + if Delivered(wal) == wal && Readable(r) then [r] else []
    ensures |Delivered(wal)| == |wal| ==> Delivered(wal) == wal
  {
    assert (wal + [r])[..|wal|] == wal;
    DeliveredPrefix(wal);
  }

  lemma {:induction false} DeliveredPrefix(wal: Puts)
    ensures Delivered(wal) <= wal && forall r :: r in Delivered(wal) ==> Readable(r)
  {
    if wal != [] { DeliveredPrefix(wal[..|wal| - 1]); }
  }

  /** Recovery delivers a log up to its first record of more than 100 MiB, and no further. */
  lemma {:induction false} DeliveredIs(wal: Puts)
    ensures Delivered(wal) <= wal && (forall r :: r in Delivered(wal) ==> |RecordBytes(r)| <= 104857600)
    ensures |Delivered(wal)| < |wal| ==> |RecordBytes(wal[|Delivered(wal)|])| > 104857600
  {
    if wal != [] {
      DeliveredIs(wal[..|wal| - 1]);
      DeliveredPrefix(wal);
    }
  }

  lemma {:induction false} DeliveredAll(wal: Puts)
    requires forall r :: r in wal ==> Readable(r)
    ensures Delivered(wal) == wal
  {
    if wal != [] { DeliveredAll(wal[..|wal| - 1]); }
  }

  lemma {:induction false} LogReadable(segments: seq<Segment>)
    ensures forall r :: r in Join(Wals(segments)) ==> Readable(r)
  {
    if segments != [] {
      var last := |segments| - 1;
      LogReadable(segments[..last]);
      assert segments[..last] + [segments[last]] == segments;
      PartsLast(segments[..last], segments[last]);
      DeliveredPrefix(segments[last].wal);
    }
  }

  /** A fresh segment adds nothing. */
  lemma FreshSuffix(segments: seq<Segment>, j: nat)
    requires j <= |segments|
    ensures var after := segments + [FRESH];
            Join(Wals(after[j..])) == Join(Wals(segments[j..])) && AllCalls(after[j..]) == AllCalls(segments[j..])
  {
    assert (segments + [FRESH])[j..] == segments[j..] + [FRESH];
    PartsLast(segments[j..], FRESH);
  }

  // ---------- the history ----------

  lemma EffectsLast(calls: seq<Call>, c: Call, g: nat)
    ensures c.Stored? ==> Effects(calls + [c], g) == Effects(calls, g) + [c.record]
    ensures c.Refused? && c.logged ==> Effects(calls + [c], g + 1) == Effects(calls, g) + [c.record] && Effects(calls + [c], 0) == Effects(calls, 0)
    ensures c.Refused? && !c.logged ==> Effects(calls + [c], g) == Effects(calls, g)
  {
    assert (calls + [c])[..|calls|] == calls;
  }

  lemma {:induction false} SettledIs(calls: seq<Call>, g: nat)
    ensures Effects(Settled(calls, g), 0) == Effects(calls, g)
  {
    if calls != [] {
      var front, last := calls[..|calls| - 1], calls[|calls| - 1];
      var adopted := last.Refused? && last.logged && g > 0;
      SettledIs(front, if adopted then g - 1 else g);
      EffectsLast(Settled(front, if adopted then g - 1 else g), if adopted then Stored(last.record) else last, 0);
      if last.Refused? && last.logged && g == 0 { EffectsLast(Settled(front, 0), last, 0); }
    }
  }

  lemma {:induction false} StoredEffects(calls: seq<Call>, rs: Puts)
    ensures Effects(calls + StoredAll(rs), 0) == Effects(calls, 0) + rs
  {
    if rs == [] {
      assert calls + StoredAll(rs) == calls;
    } else {
      var last := |rs| - 1;
      StoredEffects(calls, rs[..last]);
      assert calls + StoredAll(rs) == calls + StoredAll(rs[..last]) + [Stored(rs[last])];
      EffectsLast(calls + StoredAll(rs[..last]), Stored(rs[last]), 0);
    }
  }

  /** No call gave up on the key. */
  predicate NoneRefused(calls: seq<Call>, key: seq<byte>)
  {
    forall i :: 0 <= i < |calls| ==> calls[i].Stored? || calls[i].record.key != key
  }

  /** A key on which no call gave up has the same newest write whether given-up records take effect or not. */
  lemma {:induction false} SameEffects(calls: seq<Call>, g: nat, key: seq<byte>)
    requires NoneRefused(calls, key)
    ensures Newest(Effects(calls, g), key) == Newest(Effects(calls, 0), key)
  {
    if calls != [] {
      var front, last := calls[..|calls| - 1], calls[|calls| - 1];
      SameEffects(front, g, key);
      if g > 0 { SameEffects(front, g - 1, key); }
      if last.Stored? {
        NewestPush(Effects(front, g), Effects(front, 0), last.record, key);
      } else if last.logged && g > 0 {
        assert (Effects(front, g - 1) + [last.record])[..|Effects(front, g - 1)|] == Effects(front, g - 1);
      }
    }
  }

  // ---------- each step ----------

  /** What recovery delivers of an appended record. */
  function Gain(x: Segment, r: LogRecord): Puts
  {
    if !Blocked(LogIn(x, r)) then [r] else []
  }

  lemma GainIs(x: Segment, r: LogRecord)
    ensures Delivered(LogIn(x, r).wal) == Delivered(x.wal) + Gain(x, r)
    ensures Blocked(LogIn(x, r)) <==> Blocked(x) || !Readable(r)
  {
    DeliveredPush(x.wal, r);
    DeliveredPrefix(x.wal);
  }

  lemma LogSuffix(s: State, j: nat)
    requires j <= |s.segments| && SuffixOk(s, j) && CanLog(s)
    ensures SuffixOk(Step(s, AppendLog), j)
  {
    if j < |s.segments| {
      var r, x := s.writer.record, Last(s.segments);
      var wals, calls := Join(Wals(s.segments[j..])), AllCalls(s.segments[j..]);
      GainIs(x, r);
      AddRight(x.puts + x.given, [], []);
      UpdateSuffix(s.segments, LogIn(x, r), Gain(x, r), [], j);
      AddRight(calls, [], []);
      GainLogged(wals, calls, r, Gain(x, r));
    }
  }

  lemma GainLogged(wals: Puts, calls: Puts, r: LogRecord, gain: Puts)
    requires gain == [] || gain == [r]
    requires Squash(wals) == Squash(calls) || Squash(wals) == Squash(calls + [r])
    ensures Squash(wals + gain) == if gain == [] then Squash(wals) else Squash(calls + [r])
  {
    AddRight(wals, [], []);
    LoggedTwice(wals, calls, r);
  }

  lemma LoggedTwice(wals: Puts, puts: Puts, r: LogRecord)
    requires Squash(wals) == Squash(puts) || Squash(wals) == Squash(puts + [r])
    ensures Squash(wals + [r]) == Squash(puts + [r])
  {
    if Squash(wals) == Squash(puts) {
      SquashPush(wals, puts, r);
    } else {
      SquashPush(wals, puts + [r], r);
      SquashPush(puts, puts, r);
    }
  }

  lemma InsertSuffix(s: State, height: nat, j: nat)
    requires j <= |s.segments| && SuffixOk(s, j) && FullOk(s) && CanInsert(s)
    ensures SuffixOk(Step(s, InsertRecord(height)), j)
  {
    var r, x := s.writer.record, Last(s.segments);
    if j < |s.segments| {
      var wals, calls := Join(Wals(s.segments[j..])), AllCalls(s.segments[j..]);
      InsertAdds(x, r, height);
      if !Refuses(x, r, height) { RoomLeft(s, height); }
      UpdateSuffix(s.segments, InsertIn(x, r, height), [], if Refuses(x, r, height) then [] else [r], j);
      AddRight(wals, [], []);
      AddRight(calls, [], []);
      InsertMatches(r, wals, calls, Blocked(x));
    } else {
      EmptySuffix(UpdateLast(s.segments, InsertIn(x, r, height)), j);
    }
  }

  lemma InsertMatches(r: LogRecord, log: Puts, calls: Puts, blocked: bool)
    requires LogMatches(Writing(r, Logged), log, calls, blocked, false)
    ensures LogMatches(Writing(r, Rejected), log, calls, blocked, false)
    ensures !blocked ==> LogMatches(Writing(r, Inserted), log, calls + [r], blocked, false)
  {
  }

  lemma InsertAdds(x: Segment, r: LogRecord, height: nat)
    ensures Delivered(InsertIn(x, r, height).wal) == Delivered(x.wal) + []
    ensures Refuses(x, r, height) || x.given == [] ==>
              InsertIn(x, r, height).puts + InsertIn(x, r, height).given == x.puts + x.given + if Refuses(x, r, height) then [] else [r]
  {
  }

  /** A table that takes the record was not blocked and gave up nothing. */
  lemma RoomLeft(s: State, height: nat)
    requires FullOk(s) && CanInsert(s) && !Refuses(Last(s.segments), s.writer.record, height)
    ensures !Blocked(Last(s.segments)) && Last(s.segments).given == []
  {
  }

  lemma EmptySuffix(segments: seq<Segment>, j: nat)
    requires j == |segments|
    ensures Join(Wals(segments[j..])) == [] && AllCalls(segments[j..]) == []
  {
    assert segments[j..] == [];
  }

  lemma SwitchSuffix(s: State, j: nat)
    requires s.up && j <= |s.segments| + 1 && (j < |s.segments| ==> SuffixOk(s, j))
    ensures SuffixOk(Step(s, Switch), j)
  {
    if j < |s.segments| {
      FreshSuffix(s.segments, j);
      SwitchMatches(s.writer, Join(Wals(s.segments[j..])), AllCalls(s.segments[j..]), Blocked(Last(s.segments)));
    } else {
      NewSuffix(s.segments, j);
      NothingMatches(s.writer);
    }
  }

  lemma SwitchMatches(w: Writer, log: Puts, calls: Puts, blocked: bool)
    requires LogMatches(w, log, calls, blocked, false)
    ensures forall b, none :: LogMatches(Switched(w), log, calls, b, none)
  {
  }

  lemma NothingMatches(w: Writer)
    ensures forall b, none :: LogMatches(Switched(w), [], [], b, none)
  {
  }

  lemma NewSuffix(segments: seq<Segment>, j: nat)
    requires |segments| <= j <= |segments| + 1
    ensures Join(Wals((segments + [FRESH])[j..])) == [] && AllCalls((segments + [FRESH])[j..]) == []
  {
    if j == |segments| {
      FreshSuffix(segments, j);
      EmptySuffix(segments, j);
    } else {
      EmptySuffix(segments + [FRESH], j);
    }
  }

  lemma LogFull(s: State)
    requires TablesOk(s) && FullOk(s) && CanLog(s)
    ensures TablesOk(Step(s, AppendLog)) && FullOk(Step(s, AppendLog))
  {
    GainIs(Last(s.segments), s.writer.record);
  }

  lemma LogCovers(s: State)
    requires UpOk(s) && CanLog(s)
    ensures Covers(Step(s, AppendLog))
  {
    var t, x := Step(s, AppendLog), LogIn(Last(s.segments), s.writer.record);
    forall j: nat ensures CoversFrom(t, j) { UpdateCovers(s, t, x, [], [], j); }
  }

  /** Updating the last segment adds the same to the contents and to the effects. */
  lemma UpdateCovers(s: State, t: State, x: Segment, puts: Puts, given: Puts, j: nat)
    requires CoversFrom(s, j) && s.segments != [] && t.segments == UpdateLast(s.segments, x) && t.flushed == s.flushed
    requires x.puts == Last(s.segments).puts + puts && x.given == Last(s.segments).given + given
    requires puts == [] || Last(s.segments).given + given == []
    requires var g, more := Pending(s.segments, j), if j < |s.segments| then given else [];
             Effects(t.returned, g + |more|) + InEffect(t) == EffectOf(s, j) + (puts + more)
    ensures CoversFrom(t, j)
  {
    UpdateContents(s.segments, x, puts, given, j);
    AlikeLonger(Join(s.flushed), ContentOf(s, j), ContentOf(t, j), EffectOf(s, j), EffectOf(t, j), puts + if j < |s.segments| then given else []);
  }

  lemma AlikeLonger(f: Puts, c: Puts, c': Puts, e: Puts, e': Puts, more: Puts)
    requires Alike(f + c, e) && c' == c + more && e' == e + more
    ensures Alike(f + c', e')
  {
    AddRight(f, c, more);
    BothLonger(f + c, e, more);
  }

  lemma BothLonger(a: Puts, b: Puts, c: Puts)
    requires Alike(a, b)
    ensures Alike(a + c, b + c)
  {
    forall key ensures Newest(a + c, key) == Newest(b + c, key) {
      NewestAppend(a, c, key);
      NewestAppend(b, c, key);
    }
  }

  lemma LogKeeps(s: State)
    requires UpOk(s) && CanLog(s)
    ensures UpOk(Step(s, AppendLog))
  {
    LogFull(s);
    LogCovers(s);
    forall j | 0 <= j <= |s.segments| ensures SuffixOk(Step(s, AppendLog), j) {
      assert SuffixOk(s, j);
      LogSuffix(s, j);
    }
  }

  lemma NewestPush(a: Puts, b: Puts, r: LogRecord, key: seq<byte>)
    requires Newest(a, key) == Newest(b, key)
    ensures Newest(a + [r], key) == Newest(b + [r], key)
  {
    assert (a + [r])[..|a|] == a && (b + [r])[..|b|] == b;
  }

  lemma InsertCovers(s: State, height: nat, j: nat)
    requires CoversFrom(s, j) && FullOk(s) && CanInsert(s)
    ensures CoversFrom(Step(s, InsertRecord(height)), j)
  {
    var t, r, x := Step(s, InsertRecord(height)), s.writer.record, Last(s.segments);
    var puts := if Refuses(x, r, height) then [] else [r];
    if !Refuses(x, r, height) { RoomLeft(s, height); }
    AddRight(x.puts, [], []);
    AddRight(x.given, [], []);
    AddRight(Effects(s.returned, Pending(s.segments, j)), [], puts);
    AddRight(puts, [], []);
    UpdateCovers(s, t, InsertIn(x, r, height), puts, [], j);
  }

  lemma InsertFull(s: State, height: nat)
    requires TablesOk(s) && FullOk(s) && CanInsert(s)
    ensures TablesOk(Step(s, InsertRecord(height))) && FullOk(Step(s, InsertRecord(height)))
  {
    if !Refuses(Last(s.segments), s.writer.record, height) { RoomLeft(s, height); }
  }

  lemma InsertKeeps(s: State, height: nat)
    requires UpOk(s) && CanInsert(s)
    ensures UpOk(Step(s, InsertRecord(height)))
  {
    InsertFull(s, height);
    forall j: nat ensures CoversFrom(Step(s, InsertRecord(height)), j) {
      assert CoversFrom(s, j);
      InsertCovers(s, height, j);
    }
    forall j | 0 <= j <= |s.segments| ensures SuffixOk(Step(s, InsertRecord(height)), j) {
      assert SuffixOk(s, j);
      InsertSuffix(s, height, j);
    }
  }

  // ---------- giving up ----------

  lemma GiveUpSuffix(s: State, j: nat)
    requires j <= |s.segments| && SuffixOk(s, j) && CanGiveUp(s)
    ensures SuffixOk(GivenUp(s), j)
  {
    var r, x := s.writer.record, Last(s.segments);
    var y := if Readable(r) then x.(given := x.given + [r]) else x;
    if j < |s.segments| {
      OneLogged(x, r);
      AddRight(Delivered(x.wal), [], []);
      AddRight(x.puts, x.given, [r]);
      AddRight(x.puts + x.given, [], []);
      UpdateSuffix(s.segments, y, [], if Readable(r) then [r] else [], j);
      AddRight(Join(Wals(s.segments[j..])), [], []);
      AddRight(AllCalls(s.segments[j..]), [], []);
    } else {
      EmptySuffix(UpdateLast(s.segments, y), j);
    }
  }

  lemma OneLogged(x: Segment, r: LogRecord)
    requires x.wal == [r]
    ensures Blocked(x) <==> !Readable(r)
  {
    DeliveredPush([], r);
    assert [] + [r] == [r];
  }

  lemma GiveUpCovers(s: State, j: nat)
    requires CoversFrom(s, j) && CanGiveUp(s)
    ensures CoversFrom(GivenUp(s), j)
  {
    var r, x := s.writer.record, Last(s.segments);
    var given := if Readable(r) then [r] else [];
    AddRight(x.puts, [], []);
    AddRight(x.given, [], []);
    GiveUpEffects(s, given, j);
    UpdateCovers(s, GivenUp(s), if Readable(r) then x.(given := x.given + [r]) else x, [], given, j);
  }

  lemma GiveUpEffects(s: State, given: Puts, j: nat)
    requires CanGiveUp(s) && given == if Readable(s.writer.record) then [s.writer.record] else []
    ensures var g, more := Pending(s.segments, j), if j < |s.segments| then given else [];
            Effects(GivenUp(s).returned, g + |more|) + InEffect(GivenUp(s)) == EffectOf(s, j) + ([] + more)
  {
    var r, g := s.writer.record, Pending(s.segments, j);
    EffectsLast(s.returned, Refused(r, Readable(r)), g);
    NoPending(s.segments, j);
    AddRight(Effects(s.returned, g), [], []);
    AddRight(Effects(s.returned, g) + [r], [], []);
  }

  lemma NoPending(segments: seq<Segment>, j: nat)
    ensures j >= |segments| ==> Pending(segments, j) == 0
  {
  }

  lemma GiveUpKeeps(s: State)
    requires UpOk(s) && CanGiveUp(s)
    ensures UpOk(GivenUp(s))
  {
    forall j: nat ensures CoversFrom(GivenUp(s), j) {
      assert CoversFrom(s, j);
      GiveUpCovers(s, j);
    }
    OneLogged(Last(s.segments), s.writer.record);
    forall j | 0 <= j <= |s.segments| ensures SuffixOk(GivenUp(s), j) {
      assert SuffixOk(s, j);
      GiveUpSuffix(s, j);
    }
  }

  lemma SwitchCovers(s: State)
    requires UpOk(s) && s.up
    ensures TablesOk(Step(s, Switch)) && Covers(Step(s, Switch)) && FullOk(Step(s, Switch))
  {
    forall j: nat ensures CoversFrom(Step(s, Switch), j) {
      ContentsLast(s.segments, FRESH, j);
      AddRight(Join(Contents(s.segments, j)), [], []);
      assert CoversFrom(s, j);
    }
  }

  lemma SwitchKeeps(s: State)
    requires UpOk(s) && s.up
    ensures UpOk(Step(s, Switch))
  {
    SwitchCovers(s);
    forall j | 0 <= j <= |s.segments| + 1 ensures SuffixOk(Step(s, Switch), j) {
      assert j < |s.segments| ==> SuffixOk(s, j);
      SwitchSuffix(s, j);
    }
  }

  // ---------- flushing ----------

  /** Repeating a part right before itself changes no newest version. */
  lemma NewestRepeat(a: Puts, p: Puts, b: Puts, key: seq<byte>)
    ensures Newest(a + p + (p + b), key) == Newest(a + (p + b), key)
    ensures Newest(a + p + (p + b), key) == Newest(a + p + b, key)
  {
    NewestAppend(a + p, p + b, key);
    NewestAppend(a, p + b, key);
    NewestAppend(p, b, key);
    NewestAppend(a, p, key);
    NewestAppend(a + p, b, key);
  }

  /** The contents behind the puts of the first segment. */
  function Behind(segments: seq<Segment>, j: nat): Puts
    requires segments != []
  {
    (if j == 0 then segments[0].given else []) + Join(Contents(segments[1..], if j == 0 then 0 else j - 1))
  }

  lemma FirstSegment(segments: seq<Segment>, j: nat)
    requires segments != []
    ensures Join(Contents(segments, j)) == segments[0].puts + Behind(segments, j)
  {
    var rest := Join(Contents(segments[1..], if j == 0 then 0 else j - 1));
    JoinFirst(Contents(segments, j));
    assert Contents(segments, j)[1..] == Contents(segments[1..], if j == 0 then 0 else j - 1);
    AddRight(segments[0].puts, if j == 0 then segments[0].given else [], rest);
    assert [] + rest == rest;
  }

  lemma {:induction false} PendingRest(segments: seq<Segment>, j: nat)
    requires segments != []
    ensures Pending(segments[1..], j) == Pending(segments, j + 1)
  {
    if |segments| > j + 1 {
      var last := |segments| - 1;
      assert segments[1..][..last - 1] == segments[..last][1..];
      PendingRest(segments[..last], j);
    }
  }

  /** A part that is flushed may stand twice, */
  lemma AlikeTwice(f: Puts, f': Puts, p: Puts, c: Puts, b: Puts, e: Puts)
    requires Alike(f + c, e) && f' == f + p && c == p + b
    ensures Alike(f' + c, e)
  {
    forall key ensures Newest(f' + c, key) == Newest(f + c, key) { NewestRepeat(f, p, b, key); }
  }

  /** and then go from the memtables. */
  lemma AlikeOnce(f: Puts, f': Puts, p: Puts, c: Puts, b: Puts, e: Puts)
    requires Alike(f' + c, e) && f' == f + p && c == p + b
    ensures Alike(f' + b, e)
  {
    forall key ensures Newest(f' + c, key) == Newest(f' + b, key) { NewestRepeat(f, p, b, key); }
  }

  lemma CreateCovers(s: State, j: nat)
    requires CoversFrom(s, j) && s.up && |s.segments| > 1 && !s.flushing
    ensures CoversFrom(Step(s, CreateTable), j)
  {
    var p := s.segments[0].puts;
    JoinLast(s.flushed, p);
    FirstSegment(s.segments, j);
    AlikeTwice(Join(s.flushed), Join(s.flushed + [p]), p, ContentOf(s, j), Behind(s.segments, j), EffectOf(s, j));
  }

  lemma RemoveParts(s: State, j: nat)
    requires s.up && |s.segments| > 1 && s.flushing
    ensures var t := Step(s, RemoveLog);
            ContentOf(t, j) == Behind(s.segments, j + 1) && EffectOf(t, j) == EffectOf(s, j + 1) && t.flushed == s.flushed
  {
    PendingRest(s.segments, j);
    BehindIs(s.segments, j);
  }

  lemma RemoveCovers(s: State, j: nat)
    requires CoversFrom(s, j + 1) && s.up && |s.segments| > 1 && s.flushing
    requires s.flushed != [] && s.flushed[|s.flushed| - 1] == s.segments[0].puts
    ensures CoversFrom(Step(s, RemoveLog), j)
  {
    var p, front := s.segments[0].puts, s.flushed[..|s.flushed| - 1];
    FirstSegment(s.segments, j + 1);
    RemoveParts(s, j);
    assert s.flushed == front + [p];
    JoinLast(front, p);
    AlikeOnce(Join(front), Join(s.flushed), p, ContentOf(s, j + 1), Behind(s.segments, j + 1), EffectOf(s, j + 1));
  }

  lemma BehindIs(segments: seq<Segment>, j: nat)
    requires segments != []
    ensures Behind(segments, j + 1) == Join(Contents(segments[1..], j))
  {
    var rest := Join(Contents(segments[1..], j));
    assert [] + rest == rest;
  }

  lemma CreateKeeps(s: State)
    requires UpOk(s) && s.up && |s.segments| > 1 && !s.flushing
    ensures UpOk(Step(s, CreateTable))
  {
    forall j: nat ensures CoversFrom(Step(s, CreateTable), j) {
      assert CoversFrom(s, j);
      CreateCovers(s, j);
    }
    forall j | 0 <= j <= |s.segments| ensures SuffixOk(Step(s, CreateTable), j) { assert SuffixOk(s, j); }
  }

  lemma RemoveKeeps(s: State)
    requires UpOk(s) && s.up && |s.segments| > 1 && s.flushing
    ensures UpOk(Step(s, RemoveLog))
  {
    var t := Step(s, RemoveLog);
    forall j: nat ensures CoversFrom(t, j) {
      assert CoversFrom(s, j + 1);
      RemoveCovers(s, j);
    }
    forall j | 0 <= j <= |t.segments| ensures SuffixOk(t, j) {
      assert SuffixOk(s, j + 1);
      assert s.segments[1..][j..] == s.segments[j + 1..];
    }
  }

  lemma SameNewest(a: Puts, b: Puts, c: Puts, key: seq<byte>)
    requires Squash(b) == Squash(c)
    ensures Newest(a + b, key) == Newest(a + c, key)
  {
    SquashNewest(b, key);
    SquashNewest(c, key);
    NewestAppend(a, b, key);
    NewestAppend(a, c, key);
  }

  /** Tables and logs together hold the newest version of every key, counting what recovery adopts. */
  lemma LogsCover(s: State, key: seq<byte>)
    requires UpOk(s)
    ensures Newest(Join(s.flushed) + LogOf(s), key) == Newest(Effects(s.returned, Pending(s.segments, 0)) + Adopted(s), key)
  {
    var f, l, c, e := Join(s.flushed), LogOf(s), AllCalls(s.segments), Effects(s.returned, Pending(s.segments, 0));
    assert SuffixOk(s, 0) && s.segments[0..] == s.segments;
    assert CoversFrom(s, 0);
    assert Newest(f + c, key) == Newest(e + InEffect(s), key);
    AddRight(e, [], []);
    if Squash(l) == Squash(c) {
      SameNewest(f, l, c, key);
    } else {
      var r := s.writer.record;
      SameNewest(f, l, c + [r], key);
      AddRight(f, c, [r]);
      NewestPush(f + c, e, r, key);
    }
  }

  lemma CrashKeeps(s: State)
    requires UpOk(s) && s.up
    ensures DownOk(Step(s, Crash))
    ensures Effects(Step(s, Crash).returned, 0) == Effects(s.returned, Pending(s.segments, 0)) + Adopted(s)
  {
    var t, g := Step(s, Crash), Pending(s.segments, 0);
    SettledIs(s.returned, g);
    StoredEffects(Settled(s.returned, g), Adopted(s));
    forall key ensures Newest(Join(t.flushed) + LogOf(t), key) == Newest(Effects(t.returned, 0), key) { LogsCover(s, key); }
  }

  lemma OneSegment(x: Segment)
    ensures Join(Wals([x])) == Delivered(x.wal) && AllCalls([x]) == x.puts + x.given
    ensures x.given == [] ==> forall j :: Join(Contents([x], j)) == x.puts && Pending([x], j) == 0
  {
    EmptySuffix([], 0);
    PartsLast([], x);
    assert [] + [x] == [x];
    if x.given == [] {
      forall j ensures Join(Contents([x], j)) == x.puts && Pending([x], j) == 0 { ContentsLast([], x, j); }
    }
  }

  /** A complete recovery leaves one table with all logged records, logged again. */
  lemma CompleteKeeps(s: State, heights: seq<nat>, limit: nat, dropped: nat)
    requires DownOk(s) && Completes(LogOf(s), heights, limit)
    ensures UpOk(Recover(s, heights, limit, dropped))
  {
    var t := Recover(s, heights, limit, dropped);
    LogReadable(s.segments);
    DeliveredAll(LogOf(s));
    OneTable(t, t.segments[0]);
    AddRight(Effects(s.returned, 0), [], []);
    forall j: nat ensures CoversFrom(t, j) { OneSegment(t.segments[0]); }
  }

  lemma OneTable(t: State, x: Segment)
    requires t.segments == [x] && x.given == [] && Delivered(x.wal) == x.wal == x.puts && t.writer.NoWriter?
    ensures SuffixesOk(t) && FullOk(t)
  {
    OneSegment(x);
    EmptySuffix(t.segments, 1);
    assert t.segments[0..] == t.segments;
    assert x.puts + [] == x.puts;
  }

  /** An incomplete recovery leaves the logs not removed, then a log of the records replayed. */
  lemma IncompleteLog(s: State, heights: seq<nat>, limit: nat, dropped: nat) returns (front: Puts, back: Puts)
    requires !Completes(LogOf(s), heights, limit)
    ensures dropped == 0 ==> front == []
    ensures LogOf(s) == front + back && |front| <= Replayed(LogOf(s), heights, limit)
    ensures LogOf(Recover(s, heights, limit, dropped)) == back + LogOf(s)[..Replayed(LogOf(s), heights, limit)]
  {
    var n := Replayed(LogOf(s), heights, limit);
    var d := Dropped(s, n, dropped);
    var again := FRESH.(wal := LogOf(s)[..n]);
    front, back := Join(Wals(s.segments[..d])), Join(Wals(s.segments[d..]));
    SplitLog(s.segments, d);
    LogReadable(s.segments);
    DeliveredAll(again.wal);
    PartsLast(s.segments[d..], again);
    assert s.segments[..0] == [];
  }

  lemma SplitLog(segments: seq<Segment>, d: nat)
    requires d <= |segments|
    ensures Join(Wals(segments)) == Join(Wals(segments[..d])) + Join(Wals(segments[d..]))
  {
    assert Wals(segments) == Wals(segments[..d]) + Wals(segments[d..]);
    JoinAppend(Wals(segments[..d]), Wals(segments[d..]));
  }

  /** The newest version in `back + replayed` against that in `front + back == replayed + rest`. */
  lemma ReplayedTwice(front: Puts, back: Puts, replayed: Puts, rest: Puts, key: seq<byte>)
    requires front + back == replayed + rest && |front| <= |replayed|
    ensures Newest(back + replayed, key) == Newest(front + back, key)
      <==> Newest(replayed, key).None? || Newest(rest, key).None? || Newest(replayed, key) == Newest(rest, key)
    ensures Newest(replayed, key).None? ==> Newest(front, key).None?
  {
    assert front == (front + back)[..|front|] == replayed[..|front|];
    assert replayed == front + replayed[|front|..];
    NewestAppend(front, replayed[|front|..], key);
    NewestAppend(front, back, key);
    NewestAppend(replayed, rest, key);
    NewestAppend(back, replayed, key);
  }

  /** The same in front of older tables. */
  lemma ReplayedOver(older: Puts, front: Puts, back: Puts, replayed: Puts, rest: Puts, key: seq<byte>)
    requires front + back == replayed + rest && |front| <= |replayed|
    ensures Newest(older + (back + replayed), key) == Newest(older + (front + back), key)
      <==> Newest(replayed, key).None? || Newest(rest, key).None? || Newest(replayed, key) == Newest(rest, key)
  {
    ReplayedTwice(front, back, replayed, rest, key);
    NewestAppend(older, back + replayed, key);
    NewestAppend(older, front + back, key);
    NewestAppend(back, replayed, key);
    NewestAppend(replayed, rest, key);
  }

  lemma IncompleteExact(s: State, heights: seq<nat>, limit: nat, dropped: nat, key: seq<byte>)
    requires !s.up && !Completes(LogOf(s), heights, limit)
    ensures Newest(Join(s.flushed) + LogOf(Recover(s, heights, limit, dropped)), key) == Newest(Join(s.flushed) + LogOf(s), key)
      <==> HarmlessFor(s, Restart(heights, limit, dropped), key)
  {
    var n := Replayed(LogOf(s), heights, limit);
    var front, back := IncompleteLog(s, heights, limit, dropped);
    assert LogOf(s) == LogOf(s)[..n] + LogOf(s)[n..];
    ReplayedOver(Join(s.flushed), front, back, LogOf(s)[..n], LogOf(s)[n..], key);
  }

  lemma IncompleteKeeps(s: State, heights: seq<nat>, limit: nat, dropped: nat)
    requires DownOk(s) && !s.up && !Completes(LogOf(s), heights, limit) && Harmless(s, Restart(heights, limit, dropped))
    ensures DownOk(Recover(s, heights, limit, dropped))
  {
    var t := Recover(s, heights, limit, dropped);
    forall key ensures Newest(Join(t.flushed) + LogOf(t), key) == Newest(Effects(t.returned, 0), key) {
      IncompleteExact(s, heights, limit, dropped, key);
      assert HarmlessFor(s, Restart(heights, limit, dropped), key);
    }
  }

  lemma StepKeepsInv(s: State, e: Event)
    requires Inv(s) && Harmless(s, e)
    ensures Inv(Step(s, e))
  {
    match e
    case Begin(record) => if s.up && s.writer.NoWriter? { BeginKeeps(s, record); }
    case AppendLog => if CanLog(s) { LogKeeps(s); }
    case InsertRecord(height) => if CanInsert(s) { InsertKeeps(s, height); }
    case Return => if s.up && s.writer.Writing? && s.writer.stage.Inserted? { ReturnKeeps(s); }
    case GiveUp => if CanGiveUp(s) { GiveUpKeeps(s); }
    case Switch => if s.up { SwitchKeeps(s); }
    case CreateTable => if s.up && |s.segments| > 1 && !s.flushing { CreateKeeps(s); }
    case RemoveLog => if s.up && |s.segments| > 1 && s.flushing { RemoveKeeps(s); }
    case Crash => if s.up { CrashKeeps(s); }
    case Restart(heights, limit, dropped) =>
      if !s.up {
        if Completes(LogOf(s), heights, limit) {
          CompleteKeeps(s, heights, limit, dropped);
        } else {
          IncompleteKeeps(s, heights, limit, dropped);
        }
      }
  }

  lemma BeginKeeps(s: State, record: LogRecord)
    requires UpOk(s) && s.up && s.writer.NoWriter?
    ensures UpOk(Step(s, Begin(record)))
  {
    var t := Step(s, Begin(record));
    forall j | 0 <= j <= |t.segments| ensures SuffixOk(t, j) { assert SuffixOk(s, j); }
    forall j: nat ensures CoversFrom(t, j) { assert CoversFrom(s, j); }
  }

  lemma ReturnKeeps(s: State)
    requires UpOk(s) && s.up && s.writer.Writing? && s.writer.stage.Inserted?
    ensures UpOk(Step(s, Return))
  {
    var t := Step(s, Return);
    forall j | 0 <= j <= |t.segments| ensures SuffixOk(t, j) { assert SuffixOk(s, j); }
    forall j: nat ensures CoversFrom(t, j) {
      EffectsLast(s.returned, Stored(s.writer.record), Pending(s.segments, j));
      AddRight(Effects(s.returned, Pending(s.segments, j)) + [s.writer.record], [], []);
      assert CoversFrom(s, j);
    }
  }

  lemma {:induction false} HoldsInEveryRun(events: seq<Event>)
    requires HarmlessRun(events)
    ensures Inv(Exec(events))
  {
    if events == [] {
      OneSegment(FRESH);
      EmptySuffix(INIT.segments, 1);
      assert INIT.segments[0..] == INIT.segments;
      assert SuffixOk(INIT, 0) && SuffixOk(INIT, 1);
    } else {
      HoldsInEveryRun(events[..|events| - 1]);
      StepKeepsInv(Exec(events[..|events| - 1]), events[|events| - 1]);
    }
  }

  // ---------- what a recovery gives ----------

  lemma {:induction false} TablesAnswer(tables: seq<Layer>, flushed: seq<Puts>, key: seq<byte>)
    requires |tables| == |flushed| && forall i :: 0 <= i < |tables| ==> tables[i] == InsertAll(flushed[i])
    ensures FirstIn(NewestFirst(tables), key) == Newest(Join(flushed), key)
  {
    if tables != [] {
      var last := |tables| - 1;
      InsertAllIs(flushed[last], key);
      TablesAnswer(tables[..last], flushed[..last], key);
      NewestAppend(Join(flushed[..last]), flushed[last], key);
      StackAppend([tables[last]], NewestFirst(tables[..last]), key);
      StackOfOne(tables[last], key);
    }
  }

  /** The writes that a recovery of what is on disk brings back. */
  function Survivors(s: State): Puts
  {
    if s.up then Effects(s.returned, Pending(s.segments, 0)) + Adopted(s) else Effects(s.returned, 0)
  }

  /** In every run whose incomplete recoveries were harmless: a complete recovery of what is on disk leaves every key
      with its newest stored write, where also the write in flight may have taken effect, and the given-up writes
      whose logs are still there; while up, queries answer with the newest stored write. */
  lemma AcknowledgedWritesSurvive(events: seq<Event>, key: seq<byte>)
    requires HarmlessRun(events)
    ensures var s := Exec(events);
            && Recovered(s, key) == Newest(Survivors(s), key)
            && (Adopted(s) == [] || (s.writer.Writing? && Adopted(s) == [s.writer.record]))
            && (s.up ==> Running(s, key) == Newest(Effective(s), key))
            && (s.up && s.writer.NoWriter? && NoneRefused(s.returned, key) ==> Recovered(s, key) == Running(s, key))
  {
    HoldsInEveryRun(events);
    RecoveredIs(Exec(events), key);
    if Exec(events).up { RunningIs(Exec(events), key); }
    if Exec(events).writer.NoWriter? && NoneRefused(Exec(events).returned, key) { BetweenCalls(Exec(events), key); }
  }

  lemma BetweenCalls(s: State, key: seq<byte>)
    requires s.writer.NoWriter? && NoneRefused(s.returned, key)
    ensures Newest(Survivors(s), key) == Newest(Effective(s), key)
  {
    SameEffects(s.returned, Pending(s.segments, 0), key);
    AddRight(Effects(s.returned, Pending(s.segments, 0)), [], []);
    AddRight(Effects(s.returned, 0), [], []);
  }

  lemma RecoveredIs(s: State, key: seq<byte>)
    requires Inv(s)
    ensures Recovered(s, key) == Newest(Survivors(s), key)
  {
    if s.up { LogsCover(s, key); }
    DiskAnswers(s, key);
  }

  lemma DiskAnswers(s: State, key: seq<byte>)
    requires TablesOk(s)
    ensures Recovered(s, key) == Newest(Join(s.flushed) + LogOf(s), key)
  {
    TablesAnswer(s.tables, s.flushed, key);
    InsertAllIs(LogOf(s), key);
    NewestAppend(Join(s.flushed), LogOf(s), key);
    StackAppend([InsertAll(LogOf(s))], NewestFirst(s.tables), key);
    StackOfOne(InsertAll(LogOf(s)), key);
  }

  function MemLayers(segments: seq<Segment>): (s: seq<Layer>)
    ensures |s| == |segments| && forall i :: 0 <= i < |s| ==> s[i] == InsertAll(segments[i].puts)
  {
    seq(|segments|, i requires 0 <= i < |segments| => InsertAll(segments[i].puts))
  }

  /** What a query answers while the engine runs: the memtables, newest first, then the SSTables. */
  function Running(s: State, key: seq<byte>): Option<LogRecord>
  {
    FirstIn(NewestFirst(s.tables + MemLayers(s.segments)), key)
  }

  lemma RunningIs(s: State, key: seq<byte>)
    requires UpOk(s)
    ensures Running(s, key) == Newest(Effective(s), key)
  {
    var n := |s.segments|;
    TablesAnswer(s.tables + MemLayers(s.segments), s.flushed + Contents(s.segments, n), key);
    JoinAppend(s.flushed, Contents(s.segments, n));
    NoPending(s.segments, n);
    assert CoversFrom(s, n);
  }

  /** A crash and a recovery: it completes exactly when it is not interrupted and the arena holds all logged
      records. Then every key reads as the surviving writes say; between calls, unless one gave up on it, as before. */
  lemma CrashIsInvisible(events: seq<Event>, heights: seq<nat>, limit: nat, dropped: nat, key: seq<byte>)
    requires HarmlessRun(events) && Exec(events).up
    ensures var s := Exec(events);
            var t := Step(Step(s, Crash), Restart(heights, limit, dropped));
            && (t.up <==> |LogOf(s)| < limit && UsageAfter(LogOf(s), heights) <= CAPACITY)
            && (t.up ==> Running(t, key) == Newest(Survivors(s), key))
            && (t.up && s.writer.NoWriter? && NoneRefused(s.returned, key) ==> Running(t, key) == Running(s, key))
  {
    HoldsInEveryRun(events);
    OpensExactly(Exec(events), heights, limit, dropped);
    if Step(Step(Exec(events), Crash), Restart(heights, limit, dropped)).up { OpensFaithful(Exec(events), heights, limit, dropped, key); }
  }

  lemma OpensExactly(s: State, heights: seq<nat>, limit: nat, dropped: nat)
    requires s.up
    ensures Step(Step(s, Crash), Restart(heights, limit, dropped)).up <==> |LogOf(s)| < limit && UsageAfter(LogOf(s), heights) <= CAPACITY
  {
    assert LogOf(Step(s, Crash)) == LogOf(s);
    FittingIs(LogOf(s), heights);
  }

  lemma OpensFaithful(s: State, heights: seq<nat>, limit: nat, dropped: nat, key: seq<byte>)
    requires UpOk(s) && s.up && Step(Step(s, Crash), Restart(heights, limit, dropped)).up
    ensures var t := Step(Step(s, Crash), Restart(heights, limit, dropped));
            && Running(t, key) == Newest(Survivors(s), key)
            && (s.writer.NoWriter? && NoneRefused(s.returned, key) ==> Running(t, key) == Running(s, key))
  {
    var t := Step(Step(s, Crash), Restart(heights, limit, dropped));
    CrashKeeps(s);
    CompleteKeeps(Step(s, Crash), heights, limit, dropped);
    RunningIs(t, key);
    AddRight(Effects(t.returned, 0), [], []);
    RunningIs(s, key);
    if s.writer.NoWriter? && NoneRefused(s.returned, key) { BetweenCalls(s, key); }
  }

  /** A recovery that fails or is interrupted changes what a key will read exactly when it is not harmless. */
  lemma IncompleteRecoveryExact(events: seq<Event>, heights: seq<nat>, limit: nat, dropped: nat, key: seq<byte>)
    requires HarmlessRun(events)
    requires var s := Exec(events); !s.up && !Step(s, Restart(heights, limit, dropped)).up
    ensures var s, e := Exec(events), Restart(heights, limit, dropped);
            Recovered(Step(s, e), key) == Recovered(s, key) <==> HarmlessFor(s, e, key)
  {
    HoldsInEveryRun(events);
    var s := Exec(events);
    IncompleteExact(s, heights, limit, dropped, key);
    DiskAnswers(s, key);
    DiskAnswers(Recover(s, heights, limit, dropped), key);
  }

  lemma {:induction false} FittingIs(records: Puts, heights: seq<nat>)
    ensures Fitting(records, heights) == |records| <==> UsageAfter(records, heights) <= CAPACITY
  {
    if records != [] { FittingIs(records[..|records| - 1], heights); }
  }

  /** What replaying takes: 72 bytes for an empty table, and for each record its node rounded up to a multiple of four. */
  lemma UsageRules(records: Puts, r: LogRecord, heights: seq<nat>, room: nat)
    requires var size := 20 + 4 * HeightAt(heights, |records|) + |r.key| + |r.value| + |PointerBytes(r)|;
             size <= room < size + 4 && room % 4 == 0
    ensures UsageAfter([], heights) == 72 && UsageAfter(records + [r], heights) == UsageAfter(records, heights) + room
  {
    assert (records + [r])[..|records|] == records;
    MemTable.RoomIs(r, HeightAt(heights, |records|), room);
  }

  /** A complete recovery leaves one table holding all logged records, logged again, frozen from 60397977 bytes on. */
  lemma RestartRules(s: State, heights: seq<nat>, limit: nat, dropped: nat)
    requires !s.up && Step(s, Restart(heights, limit, dropped)).up
    ensures var t, usage := Step(s, Restart(heights, limit, dropped)), UsageAfter(LogOf(s), heights);
            && |t.segments| == 1 && usage <= 67108864 && t.tables == s.tables
            && TableOf(t.segments[0]) == MemTable.State(InsertAll(LogOf(s)), usage, usage >= 60397977, LogOf(s))
  {
    FittingIs(LogOf(s), heights);
  }

  // ---------- recoveries that never complete ----------

  /** The least arena space the records can take. */
  function LeastRoom(records: Puts): nat
  {
    if records == [] then 0 else LeastRoom(records[..|records| - 1]) + MemTable.Room(records[|records| - 1], 1)
  }

  lemma {:induction false} LeastRoomAppend(a: Puts, b: Puts)
    ensures LeastRoom(a + b) == LeastRoom(a) + LeastRoom(b)
  {
    if b == [] {
      assert a + b == a;
    } else {
      assert (a + b)[..|a + b| - 1] == a + b[..|b| - 1];
      LeastRoomAppend(a, b[..|b| - 1]);
    }
  }

  lemma {:induction false} AtLeast(records: Puts, heights: seq<nat>)
    ensures UsageAfter(records, heights) >= MemTable.EmptyUsage() + LeastRoom(records)
  {
    if records != [] {
      AtLeast(records[..|records| - 1], heights);
      TallerTakesMore(records[|records| - 1], HeightAt(heights, |records| - 1));
    }
  }

  lemma TallerTakesMore(r: LogRecord, height: nat)
    requires height >= 1
    ensures MemTable.Room(r, height) >= MemTable.Room(r, 1)
  {
  }

  predicate TooMuch(s: State)
  {
    !s.up && MemTable.EmptyUsage() + LeastRoom(LogOf(s)) > CAPACITY
  }

  lemma LeastRoomTwice(front: Puts, back: Puts, n: nat)
    requires |front| <= n <= |front + back|
    ensures LeastRoom(back + (front + back)[..n]) >= LeastRoom(front + back)
  {
    var log := front + back;
    assert log[..n] == front + log[|front|..n];
    LeastRoomAppend(front, log[|front|..n]);
    LeastRoomAppend(front, back);
    LeastRoomAppend(back, log[..n]);
  }

  lemma TooMuchFails(s: State, heights: seq<nat>, limit: nat)
    requires TooMuch(s)
    ensures !Completes(LogOf(s), heights, limit)
  {
    FittingIs(LogOf(s), heights);
    AtLeast(LogOf(s), heights);
  }

  /** The logs only grow by incomplete recoveries. */
  lemma TooMuchStays(s: State, e: Event)
    requires TooMuch(s)
    ensures TooMuch(Step(s, e))
  {
    if e.Restart? {
      TooMuchFails(s, e.heights, e.limit);
      var front, back := IncompleteLog(s, e.heights, e.limit, e.dropped);
      LeastRoomTwice(front, back, Replayed(LogOf(s), e.heights, e.limit));
    }
  }

  lemma ExecLast(events: seq<Event>, e: Event)
    ensures Exec(events + [e]) == Step(Exec(events), e)
  {
    assert (events + [e])[..|events|] == events;
  }

  function Run(s: State, events: seq<Event>): State
  {
    if events == [] then s else Step(Run(s, events[..|events| - 1]), events[|events| - 1])
  }

  lemma {:induction false} ExecRun(events: seq<Event>, later: seq<Event>)
    ensures Exec(events + later) == Run(Exec(events), later)
  {
    if later == [] {
      assert events + later == events;
    } else {
      var last := |later| - 1;
      ExecRun(events, later[..last]);
      ExecLast(events + later[..last], later[last]);
      assert events + later == events + later[..last] + [later[last]];
    }
  }

  /** If the logs hold more than an arena can, the engine never opens again, however often it is started. */
  lemma {:induction false} NeverOpens(s: State, later: seq<Event>)
    requires TooMuch(s)
    ensures TooMuch(Run(s, later))
  {
    if later != [] {
      NeverOpens(s, later[..|later| - 1]);
      TooMuchStays(Run(s, later[..|later| - 1]), later[|later| - 1]);
    }
  }

  // ---------- runs that lose or block ----------

  lemma Run2(s: State, a: Event, b: Event)
    ensures Run(s, [a, b]) == Step(Step(s, a), b)
  {
    assert [a, b][..1] == [a] && [a][..0] == [];
    assert Run(s, [a]) == Step(Run(s, []), a);
  }

  lemma Run4(s: State, a: Event, b: Event, c: Event, d: Event)
    ensures Run(s, [a, b, c, d]) == Step(Step(Step(Step(s, a), b), c), d)
  {
    Run2(s, a, b);
    assert [a, b, c, d][..3] == [a, b, c] && [a, b, c][..2] == [a, b];
    assert Run(s, [a, b, c]) == Step(Run(s, [a, b]), c);
  }

  /** The active table logs a record and takes or refuses it. */
  function Attempt(s: State, r: LogRecord): Segment
    requires s.segments != []
  {
    InsertIn(LogIn(Last(s.segments), r), r, 1)
  }

  lemma AttemptRuns(s: State)
    requires CanLog(s)
    ensures Step(Step(s, AppendLog), InsertRecord(1))
         == s.(segments := UpdateLast(s.segments, Attempt(s, s.writer.record)),
               writer := Writing(s.writer.record, if Refuses(Last(s.segments), s.writer.record, 1) then Rejected else Inserted))
  {
    var x := LogIn(Last(s.segments), s.writer.record);
    assert UpdateLast(UpdateLast(s.segments, x), Attempt(s, s.writer.record)) == UpdateLast(s.segments, Attempt(s, s.writer.record));
  }

  /** A put that the active table takes at the first attempt. */
  function PutEvents(r: LogRecord): seq<Event>
  {
    [Begin(r), AppendLog, InsertRecord(1), Return]
  }

  lemma PutRuns(s: State, r: LogRecord)
    requires s.up && s.writer.NoWriter? && s.segments != [] && !Last(s.segments).frozen && !Refuses(Last(s.segments), r, 1)
    ensures Run(s, PutEvents(r)) == s.(segments := UpdateLast(s.segments, Attempt(s, r)), returned := s.returned + [Stored(r)])
  {
    Run4(s, Begin(r), AppendLog, InsertRecord(1), Return);
    AttemptRuns(Step(s, Begin(r)));
  }

  lemma LogOfOne(x: Segment)
    requires forall r :: r in x.wal ==> Readable(r)
    ensures Join(Wals([x])) == x.wal
  {
    OneSegment(x);
    DeliveredAll(x.wal);
  }

  /** A recovery interrupted after its first record leaves that record behind a newer one of the same key, and
      the next recovery completes and brings the older one back. */
  lemma InterruptionLoses(older: LogRecord, newer: LogRecord)
    requires older.key == newer.key && older != newer && Roomy(older) && Roomy(newer)
    ensures var s := Exec(PutEvents(older) + PutEvents(newer) + [Crash, Restart([], 1, 0)] + [Restart([], 4, 0)]);
            && s.up && s.returned == [Stored(older), Stored(newer)] && s.writer.NoWriter?
            && Newest([older, newer], older.key) == Some(newer) && Running(s, older.key) == Some(older)
  {
    var both := TwoPuts(older, newer);
    ExecRun(PutEvents(older) + PutEvents(newer), [Crash, Restart([], 1, 0)]);
    ExecLast(PutEvents(older) + PutEvents(newer) + [Crash, Restart([], 1, 0)], Restart([], 4, 0));
    Run2(both, Crash, Restart([], 1, 0));
    InterruptedAfterOne(both, older, newer);
    CompletedThen(Run(both, [Crash, Restart([], 1, 0)]), older, newer);
  }

  /** A record far smaller than an arena. */
  predicate Roomy(r: LogRecord)
  {
    MemTable.Room(r, 1) <= 1024
  }

  lemma TwoPuts(older: LogRecord, newer: LogRecord) returns (both: State)
    requires Roomy(older) && Roomy(newer)
    ensures both == Exec(PutEvents(older) + PutEvents(newer)) && both.up && both.writer.NoWriter? && both.tables == []
    ensures both.returned == [Stored(older), Stored(newer)] && |both.segments| == 1 && both.segments[0].given == [] && both.segments[0].wal == both.segments[0].puts == [older, newer]
  {
    assert [] + PutEvents(older) == PutEvents(older);
    ExecRun([], PutEvents(older));
    ExecRun(PutEvents(older), PutEvents(newer));
    PutRuns(INIT, older);
    both := Run(Exec(PutEvents(older)), PutEvents(newer));
    PutRuns(Exec(PutEvents(older)), newer);
  }

  lemma InterruptedAfterOne(s: State, older: LogRecord, newer: LogRecord)
    requires s.up && s.writer.NoWriter? && |s.segments| == 1 && s.segments[0].wal == [older, newer] && s.segments[0].given == []
    requires Roomy(older) && Roomy(newer) && s.returned == [Stored(older), Stored(newer)]
    ensures var t := Step(Step(s, Crash), Restart([], 1, 0));
            && !t.up && t.returned == s.returned && t.tables == s.tables && t.writer.NoWriter?
            && LogOf(t) == [older, newer, older]
  {
    LogOfOne(s.segments[0]);
    assert s.segments == [s.segments[0]];
    SettledStored([Stored(older), Stored(newer)], Pending(s.segments, 0));
    assert s.returned + StoredAll([]) == s.returned;
    OneReplayed(Step(s, Crash), older, newer);
  }

  lemma {:induction false} SettledStored(calls: seq<Call>, g: nat)
    requires forall i :: 0 <= i < |calls| ==> calls[i].Stored?
    ensures Settled(calls, g) == calls
  {
    if calls != [] { SettledStored(calls[..|calls| - 1], g); }
  }

  lemma OneReplayed(s: State, older: LogRecord, newer: LogRecord)
    requires !s.up && LogOf(s) == [older, newer] && Roomy(older) && Roomy(newer)
    ensures !Completes(LogOf(s), [], 1)
    ensures LogOf(Recover(s, [], 1, 0)) == [older, newer, older]
  {
    SmallFits([older, newer]);
    var front, back := IncompleteLog(s, [], 1, 0);
    assert front == [] && back == [older, newer] && [older, newer][..1] == [older];
  }

  lemma {:induction false} SmallFits(records: Puts)
    requires forall r :: r in records ==> Roomy(r)
    requires |records| <= 3
    ensures Fitting(records, []) == |records| && UsageAfter(records, []) <= MemTable.EmptyUsage() + 1024 * |records|
  {
    if records != [] {
      SmallFits(records[..|records| - 1]);
      assert records[|records| - 1] in records;
    }
  }

  lemma CompletedThen(s: State, older: LogRecord, newer: LogRecord)
    requires !s.up && s.tables == [] && LogOf(s) == [older, newer, older] && Roomy(older) && Roomy(newer) && older.key == newer.key
    ensures var t := Step(s, Restart([], 4, 0));
            && t.up && t.returned == s.returned && t.writer == s.writer
            && Running(t, older.key) == Some(older) && Newest([older, newer], older.key) == Some(newer)
  {
    var t, log := Step(s, Restart([], 4, 0)), LogOf(s);
    SmallFits(log);
    InsertAllIs(log, older.key);
    assert t.tables + MemLayers(t.segments) == [InsertAll(log)];
    var layers: seq<Layer> := [InsertAll(log)];
    assert NewestFirst(layers) == [InsertAll(log)] + NewestFirst(layers[..0]) == [InsertAll(log)] + [];
    StackOfOne(InsertAll(log), older.key);
  }

  lemma {:induction false} RunAppend(s: State, a: seq<Event>, b: seq<Event>)
    ensures Run(s, a + b) == Run(Run(s, a), b)
  {
    if b == [] {
      assert a + b == a;
    } else {
      var last := |b| - 1;
      RunAppend(s, a, b[..last]);
      assert (a + b)[..|a + b| - 1] == a + b[..last];
    }
  }

  lemma Run1(s: State, e: Event)
    ensures Run(s, [e]) == Step(s, e)
  {
    assert [e][..0] == [];
  }

  const ATTEMPT: seq<Event> := [AppendLog, InsertRecord(1)]

  /** A put that the active table refuses twice and a fresh one takes. */
  function RetriedEvents(r: LogRecord): seq<Event>
  {
    [Begin(r)] + ATTEMPT + ATTEMPT + ([Switch] + ATTEMPT) + [Return]
  }

  lemma AttemptIs(s: State)
    requires CanLog(s)
    ensures Run(s, ATTEMPT) == s.(segments := UpdateLast(s.segments, Attempt(s, s.writer.record)),
               writer := Writing(s.writer.record, if Refuses(Last(s.segments), s.writer.record, 1) then Rejected else Inserted))
  {
    Run2(s, AppendLog, InsertRecord(1));
    AttemptRuns(s);
  }

  /** Two refusals by the active table. */
  lemma TwiceRefused(s: State, r: LogRecord)
    requires s.up && s.writer.NoWriter? && |s.segments| == 1 && !s.segments[0].frozen && Refuses(s.segments[0], r, 1)
    ensures var t := Run(s, [Begin(r)] + ATTEMPT + ATTEMPT);
            && t.up && t.returned == s.returned && t.writer == Writing(r, Rejected) && |t.segments| == 1
            && t.segments[0].wal == s.segments[0].wal + [r] + [r]
  {
    var one := Step(s, Begin(r));
    Run1(s, Begin(r));
    AttemptIs(one);
    AttemptIs(Run(one, ATTEMPT));
    RunAppend(s, [Begin(r)], ATTEMPT);
    RunAppend(s, [Begin(r)] + ATTEMPT, ATTEMPT);
  }

  /** Then a switch and a third attempt. */
  lemma SwitchedAttempt(s: State, r: LogRecord)
    requires s.up && s.writer == Writing(r, Rejected) && |s.segments| == 1
    ensures var t := Run(s, [Switch] + ATTEMPT);
            && t.up && t.returned == s.returned && t.writer == Writing(r, if Refuses(FRESH, r, 1) then Rejected else Inserted)
            && |t.segments| == 2 && t.segments[0] == s.segments[0] && t.segments[1].wal == [r]
  {
    Run1(s, Switch);
    AttemptIs(Step(s, Switch));
    RunAppend(s, [Switch], ATTEMPT);
  }

  lemma ThreeAttempts(s: State, r: LogRecord, last: Event)
    requires s.up && s.writer.NoWriter? && |s.segments| == 1 && !s.segments[0].frozen && Refuses(s.segments[0], r, 1)
    ensures var t := Run(s, [Begin(r)] + ATTEMPT + ATTEMPT + ([Switch] + ATTEMPT));
            && t.up && t.returned == s.returned && t.writer == Writing(r, if Refuses(FRESH, r, 1) then Rejected else Inserted)
            && |t.segments| == 2 && t.segments[0].wal == s.segments[0].wal + [r] + [r] && t.segments[1].wal == [r]
            && Run(s, [Begin(r)] + ATTEMPT + ATTEMPT + ([Switch] + ATTEMPT) + [last]) == Step(t, last)
  {
    var front := [Begin(r)] + ATTEMPT + ATTEMPT;
    TwiceRefused(s, r);
    SwitchedAttempt(Run(s, front), r);
    RunAppend(s, front, [Switch] + ATTEMPT);
    RunAppend(s, front + ([Switch] + ATTEMPT), [last]);
    Run1(Run(s, front + ([Switch] + ATTEMPT)), last);
  }

  lemma RetriedRuns(s: State, r: LogRecord)
    requires s.up && s.writer.NoWriter? && |s.segments| == 1 && !s.segments[0].frozen
    requires Refuses(s.segments[0], r, 1) && !Refuses(FRESH, r, 1)
    ensures var t := Run(s, RetriedEvents(r));
            && t.up && t.returned == s.returned + [Stored(r)] && t.writer.NoWriter? && |t.segments| == 2
            && t.segments[0].wal == s.segments[0].wal + [r] + [r] && t.segments[1].wal == [r]
  {
    ThreeAttempts(s, r, Return);
  }

  /** A put that no table takes: refused twice by the active one and once by a fresh one, it returns all the same. */
  function RefusedEvents(r: LogRecord): seq<Event>
  {
    [Begin(r)] + ATTEMPT + ATTEMPT + ([Switch] + ATTEMPT) + [GiveUp]
  }

  lemma RefusedRuns(s: State, r: LogRecord)
    requires s.up && s.writer.NoWriter? && |s.segments| == 1 && !s.segments[0].frozen
    requires Refuses(s.segments[0], r, 1) && Refuses(FRESH, r, 1) && Readable(r)
    ensures var t := Run(s, RefusedEvents(r));
            && t.up && t.returned == s.returned + [Refused(r, true)] && t.writer.NoWriter? && |t.segments| == 2
            && t.segments[0].wal == s.segments[0].wal + [r] + [r] && t.segments[1].wal == [r]
  {
    ThreeAttempts(s, r, GiveUp);
  }

  /** A put that no arena has room for returns without having stored its record, which stays in the logs: after a
      crash the engine never opens again. */
  lemma RefusedPutBlocks(r: LogRecord, later: seq<Event>)
    requires Readable(r) && MemTable.EmptyUsage() + MemTable.Room(r, 1) > CAPACITY
    ensures Exec(RefusedEvents(r)).up && Exec(RefusedEvents(r)).returned == [Refused(r, true)]
    ensures !Exec(RefusedEvents(r) + [Crash] + later).up
  {
    RefusedFirst(r);
    ExecLast(RefusedEvents(r), Crash);
    CrashedWith(Exec(RefusedEvents(r)), r);
    ExecRun(RefusedEvents(r) + [Crash], later);
    NeverOpens(Step(Exec(RefusedEvents(r)), Crash), later);
  }

  lemma RefusedFirst(r: LogRecord)
    requires Readable(r) && MemTable.EmptyUsage() + MemTable.Room(r, 1) > CAPACITY
    ensures var t := Exec(RefusedEvents(r)); t.up && t.returned == [Refused(r, true)] && |t.segments| == 2 && t.segments[1].wal == [r]
  {
    assert [] + RefusedEvents(r) == RefusedEvents(r);
    ExecRun([], RefusedEvents(r));
    RefusedRuns(INIT, r);
  }

  lemma CrashedWith(s: State, r: LogRecord)
    requires s.up && |s.segments| == 2 && s.segments[1].wal == [r] && Readable(r)
    ensures LeastRoom(LogOf(Step(s, Crash))) >= MemTable.Room(r, 1)
  {
    assert s.segments == [s.segments[0]] + [s.segments[1]];
    TwoLogsAtLeast(s.segments[0], s.segments[1], r);
  }

  lemma TwoLogsAtLeast(x: Segment, y: Segment, r: LogRecord)
    requires y.wal == [r] && Readable(r)
    ensures LeastRoom(Join(Wals([x] + [y]))) >= MemTable.Room(r, 1)
  {
    DeliveredAll(y.wal);
    PartsLast([x], y);
    LargeSum(Join(Wals([x])), r);
  }

  function Large(key: byte): LogRecord
  {
    LogRecord(PUT_KV, [key], seq(40 * 1024 * 1024, _ => 0), None)
  }

  lemma LargeRoom(key: byte)
    ensures 40 * 1024 * 1024 < MemTable.Room(Large(key), 1) < 40 * 1024 * 1024 + 100 && Readable(Large(key))
  {
  }

  /** Two returned writes of 40 MiB, the second one after a switch: the logs are larger than an arena, and after a crash
      the engine never opens again. */
  lemma ReturnedWritesBlock(later: seq<Event>)
    ensures var events := PutEvents(Large(1)) + RetriedEvents(Large(2));
            && Exec(events).up && Exec(events).returned == [Stored(Large(1)), Stored(Large(2))] && Exec(events).writer.NoWriter?
            && !Exec(events + [Crash] + later).up
  {
    var events := PutEvents(Large(1)) + RetriedEvents(Large(2));
    TwoLarge();
    ExecLast(events, Crash);
    var s := Exec(events);
    LargeLogs(s);
    assert LogOf(Step(s, Crash)) == LogOf(s);
    ExecRun(events + [Crash], later);
    NeverOpens(Step(s, Crash), later);
  }

  lemma TwoLarge()
    ensures var s := Exec(PutEvents(Large(1)) + RetriedEvents(Large(2)));
            && s.up && s.returned == [Stored(Large(1)), Stored(Large(2))] && s.writer.NoWriter? && |s.segments| == 2
            && s.segments[0].wal == [Large(1), Large(2), Large(2)] && s.segments[1].wal == [Large(2)]
  {
    var a, b := Large(1), Large(2);
    LargeRoom(1);
    LargeRoom(2);
    assert [] + PutEvents(a) == PutEvents(a);
    ExecRun([], PutEvents(a));
    PutRuns(INIT, a);
    ExecRun(PutEvents(a), RetriedEvents(b));
    RetriedRuns(Exec(PutEvents(a)), b);
  }

  lemma LargeLogs(s: State)
    requires |s.segments| == 2 && s.segments[0].wal == [Large(1), Large(2), Large(2)] && s.segments[1].wal == [Large(2)]
    ensures LeastRoom(LogOf(s)) > CAPACITY
  {
    LargeRoom(1);
    LargeRoom(2);
    assert s.segments == [s.segments[0]] + [s.segments[1]];
    TwoLogs(s.segments[0], s.segments[1], Large(1), Large(2));
  }

  lemma TwoLogs(x: Segment, y: Segment, a: LogRecord, b: LogRecord)
    requires x.wal == [a, b, b] && y.wal == [b] && Readable(a) && Readable(b)
    ensures LeastRoom(Join(Wals([x] + [y]))) >= MemTable.Room(a, 1) + MemTable.Room(b, 1)
  {
    DeliveredAll(x.wal);
    DeliveredAll(y.wal);
    OneSegment(x);
    PartsLast([x], y);
    FourRecords(a, b);
  }

  lemma FourRecords(a: LogRecord, b: LogRecord)
    ensures LeastRoom([a, b, b] + [b]) >= MemTable.Room(a, 1) + MemTable.Room(b, 1)
  {
    LargeSum([a, b, b], b);
    assert [a, b, b] == [a] + [b] + [b];
    LargeSum([a] + [b], b);
    LargeSum([a], b);
    LeastRoomOne(a);
  }

  lemma LargeSum(records: Puts, r: LogRecord)
    ensures LeastRoom(records + [r]) == LeastRoom(records) + MemTable.Room(r, 1)
  {
    LeastRoomAppend(records, [r]);
    LeastRoomOne(r);
  }

  lemma LeastRoomOne(r: LogRecord)
    ensures LeastRoom([r]) == MemTable.Room(r, 1)
  {
    assert [r][..0] == [];
  }
}
