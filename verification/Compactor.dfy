/** The k-way merge of compaction: a priority queue over one record of each scanner; the first record of
    a key to come out wins, and at the bottom level a winning tombstone is dropped. */
module Compactor {
  import opened Bytes
  import opened Records
  import opened SparseIndex
  import opened SSTableBuilder
  import opened SSTableScanner
  import TableFormat
  import Filter = BloomFilter

  /** One input: a file's records in key order, and its id; a higher id is newer. */
  datatype Run = Run(fileId: nat, records: seq<LogRecord>)

  /** The record the merge keeps for a key comes from the newest file that holds the key. */
  ghost predicate WinsAt(runs: seq<Run>, key: seq<byte>, i: nat)
  {
    && i < |runs| && FirstWithKey(runs[i].records, key).Some?
    && forall j :: 0 <= j < |runs| && FirstWithKey(runs[j].records, key).Some? ==> runs[j].fileId <= runs[i].fileId
  }

  predicate Dropped(r: LogRecord, isBottomLevel: bool)
  {
    r.kind == DELETE && isBottomLevel
  }

  /** `r` is the newest version of its key and is not dropped. */
  ghost predicate Survives(runs: seq<Run>, isBottomLevel: bool, r: LogRecord)
  {
    (exists i: nat :: WinsAt(runs, r.key, i) && FirstWithKey(runs[i].records, r.key) == Some(r)) && !Dropped(r, isBottomLevel)
  }

  ghost predicate StrictKeys(rs: seq<LogRecord>)
  {
    forall i, j :: 0 <= i < j < |rs| ==> Less(rs[i].key, rs[j].key)
  }

  /** The output: strictly ascending keys, exactly the surviving records. */
  ghost predicate IsMerge(runs: seq<Run>, isBottomLevel: bool, out: seq<LogRecord>)
  {
    StrictKeys(out) && forall r :: r in out <==> Survives(runs, isBottomLevel, r)
  }

  ghost predicate Inputs(runs: seq<Run>)
  {
    && (forall i :: 0 <= i < |runs| ==> SortedByKey(runs[i].records))
    && (forall i, j :: 0 <= i < j < |runs| ==> runs[i].fileId != runs[j].fileId)
  }

  // ---------- the priority queue ----------

  datatype MergeEntry = MergeEntry(record: LogRecord, fileId: nat, source: nat)

  /** `a` has a lower priority than `b`: a larger key, or the same key from an older file. */
  predicate Greater(a: MergeEntry, b: MergeEntry)
  {
    if a.record.key != b.record.key then Less(b.record.key, a.record.key) else a.fileId < b.fileId
  }

  /** Of two entries in the same place of the order neither is greater; the order is transitive. */
  lemma GreaterIsOrder(a: MergeEntry, b: MergeEntry, c: MergeEntry)
    ensures !(Greater(a, b) && Greater(b, a))
    ensures !Greater(a, b) && !Greater(b, c) ==> !Greater(a, c)
  {
    LessTrichotomy(a.record.key, b.record.key);
    LessTrichotomy(b.record.key, c.record.key);
    LessTrichotomy(a.record.key, c.record.key);
    if Less(a.record.key, b.record.key) && Less(b.record.key, c.record.key) {
      LessTransitive(a.record.key, b.record.key, c.record.key);
    }
  }

  /** The comparator as the program computes it. */
  method CompactionGreater(a: MergeEntry, b: MergeEntry) returns (greater: bool)
    ensures greater == Greater(a, b)
  {
    var cmp := CompareKeys(a.record.key, b.record.key);
    LessTrichotomy(a.record.key, b.record.key);
    return if cmp != 0 then cmp > 0 else a.fileId < b.fileId;
  }

  ghost predicate IsTop(heap: seq<MergeEntry>, p: nat)
  {
    p < |heap| && forall k :: 0 <= k < |heap| ==> !Greater(heap[p], heap[k])
  }

  /** Where the entry of highest priority is. */
  method Top(heap: seq<MergeEntry>) returns (p: nat)
    requires heap != []
    ensures IsTop(heap, p)
  {
    p := 0;
    GreaterIsOrder(heap[0], heap[0], heap[0]);
    for k := 1 to |heap|
      invariant p < k && forall j :: 0 <= j < k ==> !Greater(heap[p], heap[j])
    {
      var better := CompactionGreater(heap[p], heap[k]);
      if better {
        forall j | 0 <= j < k ensures !Greater(heap[k], heap[j]) {
          GreaterIsOrder(heap[k], heap[p], heap[j]);
        }
        p := k;
      }
      GreaterIsOrder(heap[p], heap[p], heap[p]);
    }
  }

  // ---------- where the merge stands ----------

  /** The queue holds, for each run, the first record not consumed yet. */
  ghost predicate HeapOk(runs: seq<Run>, used: seq<nat>, heap: seq<MergeEntry>)
  {
    && |used| == |runs|
    && (forall i :: 0 <= i < |runs| ==> used[i] <= |runs[i].records|)
    && (forall k :: 0 <= k < |heap| ==> EntryOk(runs, used, heap[k]))
    && (forall k, l :: 0 <= k < l < |heap| ==> heap[k].source != heap[l].source)
    && (forall i :: 0 <= i < |runs| && used[i] < |runs[i].records| ==> HasEntry(heap, i))
  }

  /** Some entry comes from run `i`. */
  predicate HasEntry(heap: seq<MergeEntry>, i: nat)
  {
    heap != [] && (heap[0].source == i || HasEntry(heap[1..], i))
  }

  lemma {:induction false} EntryFor(heap: seq<MergeEntry>, i: nat) returns (k: nat)
    requires HasEntry(heap, i)
    ensures k < |heap| && heap[k].source == i
  {
    if heap[0].source == i { return 0; }
    k := EntryFor(heap[1..], i);
    k := k + 1;
  }

  lemma {:induction false} EntryThere(heap: seq<MergeEntry>, k: nat)
    requires k < |heap|
    ensures HasEntry(heap, heap[k].source)
  {
    if k > 0 { EntryThere(heap[1..], k - 1); }
  }

  ghost predicate EntryOk(runs: seq<Run>, used: seq<nat>, e: MergeEntry)
  {
    && e.source < |runs| == |used| && used[e.source] < |runs[e.source].records|
    && e.record == runs[e.source].records[used[e.source]] && e.fileId == runs[e.source].fileId
  }

  /** Everything consumed is at most the last key, everything else at least; before the first pop nothing is consumed. */
  ghost predicate Frontier(runs: seq<Run>, used: seq<nat>, last: Option<seq<byte>>)
    requires |used| == |runs| && forall i :: 0 <= i < |runs| ==> used[i] <= |runs[i].records|
  {
    forall i, j :: 0 <= i < |runs| && 0 <= j < |runs[i].records| ==> SideOk(runs[i].records[j].key, j < used[i], last)
  }

  predicate SideOk(key: seq<byte>, consumed: bool, last: Option<seq<byte>>)
  {
    if last.None? then !consumed
    else if consumed then !Less(last.value, key)
    else !Less(key, last.value)
  }

  ghost predicate Done(key: seq<byte>, last: Option<seq<byte>>)
  {
    last.Some? && !Less(last.value, key)
  }

  /** The output holds exactly the survivors with keys up to the last one. */
  ghost predicate OutputOk(runs: seq<Run>, isBottomLevel: bool, last: Option<seq<byte>>, out: seq<LogRecord>)
  {
    && StrictKeys(out)
    && (forall r :: r in out <==> Survives(runs, isBottomLevel, r) && Done(r.key, last))
  }

  /** The head of a run with a key is its first record with the key, unless the key was consumed. */
  lemma {:induction false} FirstAt(rs: seq<LogRecord>, j: nat)
    requires j < |rs| && forall k :: 0 <= k < j ==> rs[k].key != rs[j].key
    ensures FirstWithKey(rs, rs[j].key) == Some(rs[j])
  {
    if j > 0 {
      assert rs[1..][j - 1] == rs[j];
      FirstAt(rs[1..], j - 1);
    }
  }

  lemma {:induction false} FirstIndex(rs: seq<LogRecord>, key: seq<byte>)
    requires FirstWithKey(rs, key).Some?
    ensures exists j :: 0 <= j < |rs| && rs[j] == FirstWithKey(rs, key).value
  {
    assert FirstWithKey(rs, key).value in rs;
  }

  /** A pop with a new key brings out the winner of that key. */
  lemma TopWins(runs: seq<Run>, used: seq<nat>, heap: seq<MergeEntry>, p: nat, last: Option<seq<byte>>)
    requires Inputs(runs) && HeapOk(runs, used, heap) && Frontier(runs, used, last)
    requires IsTop(heap, p)
    requires last != Some(heap[p].record.key)
    ensures WinsAt(runs, heap[p].record.key, heap[p].source)
    ensures FirstWithKey(runs[heap[p].source].records, heap[p].record.key) == Some(heap[p].record)
  {
    var top := heap[p];
    HeadIsFirst(runs, used, top, last);
    forall j | 0 <= j < |runs| && FirstWithKey(runs[j].records, top.record.key).Some?
      ensures runs[j].fileId <= top.fileId
    {
      RivalLoses(runs, used, heap, p, last, j);
    }
  }

  /** No consumed record has the key of a head above the frontier. */
  lemma NotConsumed(runs: seq<Run>, used: seq<nat>, last: Option<seq<byte>>, e: MergeEntry, i: nat, j: nat)
    requires |used| == |runs| && (forall i :: 0 <= i < |runs| ==> used[i] <= |runs[i].records|)
    requires Frontier(runs, used, last) && EntryOk(runs, used, e) && last != Some(e.record.key)
    requires i < |runs| && j < |runs[i].records| && runs[i].records[j].key == e.record.key
    ensures j >= used[i]
  {
    assert SideOk(runs[i].records[j].key, j < used[i], last);
    assert SideOk(runs[e.source].records[used[e.source]].key, false, last);
    if last.Some? { LessTrichotomy(last.value, e.record.key); }
  }

  lemma HeadIsFirst(runs: seq<Run>, used: seq<nat>, e: MergeEntry, last: Option<seq<byte>>)
    requires |used| == |runs| && (forall i :: 0 <= i < |runs| ==> used[i] <= |runs[i].records|)
    requires Frontier(runs, used, last) && EntryOk(runs, used, e) && last != Some(e.record.key)
    ensures FirstWithKey(runs[e.source].records, e.record.key) == Some(e.record)
  {
    var i := e.source;
    forall k | 0 <= k < used[i] ensures runs[i].records[k].key != e.record.key {
      if runs[i].records[k].key == e.record.key { NotConsumed(runs, used, last, e, i, k); }
    }
    FirstAt(runs[i].records, used[i]);
  }

  lemma RivalLoses(runs: seq<Run>, used: seq<nat>, heap: seq<MergeEntry>, p: nat, last: Option<seq<byte>>, j: nat)
    requires Inputs(runs) && HeapOk(runs, used, heap) && Frontier(runs, used, last)
    requires IsTop(heap, p)
    requires last != Some(heap[p].record.key)
    requires j < |runs| && FirstWithKey(runs[j].records, heap[p].record.key).Some?
    ensures runs[j].fileId <= heap[p].fileId
  {
    var key := heap[p].record.key;
    FirstIndex(runs[j].records, key);
    var n :| 0 <= n < |runs[j].records| && runs[j].records[n] == FirstWithKey(runs[j].records, key).value;
    NotConsumed(runs, used, last, heap[p], j, n);
    var k := EntryFor(heap, j);
    assert EntryOk(runs, used, heap[k]);
    var head := runs[j].records[used[j]];
    LessTrichotomy(head.key, key);
    if used[j] < n { assert !Less(runs[j].records[n].key, runs[j].records[used[j]].key); }
    assert !Greater(heap[p], heap[k]);
  }

  // ---------- one step of the merge ----------

  function Used(used: seq<nat>, i: nat): (u: seq<nat>)
    requires i < |used|
    ensures |u| == |used| && forall j :: 0 <= j < |used| ==> u[j] == if j == i then used[i] + 1 else used[j]
  {
    used[i := used[i] + 1]
  }

  /** The queue after taking out entry `p` and advancing its scanner. */
  function Advanced(runs: seq<Run>, used: seq<nat>, heap: seq<MergeEntry>, p: nat): seq<MergeEntry>
    requires |used| == |runs| && p < |heap| && heap[p].source < |runs|
  {
    var i := heap[p].source;
    heap[..p] + heap[p + 1..]
    + if used[i] + 1 < |runs[i].records| then [MergeEntry(runs[i].records[used[i] + 1], runs[i].fileId, i)] else []
  }

  lemma AdvancedOk(runs: seq<Run>, used: seq<nat>, heap: seq<MergeEntry>, p: nat)
    requires HeapOk(runs, used, heap) && p < |heap|
    ensures HeapOk(runs, Used(used, heap[p].source), Advanced(runs, used, heap, p))
  {
    assert EntryOk(runs, used, heap[p]);
    var s := heap[p].source;
    var used', heap' := Used(used, s), Advanced(runs, used, heap, p);
    var n := |heap| - 1;
    forall k | 0 <= k < |heap'| ensures EntryOk(runs, used', heap'[k]) {
      if k < n { AdvancedOld(runs, used, heap, p, k); }
    }
    forall k, l | 0 <= k < l < |heap'| ensures heap'[k].source != heap'[l].source {
      AdvancedOld(runs, used, heap, p, k);
      if l < n { AdvancedOld(runs, used, heap, p, l); }
    }
    forall i | 0 <= i < |runs| && used'[i] < |runs[i].records| ensures HasEntry(heap', i) {
      if i == s {
        EntryThere(heap', n);
      } else {
        var k := EntryFor(heap, i);
        EntryThere(heap', if k < p then k else k - 1);
      }
    }
  }

  lemma AdvancedOld(runs: seq<Run>, used: seq<nat>, heap: seq<MergeEntry>, p: nat, k: nat)
    requires HeapOk(runs, used, heap) && p < |heap| && k < |heap| - 1
    ensures var s := heap[p].source; s < |runs| && var heap' := Advanced(runs, used, heap, p);
            && k < |heap'| && heap'[k] == heap[if k < p then k else k + 1]
            && heap'[k].source != s && EntryOk(runs, Used(used, s), heap'[k])
  {
    assert EntryOk(runs, used, heap[p]);
    assert EntryOk(runs, used, heap[if k < p then k else k + 1]);
  }

  /** The minimum of the queue is at most every record not consumed. */
  lemma TopIsLeast(runs: seq<Run>, used: seq<nat>, heap: seq<MergeEntry>, p: nat, i: nat, j: nat)
    requires Inputs(runs) && HeapOk(runs, used, heap)
    requires IsTop(heap, p)
    requires i < |runs| && used[i] <= j < |runs[i].records|
    ensures !Less(runs[i].records[j].key, heap[p].record.key)
  {
    var k := EntryFor(heap, i);
    assert EntryOk(runs, used, heap[k]);
    var key, head := heap[p].record.key, runs[i].records[used[i]];
    assert !Greater(heap[p], heap[k]);
    LessTrichotomy(head.key, key);
    if used[i] < j {
      assert !Less(runs[i].records[j].key, runs[i].records[used[i]].key);
      AtMostTransitive(key, head.key, runs[i].records[j].key);
    }
  }

  lemma FrontierMoves(runs: seq<Run>, used: seq<nat>, heap: seq<MergeEntry>, p: nat, last: Option<seq<byte>>)
    requires Inputs(runs) && HeapOk(runs, used, heap) && Frontier(runs, used, last)
    requires IsTop(heap, p)
    ensures heap[p].source < |runs| && Frontier(runs, Used(used, heap[p].source), Some(heap[p].record.key))
    ensures last.Some? ==> !Less(heap[p].record.key, last.value)
  {
    var top := heap[p];
    assert EntryOk(runs, used, top);
    assert SideOk(runs[top.source].records[used[top.source]].key, false, last);
    LessTrichotomy(top.record.key, top.record.key);
    forall i, j | 0 <= i < |runs| && 0 <= j < |runs[i].records|
      ensures SideOk(runs[i].records[j].key, j < Used(used, top.source)[i], Some(top.record.key))
    {
      assert SideOk(runs[i].records[j].key, j < used[i], last);
      if j < used[i] {
        AtMostTransitive(runs[i].records[j].key, last.value, top.record.key);
      } else {
        TopIsLeast(runs, used, heap, p, i, j);
      }
    }
  }

  lemma WinnerIsUnique(runs: seq<Run>, key: seq<byte>, i: nat, j: nat)
    requires Inputs(runs) && WinsAt(runs, key, i) && WinsAt(runs, key, j)
    ensures i == j
  {
  }

  /** A survivor between the old and the new frontier is the record popped. */
  lemma OnlyTheTop(runs: seq<Run>, isBottomLevel: bool, used: seq<nat>, heap: seq<MergeEntry>, p: nat, last: Option<seq<byte>>, r: LogRecord)
    requires Inputs(runs) && HeapOk(runs, used, heap) && Frontier(runs, used, last)
    requires IsTop(heap, p)
    requires last != Some(heap[p].record.key)
    requires Survives(runs, isBottomLevel, r) && Done(r.key, Some(heap[p].record.key)) && !Done(r.key, last)
    ensures r == heap[p].record
  {
    var i: nat :| WinsAt(runs, r.key, i) && FirstWithKey(runs[i].records, r.key) == Some(r);
    FirstIndex(runs[i].records, r.key);
    var j :| 0 <= j < |runs[i].records| && runs[i].records[j] == r;
    assert SideOk(runs[i].records[j].key, j < used[i], last);
    TopIsLeast(runs, used, heap, p, i, j);
    LessTrichotomy(r.key, heap[p].record.key);
    TopWins(runs, used, heap, p, last);
    WinnerIsUnique(runs, r.key, i, heap[p].source);
  }

  /** A pop with a new key: the output gains the record popped, or nothing when it is dropped. */
  lemma OutputGrows(runs: seq<Run>, isBottomLevel: bool, used: seq<nat>, heap: seq<MergeEntry>, p: nat, last: Option<seq<byte>>, out: seq<LogRecord>)
    requires Inputs(runs) && HeapOk(runs, used, heap) && Frontier(runs, used, last) && OutputOk(runs, isBottomLevel, last, out)
    requires IsTop(heap, p)
    requires last != Some(heap[p].record.key)
    ensures var top := heap[p].record;
            OutputOk(runs, isBottomLevel, Some(top.key), if Dropped(top, isBottomLevel) then out else out + [top])
  {
    var top := heap[p].record;
    var out' := if Dropped(top, isBottomLevel) then out else out + [top];
    TopWins(runs, used, heap, p, last);
    FrontierMoves(runs, used, heap, p, last);
    LessTrichotomy(top.key, top.key);
    if last.Some? { LessTrichotomy(last.value, top.key); }
    forall r ensures r in out' <==> Survives(runs, isBottomLevel, r) && Done(r.key, Some(top.key)) {
      if Survives(runs, isBottomLevel, r) && Done(r.key, Some(top.key)) && !Done(r.key, last) {
        OnlyTheTop(runs, isBottomLevel, used, heap, p, last, r);
      }
      if r in out { AtMostTransitive(r.key, last.value, top.key); }
    }
    forall i | 0 <= i < |out| ensures Less(out[i].key, top.key) {
      assert out[i] in out;
      LessThenAtMost(out[i].key, last.value, top.key);
    }
  }

  /** With everything consumed the output is the merge. */
  lemma AllDone(runs: seq<Run>, isBottomLevel: bool, used: seq<nat>, heap: seq<MergeEntry>, last: Option<seq<byte>>, out: seq<LogRecord>)
    requires HeapOk(runs, used, heap) && heap == [] && Frontier(runs, used, last) && OutputOk(runs, isBottomLevel, last, out)
    ensures IsMerge(runs, isBottomLevel, out)
  {
    forall r | Survives(runs, isBottomLevel, r) ensures Done(r.key, last) {
      var i: nat :| WinsAt(runs, r.key, i) && FirstWithKey(runs[i].records, r.key) == Some(r);
      FirstIndex(runs[i].records, r.key);
      var j :| 0 <= j < |runs[i].records| && runs[i].records[j] == r;
      assert SideOk(runs[i].records[j].key, j < used[i], last);
    }
  }

  // ---------- the merge ----------

  ghost function RunsOf(scanners: seq<SSTableScanner>): (runs: seq<Run>)
    ensures |runs| == |scanners|
    ensures forall i :: 0 <= i < |runs| ==> runs[i] == Run(scanners[i].fileId, Normalized(scanners[i].all))
  {
    if scanners == [] then [] else [Run(scanners[0].fileId, Normalized(scanners[0].all))] + RunsOf(scanners[1..])
  }

  ghost predicate Apart(scanners: seq<SSTableScanner>)
  {
    forall i, j :: 0 <= i < j < |scanners| ==> scanners[i] != scanners[j]
  }

  /** The scanner has delivered what is consumed and, if there is more, the record in the queue. */
  ghost predicate ScannerAt(scanner: SSTableScanner, used: nat)
    reads scanner
  {
    scanner.Valid() && used <= |scanner.all| && scanner.delivered == if used < |scanner.all| then used + 1 else used
  }

  ghost predicate AtStart(scanner: SSTableScanner)
    reads scanner
  {
    scanner.Valid() && scanner.delivered == 0
  }

  ghost predicate Exhausted(scanner: SSTableScanner)
    reads scanner
  {
    scanner.Valid() && scanner.delivered == |scanner.all|
  }

  /** `repr` holds the scanner objects. */
  ghost predicate ScannersAt(scanners: seq<SSTableScanner>, used: seq<nat>, repr: set<SSTableScanner>)
    reads repr
  {
    |used| == |scanners| && forall i :: 0 <= i < |scanners| ==> scanners[i] in repr && ScannerAt(scanners[i], used[i])
  }

  function NoneUsed(n: nat): (used: seq<nat>)
    ensures |used| == n && forall i :: 0 <= i < n ==> used[i] == 0
  {
    if n == 0 then [] else [0] + NoneUsed(n - 1)
  }

  /** The records not consumed yet. */
  ghost function Remaining(runs: seq<Run>, used: seq<nat>): nat
    requires |used| == |runs| && forall i :: 0 <= i < |runs| ==> used[i] <= |runs[i].records|
  {
    if runs == [] then 0 else |runs[0].records| - used[0] + Remaining(runs[1..], used[1..])
  }

  lemma {:induction false} RemainingFalls(runs: seq<Run>, used: seq<nat>, i: nat)
    requires |used| == |runs| && (forall i :: 0 <= i < |runs| ==> used[i] <= |runs[i].records|)
    requires i < |runs| && used[i] < |runs[i].records|
    ensures Remaining(runs, Used(used, i)) < Remaining(runs, used)
  {
    if i == 0 {
      assert Used(used, i)[1..] == used[1..];
    } else {
      assert Used(used, i)[1..] == Used(used[1..], i - 1);
      RemainingFalls(runs[1..], used[1..], i - 1);
    }
  }

  /** The queue holds the first records of the runs before `n`. */
  ghost predicate FilledTo(runs: seq<Run>, heap: seq<MergeEntry>, n: nat)
    requires n <= |runs|
  {
    && (forall k :: 0 <= k < |heap| ==> EntryOk(runs, NoneUsed(|runs|), heap[k]) && heap[k].source < n)
    && (forall k, l :: 0 <= k < l < |heap| ==> heap[k].source != heap[l].source)
    && (forall j :: 0 <= j < n && 0 < |runs[j].records| ==> HasEntry(heap, j))
  }

  lemma FillOne(runs: seq<Run>, heap: seq<MergeEntry>, n: nat)
    requires n < |runs| && FilledTo(runs, heap, n)
    ensures FilledTo(runs, heap + if 0 < |runs[n].records| then [MergeEntry(runs[n].records[0], runs[n].fileId, n)] else [], n + 1)
  {
    var heap' := heap + if 0 < |runs[n].records| then [MergeEntry(runs[n].records[0], runs[n].fileId, n)] else [];
    assert forall k :: 0 <= k < |heap| ==> heap'[k] == heap[k];
    forall j | 0 <= j < n + 1 && 0 < |runs[j].records| ensures HasEntry(heap', j) {
      if j == n {
        EntryThere(heap', |heap|);
      } else {
        var k := EntryFor(heap, j);
        EntryThere(heap', k);
      }
    }
  }

  /** Pushes the first record of every scanner that has one. */
  method FillHeap(scanners: seq<SSTableScanner>, ghost repr: set<SSTableScanner>) returns (heap: seq<MergeEntry>)
    requires Apart(scanners)
    requires forall i :: 0 <= i < |scanners| ==> scanners[i] in repr && AtStart(scanners[i])
    modifies repr
    ensures ScannersAt(scanners, NoneUsed(|scanners|), repr) && HeapOk(RunsOf(scanners), NoneUsed(|scanners|), heap)
  {
    ghost var runs := RunsOf(scanners);
    heap := [];
    for i := 0 to |scanners|
      invariant forall j :: i <= j < |scanners| ==> AtStart(scanners[j])
      invariant forall j :: 0 <= j < i ==> ScannerAt(scanners[j], 0)
      invariant FilledTo(runs, heap, i)
    {
      heap := FillNext(scanners, i, heap);
    }
  }

  method FillNext(scanners: seq<SSTableScanner>, i: nat, heap: seq<MergeEntry>) returns (heap': seq<MergeEntry>)
    requires i < |scanners| && AtStart(scanners[i]) && FilledTo(RunsOf(scanners), heap, i)
    modifies scanners[i]
    ensures ScannerAt(scanners[i], 0) && FilledTo(RunsOf(scanners), heap', i + 1)
  {
    FillOne(RunsOf(scanners), heap, i);
    heap' := PushNext(scanners, i, heap);
  }

  /** Pushes the next record of one scanner, if it has one. */
  method PushNext(scanners: seq<SSTableScanner>, i: nat, heap: seq<MergeEntry>) returns (heap': seq<MergeEntry>)
    requires i < |scanners| && scanners[i].Valid()
    modifies scanners[i]
    ensures scanners[i].Valid()
    ensures var scanner, n := scanners[i], old(scanners[i].delivered);
            && scanner.delivered == (if n < |scanner.all| then n + 1 else n)
            && heap' == heap + if n < |scanner.all| then [MergeEntry(Normalize(scanner.all[n]), scanner.fileId, i)] else []
  {
    heap' := heap;
    AtEnd(scanners[i].all, scanners[i].delivered);
    if scanners[i].HasNext() {
      var record := scanners[i].Next();
      heap' := heap' + [MergeEntry(record.value, scanners[i].fileId, i)];
    }
  }

  /** Takes the entry at `p` out of the queue and advances its scanner. */
  method PopAndAdvance(scanners: seq<SSTableScanner>, heap: seq<MergeEntry>, p: nat, ghost used: seq<nat>, ghost repr: set<SSTableScanner>)
      returns (heap': seq<MergeEntry>)
    requires Apart(scanners) && ScannersAt(scanners, used, repr)
    requires p < |heap| && EntryOk(RunsOf(scanners), used, heap[p])
    modifies repr
    ensures var s := heap[p].source;
            s < |scanners| && ScannersAt(scanners, Used(used, s), repr) && heap' == Advanced(RunsOf(scanners), used, heap, p)
  {
    heap' := PushNext(scanners, heap[p].source, heap[..p] + heap[p + 1..]);
  }

  /** Queue, frontier and output fit together. */
  ghost predicate Stands(runs: seq<Run>, isBottomLevel: bool, used: seq<nat>, heap: seq<MergeEntry>, last: Option<seq<byte>>, out: seq<LogRecord>)
  {
    Inputs(runs) && HeapOk(runs, used, heap) && Frontier(runs, used, last) && OutputOk(runs, isBottomLevel, last, out)
  }

  /** A record goes to the output if its key is new and it is not a dropped tombstone. */
  predicate Emitted(last: Option<seq<byte>>, r: LogRecord, isBottomLevel: bool)
  {
    last != Some(r.key) && !Dropped(r, isBottomLevel)
  }

  lemma StepStands(runs: seq<Run>, isBottomLevel: bool, used: seq<nat>, heap: seq<MergeEntry>, p: nat, last: Option<seq<byte>>, out: seq<LogRecord>)
    requires Stands(runs, isBottomLevel, used, heap, last, out)
    requires IsTop(heap, p)
    ensures var top := heap[p];
            && top.source < |runs|
            && Stands(runs, isBottomLevel, Used(used, top.source), Advanced(runs, used, heap, p), Some(top.record.key),
                      Output(last, top.record, isBottomLevel, out))
            && Remaining(runs, Used(used, top.source)) < Remaining(runs, used)
  {
    assert EntryOk(runs, used, heap[p]);
    AdvancedOk(runs, used, heap, p);
    FrontierMoves(runs, used, heap, p, last);
    RemainingFalls(runs, used, heap[p].source);
    if last != Some(heap[p].record.key) { OutputGrows(runs, isBottomLevel, used, heap, p, last, out); }
  }

  lemma StartStands(runs: seq<Run>, isBottomLevel: bool, heap: seq<MergeEntry>)
    requires Inputs(runs) && HeapOk(runs, NoneUsed(|runs|), heap)
    ensures Stands(runs, isBottomLevel, NoneUsed(|runs|), heap, None, [])
  {
  }

  lemma EndStands(runs: seq<Run>, isBottomLevel: bool, used: seq<nat>, last: Option<seq<byte>>, out: seq<LogRecord>)
    requires Stands(runs, isBottomLevel, used, [], last, out)
    ensures IsMerge(runs, isBottomLevel, out) && forall i :: 0 <= i < |runs| ==> used[i] == |runs[i].records|
  {
    AllDone(runs, isBottomLevel, used, [], last, out);
  }

  /** Adds the record to the output unless it is an older version or a dropped tombstone. */
  method Emit(builder: SSTableBuilder, r: LogRecord, last: Option<seq<byte>>, isBottomLevel: bool)
    requires builder.Valid()
    modifies builder, builder.dataBlockBuilder, builder.bloomFilter
    ensures builder.Valid()
    ensures builder.added == if Emitted(last, r, isBottomLevel) then old(builder.added) + [r] else old(builder.added)
  {
    if last == Some(r.key) { return; }
    if r.kind == DELETE && isBottomLevel { return; }
    builder.Add(r);
  }

  /** Finds the entry of highest priority and emits its record. */
  method EmitTop(scanners: seq<SSTableScanner>, builder: SSTableBuilder, isBottomLevel: bool, heap: seq<MergeEntry>,
                 last: Option<seq<byte>>, ghost used: seq<nat>, ghost repr: set<SSTableScanner>)
      returns (p: nat)
    requires heap != [] && builder.Valid() && ScannersAt(scanners, used, repr)
    modifies builder, builder.dataBlockBuilder, builder.bloomFilter
    ensures IsTop(heap, p) && builder.Valid() && ScannersAt(scanners, used, repr)
    ensures builder.added == Output(last, heap[p].record, isBottomLevel, old(builder.added))
  {
    p := Top(heap);
    Emit(builder, heap[p].record, last, isBottomLevel);
  }

  /** One round of the merge loop: the entry of highest priority is taken out, emitted or not, and its
      scanner advanced. */
  method MergeOne(scanners: seq<SSTableScanner>, builder: SSTableBuilder, isBottomLevel: bool, heap: seq<MergeEntry>,
                  last: Option<seq<byte>>, ghost used: seq<nat>, ghost repr: set<SSTableScanner>)
      returns (p: nat, heap': seq<MergeEntry>)
    requires heap != [] && Apart(scanners) && builder.Valid() && ScannersAt(scanners, used, repr)
    requires forall k :: 0 <= k < |heap| ==> EntryOk(RunsOf(scanners), used, heap[k])
    modifies repr, builder, builder.dataBlockBuilder, builder.bloomFilter
    ensures IsTop(heap, p) && heap[p].source < |scanners|
    ensures builder.Valid() && ScannersAt(scanners, Used(used, heap[p].source), repr)
    ensures heap' == Advanced(RunsOf(scanners), used, heap, p)
    ensures builder.added == Output(last, heap[p].record, isBottomLevel, old(builder.added))
  {
    p := EmitTop(scanners, builder, isBottomLevel, heap, last, used, repr);
    heap' := PopAndAdvance(scanners, heap, p, used, repr);
  }

  function Output(last: Option<seq<byte>>, r: LogRecord, isBottomLevel: bool, out: seq<LogRecord>): seq<LogRecord>
  {
    if Emitted(last, r, isBottomLevel) then out + [r] else out
  }

  /** Merges the inputs into a finished table of exactly the surviving records, in key order. */
  method ExecuteCompaction(scanners: seq<SSTableScanner>, isBottomLevel: bool, bitSize: nat, numHashFunctions: nat,
                           ghost repr: set<SSTableScanner>)
      returns (builder: SSTableBuilder, merged: seq<LogRecord>)
    requires 0 < bitSize < TWO_31 && numHashFunctions < TWO_31
    requires Apart(scanners) && Inputs(RunsOf(scanners))
    requires forall i :: 0 <= i < |scanners| ==> scanners[i] in repr && AtStart(scanners[i])
    modifies repr
    ensures IsMerge(RunsOf(scanners), isBottomLevel, merged) && builder.added == merged
    ensures forall i :: 0 <= i < |scanners| ==> Exhausted(scanners[i])
    ensures builder.bloomFilter.bitSize == bitSize && builder.bloomFilter.numHashFunctions == numHashFunctions
    ensures Filter.Represents(builder.bloomFilter.bits, bitSize, numHashFunctions, Keys(builder.added))
    ensures builder.file == TableFormat.TableBytes(TableOf(builder.added, bitSize, numHashFunctions, builder.bloomFilter.bits))
  {
    var heap := FillHeap(scanners, repr);
    builder := new SSTableBuilder(bitSize, numHashFunctions);
    merged := MergeAll(scanners, builder, isBottomLevel, heap, repr);
    builder.Finish();
  }

  /** The merge loop; `merged` is what it handed to the builder. */
  method MergeAll(scanners: seq<SSTableScanner>, builder: SSTableBuilder, isBottomLevel: bool, initial: seq<MergeEntry>,
                  ghost repr: set<SSTableScanner>)
      returns (merged: seq<LogRecord>)
    requires Apart(scanners) && builder.Valid() && builder.added == [] && ScannersAt(scanners, NoneUsed(|scanners|), repr)
    requires Inputs(RunsOf(scanners)) && HeapOk(RunsOf(scanners), NoneUsed(|scanners|), initial)
    modifies repr, builder, builder.dataBlockBuilder, builder.bloomFilter
    ensures builder.Valid() && builder.added == merged && IsMerge(RunsOf(scanners), isBottomLevel, merged)
    ensures forall i :: 0 <= i < |scanners| ==> Exhausted(scanners[i])
  {
    ghost var runs, used := RunsOf(scanners), NoneUsed(|scanners|);
    var heap := initial;
    var lastProcessedKey: Option<seq<byte>> := None;
    StartStands(runs, isBottomLevel, heap);
    merged := [];
    while heap != []
      invariant builder.Valid() && ScannersAt(scanners, used, repr)
      invariant merged == builder.added && Stands(runs, isBottomLevel, used, heap, lastProcessedKey, merged)
      decreases Remaining(runs, used)
    {
      var p, next := MergeOne(scanners, builder, isBottomLevel, heap, lastProcessedKey, used, repr);
      StepStands(runs, isBottomLevel, used, heap, p, lastProcessedKey, merged);
      merged := Output(lastProcessedKey, heap[p].record, isBottomLevel, merged);
      used := Used(used, heap[p].source);
      lastProcessedKey := Some(heap[p].record.key);
      heap := next;
    }
    EndStands(runs, isBottomLevel, used, lastProcessedKey, merged);
  }
}
