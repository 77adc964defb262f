/** Lookup through a sparse index: the records are cut into blocks, and only the last key of each block
    is known. What the binary search over those keys finds, and when that is the linear answer. */
module SparseIndex {
  import opened Bytes
  import opened Records
  import Bisection

  type Block = b: seq<LogRecord> | b != [] witness [LogRecord(0, [], [], None)]

  function Flatten(blocks: seq<Block>): seq<LogRecord>
  {
    if blocks == [] then [] else blocks[0] + Flatten(blocks[1..])
  }

  function MaxKey(b: Block): seq<byte>
  {
    b[|b| - 1].key
  }

  /** The first record with a key: the reference answer of a lookup. */
  function FirstWithKey(rs: seq<LogRecord>, key: seq<byte>): (r: Option<LogRecord>)
    ensures r.Some? ==> r.value in rs && r.value.key == key
    ensures r.None? ==> forall q :: q in rs ==> q.key != key
  {
    if rs == [] then None
    else if rs[0].key == key then Some(rs[0])
    else FirstWithKey(rs[1..], key)
  }

  /** What reading one block finds: reading stops at an empty key. */
  function FindInBlock(rs: seq<LogRecord>, key: seq<byte>): Option<LogRecord>
  {
    if rs == [] || rs[0].key == [] then None
    else if rs[0].key == key then Some(rs[0])
    else FindInBlock(rs[1..], key)
  }

  ghost predicate SortedByKey(rs: seq<LogRecord>)
  {
    forall i, j :: 0 <= i < j < |rs| ==> !Less(rs[j].key, rs[i].key)
  }

  ghost predicate KeysNonEmpty(rs: seq<LogRecord>)
  {
    forall i :: 0 <= i < |rs| ==> rs[i].key != []
  }

  // ---------- the binary search ----------

  /** The block the search settles on, from the bounds and the candidate so far. The search stops at
      the first block whose last key is the target. */
  function Landing(maxKeys: seq<seq<byte>>, target: seq<byte>, low: int, high: int, best: Option<nat>): (r: Option<nat>)
    requires 0 <= low && high < |maxKeys|
    requires best.Some? ==> best.value < |maxKeys|
    ensures r.Some? ==> r.value < |maxKeys|
    decreases high - low
  {
    if low > high then best
    else
      var mid := (low + high) / 2;
      if maxKeys[mid] == target then Some(mid)
      else if Less(target, maxKeys[mid]) then Landing(maxKeys, target, low, mid - 1, Some(mid))
      else Landing(maxKeys, target, mid + 1, high, best)
  }

  ghost predicate Ascending(maxKeys: seq<seq<byte>>)
  {
    forall i, j :: 0 <= i < j < |maxKeys| ==> !Less(maxKeys[j], maxKeys[i])
  }

  /** Every key before position `n` is below the target. */
  ghost predicate BelowUpTo(maxKeys: seq<seq<byte>>, target: seq<byte>, n: int)
  {
    forall i :: 0 <= i < n && i < |maxKeys| ==> Less(maxKeys[i], target)
  }

  ghost predicate NotBelow(maxKeys: seq<seq<byte>>, target: seq<byte>, i: nat)
    requires i < |maxKeys|
  {
    !Less(maxKeys[i], target)
  }

  /** The search settles on a block whose last key is not below the target, and every block before it
      has a last key below the target or equal to it; with none, every last key is below the target. */
  lemma {:induction false} LandingIs(maxKeys: seq<seq<byte>>, target: seq<byte>, low: int, high: int, best: Option<nat>)
    requires Ascending(maxKeys) && 0 <= low <= high + 1 <= |maxKeys|
    requires BelowUpTo(maxKeys, target, low)
    requires best == if high + 1 < |maxKeys| then Some(high + 1) else None
    requires best.Some? ==> Less(target, maxKeys[best.value])
    ensures var r := Landing(maxKeys, target, low, high, best);
            && (r.None? ==> BelowUpTo(maxKeys, target, |maxKeys|))
            && (r.Some? ==> NotBelow(maxKeys, target, r.value))
            && (r.Some? ==> BelowUpTo(maxKeys, target, r.value) || maxKeys[r.value] == target)
    decreases high - low
  {
    if low <= high {
      var mid := (low + high) / 2;
      LessTrichotomy(target, maxKeys[mid]);
      if maxKeys[mid] == target {
      } else if Less(target, maxKeys[mid]) {
        LandingIs(maxKeys, target, low, mid - 1, Some(mid));
      } else {
        forall i | 0 <= i < mid + 1 ensures Less(maxKeys[i], target) {
          if i < mid { LessThenAtMost(maxKeys[i], maxKeys[mid], target); }
        }
        LandingIs(maxKeys, target, mid + 1, high, best);
      }
    } else if best.Some? {
      LessTrichotomy(target, maxKeys[best.value]);
    }
  }

  /** How the target compares with each last key. */
  function Sides(keys: seq<seq<byte>>, target: seq<byte>): (s: seq<int>)
    ensures |s| == |keys|
  {
    seq(|keys|, i requires 0 <= i < |keys| => if keys[i] == target then 0 else if Less(target, keys[i]) then -1 else 1)
  }

  function PositionIn(i: int, n: nat): (r: Option<nat>)
    ensures r.Some? ==> r.value < n
  {
    if 0 <= i < n then Some(i) else None
  }

  lemma {:induction false} LandingIsHalving(keys: seq<seq<byte>>, target: seq<byte>, low: int, high: int, best: int)
    requires 0 <= low && high < |keys|
    ensures Landing(keys, target, low, high, PositionIn(best, |keys|)) == PositionIn(Bisection.Halving(Sides(keys, target), low, high, best), |keys|)
    decreases high - low
  {
    if low <= high {
      var mid := (low + high) / 2;
      assert PositionIn(mid, |keys|) == Some(mid);
      LandingIsHalving(keys, target, low, mid - 1, mid);
      LandingIsHalving(keys, target, mid + 1, high, best);
    }
  }

  /** The search settles as bisection over the comparisons does (`Bisection.BisectHalves`). */
  lemma LandingBisects(keys: seq<seq<byte>>, target: seq<byte>)
    ensures Landing(keys, target, 0, |keys| - 1, None) == PositionIn(Bisection.Bisect(Sides(keys, target)), |keys|)
    ensures forall i :: 0 <= i < |keys| ==>
              Sides(keys, target)[i] == if keys[i] == target then 0 else if Less(target, keys[i]) then -1 else 1
  {
    LandingIsHalving(keys, target, 0, |keys| - 1, |keys|);
  }

  // ---------- the linear answer ----------

  ghost predicate IsTable(blocks: seq<Block>)
  {
    SortedByKey(Flatten(blocks))
  }

  function MaxKeys(blocks: seq<Block>): (s: seq<seq<byte>>)
    ensures |s| == |blocks| && forall i :: 0 <= i < |blocks| ==> s[i] == MaxKey(blocks[i])
  {
    if blocks == [] then [] else [MaxKey(blocks[0])] + MaxKeys(blocks[1..])
  }

  lemma {:induction false} FlattenAppend(a: seq<Block>, b: seq<Block>)
    ensures Flatten(a + b) == Flatten(a) + Flatten(b)
  {
    if a == [] {
      assert a + b == b;
    } else {
      assert (a + b)[1..] == a[1..] + b;
      FlattenAppend(a[1..], b);
    }
  }

  lemma FlattenLast(blocks: seq<Block>, b: Block)
    ensures Flatten(blocks + [b]) == Flatten(blocks) + b
  {
    var last: seq<Block> := [b];
    FlattenAppend(blocks, last);
    assert last[1..] == [];
    assert b + Flatten(last[1..]) == b;
  }

  lemma SplitAt(blocks: seq<Block>, i: nat)
    requires i < |blocks|
    ensures Flatten(blocks) == Flatten(blocks[..i]) + blocks[i] + Flatten(blocks[i + 1..])
  {
    assert blocks == blocks[..i] + blocks[i..];
    FlattenAppend(blocks[..i], blocks[i..]);
    assert blocks[i..][1..] == blocks[i + 1..];
    var a, b, c := Flatten(blocks[..i]), blocks[i], Flatten(blocks[i + 1..]);
    assert a + (b + c) == a + b + c;
  }

  lemma {:induction false} FirstInAppend(a: seq<LogRecord>, b: seq<LogRecord>, key: seq<byte>)
    ensures FirstWithKey(a + b, key) == if FirstWithKey(a, key).Some? then FirstWithKey(a, key) else FirstWithKey(b, key)
  {
    if a == [] {
      assert a + b == b;
    } else {
      assert (a + b)[1..] == a[1..] + b;
      FirstInAppend(a[1..], b, key);
    }
  }

  /** Every record before the block has a key at most the last key before it; every record of the block
      or after it has a key at least the block's first one. */
  lemma AroundBlock(blocks: seq<Block>, i: nat)
    requires IsTable(blocks) && i < |blocks|
    ensures forall q :: q in Flatten(blocks[..i]) ==> !Less(MaxKey(blocks[i]), q.key)
    ensures forall q :: q in Flatten(blocks[i + 1..]) ==> !Less(q.key, MaxKey(blocks[i]))
  {
    SplitAt(blocks, i);
    var a, b, c := Flatten(blocks[..i]), blocks[i], Flatten(blocks[i + 1..]);
    var all := Flatten(blocks);
    assert all[|a| + |b| - 1] == b[|b| - 1];
    forall q | q in a ensures !Less(MaxKey(b), q.key) {
      var j :| 0 <= j < |a| && a[j] == q;
      assert all[j] == q;
    }
    forall q | q in c ensures !Less(q.key, MaxKey(b)) {
      var j :| 0 <= j < |c| && c[j] == q;
      assert all[|a| + |b| + j] == q;
    }
  }

  lemma {:induction false} MaxKeysAscend(blocks: seq<Block>)
    requires IsTable(blocks)
    ensures Ascending(MaxKeys(blocks))
  {
    forall i, j | 0 <= i < j < |blocks| ensures !Less(MaxKey(blocks[j]), MaxKey(blocks[i])) {
      AroundBlock(blocks, j);
      SplitAt(blocks[..j], i);
      assert blocks[..j][i] == blocks[i];
      assert blocks[i][|blocks[i]| - 1] in blocks[i];
    }
  }

  lemma NoneBelow(blocks: seq<Block>, target: seq<byte>, i: nat)
    requires IsTable(blocks) && i <= |blocks| && BelowUpTo(MaxKeys(blocks), target, i)
    ensures FirstWithKey(Flatten(blocks[..i]), target).None?
  {
    if i > 0 {
      var last := i - 1;
      assert MaxKeys(blocks)[last] == MaxKey(blocks[last]);
      AroundBlock(blocks, last);
      SplitAt(blocks[..i], last);
      assert blocks[..i][..last] == blocks[..last] && blocks[..i][last] == blocks[last];
      SplitAt(blocks, last);
      InBlock(blocks, last);
      forall q | q in Flatten(blocks[..i]) ensures q.key != target {
        if q in Flatten(blocks[..last]) || q in blocks[last] {
          LessThenAtMost(q.key, MaxKey(blocks[last]), target);
          LessTrichotomy(q.key, target);
        }
      }
    }
  }

  /** Inside a block every key is at most the last one. */
  lemma InBlock(blocks: seq<Block>, i: nat)
    requires IsTable(blocks) && i < |blocks|
    ensures SortedByKey(blocks[i])
    ensures forall q :: q in blocks[i] ==> !Less(MaxKey(blocks[i]), q.key)
  {
    SplitAt(blocks, i);
    var a, b, all := Flatten(blocks[..i]), blocks[i], Flatten(blocks);
    forall j, k | 0 <= j < k < |b| ensures !Less(b[k].key, b[j].key) {
      assert all[|a| + j] == b[j] && all[|a| + k] == b[k];
    }
    LessTrichotomy(MaxKey(b), MaxKey(b));
  }

  /** If every earlier block ends below the target, the block answers for the whole table. */
  lemma BlockAnswers(blocks: seq<Block>, target: seq<byte>, i: nat)
    requires IsTable(blocks) && i < |blocks|
    requires BelowUpTo(MaxKeys(blocks), target, i) && !Less(MaxKey(blocks[i]), target)
    ensures FirstWithKey(Flatten(blocks), target) == FirstWithKey(blocks[i], target)
  {
    NoneBelow(blocks, target, i);
    SplitAt(blocks, i);
    AroundBlock(blocks, i);
    var a, b, c := Flatten(blocks[..i]), blocks[i], Flatten(blocks[i + 1..]);
    FirstInAppend(a + b, c, target);
    FirstInAppend(a, b, target);
    LessTrichotomy(MaxKey(b), target);
    assert b[|b| - 1] in b;
    if FirstWithKey(b, target).None? {
      assert Less(target, MaxKey(b));
      forall q | q in c ensures q.key != target { }
      assert FirstWithKey(c, target).None?;
    }
  }

  // ---------- what a search answers ----------

  function LandsOn(blocks: seq<Block>, target: seq<byte>): (r: Option<nat>)
    ensures r.Some? ==> r.value < |blocks|
  {
    Landing(MaxKeys(blocks), target, 0, |blocks| - 1, None)
  }

  /** The record a search returns: what reading finds in the block the binary search lands on. */
  function SearchAnswer(blocks: seq<Block>, target: seq<byte>): Option<LogRecord>
  {
    match LandsOn(blocks, target)
    case None => None
    case Some(i) => FindInBlock(blocks[i], target)
  }

  /** The search landed behind another block that ends with the target. */
  predicate LandsLate(blocks: seq<Block>, target: seq<byte>)
  {
    match LandsOn(blocks, target)
    case None => false
    case Some(i) => i > 0 && MaxKey(blocks[i - 1]) == target
  }

  lemma {:induction false} BlockRead(rs: seq<LogRecord>, key: seq<byte>)
    requires KeysNonEmpty(rs)
    ensures FindInBlock(rs, key) == FirstWithKey(rs, key)
  {
    if rs != [] { BlockRead(rs[1..], key); }
  }

  /** A block in key order is read right exactly when it does not begin with an empty key or does not
      contain the target. */
  lemma BlockReadExact(b: Block, key: seq<byte>)
    requires SortedByKey(b)
    ensures FindInBlock(b, key) == FirstWithKey(b, key) <==> b[0].key != [] || FirstWithKey(b, key).None?
  {
    if b[0].key != [] {
      assert forall i :: 0 <= i < |b| ==> b[i].key != [];
      BlockRead(b, key);
    }
  }

  lemma LandingFacts(blocks: seq<Block>, target: seq<byte>)
    requires IsTable(blocks)
    ensures match LandsOn(blocks, target)
            case None => FirstWithKey(Flatten(blocks), target).None?
            case Some(i) =>
              && !Less(MaxKey(blocks[i]), target)
              && (BelowUpTo(MaxKeys(blocks), target, i) || (MaxKey(blocks[i]) == target && LandsLate(blocks, target)))
  {
    var maxKeys := MaxKeys(blocks);
    MaxKeysAscend(blocks);
    LandingIs(maxKeys, target, 0, |blocks| - 1, None);
    match LandsOn(blocks, target)
    case None =>
      NoneBelow(blocks, target, |blocks|);
      assert blocks[..|blocks|] == blocks;
    case Some(i) =>
      assert NotBelow(maxKeys, target, i);
      if i > 0 && MaxKey(blocks[i - 1]) != target { BelowBefore(maxKeys, target, i); }
  }

  lemma BelowBefore(maxKeys: seq<seq<byte>>, target: seq<byte>, i: nat)
    requires Ascending(maxKeys) && 0 < i < |maxKeys| && maxKeys[i - 1] != target
    requires BelowUpTo(maxKeys, target, i) || maxKeys[i] == target
    ensures BelowUpTo(maxKeys, target, i)
  {
    LessTrichotomy(maxKeys[i - 1], target);
    forall j | 0 <= j < i ensures Less(maxKeys[j], target) {
      if j < i - 1 { LessThenAtMost(maxKeys[j], maxKeys[i - 1], target); }
    }
  }

  lemma BlockKeys(blocks: seq<Block>, i: nat)
    requires KeysNonEmpty(Flatten(blocks)) && i < |blocks|
    ensures KeysNonEmpty(blocks[i])
  {
    SplitAt(blocks, i);
    forall j | 0 <= j < |blocks[i]| ensures blocks[i][j].key != [] {
      assert Flatten(blocks)[|Flatten(blocks[..i])| + j] == blocks[i][j];
    }
  }

  /** The search agrees with a linear scan for the first record unless it lands late. */
  lemma SearchIsLinear(blocks: seq<Block>, target: seq<byte>)
    requires IsTable(blocks) && KeysNonEmpty(Flatten(blocks)) && !LandsLate(blocks, target)
    ensures SearchAnswer(blocks, target) == FirstWithKey(Flatten(blocks), target)
  {
    LandingFacts(blocks, target);
    match LandsOn(blocks, target)
    case None =>
    case Some(i) =>
      BlockAnswers(blocks, target, i);
      BlockKeys(blocks, i);
      BlockRead(blocks[i], target);
  }

  ghost predicate StrictMaxKeys(blocks: seq<Block>)
  {
    forall i, j :: 0 <= i < j < |blocks| ==> Less(MaxKey(blocks[i]), MaxKey(blocks[j]))
  }

  /** With strictly increasing last keys every key is answered as by a linear scan. */
  lemma StrictSearchIsLinear(blocks: seq<Block>, target: seq<byte>)
    requires IsTable(blocks) && KeysNonEmpty(Flatten(blocks)) && StrictMaxKeys(blocks)
    ensures SearchAnswer(blocks, target) == FirstWithKey(Flatten(blocks), target)
  {
    LandingFacts(blocks, target);
    if LandsLate(blocks, target) {
      var i := LandsOn(blocks, target).value;
      LessTrichotomy(MaxKey(blocks[i - 1]), MaxKey(blocks[i]));
      assert MaxKeys(blocks)[i - 1] == target;
      LessTrichotomy(target, target);
    }
    SearchIsLinear(blocks, target);
  }

  /** What it takes for the search to return the first record of a key: the block found, if it has the key,
      begins with a non-empty key, and no earlier block ends with the target, unless with the same record. */
  predicate ReadsFirst(blocks: seq<Block>, target: seq<byte>)
  {
    match LandsOn(blocks, target)
    case None => true
    case Some(i) =>
      || FirstWithKey(blocks[i], target).None?
      || (blocks[i][0].key != []
          && (!LandsLate(blocks, target) || FirstWithKey(blocks[i], target) == FirstWithKey(Flatten(blocks[..i]), target)))
  }

  lemma {:induction false} FoundInBlock(rs: seq<LogRecord>, key: seq<byte>)
    ensures FindInBlock(rs, key).Some? ==> FirstWithKey(rs, key) == FindInBlock(rs, key)
  {
    if rs != [] && rs[0].key != [] { FoundInBlock(rs[1..], key); }
  }

  /** A late landing is behind a block with the key, on a block that ends with the key. */
  lemma LateBlocks(blocks: seq<Block>, target: seq<byte>)
    requires IsTable(blocks) && LandsLate(blocks, target)
    ensures var i := LandsOn(blocks, target).value;
            FirstWithKey(Flatten(blocks[..i]), target).Some? && FirstWithKey(blocks[i], target).Some?
  {
    var i := LandsOn(blocks, target).value;
    SplitAt(blocks[..i], i - 1);
    assert blocks[..i][i - 1] == blocks[i - 1];
    assert blocks[i - 1][|blocks[i - 1]| - 1] in Flatten(blocks[..i]);
    LandingFacts(blocks, target);
    if BelowUpTo(MaxKeys(blocks), target, i) {
      assert MaxKeys(blocks)[i - 1] == target;
      LessTrichotomy(target, target);
    }
    assert blocks[i][|blocks[i]| - 1] in blocks[i];
  }

  /** On any table the search returns the first record of a key, or none, if and only if it reads first. */
  lemma SearchExact(blocks: seq<Block>, target: seq<byte>)
    requires IsTable(blocks)
    ensures SearchAnswer(blocks, target) == FirstWithKey(Flatten(blocks), target) <==> ReadsFirst(blocks, target)
  {
    LandingFacts(blocks, target);
    match LandsOn(blocks, target)
    case None =>
    case Some(i) =>
      var a, b, c := Flatten(blocks[..i]), blocks[i], Flatten(blocks[i + 1..]);
      FoundInBlock(b, target);
      InBlock(blocks, i);
      BlockReadExact(b, target);
      if LandsLate(blocks, target) {
        LateBlocks(blocks, target);
        SplitAt(blocks, i);
        FirstInAppend(a + b, c, target);
        FirstInAppend(a, b, target);
      } else {
        BlockAnswers(blocks, target, i);
      }
  }

  /** The version that the search reads: the first one in the block found, unless an empty key hides that block. */
  function VersionRead(blocks: seq<Block>, target: seq<byte>): Option<LogRecord>
  {
    match LandsOn(blocks, target)
    case None => None
    case Some(i) => if blocks[i][0].key == [] then None else FirstWithKey(blocks[i], target)
  }

  lemma VersionReadIs(blocks: seq<Block>, target: seq<byte>)
    requires IsTable(blocks)
    ensures SearchAnswer(blocks, target) == VersionRead(blocks, target)
  {
    match LandsOn(blocks, target)
    case None =>
    case Some(i) =>
      InBlock(blocks, i);
      BlockReadExact(blocks[i], target);
  }

  ghost predicate AllDifferent(rs: seq<LogRecord>)
  {
    forall i, j :: 0 <= i < j < |rs| ==> rs[i] != rs[j]
  }

  lemma DifferentParts(a: seq<LogRecord>, b: seq<LogRecord>, c: seq<LogRecord>)
    requires AllDifferent(a + b + c)
    ensures forall r :: r in a ==> r !in b
  {
    var all := a + b + c;
    forall p, q | 0 <= p < |a| && 0 <= q < |b| ensures a[p] != b[q] {
      assert all[p] == a[p] && all[|a| + q] == b[q];
    }
  }

  /** With distinct records this is: no late landing, and no empty key in front of the target's block. */
  lemma DistinctReadsFirst(blocks: seq<Block>, target: seq<byte>)
    requires IsTable(blocks) && AllDifferent(Flatten(blocks))
    ensures ReadsFirst(blocks, target) <==>
              !LandsLate(blocks, target)
              && match LandsOn(blocks, target) case None => true case Some(i) => blocks[i][0].key != [] || FirstWithKey(blocks[i], target).None?
  {
    if LandsLate(blocks, target) {
      var i := LandsOn(blocks, target).value;
      LateBlocks(blocks, target);
      SplitAt(blocks, i);
      DifferentParts(Flatten(blocks[..i]), blocks[i], Flatten(blocks[i + 1..]));
    }
  }

  /** What a search finds is a record of the table with the key. */
  lemma AnswerInTable(blocks: seq<Block>, target: seq<byte>)
    ensures var r := SearchAnswer(blocks, target); r.Some? ==> r.value in Flatten(blocks) && r.value.key == target
  {
    match LandsOn(blocks, target)
    case None =>
    case Some(i) =>
      FoundInBlock(blocks[i], target);
      SplitAt(blocks, i);
  }
}
