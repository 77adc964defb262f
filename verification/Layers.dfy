/** A memtable as the ordered list of its versions, and lookup through a stack of layers, newest first. */
module Layers {
  import opened Bytes
  import opened Records
  import opened SparseIndex

  type Layer = seq<LogRecord>

  /** Where a put places a version: before the first record whose key is not smaller. */
  function Insert(rs: Layer, r: LogRecord): Layer
  {
    if rs == [] || !Less(rs[0].key, r.key) then [r] + rs else [rs[0]] + Insert(rs[1..], r)
  }

  /** The list after some puts. */
  function InsertAll(puts: seq<LogRecord>): Layer
  {
    if puts == [] then [] else Insert(InsertAll(puts[..|puts| - 1]), puts[|puts| - 1])
  }

  /** The latest put of a key. */
  function Newest(puts: seq<LogRecord>, key: seq<byte>): Option<LogRecord>
  {
    if puts == [] then None
    else if puts[|puts| - 1].key == key then Some(puts[|puts| - 1])
    else Newest(puts[..|puts| - 1], key)
  }

  lemma {:induction false} InsertIn(rs: Layer, r: LogRecord)
    ensures forall q :: q in Insert(rs, r) <==> q == r || q in rs
  {
    if rs != [] && Less(rs[0].key, r.key) {
      assert rs == [rs[0]] + rs[1..];
      InsertIn(rs[1..], r);
    }
  }

  lemma SortedCons(a: LogRecord, rs: Layer)
    requires SortedByKey(rs) && forall q :: q in rs ==> !Less(q.key, a.key)
    ensures SortedByKey([a] + rs)
  {
    var all := [a] + rs;
    forall i, j | 0 <= i < j < |all| ensures !Less(all[j].key, all[i].key) {
      assert all[j] in rs;
    }
  }

  lemma SortedTail(rs: Layer)
    requires SortedByKey(rs) && rs != []
    ensures SortedByKey(rs[1..]) && forall q :: q in rs ==> !Less(q.key, rs[0].key)
  {
    LessTrichotomy(rs[0].key, rs[0].key);
    forall q | q in rs ensures !Less(q.key, rs[0].key) {
      var j :| 0 <= j < |rs| && rs[j] == q;
    }
  }

  /** A put keeps the list in key order. */
  lemma {:induction false} InsertSorted(rs: Layer, r: LogRecord)
    requires SortedByKey(rs)
    ensures SortedByKey(Insert(rs, r))
  {
    if rs != [] && Less(rs[0].key, r.key) {
      SortedTail(rs);
      InsertSorted(rs[1..], r);
      InsertIn(rs[1..], r);
      LessTrichotomy(rs[0].key, r.key);
      SortedCons(rs[0], Insert(rs[1..], r));
    } else if rs != [] {
      forall q | q in rs ensures !Less(q.key, r.key) {
        SortedTail(rs);
        AtMostTransitive(r.key, rs[0].key, q.key);
      }
      SortedCons(r, rs);
    } else {
      assert [r] + rs == [r];
    }
  }

  /** A put becomes the first version of its key and touches no other key. */
  lemma {:induction false} InsertFirst(rs: Layer, r: LogRecord, key: seq<byte>)
    requires SortedByKey(rs)
    ensures FirstWithKey(Insert(rs, r), key) == if key == r.key then Some(r) else FirstWithKey(rs, key)
  {
    if rs == [] || !Less(rs[0].key, r.key) {
      assert ([r] + rs)[1..] == rs;
    } else {
      SortedTail(rs);
      InsertFirst(rs[1..], r, key);
      LessTrichotomy(rs[0].key, r.key);
      assert ([rs[0]] + Insert(rs[1..], r))[1..] == Insert(rs[1..], r);
    }
  }

  /** The list of a sequence of puts is sorted, and its first version of a key is the latest put. */
  lemma {:induction false} InsertAllIs(puts: seq<LogRecord>, key: seq<byte>)
    ensures SortedByKey(InsertAll(puts)) && FirstWithKey(InsertAll(puts), key) == Newest(puts, key)
  {
    if puts != [] {
      var front, r := puts[..|puts| - 1], puts[|puts| - 1];
      InsertAllIs(front, key);
      InsertSorted(InsertAll(front), r);
      InsertFirst(InsertAll(front), r, key);
    }
  }

  lemma {:induction false} NewestAppend(a: seq<LogRecord>, b: seq<LogRecord>, key: seq<byte>)
    ensures Newest(a + b, key) == if Newest(b, key).Some? then Newest(b, key) else Newest(a, key)
  {
    if b == [] {
      assert a + b == a;
    } else {
      assert (a + b)[..|a + b| - 1] == a + b[..|b| - 1];
      NewestAppend(a, b[..|b| - 1], key);
    }
  }

  // ---------- stacks ----------

  /** The first layer with the key answers. */
  function FirstIn(layers: seq<Layer>, key: seq<byte>): Option<LogRecord>
  {
    if layers == [] then None
    else if FirstWithKey(layers[0], key).Some? then FirstWithKey(layers[0], key)
    else FirstIn(layers[1..], key)
  }

  lemma {:induction false} StackAppend(a: seq<Layer>, b: seq<Layer>, key: seq<byte>)
    ensures FirstIn(a + b, key) == if FirstIn(a, key).Some? then FirstIn(a, key) else FirstIn(b, key)
  {
    if a == [] {
      assert a + b == b;
    } else {
      assert (a + b)[1..] == a[1..] + b;
      StackAppend(a[1..], b, key);
    }
  }

  lemma StackOfOne(layer: Layer, key: seq<byte>)
    ensures FirstIn([layer], key) == FirstWithKey(layer, key)
  {
    assert [layer][1..] == [];
  }

  /** What a query makes of the record found: nothing for a tombstone. */
  function Live(r: Option<LogRecord>): Option<LogRecord>
  {
    if r.Some? && r.value.kind != DELETE then r else None
  }
}
