/** Nodes as bytes in the arena: writing a node, reading its fields, updating its pointers. The bytes
    refine the abstract node heap of the skip list. */
module NodeAccessor {
  import opened Bytes
  import opened Records
  import opened NodeLayout
  import opened Arena
  import opened SkipListMachine

  const KEY_LEN_OFFSET: nat := 4
  const VAL_LEN_OFFSET: nat := 8
  const PTR_LEN_OFFSET: nat := 12
  const HEIGHT_OFFSET: nat := 16

  ghost predicate HeaderAt(b: seq<byte>, o: Offset, record: LogRecord, height: nat)
  {
    && o + HEADER_SIZE <= |b| && b[o] == record.kind
    && Int32At(b, o + KEY_LEN_OFFSET) == |record.key| && Int32At(b, o + VAL_LEN_OFFSET) == |record.value|
    && Int32At(b, o + PTR_LEN_OFFSET) == |PointerBytes(record)| && Int32At(b, o + HEIGHT_OFFSET) == height
  }

  /** Where the pointer of a level stands, and where the key begins. */
  function NextAddress(o: Offset, level: nat): nat
  {
    o + HEADER_SIZE + level * 4
  }

  ghost predicate NextAt(b: seq<byte>, o: Offset, level: nat, target: Offset)
  {
    NextAddress(o, level) + 4 <= |b| && Int32At(b, NextAddress(o, level)) == target
  }

  ghost predicate NextsAt(b: seq<byte>, o: Offset, next: seq<Offset>)
  {
    forall l :: 0 <= l < |next| ==> NextAt(b, o, l, next[l])
  }

  ghost predicate DataAt(b: seq<byte>, at: nat, record: LogRecord)
  {
    var v := at + |record.key|; var q := v + |record.value|;
    && q + |PointerBytes(record)| <= |b|
    && b[at..v] == record.key && b[v..q] == record.value && b[q..q + |PointerBytes(record)|] == PointerBytes(record)
  }

  /** The node stands at the offset. */
  ghost predicate NodeAt(b: seq<byte>, o: Offset, n: Node)
  {
    |n.next| == n.height && HeaderAt(b, o, n.record, n.height) && NextsAt(b, o, n.next) && DataAt(b, NextAddress(o, n.height), n.record)
  }

  function NodeEnd(o: Offset, n: Node): nat
  {
    o + NodeSize(n.record, n.height)
  }

  // ---------- frames ----------

  lemma HeaderFrame(b: seq<byte>, c: seq<byte>, o: Offset, record: LogRecord, height: nat)
    requires HeaderAt(b, o, record, height) && SameOn(b, c, o, o + HEADER_SIZE)
    ensures HeaderAt(c, o, record, height)
  {
    WordSame(b, c, o + KEY_LEN_OFFSET, o, o + HEADER_SIZE);
    WordSame(b, c, o + VAL_LEN_OFFSET, o, o + HEADER_SIZE);
    WordSame(b, c, o + PTR_LEN_OFFSET, o, o + HEADER_SIZE);
    WordSame(b, c, o + HEIGHT_OFFSET, o, o + HEADER_SIZE);
  }

  lemma NextFrame(b: seq<byte>, c: seq<byte>, o: Offset, level: nat, target: Offset)
    requires NextAt(b, o, level, target) && SameOn(b, c, NextAddress(o, level), NextAddress(o, level) + 4)
    ensures NextAt(c, o, level, target)
  {
    WordSame(b, c, NextAddress(o, level), NextAddress(o, level), NextAddress(o, level) + 4);
  }

  lemma DataFrame(b: seq<byte>, c: seq<byte>, at: nat, record: LogRecord)
    requires DataAt(b, at, record) && SameOn(b, c, at, at + |record.key| + |record.value| + |PointerBytes(record)|)
    ensures DataAt(c, at, record)
  {
    var v := at + |record.key|;
    var q := v + |record.value|;
    SliceSame(b, c, at, v, at, q + |PointerBytes(record)|);
    SliceSame(b, c, v, q, at, q + |PointerBytes(record)|);
    SliceSame(b, c, q, q + |PointerBytes(record)|, at, q + |PointerBytes(record)|);
  }

  lemma SliceSame(b: seq<byte>, c: seq<byte>, i: nat, j: nat, lo: nat, hi: nat)
    requires SameOn(b, c, lo, hi) && lo <= i <= j <= hi
    ensures b[i..j] == c[i..j]
  {
  }

  lemma SameInside(b: seq<byte>, c: seq<byte>, lo: nat, hi: nat, i: nat, j: nat)
    requires SameOn(b, c, lo, hi) && lo <= i <= j <= hi
    ensures SameOn(b, c, i, j)
  {
  }

  /** A node reads the same in any buffer that agrees on its bytes. */
  lemma NodeFrame(b: seq<byte>, c: seq<byte>, o: Offset, n: Node)
    requires NodeAt(b, o, n) && SameOn(b, c, o, NodeEnd(o, n))
    ensures NodeAt(c, o, n)
  {
    var end := NodeEnd(o, n);
    SameInside(b, c, o, end, o, o + HEADER_SIZE);
    HeaderFrame(b, c, o, n.record, n.height);
    forall l | 0 <= l < |n.next| ensures NextAt(c, o, l, n.next[l]) {
      assert NextAt(b, o, l, n.next[l]);
      SameInside(b, c, o, end, NextAddress(o, l), NextAddress(o, l) + 4);
      NextFrame(b, c, o, l, n.next[l]);
    }
    SameInside(b, c, o, end, NextAddress(o, n.height), end);
    DataFrame(b, c, NextAddress(o, n.height), n.record);
  }

  /** Overwriting one pointer changes that pointer and nothing else of the node. */
  lemma PointerWritten(b: seq<byte>, o: Offset, n: Node, level: nat, target: Offset)
    requires NodeAt(b, o, n) && level < n.height && target < TWO_31
    ensures NextAddress(o, level) + 4 <= |b|
    ensures NodeAt(Overwrite(b, NextAddress(o, level), Int32Bytes(target)), o, n.(next := n.next[level := target]))
  {
    assert NextAt(b, o, level, n.next[level]);
    var at := NextAddress(o, level);
    var c := Overwrite(b, at, Int32Bytes(target));
    OverwriteSame(b, at, Int32Bytes(target), o, o + HEADER_SIZE);
    HeaderFrame(b, c, o, n.record, n.height);
    var next := n.next[level := target];
    forall l | 0 <= l < |next| ensures NextAt(c, o, l, next[l]) {
      assert NextAt(b, o, l, n.next[l]);
      if l == level {
        WordThere(b, at, target);
      } else {
        OverwriteSame(b, at, Int32Bytes(target), NextAddress(o, l), NextAddress(o, l) + 4);
        NextFrame(b, c, o, l, n.next[l]);
      }
    }
    OverwriteSame(b, at, Int32Bytes(target), NextAddress(o, n.height), NodeEnd(o, n));
    DataFrame(b, c, NextAddress(o, n.height), n.record);
  }

  // ---------- the heap ----------

  /** The buffer holds every node of the heap. */
  ghost predicate Holds(b: seq<byte>, sh: Shared)
  {
    |b| == sh.capacity && forall o {:trigger NodeAt(b, o, sh.nodes[o])} :: o in sh.nodes ==> NodeAt(b, o, sh.nodes[o])
  }

  /** No two nodes share a byte, and all lie within the buffer. */
  ghost predicate Apart(sh: Shared)
  {
    && (forall o :: o in sh.nodes ==> NodeEnd(o, sh.nodes[o]) <= sh.capacity)
    && (forall o, p :: o in sh.nodes && p in sh.nodes && o != p ==>
          NodeEnd(o, sh.nodes[o]) <= p || NodeEnd(p, sh.nodes[p]) <= o)
  }

  lemma RegionsApart(sh: Shared)
    requires RegionsOk(sh)
    ensures Apart(sh)
  {
    forall o | o in sh.nodes ensures NodeEnd(o, sh.nodes[o]) <= EndOf(sh, o) <= sh.capacity { }
    forall o, p | o in sh.nodes && p in sh.nodes && o != p
      ensures NodeEnd(o, sh.nodes[o]) <= p || NodeEnd(p, sh.nodes[p]) <= o
    {
      assert EndOf(sh, o) <= p || EndOf(sh, p) <= o;
    }
  }

  lemma OtherNode(b: seq<byte>, sh: Shared, o: Offset, level: nat, target: Offset, p: Offset)
    requires Holds(b, sh) && Apart(sh) && o in sh.nodes && level < sh.nodes[o].height && p in sh.nodes && p != o
    requires NextAddress(o, level) + 4 <= |b|
    ensures NodeAt(Overwrite(b, NextAddress(o, level), Int32Bytes(target)), p, sh.nodes[p])
  {
    assert NodeEnd(o, sh.nodes[o]) <= p || NodeEnd(p, sh.nodes[p]) <= o;
    OverwriteSame(b, NextAddress(o, level), Int32Bytes(target), p, NodeEnd(p, sh.nodes[p]));
    NodeFrame(b, Overwrite(b, NextAddress(o, level), Int32Bytes(target)), p, sh.nodes[p]);
  }

  /** A pointer write on the bytes is the pointer write on the heap: no other node changes. */
  lemma StoreHolds(b: seq<byte>, sh: Shared, o: Offset, level: nat, target: Offset)
    requires Holds(b, sh) && Apart(sh) && o in sh.nodes && level < sh.nodes[o].height && target < TWO_31
    ensures NextAddress(o, level) + 4 <= |b|
    ensures Holds(Overwrite(b, NextAddress(o, level), Int32Bytes(target)), Store(sh, o, level, target))
  {
    PointerWritten(b, o, sh.nodes[o], level, target);
    forall p | p in sh.nodes && p != o
      ensures NodeAt(Overwrite(b, NextAddress(o, level), Int32Bytes(target)), p, sh.nodes[p])
    {
      OtherNode(b, sh, o, level, target, p);
    }
  }

  /** Every node lies below the bump pointer. */
  ghost predicate BelowTop(sh: Shared)
  {
    forall o :: o in sh.nodes ==> NodeEnd(o, sh.nodes[o]) <= sh.top
  }

  lemma RegionsBelow(sh: Shared)
    requires RegionsOk(sh)
    ensures BelowTop(sh)
  {
    forall o | o in sh.nodes ensures NodeEnd(o, sh.nodes[o]) <= EndOf(sh, o) <= sh.top { }
  }

  /** Writing a fresh block leaves every node as it was. */
  lemma FreshHolds(b: seq<byte>, c: seq<byte>, sh: Shared, record: LogRecord, height: nat)
    requires Holds(b, sh) && BelowTop(sh) && sh.top <= |b| == |c| && SameOn(b, c, 0, sh.top)
    requires NodeAt(c, sh.top, Node(record, height, Zeros(height)))
    ensures forall o :: o in sh.nodes ==> NodeAt(c, o, sh.nodes[o])
    ensures Holds(c, sh.(nodes := sh.nodes[sh.top := Node(record, height, Zeros(height))]))
  {
    forall p | p in sh.nodes ensures NodeAt(c, p, sh.nodes[p]) {
      SameInside(b, c, 0, sh.top, p, NodeEnd(p, sh.nodes[p]));
      NodeFrame(b, c, p, sh.nodes[p]);
    }
  }

  // ---------- writing a node ----------

  lemma HeaderWritten(b: seq<byte>, o: Offset, record: LogRecord, height: nat, c: seq<byte>)
    requires o + HEADER_SIZE <= |b| && |record.key| < TWO_31 && |record.value| < TWO_31 && |PointerBytes(record)| < TWO_31 && height < TWO_31
    requires c == Overwrite(Overwrite(Overwrite(Overwrite(Overwrite(b, o, [record.kind]),
                    o + KEY_LEN_OFFSET, Int32Bytes(|record.key|)), o + VAL_LEN_OFFSET, Int32Bytes(|record.value|)),
                    o + PTR_LEN_OFFSET, Int32Bytes(|PointerBytes(record)|)), o + HEIGHT_OFFSET, Int32Bytes(height))
    ensures HeaderAt(c, o, record, height) && SameOn(b, c, 0, o)
  {
    var b1 := Overwrite(b, o, [record.kind]);
    var b2 := Overwrite(b1, o + KEY_LEN_OFFSET, Int32Bytes(|record.key|));
    var b3 := Overwrite(b2, o + VAL_LEN_OFFSET, Int32Bytes(|record.value|));
    var b4 := Overwrite(b3, o + PTR_LEN_OFFSET, Int32Bytes(|PointerBytes(record)|));
    WordThere(b1, o + KEY_LEN_OFFSET, |record.key|);
    WordThere(b2, o + VAL_LEN_OFFSET, |record.value|);
    WordThere(b3, o + PTR_LEN_OFFSET, |PointerBytes(record)|);
    WordThere(b4, o + HEIGHT_OFFSET, height);
    KeptWord(b2, o + VAL_LEN_OFFSET, Int32Bytes(|record.value|), o + KEY_LEN_OFFSET);
    KeptWord(b3, o + PTR_LEN_OFFSET, Int32Bytes(|PointerBytes(record)|), o + KEY_LEN_OFFSET);
    KeptWord(b4, o + HEIGHT_OFFSET, Int32Bytes(height), o + KEY_LEN_OFFSET);
    KeptWord(b3, o + PTR_LEN_OFFSET, Int32Bytes(|PointerBytes(record)|), o + VAL_LEN_OFFSET);
    KeptWord(b4, o + HEIGHT_OFFSET, Int32Bytes(height), o + VAL_LEN_OFFSET);
    KeptWord(b4, o + HEIGHT_OFFSET, Int32Bytes(height), o + PTR_LEN_OFFSET);
  }

  /** A word before a written place keeps its value. */
  lemma KeptWord(s: seq<byte>, i: nat, w: seq<byte>, at: nat)
    requires i + |w| <= |s| && at + 4 <= i
    ensures Int32At(Overwrite(s, i, w), at) == Int32At(s, at)
  {
    OverwriteSame(s, i, w, at, at + 4);
    WordSame(s, Overwrite(s, i, w), at, at, at + 4);
  }

  predicate LengthsFit(record: LogRecord)
  {
    |record.key| < TWO_31 && |record.value| < TWO_31 && |PointerBytes(record)| < TWO_31
  }

  method WriteHeader(arena: Arena, o: Offset, record: LogRecord, height: nat)
    requires arena.Valid() && o + HEADER_SIZE <= arena.capacity && LengthsFit(record) && height < TWO_31
    modifies arena.buffer
    ensures HeaderAt(arena.buffer[..], o, record, height) && SameOn(old(arena.buffer[..]), arena.buffer[..], 0, o)
  {
    HeaderWritten(arena.buffer[..], o, record, height,
      Overwrite(Overwrite(Overwrite(Overwrite(Overwrite(arena.buffer[..], o, [record.kind]),
        o + KEY_LEN_OFFSET, Int32Bytes(|record.key|)), o + VAL_LEN_OFFSET, Int32Bytes(|record.value|)),
        o + PTR_LEN_OFFSET, Int32Bytes(|PointerBytes(record)|)), o + HEIGHT_OFFSET, Int32Bytes(height)));
    arena.PutByte(o, record.kind);
    arena.PutInt(o + KEY_LEN_OFFSET, |record.key|);
    arena.PutInt(o + VAL_LEN_OFFSET, |record.value|);
    arena.PutInt(o + PTR_LEN_OFFSET, |PointerBytes(record)|);
    arena.PutInt(o + HEIGHT_OFFSET, height);
  }

  /** Clears the pointers of a new node. */
  method WriteNexts(arena: Arena, o: Offset, height: nat)
    requires arena.Valid() && NextAddress(o, height) <= arena.capacity
    modifies arena.buffer
    ensures NextsAt(arena.buffer[..], o, Zeros(height))
    ensures SameOn(old(arena.buffer[..]), arena.buffer[..], 0, o + HEADER_SIZE)
  {
    ghost var before := arena.buffer[..];
    for i := 0 to height
      invariant SameOn(before, arena.buffer[..], 0, o + HEADER_SIZE)
      invariant forall l :: 0 <= l < i ==> NextAt(arena.buffer[..], o, l, 0)
    {
      ghost var b := arena.buffer[..];
      ghost var at := NextAddress(o, i);
      arena.PutInt(NextAddress(o, i), 0);
      ClearedNext(before, b, o, i);
    }
  }

  lemma ClearedNext(before: seq<byte>, b: seq<byte>, o: Offset, i: nat)
    requires NextAddress(o, i) + 4 <= |b| && SameOn(before, b, 0, o + HEADER_SIZE)
    requires forall l :: 0 <= l < i ==> NextAt(b, o, l, 0)
    ensures var c := Overwrite(b, NextAddress(o, i), Int32Bytes(0));
            SameOn(before, c, 0, o + HEADER_SIZE) && forall l :: 0 <= l < i + 1 ==> NextAt(c, o, l, 0)
  {
    var at := NextAddress(o, i);
    var c := Overwrite(b, at, Int32Bytes(0));
    OverwriteSame(b, at, Int32Bytes(0), 0, o + HEADER_SIZE);
    forall l | 0 <= l < i + 1 ensures NextAt(c, o, l, 0) {
      if l < i {
        OverwriteSame(b, at, Int32Bytes(0), NextAddress(o, l), NextAddress(o, l) + 4);
        NextFrame(b, c, o, l, 0);
      } else {
        WordThere(b, at, 0);
      }
    }
  }

  method WriteData(arena: Arena, at: nat, record: LogRecord)
    requires arena.Valid() && at + |record.key| + |record.value| + |PointerBytes(record)| <= arena.capacity
    modifies arena.buffer
    ensures DataAt(arena.buffer[..], at, record) && SameOn(old(arena.buffer[..]), arena.buffer[..], 0, at)
  {
    DataWritten(arena.buffer[..], at, record);
    var cursor := PutPart(arena, at, record.key);
    cursor := PutPart(arena, cursor, record.value);
    cursor := PutPart(arena, cursor, PointerBytes(record));
  }

  /** Writes one part of the data area, if it is not empty. */
  method PutPart(arena: Arena, at: nat, part: seq<byte>) returns (cursor: nat)
    requires arena.Valid() && at + |part| <= arena.capacity
    modifies arena.buffer
    ensures arena.buffer[..] == Overwrite(old(arena.buffer[..]), at, part) && cursor == at + |part|
  {
    cursor := at;
    if |part| > 0 {
      arena.PutBytes(cursor, part);
      cursor := cursor + |part|;
    } else {
      assert arena.buffer[..] == Overwrite(arena.buffer[..], at, part);
    }
  }

  lemma DataWritten(b: seq<byte>, at: nat, record: LogRecord)
    requires at + |record.key| + |record.value| + |PointerBytes(record)| <= |b|
    ensures var b1 := Overwrite(b, at, record.key);
            var b2 := Overwrite(b1, at + |record.key|, record.value);
            var b3 := Overwrite(b2, at + |record.key| + |record.value|, PointerBytes(record));
            DataAt(b3, at, record) && SameOn(b, b3, 0, at)
  {
    var v := at + |record.key|;
    var q := v + |record.value|;
    var b1 := Overwrite(b, at, record.key);
    var b2 := Overwrite(b1, v, record.value);
    var b3 := Overwrite(b2, q, PointerBytes(record));
    OverwriteThere(b, at, record.key);
    OverwriteThere(b1, v, record.value);
    OverwriteThere(b2, q, PointerBytes(record));
    OverwriteSame(b1, v, record.value, at, v);
    OverwriteSame(b2, q, PointerBytes(record), at, q);
    SliceSame(b1, b2, at, v, at, v);
    SliceSame(b2, b3, at, v, at, q);
    SliceSame(b2, b3, v, q, at, q);
  }

  /** Allocates a block and writes a node into it; None when the arena is full. Everything below the block stays. */
  method AllocateAndWriteNode(arena: Arena, record: LogRecord, height: nat) returns (o: Option<Offset>)
    requires arena.Valid() && LengthsFit(record) && height < TWO_31
    modifies arena`allocateOffset, arena.buffer
    ensures arena.Valid() && arena.allocateOffset == old(arena.allocateOffset) + AlignUp(NodeSize(record, height))
    ensures o == if arena.allocateOffset <= arena.capacity then Some(old(arena.allocateOffset)) else None
    ensures o.None? ==> arena.buffer[..] == old(arena.buffer[..])
    ensures o.Some? ==> NodeAt(arena.buffer[..], o.value, Node(record, height, Zeros(height)))
                        && SameOn(old(arena.buffer[..]), arena.buffer[..], 0, o.value)
  {
    var totalSize := NodeSize(record, height);
    o := arena.Allocate(totalSize);
    if o.None? { return; }
    assert NodeEnd(o.value, Node(record, height, Zeros(height))) <= arena.capacity;
    WriteNode(arena, o.value, record, height);
  }

  method WriteNode(arena: Arena, o: Offset, record: LogRecord, height: nat)
    requires arena.Valid() && LengthsFit(record) && height < TWO_31 && o + NodeSize(record, height) <= arena.capacity
    modifies arena.buffer
    ensures NodeAt(arena.buffer[..], o, Node(record, height, Zeros(height)))
    ensures SameOn(old(arena.buffer[..]), arena.buffer[..], 0, o)
  {
    WriteHeader(arena, o, record, height);
    ghost var b1 := arena.buffer[..];
    WriteNexts(arena, o, height);
    ghost var b2 := arena.buffer[..];
    WriteData(arena, NextAddress(o, height), record);
    NodeWritten(b1, b2, arena.buffer[..], o, record, height);
  }

  lemma NodeWritten(b1: seq<byte>, b2: seq<byte>, b3: seq<byte>, o: Offset, record: LogRecord, height: nat)
    requires HeaderAt(b1, o, record, height) && NextsAt(b2, o, Zeros(height)) && DataAt(b3, NextAddress(o, height), record)
    requires SameOn(b1, b2, 0, o + HEADER_SIZE) && SameOn(b2, b3, 0, NextAddress(o, height))
    ensures NodeAt(b3, o, Node(record, height, Zeros(height)))
    ensures SameOn(b1, b3, 0, o)
  {
    assert SameOn(b1, b3, 0, o + HEADER_SIZE);
    SameInside(b1, b3, 0, o + HEADER_SIZE, o, o + HEADER_SIZE);
    HeaderFrame(b1, b3, o, record, height);
    forall l | 0 <= l < height ensures NextAt(b3, o, l, Zeros(height)[l]) {
      assert NextAt(b2, o, l, Zeros(height)[l]);
      SameInside(b2, b3, 0, NextAddress(o, height), NextAddress(o, l), NextAddress(o, l) + 4);
      NextFrame(b2, b3, o, l, Zeros(height)[l]);
    }
  }

  // ---------- reading fields ----------

  method GetKey(arena: Arena, o: Offset, ghost n: Node) returns (key: seq<byte>)
    requires arena.Valid() && NodeAt(arena.buffer[..], o, n)
    ensures key == n.record.key
  {
    var keyLen := arena.GetInt(o + KEY_LEN_OFFSET);
    if keyLen == 0 { return []; }
    var height := arena.GetInt(o + HEIGHT_OFFSET);
    var keyStart := NextAddress(o, height);
    key := arena.buffer[..][keyStart..keyStart + keyLen];
  }

  /** The whole record of a node; an empty pointer reads as none. */
  method GetRecordAt(arena: Arena, o: Offset, ghost n: Node) returns (record: LogRecord)
    requires arena.Valid() && NodeAt(arena.buffer[..], o, n)
    ensures record == Normalize(n.record)
  {
    var kind := arena.buffer[o];
    var key := GetKey(arena, o, n);
    var valLen := arena.GetInt(o + VAL_LEN_OFFSET);
    var height := arena.GetInt(o + HEIGHT_OFFSET);
    var valStart := NextAddress(o, height) + |key|;
    var ptrLen := arena.GetInt(o + PTR_LEN_OFFSET);
    var value := arena.buffer[..][valStart..valStart + valLen];
    var pointer := if ptrLen > 0 then Some(arena.buffer[..][valStart + valLen..valStart + valLen + ptrLen]) else None;
    record := LogRecord(kind, key, value, pointer);
  }

  method GetNextOffset(arena: Arena, o: Offset, level: nat, ghost n: Node) returns (next: Offset)
    requires arena.Valid() && NodeAt(arena.buffer[..], o, n) && level < n.height
    ensures next == n.next[level]
  {
    assert NextAt(arena.buffer[..], o, level, n.next[level]);
    next := arena.GetInt(NextAddress(o, level));
  }
}
