/** The least-recently-used cache: a recency list of cells and an index of the cells by key. */
module BlockCache {
  import opened Bytes

  /** What the cache holds, most recently used first. */
  type Contents<K, V> = seq<(K, V)>

  function KeysOf<K, V>(c: Contents<K, V>): (s: seq<K>)
    ensures |s| == |c| && forall i :: 0 <= i < |c| ==> s[i] == c[i].0
  {
    if c == [] then [] else [c[0].0] + KeysOf(c[1..])
  }

  /** The list without the entry of a key. */
  function Without<K(==), V>(c: Contents<K, V>, key: K): Contents<K, V>
  {
    if c == [] then [] else if c[0].0 == key then c[1..] else [c[0]] + Without(c[1..], key)
  }

  function Find<K(==), V>(c: Contents<K, V>, key: K): (r: Option<V>)
    ensures r.Some? <==> key in KeysOf(c)
  {
    if c == [] then None else if c[0].0 == key then Some(c[0].1) else Find(c[1..], key)
  }

  function Limit<T>(s: seq<T>, n: nat): seq<T>
  {
    if |s| <= n then s else s[..n]
  }

  function AfterPut<K(==), V>(c: Contents<K, V>, capacity: nat, key: K, value: V): Contents<K, V>
  {
    Limit([(key, value)] + Without(c, key), if Find(c, key).Some? then |c| else capacity)
  }

  function AfterGet<K(==), V>(c: Contents<K, V>, key: K): Contents<K, V>
  {
    if Find(c, key).Some? then [(key, Find(c, key).value)] + Without(c, key) else c
  }

  class Cell<K, V> {
    const key: K
    var value: V

    constructor (key: K, value: V)
      ensures this.key == key && this.value == value
    {
      this.key := key;
      this.value := value;
    }
  }

  class BlockCache<K(==), V> {
    const maxCapacity: nat
    var order: seq<Cell<K, V>>
    var index: map<K, Cell<K, V>>
    ghost var Repr: set<object>
    ghost var Contents: Contents<K, V>

    ghost predicate Listed()
      reads this, Repr
    {
      && this in Repr && (forall i :: 0 <= i < |order| ==> order[i] in Repr)
      && Agree(order, index)
      && Shows(Contents, order)
    }

    ghost predicate Valid()
      reads this, Repr
    {
      Listed() && |order| <= maxCapacity
    }

    constructor (maxCapacity: nat)
      ensures Valid() && Contents == [] && fresh(Repr) && this.maxCapacity == maxCapacity
    {
      this.maxCapacity := maxCapacity;
      order, index, Contents := [], map[], [];
      Repr := {this};
    }

    method Put(key: K, value: V)
      requires Valid()
      modifies Repr
      ensures Valid() && fresh(Repr - old(Repr))
      ensures Contents == AfterPut(old(Contents), maxCapacity, key, value)
    {
      ghost var before := Contents;
      if key in index {
        Touch(key);
        SetFront(value);
        WithoutOne(before, key);
      } else {
        Absent(order, index, Contents, key);
        Insert(key, value);
        if |order| > maxCapacity { Evict(); }
      }
    }

    method SetFront(value: V)
      requires Valid() && order != []
      modifies order[0], this`Contents
      ensures Valid() && Contents == [(order[0].key, value)] + old(Contents)[1..]
    {
      order[0].value := value;
      Contents := [(order[0].key, value)] + Contents[1..];
      forall i | 1 <= i < |order| ensures order[i] != order[0] { assert order[i].key != order[0].key; }
    }

    method Insert(key: K, value: V)
      requires Listed() && key !in index
      modifies this`order, this`index, this`Contents, this`Repr
      ensures Listed() && fresh(Repr - old(Repr)) && |order| == |old(order)| + 1
      ensures Contents == [(key, value)] + old(Contents)
    {
      var cell := new Cell(key, value);
      Repr := Repr + {cell};
      AgreeInsert(order, index, cell);
      ShowsInsert(Contents, order, cell);
      order := [cell] + order;
      index := index[key := cell];
      Contents := [(key, value)] + Contents;
    }

    method Evict()
      requires Listed() && order != []
      modifies this`order, this`index, this`Contents
      ensures Listed() && |order| == |old(order)| - 1 && Contents == old(Contents)[..|order|]
    {
      AgreeDropLast(order, index);
      index := index - {order[|order| - 1].key};
      order := order[..|order| - 1];
      Contents := Contents[..|order|];
    }

    /** Moves the cell of an indexed key to the front of the list. */
    method Touch(key: K)
      requires Valid() && key in index
      modifies this`order, this`Contents
      ensures Valid() && order != [] && order[0] == index[key]
      ensures Find(old(Contents), key) == Some(order[0].value)
      ensures Contents == [(key, order[0].value)] + Without(old(Contents), key)
    {
      var p := PositionOf(order, index[key]);
      AgreeSplice(order, index, p);
      TouchContents(Contents, order, key, p);
      order := Spliced(order, p);
      Contents := Spliced(Contents, p);
    }

    method Get(key: K) returns (value: Option<V>)
      requires Valid()
      modifies this
      ensures Valid() && Repr == old(Repr)
      ensures value == Find(old(Contents), key) && Contents == AfterGet(old(Contents), key)
    {
      if key !in index {
        Absent(order, index, Contents, key);
        return None;
      }
      Touch(key);
      return Some(order[0].value);
    }
  }

  /** List and index agree: each cell is in the list once and indexed under its own key. */
  ghost predicate Agree<K, V>(order: seq<Cell<K, V>>, index: map<K, Cell<K, V>>)
  {
    && (forall i :: 0 <= i < |order| ==> order[i].key in index && index[order[i].key] == order[i])
    && (forall k :: k in index ==> index[k] in order && index[k].key == k)
    && (forall i, j :: 0 <= i < j < |order| ==> order[i].key != order[j].key)
  }

  ghost predicate Shows<K, V>(contents: Contents<K, V>, order: seq<Cell<K, V>>)
    reads set i | 0 <= i < |order| :: order[i]
  {
    |contents| == |order| && (forall i :: 0 <= i < |order| ==> contents[i] == (order[i].key, order[i].value))
  }

  lemma ShowsInsert<K, V>(contents: Contents<K, V>, order: seq<Cell<K, V>>, cell: Cell<K, V>)
    requires Shows(contents, order)
    ensures Shows([(cell.key, cell.value)] + contents, [cell] + order)
  {
  }

  lemma ShowsSplice<K, V>(contents: Contents<K, V>, order: seq<Cell<K, V>>, p: nat)
    requires Shows(contents, order) && p < |order|
    ensures Shows(Spliced(contents, p), Spliced(order, p))
  {
  }

  lemma SplicedIs<T>(s: seq<T>, p: nat)
    requires p < |s|
    ensures Spliced(s, p) == [s[p]] + (s[..p] + s[p + 1..])
  {
  }

  lemma TouchContents<K, V>(contents: Contents<K, V>, order: seq<Cell<K, V>>, key: K, p: nat)
    requires Shows(contents, order) && p < |order| && order[p].key == key && forall i :: 0 <= i < p ==> order[i].key != key
    ensures Shows(Spliced(contents, p), Spliced(order, p)) && Find(contents, key) == Some(order[p].value)
    ensures Spliced(contents, p) == [(key, order[p].value)] + Without(contents, key)
  {
    ShowsSplice(contents, order, p);
    FindIs(contents, key, p);
    SplicedIs(contents, p);
  }

  lemma Absent<K, V>(order: seq<Cell<K, V>>, index: map<K, Cell<K, V>>, contents: Contents<K, V>, key: K)
    requires Agree(order, index) && Shows(contents, order) && key !in index
    ensures Find(contents, key).None? && Without(contents, key) == contents
  {
    NotFound(contents, key);
  }

  lemma AgreeInsert<K, V>(order: seq<Cell<K, V>>, index: map<K, Cell<K, V>>, cell: Cell<K, V>)
    requires Agree(order, index) && cell.key !in index
    ensures Agree([cell] + order, index[cell.key := cell])
  {
    forall k | k in index ensures index[k] in [cell] + order { }
    assert cell == ([cell] + order)[0];
  }

  lemma AgreeDropLast<K, V>(order: seq<Cell<K, V>>, index: map<K, Cell<K, V>>)
    requires Agree(order, index) && order != []
    ensures Agree(order[..|order| - 1], index - {order[|order| - 1].key})
  {
    var last := |order| - 1;
    forall k | k in index && k != order[last].key ensures index[k] in order[..last] {
      var i :| 0 <= i < |order| && order[i] == index[k];
      assert order[..last][i] == index[k];
    }
  }

  function Spliced<T>(s: seq<T>, p: nat): (r: seq<T>)
    requires p < |s|
    ensures |r| == |s| && forall i :: 0 <= i < |s| ==> r[i] == s[if i == 0 then p else if i <= p then i - 1 else i]
  {
    [s[p]] + s[..p] + s[p + 1..]
  }

  lemma SplicedMembers<T>(s: seq<T>, p: nat, x: T)
    requires p < |s| && x in s
    ensures x in Spliced(s, p)
  {
    var i :| 0 <= i < |s| && s[i] == x;
    assert Spliced(s, p)[if i == p then 0 else if i < p then i + 1 else i] == x;
  }

  lemma AgreeSplice<K, V>(order: seq<Cell<K, V>>, index: map<K, Cell<K, V>>, p: nat)
    requires Agree(order, index) && p < |order|
    ensures Agree(Spliced(order, p), index)
    ensures forall i :: 0 <= i < p ==> order[i].key != order[p].key
  {
    forall k | k in index ensures index[k] in Spliced(order, p) { SplicedMembers(order, p, index[k]); }
  }

  /** Where an iterator points in the list. */
  function PositionOf<T(==)>(s: seq<T>, x: T): (p: nat)
    requires x in s
    ensures p < |s| && s[p] == x
  {
    if s[0] == x then 0 else 1 + PositionOf(s[1..], x)
  }

  lemma {:induction false} FindIs<K, V>(c: Contents<K, V>, key: K, p: nat)
    requires p < |c| && c[p].0 == key && forall i :: 0 <= i < p ==> c[i].0 != key
    ensures Find(c, key) == Some(c[p].1) && Without(c, key) == c[..p] + c[p + 1..]
  {
    if p > 0 {
      FindIs(c[1..], key, p - 1);
      assert c[..p] == [c[0]] + c[1..][..p - 1] && c[p + 1..] == c[1..][p..];
    }
  }

  lemma {:induction false} WithoutOne<K, V>(c: Contents<K, V>, key: K)
    requires Find(c, key).Some?
    ensures |Without(c, key)| == |c| - 1
  {
    if c[0].0 != key { WithoutOne(c[1..], key); }
  }

  lemma {:induction false} NotFound<K, V>(c: Contents<K, V>, key: K)
    requires forall i :: 0 <= i < |c| ==> c[i].0 != key
    ensures Find(c, key).None? && Without(c, key) == c
  {
    if c != [] { NotFound(c[1..], key); }
  }

  // ---------- caches of a fixed function ----------

  /** Every entry satisfies `ok`. */
  ghost predicate Holds<K(!new), V(!new)>(c: Contents<K, V>, ok: (K, V) -> bool)
  {
    forall i :: 0 <= i < |c| ==> ok(c[i].0, c[i].1)
  }

  lemma {:induction false} HoldsFind<K(!new), V(!new)>(c: Contents<K, V>, ok: (K, V) -> bool, key: K)
    requires Holds(c, ok) && Find(c, key).Some?
    ensures ok(key, Find(c, key).value)
  {
    if c[0].0 != key {
      assert forall i :: 0 <= i < |c[1..]| ==> c[1..][i] == c[i + 1];
      HoldsFind(c[1..], ok, key);
    }
  }

  lemma {:induction false} HoldsWithout<K(!new), V(!new)>(c: Contents<K, V>, ok: (K, V) -> bool, key: K)
    requires Holds(c, ok)
    ensures Holds(Without(c, key), ok)
  {
    if c != [] {
      assert forall i :: 0 <= i < |c[1..]| ==> c[1..][i] == c[i + 1];
      HoldsWithout(c[1..], ok, key);
    }
  }

  /** A lookup or an insertion of a right entry keeps all entries right. */
  lemma HoldsAfter<K(!new), V(!new)>(c: Contents<K, V>, ok: (K, V) -> bool, capacity: nat, key: K)
    requires Holds(c, ok)
    ensures Holds(AfterGet(c, key), ok)
    ensures forall value :: ok(key, value) ==> Holds(AfterPut(c, capacity, key, value), ok)
  {
    HoldsWithout(c, ok, key);
    if Find(c, key).Some? { HoldsFind(c, ok, key); }
  }

  // ---------- runs ----------

  datatype Op<K, V> = PutOp(key: K, value: V) | GetOp(key: K)

  function Apply<K(==), V>(c: Contents<K, V>, capacity: nat, op: Op<K, V>): Contents<K, V>
  {
    match op
    case PutOp(key, value) => AfterPut(c, capacity, key, value)
    case GetOp(key) => AfterGet(c, key)
  }

  /** What an empty cache holds after some operations. */
  function Run<K(==), V>(capacity: nat, ops: seq<Op<K, V>>): Contents<K, V>
  {
    if ops == [] then [] else Apply(Run(capacity, ops[..|ops| - 1]), capacity, ops[|ops| - 1])
  }

  /** The keys touched, in order: put, or found by a get. */
  function Touches<K(==), V>(capacity: nat, ops: seq<Op<K, V>>): seq<K>
  {
    if ops == [] then []
    else
      var front, last := ops[..|ops| - 1], ops[|ops| - 1];
      Touches(capacity, front)
      + if last.PutOp? || Find(Run(capacity, front), last.key).Some? then [last.key] else []
  }

  /** The value of the latest put of a key. */
  function LatestPut<K(==), V>(ops: seq<Op<K, V>>, key: K): Option<V>
  {
    if ops == [] then None
    else
      var last := ops[|ops| - 1];
      if last.PutOp? && last.key == key then Some(last.value) else LatestPut(ops[..|ops| - 1], key)
  }

  /** The distinct keys touched after the last touch of a key. */
  function Since<K(==)>(touches: seq<K>, key: K): set<K>
  {
    if touches == [] then {}
    else
      var last := touches[|touches| - 1];
      if last == key then {} else Since(touches[..|touches| - 1], key) + {last}
  }

  /** Distinct touched keys, most recently touched first. */
  function Recency<K(==)>(touches: seq<K>): seq<K>
  {
    if touches == [] then []
    else
      var last := touches[|touches| - 1];
      [last] + Drop(Recency(touches[..|touches| - 1]), last)
  }

  function Drop<K(==)>(s: seq<K>, key: K): seq<K>
  {
    if s == [] then [] else if s[0] == key then s[1..] else [s[0]] + Drop(s[1..], key)
  }

  ghost predicate Distinct<K>(s: seq<K>)
  {
    s != [] ==> s[0] !in s[1..] && Distinct(s[1..])
  }

  /** The keys that stand before a key. */
  function Before<K(==)>(s: seq<K>, key: K): set<K>
  {
    if s == [] || s[0] == key then {} else {s[0]} + Before(s[1..], key)
  }

  lemma {:induction false} DropIs<K>(s: seq<K>, key: K)
    requires Distinct(s)
    ensures Distinct(Drop(s, key))
    ensures forall x :: x in Drop(s, key) <==> x in s && x != key
  {
    if s != [] {
      DropIs(s[1..], key);
      assert s == [s[0]] + s[1..];
      if s[0] != key { assert Drop(s, key)[1..] == Drop(s[1..], key); }
    }
  }

  lemma {:induction false} RecencyIs<K>(touches: seq<K>)
    ensures Distinct(Recency(touches))
    ensures forall x :: x in Recency(touches) <==> x in touches
  {
    if touches != [] {
      var front, last := touches[..|touches| - 1], touches[|touches| - 1];
      RecencyIs(front);
      DropIs(Recency(front), last);
      assert touches == front + [last];
      assert Recency(touches)[1..] == Drop(Recency(front), last);
    }
  }

  lemma {:induction false} BeforeDrop<K>(s: seq<K>, key: K, other: K)
    requires Distinct(s) && other != key
    ensures Before(Drop(s, other), key) == Before(s, key) - {other}
  {
    if s != [] && s[0] != key {
      if s[0] == other {
        BeforeSubset(s[1..], key);
      } else {
        BeforeDrop(s[1..], key, other);
        assert Drop(s, other)[1..] == Drop(s[1..], other);
      }
    }
  }

  lemma {:induction false} BeforeSubset<K>(s: seq<K>, key: K)
    ensures forall x :: x in Before(s, key) ==> x in s
  {
    if s != [] && s[0] != key { BeforeSubset(s[1..], key); }
  }

  /** The keys before a key in the recency order are the distinct keys touched since its last touch. */
  lemma {:induction false} BeforeIsSince<K>(touches: seq<K>, key: K)
    requires key in touches
    ensures Before(Recency(touches), key) == Since(touches, key)
  {
    var front, last := touches[..|touches| - 1], touches[|touches| - 1];
    if last != key {
      assert touches == front + [last];
      BeforeIsSince(front, key);
      RecencyIs(front);
      BeforeDrop(Recency(front), key, last);
      assert Recency(touches)[1..] == Drop(Recency(front), last);
    }
  }

  lemma {:induction false} AmongFirst<K>(s: seq<K>, key: K, n: nat)
    requires Distinct(s)
    ensures key in Limit(s, n) <==> key in s && |Before(s, key)| < n
  {
    if s != [] && n > 0 && s[0] != key {
      AmongFirst(s[1..], key, n - 1);
      BeforeSubset(s[1..], key);
      assert s[0] !in Before(s[1..], key);
      assert Limit(s, n) == [s[0]] + Limit(s[1..], n - 1);
    }
  }

  lemma {:induction false} WithoutKeys<K, V>(c: Contents<K, V>, key: K)
    ensures KeysOf(Without(c, key)) == Drop(KeysOf(c), key)
  {
    if c != [] && c[0].0 != key {
      WithoutKeys(c[1..], key);
      assert KeysOf(c)[1..] == KeysOf(c[1..]);
    }
  }

  lemma LimitKeys<K, V>(c: Contents<K, V>, n: nat)
    ensures KeysOf(Limit(c, n)) == Limit(KeysOf(c), n)
  {
  }

  lemma LimitPush<K>(a: K, s: seq<K>, n: nat)
    requires n > 0
    ensures Limit([a] + s, n) == [a] + Limit(s, n - 1)
  {
  }

  /** Dropping a key that is among the first `n`. */
  lemma {:induction false} LimitDropIn<K>(s: seq<K>, key: K, n: nat)
    requires n > 0 && key in Limit(s, n)
    ensures Drop(Limit(s, n), key) == Limit(Drop(s, key), n - 1)
  {
    assert s == [s[0]] + s[1..];
    LimitPush(s[0], s[1..], n);
    if s[0] != key {
      LimitDropIn(s[1..], key, n - 1);
      LimitPush(s[0], Drop(s[1..], key), n - 1);
    }
  }

  /** Dropping a key that is not among the first `n` leaves the first `n - 1` alone. */
  lemma {:induction false} LimitDropOut<K>(s: seq<K>, key: K, n: nat)
    requires n > 0 && key !in Limit(s, n)
    ensures Limit(s, n - 1) == Limit(Drop(s, key), n - 1)
  {
    if s != [] && n > 1 {
      assert s == [s[0]] + s[1..];
      LimitPush(s[0], s[1..], n);
      LimitPush(s[0], s[1..], n - 1);
      LimitDropOut(s[1..], key, n - 1);
      LimitPush(s[0], Drop(s[1..], key), n - 1);
    }
  }

  lemma LimitTwice<K>(s: seq<K>, n: nat)
    requires n > 0
    ensures Limit(Limit(s, n), n - 1) == Limit(s, n - 1)
  {
  }

  lemma {:induction false} FindWithout<K, V>(c: Contents<K, V>, key: K, other: K)
    requires other != key
    ensures Find(Without(c, key), other) == Find(c, other)
  {
    if c != [] && c[0].0 != key { FindWithout(c[1..], key, other); }
  }

  lemma {:induction false} FindLimit<K, V>(c: Contents<K, V>, key: K, n: nat)
    requires key in KeysOf(Limit(c, n))
    ensures Find(Limit(c, n), key) == Find(c, key)
  {
    if c[0].0 != key {
      LimitPush(c[0], c[1..], n);
      assert c == [c[0]] + c[1..];
      assert KeysOf(Limit(c, n))[1..] == KeysOf(Limit(c[1..], n - 1));
      FindLimit(c[1..], key, n - 1);
    }
  }

  /** One touch on the keys: the first `n` of the recency order stay the first `n`. */
  lemma TouchKeys<K, V>(c: Contents<K, V>, r: seq<K>, key: K, value: V, n: nat)
    requires KeysOf(c) == Limit(r, n)
    ensures KeysOf(AfterPut(c, n, key, value)) == Limit([key] + Drop(r, key), n)
    ensures Find(c, key).Some? ==> KeysOf(AfterGet(c, key)) == Limit([key] + Drop(r, key), n)
  {
    WithoutKeys(c, key);
    if Find(c, key).Some? {
      LimitDropIn(r, key, n);
      LimitPush(key, Drop(r, key), n);
      WithoutOne(c, key);
      assert AfterPut(c, n, key, value) == [(key, value)] + Without(c, key);
    } else {
      LimitKeys([(key, value)] + Without(c, key), n);
      assert KeysOf([(key, value)] + Without(c, key)) == [key] + KeysOf(Without(c, key));
      WithoutNone(c, key);
      if n > 0 {
        LimitPush(key, Limit(r, n), n);
        LimitTwice(r, n);
        LimitDropOut(r, key, n);
        LimitPush(key, Drop(r, key), n);
      }
    }
  }

  lemma {:induction false} WithoutNone<K, V>(c: Contents<K, V>, key: K)
    requires Find(c, key).None?
    ensures Without(c, key) == c
  {
    if c != [] { WithoutNone(c[1..], key); }
  }

  /** The cache always holds the first `capacity` keys of the recency order. */
  lemma {:induction false} RunKeys<K, V>(capacity: nat, ops: seq<Op<K, V>>)
    ensures KeysOf(Run(capacity, ops)) == Limit(Recency(Touches(capacity, ops)), capacity)
  {
    if ops != [] {
      var front, last := ops[..|ops| - 1], ops[|ops| - 1];
      var c, t := Run(capacity, front), Touches(capacity, front);
      RunKeys(capacity, front);
      if last.PutOp? || Find(c, last.key).Some? {
        assert (t + [last.key])[..|t|] == t;
        if last.PutOp? {
          TouchKeys(c, Recency(t), last.key, last.value, capacity);
        } else {
          TouchKeys(c, Recency(t), last.key, Find(c, last.key).value, capacity);
        }
      } else {
        assert t + [] == t;
      }
    }
  }

  lemma FindAfterPut<K, V>(c: Contents<K, V>, capacity: nat, key: K, value: V, k: K)
    requires k in KeysOf(AfterPut(c, capacity, key, value))
    ensures Find(AfterPut(c, capacity, key, value), k) == if k == key then Some(value) else Find(c, k)
  {
    var all := [(key, value)] + Without(c, key);
    FindLimit(all, k, if Find(c, key).Some? then |c| else capacity);
    if k != key {
      FindWithout(c, key, k);
      assert all[1..] == Without(c, key);
    }
  }

  lemma FindAfterGet<K, V>(c: Contents<K, V>, key: K, k: K)
    ensures Find(AfterGet(c, key), k) == Find(c, k)
  {
    if Find(c, key).Some? && k != key {
      FindWithout(c, key, k);
      assert AfterGet(c, key)[1..] == Without(c, key);
    }
  }

  /** What is held for a key is the value of its latest put. */
  lemma {:induction false} RunValues<K, V>(capacity: nat, ops: seq<Op<K, V>>, k: K)
    ensures Find(Run(capacity, ops), k).Some? ==> Find(Run(capacity, ops), k) == LatestPut(ops, k)
  {
    if ops != [] {
      var front, last := ops[..|ops| - 1], ops[|ops| - 1];
      RunValues(capacity, front, k);
      match last
      case PutOp(key, value) =>
        if Find(Run(capacity, ops), k).Some? { FindAfterPut(Run(capacity, front), capacity, key, value, k); }
      case GetOp(key) => FindAfterGet(Run(capacity, front), key, k);
    }
  }

  /** After any operations a get hits exactly when the key was touched and fewer than `capacity` distinct
      other keys were touched since its last touch; it then returns the latest value put. */
  lemma HitExactly<K, V>(capacity: nat, ops: seq<Op<K, V>>, k: K)
    ensures var t := Touches(capacity, ops);
            Find(Run(capacity, ops), k) == if k in t && |Since(t, k)| < capacity then LatestPut(ops, k) else None
    ensures |Run(capacity, ops)| <= capacity
  {
    var t := Touches(capacity, ops);
    RunKeys(capacity, ops);
    RecencyIs(t);
    AmongFirst(Recency(t), k, capacity);
    if k in t { BeforeIsSince(t, k); }
    RunValues(capacity, ops, k);
  }
}
