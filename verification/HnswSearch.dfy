/** The HNSW vector index: best-first search in one layer, heuristic neighbour selection,
    insertion with bidirectional linking and pruning, and k-nearest search. Coordinates and
    squared distances are exact integers. */
module HnswSearch {

  type Vector = seq<int>

  /** Squared Euclidean distance. */
  function L2(a: Vector, b: Vector): int
    requires |a| == |b|
  {
    if a == [] then 0 else (a[0] - b[0]) * (a[0] - b[0]) + L2(a[1..], b[1..])
  }

  // ---------- what the distance measures ----------

  /** A square is never negative, and zero for zero only. */
  lemma SquareFacts(d: int)
    ensures d * d >= 0 && (d * d == 0 <==> d == 0) && (-d) * (-d) == d * d
  {
  }

  /** It is a distance: never negative, zero exactly between equal vectors, the same in both directions. */
  lemma {:induction false} L2IsDistance(a: Vector, b: Vector)
    requires |a| == |b|
    ensures L2(a, b) >= 0 && (L2(a, b) == 0 <==> a == b) && L2(a, b) == L2(b, a)
  {
    if a != [] {
      SquareFacts(a[0] - b[0]);
      SquareFacts(b[0] - a[0]);
      L2IsDistance(a[1..], b[1..]);
      assert a == [a[0]] + a[1..] && b == [b[0]] + b[1..];
    }
  }

  /** The parts of two vectors contribute independently. */
  lemma {:induction false} L2Adds(a: Vector, b: Vector, c: Vector, d: Vector)
    requires |a| == |b| && |c| == |d|
    ensures L2(a + c, b + d) == L2(a, b) + L2(c, d)
  {
    if a == [] {
      assert a + c == c && b + d == d;
    } else {
      assert (a + c)[1..] == a[1..] + c && (b + d)[1..] == b[1..] + d;
      L2Adds(a[1..], b[1..], c, d);
    }
  }

  lemma L2OfOne(x: int, y: int)
    ensures L2([x], [y]) == (x - y) * (x - y)
  {
    assert [x][1..] == [] && [y][1..] == [];
  }

  /** Vectors that differ by `d` in one coordinate are d squared apart. */
  lemma L2OneCoordinate(a: Vector, i: nat, d: int)
    requires i < |a|
    ensures L2(a, a[i := a[i] + d]) == d * d
  {
    var b := a[i := a[i] + d];
    assert a == a[..i] + ([a[i]] + a[i + 1..]) && b == a[..i] + ([a[i] + d] + a[i + 1..]);
    L2Adds(a[..i], a[..i], [a[i]] + a[i + 1..], [a[i] + d] + a[i + 1..]);
    L2Adds([a[i]], [a[i] + d], a[i + 1..], a[i + 1..]);
    L2IsDistance(a[..i], a[..i]);
    L2IsDistance(a[i + 1..], a[i + 1..]);
    L2OfOne(a[i], a[i] + d);
    SquareFacts(d);
    assert a[i] - (a[i] + d) == -d;
  }

  datatype HnswNode = HnswNode(vector: Vector, maxLevel: nat, neighbors: seq<seq<int>>)

  datatype NodeDistance = NodeDistance(nodeId: int, distance: int)

  type Nodes = map<int, HnswNode>

  /** The layer-`lc` list of a node; a node below the layer has none. */
  function Neighbors(nodes: Nodes, id: int, lc: nat): seq<int>
    requires id in nodes
  {
    if lc < |nodes[id].neighbors| then nodes[id].neighbors[lc] else []
  }

  predicate NoDuplicates<T(==)>(s: seq<T>)
  {
    forall i, j :: 0 <= i < j < |s| ==> s[i] != s[j]
  }

  /** Nodes of dimension `dim` with one list per layer up to their level, whose edges at a layer
      lead to other registered nodes that reach the layer. */
  ghost predicate EdgesOk(nodes: Nodes, id: int, lc: nat)
    requires id in nodes
  {
    && NoDuplicates(Neighbors(nodes, id, lc))
    && (forall n :: n in Neighbors(nodes, id, lc) ==> n in nodes && lc <= nodes[n].maxLevel && n != id)
  }

  ghost predicate ShapeOk(nodes: Nodes, dim: nat)
  {
    forall id :: id in nodes ==> |nodes[id].vector| == dim && |nodes[id].neighbors| == nodes[id].maxLevel + 1
  }

  ghost predicate GraphOk(nodes: Nodes, dim: nat)
  {
    && ShapeOk(nodes, dim)
    && (forall id, lc: nat :: id in nodes && lc <= nodes[id].maxLevel ==> EdgesOk(nodes, id, lc))
  }

  function LayerMaxM(maxM: nat, lc: nat): nat
  {
    if lc == 0 then maxM * 2 else maxM
  }

  ghost predicate DegreesOk(nodes: Nodes, maxM: nat)
  {
    forall id, lc: nat :: id in nodes && lc <= nodes[id].maxLevel ==> |Neighbors(nodes, id, lc)| <= LayerMaxM(maxM, lc)
  }

  function Dist(nodes: Nodes, query: Vector, id: int): int
  {
    if id in nodes && |nodes[id].vector| == |query| then L2(query, nodes[id].vector) else 0
  }

  function Measured(nodes: Nodes, query: Vector, id: int): NodeDistance
  {
    NodeDistance(id, Dist(nodes, query, id))
  }

  // ---------- reachability in one layer ----------

  ghost predicate Closed(nodes: Nodes, lc: nat, s: set<int>)
  {
    forall id, n :: id in s && id in nodes && n in Neighbors(nodes, id, lc) ==> n in s
  }

  ghost predicate InEveryClosed(nodes: Nodes, lc: nat, ep: int, n: int)
  {
    forall s: set<int> :: Closed(nodes, lc, s) && ep in s ==> n in s
  }

  /** The nodes reachable from `ep` by layer-`lc` edges: the least closed set that contains it. */
  ghost function Reach(nodes: Nodes, lc: nat, ep: int): set<int>
  {
    set n | n in nodes.Keys && InEveryClosed(nodes, lc, ep, n)
  }

  lemma ReachClosed(nodes: Nodes, dim: nat, lc: nat, ep: int)
    requires GraphOk(nodes, dim) && ep in nodes
    ensures ep in Reach(nodes, lc, ep) && Closed(nodes, lc, Reach(nodes, lc, ep))
  {
    forall id, n | id in Reach(nodes, lc, ep) && id in nodes && n in Neighbors(nodes, id, lc)
      ensures n in Reach(nodes, lc, ep)
    {
      assert EdgesOk(nodes, id, lc);
      forall s: set<int> | Closed(nodes, lc, s) && ep in s ensures n in s { assert id in s; }
    }
  }

  // ---------- the two heaps ----------

  /** The pop of the candidate min-heap; the order among equal distances is open. */
  method PopNearest(heap: set<NodeDistance>) returns (top: NodeDistance)
    requires heap != {}
    ensures top in heap && forall x :: x in heap ==> top.distance <= x.distance
  {
    top :| top in heap;
    var rest := heap - {top};
    while rest != {}
      invariant rest <= heap && top in heap
      invariant forall x :: x in heap && x !in rest ==> top.distance <= x.distance
      decreases rest
    {
      var x :| x in rest;
      if x.distance < top.distance { top := x; }
      rest := rest - {x};
    }
  }

  /** The top of the result max-heap. */
  method Furthest(heap: set<NodeDistance>) returns (top: NodeDistance)
    requires heap != {}
    ensures top in heap && forall x :: x in heap ==> x.distance <= top.distance
  {
    top :| top in heap;
    var rest := heap - {top};
    while rest != {}
      invariant rest <= heap && top in heap
      invariant forall x :: x in heap && x !in rest ==> x.distance <= top.distance
      decreases rest
    {
      var x :| x in rest;
      if top.distance < x.distance { top := x; }
      rest := rest - {x};
    }
  }

  /** `v` is among the results, or the results are full and none is further than `v`. */
  ghost predicate Settled(results: set<NodeDistance>, size: nat, v: NodeDistance)
  {
    v in results || (|results| == size && forall y :: y in results ==> y.distance <= v.distance)
  }

  /** Keeping the `size` nearest: every node considered so far stays settled. */
  lemma OfferKeepsSettled(results: set<NodeDistance>, size: nat, n: NodeDistance, top: NodeDistance, v: NodeDistance)
    requires Settled(results, size, v) && |results| == size && n !in results
    requires top in results + {n} && forall x :: x in results + {n} ==> x.distance <= top.distance
    requires exists x :: x in results && n.distance < x.distance && forall y :: y in results ==> y.distance <= x.distance
    ensures |results + {n} - {top}| == size && Settled(results + {n} - {top}, size, v)
  {
    if v !in results {
      var x :| x in results && n.distance < x.distance && forall y :: y in results ==> y.distance <= x.distance;
      assert x.distance <= v.distance;
    }
  }

  function Ids(s: set<NodeDistance>): set<int>
  {
    set x | x in s :: x.nodeId
  }

  ghost predicate OutOk(nodes: Nodes, query: Vector, out: seq<NodeDistance>)
  {
    && NoDuplicates(out)
    && (forall x :: x in out ==> x.nodeId in nodes && x == Measured(nodes, query, x.nodeId))
    && (forall i, j :: 0 <= i < j < |out| ==> out[i].distance >= out[j].distance)
  }

  /** The result of a layer search is closed up to its size bound: a node with an edge from a
      returned node is returned too, or the result is full of nodes no further than it. */
  ghost predicate LocallyClosed(nodes: Nodes, query: Vector, lc: nat, size: nat, out: seq<NodeDistance>)
  {
    forall x, n :: x in out && x.nodeId in nodes && n in Neighbors(nodes, x.nodeId, lc) ==> Covered(nodes, query, size, out, n)
  }

  ghost predicate Covered(nodes: Nodes, query: Vector, size: nat, out: seq<NodeDistance>, n: int)
  {
    Measured(nodes, query, n) in out || (|out| == size && forall y :: y in out ==> y.distance <= Dist(nodes, query, n))
  }

  /** How many results a layer search keeps: at least the entry point. */
  function Width(ef: int): (w: nat)
    ensures w >= 1 && w >= ef && (w == 1 || w == ef)
  {
    if ef < 1 then 1 else ef
  }

  ghost predicate Expanded(nodes: Nodes, lc: nat, id: int, visited: set<int>)
  {
    id in nodes && forall n :: n in Neighbors(nodes, id, lc) ==> n in visited
  }

  /** The search state: both heaps hold measured visited nodes, every visited node is settled, and
      a result no longer waiting as a candidate has had all its neighbours visited. */
  ghost predicate HeapsOk(nodes: Nodes, query: Vector, size: nat, visited: set<int>, candidates: set<NodeDistance>, results: set<NodeDistance>)
  {
    && visited <= nodes.Keys && 1 <= |results| <= size
    && (forall x :: x in results || x in candidates ==> x.nodeId in visited && x == Measured(nodes, query, x.nodeId))
    && (forall v :: v in visited ==> Settled(results, size, Measured(nodes, query, v)))
  }

  ghost predicate DoneOk(nodes: Nodes, lc: nat, visited: set<int>, waiting: set<NodeDistance>, results: set<NodeDistance>)
  {
    forall x :: x in results && x !in waiting ==> Expanded(nodes, lc, x.nodeId, visited)
  }

  /** The layer search, for any closed set `within` around the entry point. */
  method SearchWithin(nodes: Nodes, dim: nat, query: Vector, ep: int, ef: int, lc: nat, ghost within: set<int>)
    returns (out: seq<NodeDistance>)
    requires GraphOk(nodes, dim) && |query| == dim && ep in nodes
    requires ep in within && Closed(nodes, lc, within)
    ensures 1 <= |out| <= Width(ef) && OutOk(nodes, query, out)
    ensures forall x :: x in out ==> x.nodeId in within
    ensures Covered(nodes, query, Width(ef), out, ep)
    ensures LocallyClosed(nodes, query, lc, Width(ef), out)
  {
    var visited := {ep};
    var candidates := {NodeDistance(ep, L2(query, nodes[ep].vector))};
    var results := candidates;
    while candidates != {}
      invariant ep in visited && visited <= within
      invariant HeapsOk(nodes, query, Width(ef), visited, candidates, results)
      invariant DoneOk(nodes, lc, visited, candidates, results)
      decreases |nodes.Keys - visited|, |candidates|
    {
      var current := PopNearest(candidates);
      var furthest := Furthest(results);
      if current.distance > furthest.distance {
        assert DoneOk(nodes, lc, visited, {}, results);
        break;
      }
      visited, candidates, results := Expand(nodes, dim, query, current, ef, lc, visited, candidates, results, within);
    }
    assert DoneOk(nodes, lc, visited, {}, results);
    out := Drain(nodes, query, results);
    assert Measured(nodes, query, ep) in results ==> Measured(nodes, query, ep) in out;
    forall x, n | x in out && x.nodeId in nodes && n in Neighbors(nodes, x.nodeId, lc)
      ensures Covered(nodes, query, Width(ef), out, n)
    {
      assert Expanded(nodes, lc, x.nodeId, visited) && n in visited;
      assert Settled(results, Width(ef), Measured(nodes, query, n));
    }
  }

  /** Takes `current` off the candidates and offers its unvisited neighbours to both heaps. */
  method Expand(nodes: Nodes, dim: nat, query: Vector, current: NodeDistance, ef: int, lc: nat,
                visited0: set<int>, candidates0: set<NodeDistance>, results0: set<NodeDistance>, ghost within: set<int>)
    returns (visited: set<int>, candidates: set<NodeDistance>, results: set<NodeDistance>)
    requires GraphOk(nodes, dim) && |query| == dim && current in candidates0
    requires HeapsOk(nodes, query, Width(ef), visited0, candidates0, results0)
    requires DoneOk(nodes, lc, visited0, candidates0, results0)
    requires visited0 <= within && Closed(nodes, lc, within)
    ensures visited0 <= visited <= within && HeapsOk(nodes, query, Width(ef), visited, candidates, results)
    ensures DoneOk(nodes, lc, visited, candidates, results)
    ensures |nodes.Keys - visited| < |nodes.Keys - visited0|
         || (|nodes.Keys - visited| == |nodes.Keys - visited0| && |candidates| < |candidates0|)
  {
    visited, candidates, results := visited0, candidates0 - {current}, results0;
    EdgesInRange(nodes, dim, current.nodeId, lc);
    var list := Neighbors(nodes, current.nodeId, lc);
    for k := 0 to |list|
      invariant visited0 <= visited <= within && HeapsOk(nodes, query, Width(ef), visited, candidates, results)
      invariant visited == visited0 ==> candidates == candidates0 - {current}
      invariant forall i :: 0 <= i < k ==> list[i] in visited
      invariant DoneOk(nodes, lc, visited, candidates + {current}, results)
    {
      if list[k] !in visited {
        assert list[k] in list;
        candidates, results := Offer(nodes, query, list[k], ef, lc, visited, candidates, results, current);
        visited := visited + {list[k]};
      }
    }
    assert Expanded(nodes, lc, current.nodeId, visited) by {
      forall n | n in list ensures n in visited { var i :| 0 <= i < |list| && list[i] == n; }
    }
    if visited != visited0 { SmallerComplement(nodes.Keys, visited0, visited); }
  }

  lemma EdgesInRange(nodes: Nodes, dim: nat, id: int, lc: nat)
    requires GraphOk(nodes, dim) && id in nodes
    ensures forall n :: n in Neighbors(nodes, id, lc) ==> n in nodes
  {
    if lc <= nodes[id].maxLevel { assert EdgesOk(nodes, id, lc); }
  }

  lemma SmallerComplement(all: set<int>, small: set<int>, large: set<int>)
    requires small < large <= all
    ensures |all - large| < |all - small|
  {
    assert all - small == (all - large) + (large - small);
    assert small + (large - small) == large;
  }

  /** Room left: nothing is displaced. */
  lemma OfferRoom(nodes: Nodes, query: Vector, size: nat, visited: set<int>, candidates: set<NodeDistance>, results: set<NodeDistance>, id: int)
    requires HeapsOk(nodes, query, size, visited, candidates, results) && id in nodes && id !in visited && |results| < size
    ensures var n := Measured(nodes, query, id);
            HeapsOk(nodes, query, size, visited + {id}, candidates + {n}, results + {n})
  {
    var n := Measured(nodes, query, id);
    assert n !in results;
    forall v | v in visited + {id} ensures Settled(results + {n}, size, Measured(nodes, query, v)) {
      if v in visited { assert Settled(results, size, Measured(nodes, query, v)); }
    }
  }

  /** Full: the furthest of the results and the new node is dropped. */
  lemma OfferFull(nodes: Nodes, query: Vector, size: nat, visited: set<int>, candidates: set<NodeDistance>, results: set<NodeDistance>,
                  id: int, top: NodeDistance, worst: NodeDistance)
    requires HeapsOk(nodes, query, size, visited, candidates, results) && id in nodes && id !in visited && |results| == size
    requires top in results && Dist(nodes, query, id) < top.distance && forall x :: x in results ==> x.distance <= top.distance
    requires worst in results + {Measured(nodes, query, id)}
    requires forall x :: x in results + {Measured(nodes, query, id)} ==> x.distance <= worst.distance
    ensures var n := Measured(nodes, query, id);
            HeapsOk(nodes, query, size, visited + {id}, candidates + {n}, results + {n} - {worst})
  {
    var n := Measured(nodes, query, id);
    assert n !in results;
    forall v | v in visited + {id} ensures Settled(results + {n} - {worst}, size, Measured(nodes, query, v)) {
      if v in visited {
        assert Settled(results, size, Measured(nodes, query, v));
        OfferKeepsSettled(results, size, n, worst, Measured(nodes, query, v));
      }
    }
  }

  lemma OfferRefused(nodes: Nodes, query: Vector, size: nat, visited: set<int>, candidates: set<NodeDistance>, results: set<NodeDistance>,
                     id: int, top: NodeDistance)
    requires HeapsOk(nodes, query, size, visited, candidates, results) && id in nodes && |results| == size
    requires top in results && Dist(nodes, query, id) >= top.distance && forall x :: x in results ==> x.distance <= top.distance
    ensures HeapsOk(nodes, query, size, visited + {id}, candidates, results)
  {
    assert Settled(results, size, Measured(nodes, query, id));
  }

  /** Pushes one newly met node if the results are not full or it beats the furthest of them. */
  method Offer(nodes: Nodes, query: Vector, id: int, ef: int, lc: nat, visited: set<int>,
               candidates0: set<NodeDistance>, results0: set<NodeDistance>, ghost current: NodeDistance)
    returns (candidates: set<NodeDistance>, results: set<NodeDistance>)
    requires id in nodes && id !in visited && |nodes[id].vector| == |query|
    requires HeapsOk(nodes, query, Width(ef), visited, candidates0, results0)
    requires DoneOk(nodes, lc, visited, candidates0 + {current}, results0)
    ensures HeapsOk(nodes, query, Width(ef), visited + {id}, candidates, results)
    ensures DoneOk(nodes, lc, visited + {id}, candidates + {current}, results)
  {
    candidates, results := candidates0, results0;
    var n := NodeDistance(id, L2(query, nodes[id].vector));
    assert n == Measured(nodes, query, id);
    var top := Furthest(results);
    if |results| < ef || n.distance < top.distance {
      candidates := candidates + {n};
      results := results + {n};
      if |results0| + 1 > ef {
        var worst := Furthest(results);
        OfferFull(nodes, query, Width(ef), visited, candidates0, results0, id, top, worst);
        results := results - {worst};
      } else {
        OfferRoom(nodes, query, Width(ef), visited, candidates0, results0, id);
      }
    } else {
      OfferRefused(nodes, query, Width(ef), visited, candidates0, results0, id, top);
    }
  }

  /** Empties the result heap: furthest first. */
  method Drain(nodes: Nodes, query: Vector, results: set<NodeDistance>) returns (out: seq<NodeDistance>)
    requires forall x :: x in results ==> x.nodeId in nodes && x == Measured(nodes, query, x.nodeId)
    ensures OutOk(nodes, query, out) && |out| == |results| && forall x :: x in out <==> x in results
  {
    out := [];
    var heap := results;
    while heap != {}
      invariant heap <= results && OutOk(nodes, query, out) && |out| + |heap| == |results|
      invariant forall x :: x in out <==> x in results && x !in heap
      invariant forall x, y :: x in out && y in heap ==> x.distance >= y.distance
      decreases heap
    {
      var top := Furthest(heap);
      out := out + [top];
      heap := heap - {top};
    }
  }

  /** If no more nodes are reachable than the search keeps, it returns exactly the reachable ones. */
  lemma SmallLayerIsFound(nodes: Nodes, dim: nat, query: Vector, lc: nat, ep: int, size: nat, out: seq<NodeDistance>)
    requires GraphOk(nodes, dim) && ep in nodes && OutOk(nodes, query, out) && |out| <= size
    requires forall x :: x in out ==> x.nodeId in Reach(nodes, lc, ep)
    requires Covered(nodes, query, size, out, ep) && LocallyClosed(nodes, query, lc, size, out)
    requires |Reach(nodes, lc, ep)| <= size
    ensures forall n :: n in Reach(nodes, lc, ep) <==> Measured(nodes, query, n) in out
  {
    var ids := set x | x in out :: x.nodeId;
    var reach := Reach(nodes, lc, ep);
    IdCount(nodes, query, out);
    if |out| == size {
      SameSizeSubset(ids, reach);
    } else {
      forall id, n | id in ids && id in nodes && n in Neighbors(nodes, id, lc) ensures n in ids {
        var x :| x in out && x.nodeId == id;
        assert Covered(nodes, query, size, out, n);
      }
      assert Closed(nodes, lc, ids) && ep in ids;
      assert forall n :: n in reach ==> InEveryClosed(nodes, lc, ep, n);
    }
    forall n | n in reach ensures Measured(nodes, query, n) in out {
      assert n in ids;
    }
  }

  lemma {:induction false} IdCount(nodes: Nodes, query: Vector, out: seq<NodeDistance>)
    requires OutOk(nodes, query, out)
    ensures |set x | x in out :: x.nodeId| == |out|
  {
    if out != [] {
      var last, front := out[|out| - 1], out[..|out| - 1];
      IdCount(nodes, query, front);
      assert (set x | x in out :: x.nodeId) == (set x | x in front :: x.nodeId) + {last.nodeId};
      forall x | x in front ensures x.nodeId != last.nodeId {
        assert x in out && last in out && x != last;
      }
    }
  }

  lemma SameSizeSubset(a: set<int>, b: set<int>)
    requires a <= b && |b| <= |a|
    ensures a == b
  {
    assert b == a + (b - a);
  }

  // ---------- heuristic neighbour selection ----------

  ghost predicate Ascending(s: seq<NodeDistance>)
  {
    forall i, j :: 0 <= i < j < |s| ==> s[i].distance <= s[j].distance
  }

  lemma InsertedAt(s: seq<NodeDistance>, c: NodeDistance, p: nat)
    requires p <= |s| && Ascending(s)
    requires p > 0 ==> s[p - 1].distance <= c.distance
    requires p < |s| ==> c.distance <= s[p].distance
    ensures Ascending(s[..p] + [c] + s[p..])
  {
    var t := s[..p] + [c] + s[p..];
    forall i, j | 0 <= i < j < |t| ensures t[i].distance <= t[j].distance {
      assert t[i] == if i < p then s[i] else if i == p then c else s[i - 1];
      assert t[j] == if j < p then s[j] else if j == p then c else s[j - 1];
    }
  }

  lemma InsertedCount<T>(s: seq<T>, c: T, p: nat)
    requires p <= |s|
    ensures multiset(s[..p] + [c] + s[p..]) == multiset(s) + multiset{c}
  {
    assert s == s[..p] + s[p..];
  }

  /** `std::sort` by distance; the order among equal distances is open in the source. */
  method SortByDistance(candidates: seq<NodeDistance>) returns (sorted: seq<NodeDistance>)
    ensures Ascending(sorted) && multiset(sorted) == multiset(candidates)
  {
    sorted := [];
    for i := 0 to |candidates|
      invariant Ascending(sorted) && multiset(sorted) == multiset(candidates[..i])
    {
      var c := candidates[i];
      var p := |sorted|;
      while p > 0 && sorted[p - 1].distance > c.distance
        invariant 0 <= p <= |sorted| && (p < |sorted| ==> sorted[p].distance > c.distance)
      {
        p := p - 1;
      }
      assert candidates[..i + 1] == candidates[..i] + [c];
      InsertedAt(sorted, c, p);
      InsertedCount(sorted, c, p);
      sorted := sorted[..p] + [c] + sorted[p..];
    }
    assert candidates[..|candidates|] == candidates;
  }

  lemma PermutationKeeps(a: seq<NodeDistance>, b: seq<NodeDistance>)
    requires multiset(a) == multiset(b) && NoDuplicates(a)
    ensures |a| == |b| && NoDuplicates(b) && forall x :: x in a <==> x in b
  {
    assert |multiset(a)| == |multiset(b)|;
    forall x ensures x in a <==> x in b { assert x in multiset(a) <==> x in multiset(b); }
    forall i, j | 0 <= i < j < |b| ensures b[i] != b[j] {
      if b[i] == b[j] {
        assert b == b[..i] + [b[i]] + b[i + 1..j] + [b[j]] + b[j + 1..];
        assert multiset(b)[b[i]] >= 2;
        OnceInDistinct(a, b[i]);
      }
    }
  }

  lemma {:induction false} OnceInDistinct<T>(a: seq<T>, x: T)
    requires NoDuplicates(a)
    ensures multiset(a)[x] <= 1
  {
    if a != [] {
      assert a == [a[0]] + a[1..];
      OnceInDistinct(a[1..], x);
      if a[0] == x { assert forall k :: 0 <= k < |a[1..]| ==> a[1..][k] == a[k + 1]; assert x !in a[1..]; }
    }
  }

  function Between(nodes: Nodes, a: int, b: int): int
  {
    if a in nodes then Dist(nodes, nodes[a].vector, b) else 0
  }

  /** Some selected node is at least as near to the base point, and to `id` at least as near as the base point is. */
  ghost predicate Shadowed(nodes: Nodes, base: Vector, selected: seq<int>, id: int)
  {
    exists s :: s in selected && Dist(nodes, base, s) <= Dist(nodes, base, id) && Between(nodes, id, s) <= Dist(nodes, base, id)
  }

  /** The heuristic's answer: a greedy diverse subset of the candidates, nearest first, that is
      maximal unless it is full. */
  ghost predicate GreedyDiverse(nodes: Nodes, base: Vector, candidates: set<int>, max: nat, selected: seq<int>)
  {
    && |selected| <= max && NoDuplicates(selected) && (forall s :: s in selected ==> s in candidates)
    && (forall i, j :: 0 <= i < j < |selected| ==>
          && Dist(nodes, base, selected[i]) <= Dist(nodes, base, selected[j])
          && Between(nodes, selected[j], selected[i]) > Dist(nodes, base, selected[j]))
    && (forall c :: c in candidates ==> Handled(nodes, base, max, selected, c))
  }

  ghost predicate Handled(nodes: Nodes, base: Vector, max: nat, selected: seq<int>, c: int)
  {
    || c in selected
    || Shadowed(nodes, base, selected, c)
    || (|selected| == max && forall s :: s in selected ==> Dist(nodes, base, s) <= Dist(nodes, base, c))
  }

  ghost function IdsOf(candidates: seq<NodeDistance>): set<int>
  {
    set x | x in candidates :: x.nodeId
  }

  ghost predicate AllMeasured(nodes: Nodes, base: Vector, candidates: seq<NodeDistance>)
  {
    forall x :: x in candidates ==> x.nodeId in nodes && x == Measured(nodes, base, x.nodeId)
  }

  lemma FullHandles(nodes: Nodes, base: Vector, max: nat, selected: seq<int>, sorted: seq<NodeDistance>, i: nat, k: nat)
    requires i <= k < |sorted| && Ascending(sorted) && AllMeasured(nodes, base, sorted) && |selected| == max
    requires forall s :: s in selected ==> exists k :: 0 <= k < i && sorted[k].nodeId == s
    ensures Handled(nodes, base, max, selected, sorted[k].nodeId)
  {
    EarlierIsNearer(nodes, base, selected, sorted, k);
  }

  /** Everything selected from the first `i` sorted candidates is no further than a later candidate. */
  lemma EarlierIsNearer(nodes: Nodes, base: Vector, selected: seq<int>, sorted: seq<NodeDistance>, k: nat)
    requires k < |sorted| && Ascending(sorted) && AllMeasured(nodes, base, sorted)
    requires forall s :: s in selected ==> exists j :: 0 <= j < k && sorted[j].nodeId == s
    ensures forall s :: s in selected ==> Dist(nodes, base, s) <= Dist(nodes, base, sorted[k].nodeId)
  {
    forall s | s in selected ensures Dist(nodes, base, s) <= Dist(nodes, base, sorted[k].nodeId) {
      var j :| 0 <= j < k && sorted[j].nodeId == s;
      assert sorted[j] in sorted && sorted[k] in sorted;
    }
  }

  /** Selecting one more candidate keeps every earlier one handled. */
  lemma SelectOne(nodes: Nodes, base: Vector, max: nat, selected: seq<int>, id: int, c: int)
    requires |selected| < max && (c == id || Handled(nodes, base, max, selected, c))
    ensures Handled(nodes, base, max, selected + [id], c)
  {
    if Shadowed(nodes, base, selected, c) {
      var s :| s in selected && Dist(nodes, base, s) <= Dist(nodes, base, c) && Between(nodes, c, s) <= Dist(nodes, base, c);
      assert s in selected + [id];
    }
  }

  /** The redundancy test: is the candidate strictly nearer to the base than to every selected node? */
  method KeepCandidate(nodes: Nodes, dim: nat, c: NodeDistance, selected: seq<int>) returns (keep: bool)
    requires ShapeOk(nodes, dim) && c.nodeId in nodes && forall s :: s in selected ==> s in nodes
    ensures keep <==> forall a :: 0 <= a < |selected| ==> Between(nodes, c.nodeId, selected[a]) > c.distance
  {
    for j := 0 to |selected|
      invariant forall a :: 0 <= a < j ==> Between(nodes, c.nodeId, selected[a]) > c.distance
    {
      assert selected[j] in selected;
      if L2(nodes[c.nodeId].vector, nodes[selected[j]].vector) <= c.distance {
        assert Between(nodes, c.nodeId, selected[j]) <= c.distance;
        return false;
      }
    }
    return true;
  }

  /** The state after the first `i` candidates in ascending order have been looked at. */
  ghost predicate PickedOk(nodes: Nodes, base: Vector, sorted: seq<NodeDistance>, i: nat, max: nat, selected: seq<int>)
    requires i <= |sorted|
  {
    && |selected| <= max && NoDuplicates(selected)
    && (forall s :: s in selected ==> exists k :: 0 <= k < i && sorted[k].nodeId == s)
    && (forall a, b :: 0 <= a < b < |selected| ==>
          && Dist(nodes, base, selected[a]) <= Dist(nodes, base, selected[b])
          && Between(nodes, selected[b], selected[a]) > Dist(nodes, base, selected[b]))
    && (forall k :: 0 <= k < i ==> Handled(nodes, base, max, selected, sorted[k].nodeId))
  }

  lemma PickNext(nodes: Nodes, base: Vector, sorted: seq<NodeDistance>, i: nat, max: nat, selected: seq<int>, keep: bool)
    requires i < |sorted| && |selected| < max && Ascending(sorted) && NoDuplicates(sorted) && AllMeasured(nodes, base, sorted)
    requires PickedOk(nodes, base, sorted, i, max, selected)
    requires keep <==> forall a :: 0 <= a < |selected| ==> Between(nodes, sorted[i].nodeId, selected[a]) > sorted[i].distance
    ensures PickedOk(nodes, base, sorted, i + 1, max, if keep then selected + [sorted[i].nodeId] else selected)
  {
    var id := sorted[i].nodeId;
    assert sorted[i] in sorted;
    EarlierIsNearer(nodes, base, selected, sorted, i);
    if keep {
      forall k | 0 <= k <= i ensures Handled(nodes, base, max, selected + [id], sorted[k].nodeId) {
        SelectOne(nodes, base, max, selected, id, sorted[k].nodeId);
      }
      forall s | s in selected ensures s != id {
        var k :| 0 <= k < i && sorted[k].nodeId == s;
        assert sorted[k] in sorted && sorted[k] != sorted[i];
      }
      forall s | s in selected + [id] ensures exists k :: 0 <= k < i + 1 && sorted[k].nodeId == s {
        if s in selected { var k :| 0 <= k < i && sorted[k].nodeId == s; assert sorted[k].nodeId == s; }
        else { assert sorted[i].nodeId == s; }
      }
    } else {
      var a :| 0 <= a < |selected| && Between(nodes, id, selected[a]) <= sorted[i].distance;
      assert selected[a] in selected;
      assert Shadowed(nodes, base, selected, id);
    }
  }

  lemma PickedAll(nodes: Nodes, base: Vector, candidates: seq<NodeDistance>, sorted: seq<NodeDistance>, i: nat, max: nat, selected: seq<int>)
    requires AllMeasured(nodes, base, sorted) && Ascending(sorted) && (forall x :: x in candidates <==> x in sorted)
    requires i <= |sorted| && PickedOk(nodes, base, sorted, i, max, selected) && (i < |sorted| ==> |selected| == max)
    ensures GreedyDiverse(nodes, base, IdsOf(candidates), max, selected)
  {
    forall c | c in IdsOf(candidates) ensures Handled(nodes, base, max, selected, c) {
      var x :| x in candidates && x.nodeId == c;
      var k :| 0 <= k < |sorted| && sorted[k] == x;
      if k >= i { FullHandles(nodes, base, max, selected, sorted, i, k); }
    }
    forall s | s in selected ensures s in IdsOf(candidates) {
      var k :| 0 <= k < |sorted| && sorted[k].nodeId == s;
      assert sorted[k] in sorted;
    }
  }

  /** Takes the candidates nearest first and keeps those not redundant with an earlier choice. */
  method SelectHeuristic(nodes: Nodes, dim: nat, ghost base: Vector, candidates: seq<NodeDistance>, max: nat)
    returns (selected: seq<int>)
    requires ShapeOk(nodes, dim) && |base| == dim && NoDuplicates(candidates) && AllMeasured(nodes, base, candidates)
    ensures GreedyDiverse(nodes, base, IdsOf(candidates), max, selected)
    ensures max > 0 && candidates != [] ==> selected != []
  {
    selected := [];
    var sorted := SortByDistance(candidates);
    PermutationKeeps(candidates, sorted);
    assert AllMeasured(nodes, base, sorted);
    var i := 0;
    while i < |sorted| && |selected| < max
      invariant i <= |sorted| && PickedOk(nodes, base, sorted, i, max, selected)
      invariant i > 0 ==> selected != []
    {
      assert sorted[i] in sorted;
      forall s | s in selected ensures s in nodes {
        var k :| 0 <= k < i && sorted[k].nodeId == s;
        assert sorted[k] in sorted;
      }
      var keep := KeepCandidate(nodes, dim, sorted[i], selected);
      PickNext(nodes, base, sorted, i, max, selected, keep);
      if keep { selected := selected + [sorted[i].nodeId]; }
      i := i + 1;
    }
    PickedAll(nodes, base, candidates, sorted, i, max, selected);
  }
}
