/** The HNSW index object: insertion with bidirectional linking and pruning, and k-nearest search. */
module HnswIndex {
  import opened HnswSearch

  /** Only the layer-`lc` lists differ. */
  ghost predicate SameOffLayer(a: Nodes, b: Nodes, lc: nat)
  {
    && a.Keys == b.Keys
    && (forall n :: n in a ==> b[n].vector == a[n].vector && b[n].maxLevel == a[n].maxLevel)
    && (forall n, l: nat :: n in a && l != lc ==> Neighbors(b, n, l) == Neighbors(a, n, l))
  }

  ghost predicate ListOk(nodes: Nodes, id: int, lc: nat, list: seq<int>)
  {
    NoDuplicates(list) && forall n :: n in list ==> n in nodes && lc <= nodes[n].maxLevel && n != id
  }

  function SetNeighbors(nodes: Nodes, id: int, lc: nat, list: seq<int>): Nodes
    requires id in nodes && lc < |nodes[id].neighbors|
  {
    nodes[id := HnswNode(nodes[id].vector, nodes[id].maxLevel, nodes[id].neighbors[lc := list])]
  }

  lemma SetNeighborsOk(nodes: Nodes, dim: nat, id: int, lc: nat, list: seq<int>)
    requires GraphOk(nodes, dim) && id in nodes && lc <= nodes[id].maxLevel && ListOk(nodes, id, lc, list)
    ensures var nodes' := SetNeighbors(nodes, id, lc, list);
            && GraphOk(nodes', dim) && SameOffLayer(nodes, nodes', lc)
            && (forall n :: n in nodes ==> Neighbors(nodes', n, lc) == if n == id then list else Neighbors(nodes, n, lc))
  {
    var nodes' := SetNeighbors(nodes, id, lc, list);
    forall n, l: nat | n in nodes' && l <= nodes'[n].maxLevel ensures EdgesOk(nodes', n, l) {
      assert EdgesOk(nodes, n, l);
    }
  }

  lemma SameOffLayerTransitive(a: Nodes, b: Nodes, c: Nodes, lc: nat)
    requires SameOffLayer(a, b, lc) && SameOffLayer(b, c, lc)
    ensures SameOffLayer(a, c, lc)
  {
  }

  /** What linking does to a chosen neighbour's list: the new id goes to the end, and a list that
      overflows is replaced by the heuristic's choice among its members. */
  ghost predicate BackLinked(nodes: Nodes, n: int, id: int, max: nat, before: seq<int>, after: seq<int>)
    requires n in nodes
  {
    if |before| < max then after == before + [id]
    else GreedyDiverse(nodes, nodes[n].vector, Members(before + [id]), max, after)
  }

  /** The list of a chosen neighbour that is not full only gains the new id: full means twice `maxM` in layer 0. */
  ghost predicate NotFullKeeps(old_: Nodes, nodes: Nodes, id: int, n: int, l: nat, maxM: nat)
  {
    id in nodes && n in old_ && n in nodes && n in Neighbors(nodes, id, l) && |Neighbors(old_, n, l)| < (if l == 0 then 2 * maxM else maxM) ==>
      Neighbors(nodes, n, l) == Neighbors(old_, n, l) + [id]
  }

  /** No list is longer than twice `maxM` in layer 0, and than `maxM` above. */
  ghost predicate AtMost(nodes: Nodes, maxM: nat)
  {
    forall n, l: nat :: n in nodes && l <= nodes[n].maxLevel ==> |Neighbors(nodes, n, l)| <= if l == 0 then 2 * maxM else maxM
  }

  lemma DegreesAre(nodes: Nodes, maxM: nat)
    requires DegreesOk(nodes, maxM)
    ensures AtMost(nodes, maxM)
  {
    forall n, l: nat | n in nodes && l <= nodes[n].maxLevel ensures |Neighbors(nodes, n, l)| <= if l == 0 then 2 * maxM else maxM {
      assert |Neighbors(nodes, n, l)| <= LayerMaxM(maxM, l);
    }
  }

  ghost function Members(s: seq<int>): set<int>
  {
    set x | x in s
  }

  /** The answer of a layer search over the graph `nodes`. */
  ghost predicate LayerAnswer(nodes: Nodes, query: Vector, lc: nat, ef: int, out: seq<NodeDistance>)
  {
    1 <= |out| <= Width(ef) && OutOk(nodes, query, out) && LocallyClosed(nodes, query, lc, Width(ef), out)
  }

  ghost predicate LinkedAs(old_: Nodes, nodes: Nodes, id: int, query: Vector, lc: nat, ef: int, max: nat, out: seq<NodeDistance>)
  {
    && LayerAnswer(old_, query, lc, ef, out)
    && id in nodes && GreedyDiverse(old_, query, IdsOf(out), max, Neighbors(nodes, id, lc))
    && (max > 0 ==> Neighbors(nodes, id, lc) != [])
  }

  /** The layer-`lc` links of an inserted node: its list is the heuristic's choice from the answer of
      a layer search in the old graph, each chosen node links back, and no other list changes. */
  ghost predicate LayerLinked(old_: Nodes, nodes: Nodes, id: int, query: Vector, lc: nat, ef: int, max: nat)
  {
    && (exists out :: LinkedAs(old_, nodes, id, query, lc, ef, max, out))
    && (forall n :: n in old_ && n in nodes && id in nodes ==>
          if n in Neighbors(nodes, id, lc)
          then BackLinked(nodes, n, id, max, Neighbors(old_, n, lc), Neighbors(nodes, n, lc))
          else Neighbors(nodes, n, lc) == Neighbors(old_, n, lc))
  }

  /** Where the descent from the entry point to layer 0 may end: no further from the query than the
      entry point, and with no nearer neighbour in layer 1. */
  ghost predicate Landing(nodes: Nodes, query: Vector, entry: int, maxLayer: int, ep: int)
  {
    && ep in nodes && Dist(nodes, query, ep) <= Dist(nodes, query, entry)
    && (maxLayer < 1 ==> ep == entry)
    && (maxLayer >= 1 ==> forall n :: n in Neighbors(nodes, ep, 1) ==> Dist(nodes, query, ep) <= Dist(nodes, query, n))
  }

  /** At most `k` measured members of `reach`, nearest first; the exact `k` nearest when `reach` is
      no larger than what the search keeps. */
  ghost predicate Nearest(nodes: Nodes, query: Vector, reach: set<int>, k: nat, size: nat, out: seq<NodeDistance>)
  {
    && |out| <= k && NoDuplicates(out) && Ascending(out) && AllMeasured(nodes, query, out)
    && (forall x :: x in out ==> x.nodeId in reach)
    && (|reach| <= size ==>
          && |out| == (if k < |reach| then k else |reach|)
          && (forall n :: n in reach ==> Measured(nodes, query, n) in out || NoneFurther(out, Dist(nodes, query, n))))
  }

  /** A stored vector equal to the query is found, if its node is reachable and no more nodes are than the search keeps. */
  ghost predicate FindsEqual(nodes: Nodes, query: Vector, reach: set<int>, k: nat, size: nat, out: seq<NodeDistance>)
  {
    forall n :: n in reach && n in nodes && nodes[n].vector == query && |reach| <= size && k >= 1 ==> HasEqual(nodes, query, out)
  }

  ghost predicate HasEqual(nodes: Nodes, query: Vector, out: seq<NodeDistance>)
  {
    exists x :: x in out && x.nodeId in nodes && nodes[x.nodeId].vector == query && x.distance == 0
  }

  lemma EqualFound(nodes: Nodes, dim: nat, query: Vector, reach: set<int>, k: nat, size: nat, out: seq<NodeDistance>)
    requires ShapeOk(nodes, dim) && |query| == dim && Nearest(nodes, query, reach, k, size, out)
    ensures FindsEqual(nodes, query, reach, k, size, out)
  {
    forall n | n in reach && n in nodes && nodes[n].vector == query && |reach| <= size && k >= 1 ensures HasEqual(nodes, query, out) {
      L2IsDistance(query, query);
      if Measured(nodes, query, n) in out {
        assert HasEqual(nodes, query, out);
      } else {
        SmallSet(n, reach);
        assert out[0] in out && out[0].distance <= 0;
        L2IsDistance(query, nodes[out[0].nodeId].vector);
      }
    }
  }

  lemma SmallSet(n: int, s: set<int>)
    requires n in s
    ensures |s| >= 1
  {
  }

  ghost predicate NoneFurther(out: seq<NodeDistance>, d: int)
  {
    forall y :: y in out ==> y.distance <= d
  }

  lemma NearestFound(nodes: Nodes, dim: nat, query: Vector, ep: int, k: nat, size: nat, found: seq<NodeDistance>, sorted: seq<NodeDistance>)
    requires GraphOk(nodes, dim) && ep in nodes && OutOk(nodes, query, found) && |found| <= size
    requires (forall x :: x in found ==> x.nodeId in Reach(nodes, 0, ep)) && Covered(nodes, query, size, found, ep)
    requires LocallyClosed(nodes, query, 0, size, found)
    requires |sorted| == |found| && NoDuplicates(sorted) && Ascending(sorted) && forall x :: x in sorted <==> x in found
    ensures Nearest(nodes, query, Reach(nodes, 0, ep), k, size, if |sorted| > k then sorted[..k] else sorted)
  {
    var reach := Reach(nodes, 0, ep);
    var out := if |sorted| > k then sorted[..k] else sorted;
    assert forall x :: x in out ==> x in sorted;
    if |reach| <= size {
      SmallLayerIsFound(nodes, dim, query, 0, ep, size, found);
      IdCount(nodes, query, found);
      assert (set x | x in found :: x.nodeId) == reach by {
        forall n | n in reach ensures n in (set x | x in found :: x.nodeId) { assert Measured(nodes, query, n) in found; }
      }
      forall n | n in reach ensures Measured(nodes, query, n) in out || NoneFurther(out, Dist(nodes, query, n)) {
        var x := Measured(nodes, query, n);
        assert x in sorted;
        var i :| 0 <= i < |sorted| && sorted[i] == x;
        if i < |out| { assert out[i] == x; }
      }
    }
  }

  /** With `ef` = 1 the search never moves further away and stops where no neighbour is nearer. */
  lemma NearestOfOne(nodes: Nodes, query: Vector, lc: nat, out: seq<NodeDistance>, ep: int)
    requires |out| == 1 && OutOk(nodes, query, out) && LocallyClosed(nodes, query, lc, 1, out) && Covered(nodes, query, 1, out, ep)
    ensures Dist(nodes, query, out[0].nodeId) <= Dist(nodes, query, ep)
    ensures forall n :: n in Neighbors(nodes, out[0].nodeId, lc) ==> Dist(nodes, query, out[0].nodeId) <= Dist(nodes, query, n)
  {
    assert out[0] in out;
    forall n | n in Neighbors(nodes, out[0].nodeId, lc) ensures Dist(nodes, query, out[0].nodeId) <= Dist(nodes, query, n) {
      assert Covered(nodes, query, 1, out, n);
    }
  }

  class HnswIndex {
    var nodes: Nodes
    var enterPointId: int
    var maxLayer: int
    const dim: nat
    const maxM: nat
    const efConstruction: int

    constructor (dim: nat, maxM: nat, efConstruction: int)
      ensures Valid() && nodes == map[]
      ensures this.dim == dim && this.maxM == maxM && this.efConstruction == efConstruction
    {
      this.dim, this.maxM, this.efConstruction := dim, maxM, efConstruction;
      nodes, enterPointId, maxLayer := map[], -1, -1;
    }

    /** The entry point is a node of maximal level. */
    ghost predicate EntryOk()
      reads this
    {
      && (nodes == map[] ==> maxLayer == -1)
      && (nodes != map[] ==> enterPointId in nodes && nodes[enterPointId].maxLevel == maxLayer)
      && (forall id :: id in nodes ==> nodes[id].maxLevel <= maxLayer)
    }

    ghost predicate Valid()
      reads this
    {
      GraphOk(nodes, dim) && DegreesOk(nodes, maxM) && EntryOk()
    }

    /** Best-first search from `ep` in layer `lc`, keeping the `ef` nearest nodes met. */
    method SearchLayer(query: Vector, ep: int, ef: int, lc: nat) returns (out: seq<NodeDistance>)
      requires GraphOk(nodes, dim) && |query| == dim && ep in nodes
      ensures LayerAnswer(nodes, query, lc, ef, out)
      ensures forall x :: x in out ==> x.nodeId in Reach(nodes, lc, ep)
      ensures Covered(nodes, query, Width(ef), out, ep)
    {
      ReachClosed(nodes, dim, lc, ep);
      out := SearchWithin(nodes, dim, query, ep, ef, lc, Reach(nodes, lc, ep));
    }

    /** Adds the new node to its chosen neighbours' lists, and prunes a list that overflows. */
    method LinkLayer(id: int, lc: nat, selected: seq<int>)
      requires GraphOk(nodes, dim) && DegreesOk(nodes, maxM)
      requires id in nodes && lc <= nodes[id].maxLevel && Neighbors(nodes, id, lc) == []
      requires ListOk(nodes, id, lc, selected) && |selected| <= LayerMaxM(maxM, lc)
      requires forall n :: n in nodes ==> id !in Neighbors(nodes, n, lc)
      modifies this`nodes
      ensures GraphOk(nodes, dim) && DegreesOk(nodes, maxM) && SameOffLayer(old(nodes), nodes, lc)
      ensures Neighbors(nodes, id, lc) == selected
      ensures forall n :: n in nodes && n != id ==>
                if n in selected
                then BackLinked(nodes, n, id, LayerMaxM(maxM, lc), Neighbors(old(nodes), n, lc), Neighbors(nodes, n, lc))
                else Neighbors(nodes, n, lc) == Neighbors(old(nodes), n, lc)
    {
      ghost var before := nodes;
      for k := 0 to |selected|
        invariant GraphOk(nodes, dim) && DegreesOk(nodes, maxM) && SameOffLayer(before, nodes, lc)
        invariant Neighbors(nodes, id, lc) == selected[..k]
        invariant forall n :: n in nodes && n != id && n !in selected[..k] ==> Neighbors(nodes, n, lc) == Neighbors(before, n, lc)
        invariant forall n :: n in nodes && n != id && n in selected[..k] ==>
                    BackLinked(nodes, n, id, LayerMaxM(maxM, lc), Neighbors(before, n, lc), Neighbors(nodes, n, lc))
      {
        ghost var was := nodes;
        assert selected[k] in selected && selected[k] !in selected[..k];
        LinkOne(id, lc, selected[k], selected[..k]);
        assert selected[..k + 1] == selected[..k] + [selected[k]];
        SameOffLayerTransitive(before, was, nodes, lc);
        forall n | n in nodes && n != id && n in selected[..k + 1]
          ensures BackLinked(nodes, n, id, LayerMaxM(maxM, lc), Neighbors(before, n, lc), Neighbors(nodes, n, lc))
        {
          EdgesInRange(before, dim, n, lc);
          if n != selected[k] { BackLinkedFrame(was, nodes, n, id, LayerMaxM(maxM, lc), Neighbors(before, n, lc), Neighbors(nodes, n, lc)); }
        }
      }
      assert selected[..|selected|] == selected;
    }

    /** One neighbour: both directions, then the overflow check. */
    method LinkOne(id: int, lc: nat, n: int, ghost earlier: seq<int>)
      requires GraphOk(nodes, dim) && DegreesOk(nodes, maxM)
      requires id in nodes && n in nodes && n != id && lc <= nodes[id].maxLevel && lc <= nodes[n].maxLevel
      requires Neighbors(nodes, id, lc) == earlier && n !in earlier && |earlier| < LayerMaxM(maxM, lc)
      requires id !in Neighbors(nodes, n, lc)
      modifies this`nodes
      ensures GraphOk(nodes, dim) && DegreesOk(nodes, maxM) && SameOffLayer(old(nodes), nodes, lc)
      ensures Neighbors(nodes, id, lc) == earlier + [n]
      ensures BackLinked(nodes, n, id, if lc == 0 then 2 * maxM else maxM, Neighbors(old(nodes), n, lc), Neighbors(nodes, n, lc))
      ensures forall m :: m in nodes && m != id && m != n ==> Neighbors(nodes, m, lc) == Neighbors(old(nodes), m, lc)
    {
      ghost var before := nodes;
      assert EdgesOk(nodes, id, lc);
      SetNeighborsOk(nodes, dim, id, lc, Neighbors(nodes, id, lc) + [n]);
      nodes := SetNeighbors(nodes, id, lc, nodes[id].neighbors[lc] + [n]);
      ghost var middle := nodes;
      LinkBack(id, lc, n);
      SameOffLayerTransitive(before, middle, nodes, lc);
    }

    /** The edge from the chosen neighbour to the new node, and the choice among its neighbours if they are too many. */
    method LinkBack(id: int, lc: nat, n: int)
      requires GraphOk(nodes, dim) && DegreesOk(nodes, maxM)
      requires id in nodes && n in nodes && n != id && lc <= nodes[id].maxLevel && lc <= nodes[n].maxLevel
      requires id !in Neighbors(nodes, n, lc)
      modifies this`nodes
      ensures GraphOk(nodes, dim) && DegreesOk(nodes, maxM) && SameOffLayer(old(nodes), nodes, lc)
      ensures BackLinked(nodes, n, id, if lc == 0 then 2 * maxM else maxM, Neighbors(old(nodes), n, lc), Neighbors(nodes, n, lc))
      ensures forall m :: m in nodes && m != n ==> Neighbors(nodes, m, lc) == Neighbors(old(nodes), m, lc)
    {
      ghost var before := nodes;
      assert EdgesOk(nodes, n, lc);
      var list := nodes[n].neighbors[lc] + [id];
      assert ListOk(nodes, n, lc, list);
      SetNeighborsOk(nodes, dim, n, lc, list);
      if |list| > LayerMaxM(maxM, lc) {
        var full := SetNeighbors(nodes, n, lc, list);
        var candidates := Measure(full, dim, full[n].vector, list);
        var pruned := SelectHeuristic(full, dim, full[n].vector, candidates, LayerMaxM(maxM, lc));
        assert IdsOf(candidates) == Members(list);
        assert ListOk(full, n, lc, pruned);
        SetNeighborsOk(full, dim, n, lc, pruned);
        nodes := SetNeighbors(full, n, lc, pruned);
        SameOffLayerTransitive(before, full, nodes, lc);
        GreedyFrame(full, nodes, nodes[n].vector, Members(list), LayerMaxM(maxM, lc), pruned);
      } else {
        nodes := SetNeighbors(nodes, n, lc, list);
      }
    }

    /** Searches one layer for the new node, chooses its neighbours there and links both ways. */
    method ConnectLayer(id: int, vector: Vector, currObj: int, lc: nat, ghost orig: Nodes) returns (nextObj: int)
      requires GraphOk(nodes, dim) && DegreesOk(nodes, maxM) && GraphOk(orig, dim) && |vector| == dim
      requires id in nodes && lc <= nodes[id].maxLevel && Neighbors(nodes, id, lc) == []
      requires currObj in nodes && currObj != id && lc <= nodes[currObj].maxLevel
      requires forall n :: n in nodes ==> id !in Neighbors(nodes, n, lc)
      requires orig.Keys == nodes.Keys - {id}
      requires forall n :: n in orig ==> orig[n].vector == nodes[n].vector && Neighbors(orig, n, lc) == Neighbors(nodes, n, lc)
      modifies this`nodes
      ensures GraphOk(nodes, dim) && DegreesOk(nodes, maxM) && SameOffLayer(old(nodes), nodes, lc)
      ensures nextObj in nodes && nextObj != id && lc <= nodes[nextObj].maxLevel
      ensures LayerLinked(orig, nodes, id, vector, lc, efConstruction, LayerMaxM(maxM, lc))
    {
      ghost var before := nodes;
      var candidates := SearchLayer(vector, currObj, efConstruction, lc);
      ReachStays(nodes, dim, lc, currObj, {id});
      var selected := SelectHeuristic(nodes, dim, vector, candidates, LayerMaxM(maxM, lc));
      nextObj := if selected == [] then currObj else selected[0];
      forall s | s in selected ensures s in before && s != id && lc <= before[s].maxLevel {
        var x :| x in candidates && x.nodeId == s;
      }
      LinkLayer(id, lc, selected);
      AnswerFrame(before, orig, dim, vector, lc, efConstruction, candidates);
      GreedyFrame(before, orig, vector, IdsOf(candidates), LayerMaxM(maxM, lc), selected);
      assert LinkedAs(orig, nodes, id, vector, lc, efConstruction, LayerMaxM(maxM, lc), candidates);
    }

    /** Greedy descent through the layers above the new node's level. */
    method Descend(query: Vector, ep: int, from: int, to: int, ghost avoid: set<int>) returns (currObj: int)
      requires GraphOk(nodes, dim) && |query| == dim && ep in nodes && ep !in avoid && -1 <= to
      requires from <= nodes[ep].maxLevel
      requires forall n, m, l: nat :: n in nodes && m in avoid && l > to ==> m !in Neighbors(nodes, n, l)
      ensures currObj in nodes && currObj !in avoid && (from > to ==> to < nodes[currObj].maxLevel)
      ensures from <= to ==> currObj == ep
      ensures Dist(nodes, query, currObj) <= Dist(nodes, query, ep)
      ensures from > to ==> forall n :: n in Neighbors(nodes, currObj, to + 1) ==> Dist(nodes, query, currObj) <= Dist(nodes, query, n)
    {
      currObj := ep;
      var lc := from;
      while lc > to
        invariant from > to ==> to <= lc <= from
        invariant currObj in nodes && currObj !in avoid && lc <= nodes[currObj].maxLevel
        invariant from > to == lc ==> to < nodes[currObj].maxLevel
        invariant from <= to ==> currObj == ep
        invariant Dist(nodes, query, currObj) <= Dist(nodes, query, ep)
        invariant from > to && lc < from ==> forall n :: n in Neighbors(nodes, currObj, lc + 1) ==> Dist(nodes, query, currObj) <= Dist(nodes, query, n)
      {
        var nearest := SearchLayer(query, currObj, 1, lc);
        ReachStays(nodes, dim, lc, currObj, avoid);
        NearestOfOne(nodes, query, lc, nearest, currObj);
        currObj := nearest[0].nodeId;
        lc := lc - 1;
      }
    }

    /** Connects the new node layer by layer, from the highest shared layer down to 0. */
    method ConnectLayers(id: int, vector: Vector, ep: int, minLayer: nat, ghost orig: Nodes)
      requires GraphOk(nodes, dim) && DegreesOk(nodes, maxM) && GraphOk(orig, dim) && |vector| == dim
      requires id in nodes && minLayer <= nodes[id].maxLevel && orig.Keys == nodes.Keys - {id}
      requires ep in nodes && ep != id && minLayer <= nodes[ep].maxLevel
      requires forall l: nat :: Neighbors(nodes, id, l) == []
      requires forall n, l: nat :: n in nodes ==> id !in Neighbors(nodes, n, l)
      requires forall n, l: nat :: n in orig ==> orig[n].vector == nodes[n].vector && Neighbors(orig, n, l) == Neighbors(nodes, n, l)
      modifies this`nodes
      ensures GraphOk(nodes, dim) && DegreesOk(nodes, maxM) && nodes.Keys == old(nodes.Keys)
      ensures forall n :: n in nodes ==> nodes[n].vector == old(nodes)[n].vector && nodes[n].maxLevel == old(nodes)[n].maxLevel
      ensures forall n, l: nat :: n in nodes && l > minLayer ==> Neighbors(nodes, n, l) == Neighbors(old(nodes), n, l)
      ensures forall l: nat :: l <= minLayer ==> LayerLinked(orig, nodes, id, vector, l, efConstruction, LayerMaxM(maxM, l))
    {
      ghost var reg := nodes;
      var currObj := ep;
      var lc: int := minLayer;
      while lc >= 0
        invariant -1 <= lc <= minLayer
        invariant GraphOk(nodes, dim) && DegreesOk(nodes, maxM) && nodes.Keys == reg.Keys
        invariant forall n :: n in reg ==> nodes[n].vector == reg[n].vector && nodes[n].maxLevel == reg[n].maxLevel
        invariant currObj in nodes && currObj != id && lc <= nodes[currObj].maxLevel
        invariant forall n, l: nat :: n in reg && (l <= lc || l > minLayer) ==> Neighbors(nodes, n, l) == Neighbors(reg, n, l)
        invariant forall l: nat :: lc < l <= minLayer ==> LayerLinked(orig, nodes, id, vector, l, efConstruction, LayerMaxM(maxM, l))
      {
        ghost var before := nodes;
        currObj := ConnectLayer(id, vector, currObj, lc, orig);
        forall l: nat | lc < l <= minLayer ensures LayerLinked(orig, nodes, id, vector, l, efConstruction, LayerMaxM(maxM, l)) {
          LinkedFrame(orig, dim, before, nodes, id, vector, l, efConstruction, LayerMaxM(maxM, l), lc);
        }
        lc := lc - 1;
      }
    }

    method Insert(id: int, vector: Vector, targetLevel: nat)
      requires Valid() && id !in nodes && |vector| == dim
      modifies this
      ensures Valid() && nodes.Keys == old(nodes.Keys) + {id}
      ensures nodes[id].vector == vector && nodes[id].maxLevel == targetLevel
      ensures forall n :: n in old(nodes) ==> nodes[n].vector == old(nodes)[n].vector && nodes[n].maxLevel == old(nodes)[n].maxLevel
      ensures maxLayer == (if targetLevel > old(maxLayer) then targetLevel else old(maxLayer))
      ensures enterPointId == (if targetLevel > old(maxLayer) then id else old(enterPointId))
      ensures 0 <= old(maxLayer) ==> LayerLinked(old(nodes), nodes, id, vector, 0, efConstruction, 2 * maxM)
      ensures forall l: nat :: 1 <= l <= targetLevel && l <= old(maxLayer) ==> LayerLinked(old(nodes), nodes, id, vector, l, efConstruction, maxM)
      ensures forall n, l: nat :: n in old(nodes) && l <= targetLevel && l <= old(maxLayer) ==> NotFullKeeps(old(nodes), nodes, id, n, l, maxM)
      ensures AtMost(nodes, maxM)
      ensures forall n, l: nat :: n in old(nodes) && (l > targetLevel || l > old(maxLayer)) ==>
                Neighbors(nodes, n, l) == Neighbors(old(nodes), n, l)
      ensures forall l: nat :: l > old(maxLayer) ==> Neighbors(nodes, id, l) == []
    {
      ghost var orig := nodes;
      RegisterOk(nodes, dim, maxM, id, vector, targetLevel);
      if nodes == map[] {
        enterPointId, maxLayer := id, targetLevel;
        nodes := nodes[id := HnswNode(vector, targetLevel, EmptyLists(targetLevel + 1))];
        DegreesAre(nodes, maxM);
        return;
      }
      nodes := nodes[id := HnswNode(vector, targetLevel, EmptyLists(targetLevel + 1))];
      var currObj := Descend(vector, enterPointId, maxLayer, targetLevel, {id});
      var minLayer := if maxLayer < targetLevel then maxLayer else targetLevel;
      ConnectLayers(id, vector, currObj, minLayer, orig);
      assert LayerMaxM(maxM, 0) == 2 * maxM;
      forall n, l: nat | n in orig && l <= targetLevel && l <= maxLayer ensures NotFullKeeps(orig, nodes, id, n, l, maxM) {
        assert LayerLinked(orig, nodes, id, vector, l, efConstruction, LayerMaxM(maxM, l));
      }
      DegreesAre(nodes, maxM);
      if targetLevel > maxLayer {
        maxLayer, enterPointId := targetLevel, id;
      }
    }

    /** The `k` nearest nodes found from the entry point. */
    method Search(query: Vector, k: nat) returns (out: seq<NodeDistance>)
      requires Valid() && |query| == dim
      ensures nodes == map[] ==> out == []
      ensures nodes != map[] ==> exists ep ::
                && Landing(nodes, query, enterPointId, maxLayer, ep) && Nearest(nodes, query, Reach(nodes, 0, ep), k, Width(efConstruction), out)
                && FindsEqual(nodes, query, Reach(nodes, 0, ep), k, Width(efConstruction), out)
    {
      if nodes == map[] { return []; }
      var currObj := Descend(query, enterPointId, maxLayer, 0, {});
      var candidates := SearchLayer(query, currObj, efConstruction, 0);
      out := SortByDistance(candidates);
      PermutationKeeps(candidates, out);
      ReachStays(nodes, dim, 0, currObj, {});
      NearestFound(nodes, dim, query, currObj, k, Width(efConstruction), candidates, out);
      if |out| > k { out := out[..k]; }
      EqualFound(nodes, dim, query, Reach(nodes, 0, currObj), k, Width(efConstruction), out);
      assert Landing(nodes, query, enterPointId, maxLayer, currObj);
    }

    /** The distances from a node to the members of its list. */
    static method Measure(nodes: Nodes, dim: nat, base: Vector, list: seq<int>) returns (candidates: seq<NodeDistance>)
      requires ShapeOk(nodes, dim) && |base| == dim && NoDuplicates(list) && forall n :: n in list ==> n in nodes
      ensures |candidates| == |list| && forall i :: 0 <= i < |list| ==> candidates[i] == Measured(nodes, base, list[i])
      ensures NoDuplicates(candidates) && AllMeasured(nodes, base, candidates)
    {
      candidates := [];
      for i := 0 to |list|
        invariant |candidates| == i && forall j :: 0 <= j < i ==> candidates[j] == Measured(nodes, base, list[j])
      {
        var n := list[i];
        assert n in list && n in nodes;
        candidates := candidates + [NodeDistance(n, L2(base, nodes[n].vector))];
      }
      forall x | x in candidates ensures x.nodeId in nodes && x == Measured(nodes, base, x.nodeId) {
        var j :| 0 <= j < |candidates| && candidates[j] == x;
        assert list[j] in list;
      }
    }
  }

  /** The heuristic's answer depends only on the vectors of its candidates. */
  lemma GreedyFrame(a: Nodes, b: Nodes, base: Vector, candidates: set<int>, max: nat, selected: seq<int>)
    requires GreedyDiverse(a, base, candidates, max, selected)
    requires forall c :: c in candidates ==> c in a && c in b && b[c].vector == a[c].vector
    ensures GreedyDiverse(b, base, candidates, max, selected)
  {
    forall n | n in candidates ensures Dist(b, base, n) == Dist(a, base, n) {}
    forall m, n | m in candidates && n in candidates ensures Between(b, m, n) == Between(a, m, n) {}
    forall c | c in candidates ensures Handled(b, base, max, selected, c) {
      assert Handled(a, base, max, selected, c);
      if Shadowed(a, base, selected, c) {
        var s :| s in selected && Dist(a, base, s) <= Dist(a, base, c) && Between(a, c, s) <= Dist(a, base, c);
        assert Between(b, c, s) == Between(a, c, s);
      }
    }
    forall i, j | 0 <= i < j < |selected|
      ensures Dist(b, base, selected[i]) <= Dist(b, base, selected[j]) && Between(b, selected[j], selected[i]) > Dist(b, base, selected[j])
    {
      assert selected[i] in selected && selected[j] in selected;
    }
  }

  lemma BackLinkedFrame(a: Nodes, b: Nodes, n: int, id: int, max: nat, before: seq<int>, after: seq<int>)
    requires a.Keys == b.Keys && (forall m :: m in a ==> b[m].vector == a[m].vector)
    requires n in a && BackLinked(a, n, id, max, before, after)
    requires id in a && forall m :: m in before ==> m in a
    ensures BackLinked(b, n, id, max, before, after)
  {
    if |before| >= max { GreedyFrame(a, b, a[n].vector, Members(before + [id]), max, after); }
  }

  /** A search answer depends only on the layer's lists and the vectors of the nodes around it. */
  lemma AnswerFrame(a: Nodes, b: Nodes, dim: nat, query: Vector, lc: nat, ef: int, out: seq<NodeDistance>)
    requires GraphOk(b, dim) && LayerAnswer(a, query, lc, ef, out)
    requires forall n :: n in b ==> n in a && b[n].vector == a[n].vector && Neighbors(b, n, lc) == Neighbors(a, n, lc)
    requires forall x :: x in out ==> x.nodeId in b
    ensures LayerAnswer(b, query, lc, ef, out)
  {
    forall n | n in b ensures Dist(b, query, n) == Dist(a, query, n) {}
    forall x, n | x in out && x.nodeId in b && n in Neighbors(b, x.nodeId, lc) ensures Covered(b, query, Width(ef), out, n) {
      assert Covered(a, query, Width(ef), out, n);
      EdgesInRange(b, dim, x.nodeId, lc);
    }
  }

  /** Later changes in another layer leave a linked layer as it is. */
  lemma LinkedFrame(old_: Nodes, dim: nat, a: Nodes, b: Nodes, id: int, query: Vector, l: nat, ef: int, max: nat, lc: nat)
    requires GraphOk(old_, dim) && old_.Keys <= a.Keys && id in a
    requires LayerLinked(old_, a, id, query, l, ef, max) && SameOffLayer(a, b, lc) && lc != l
    ensures LayerLinked(old_, b, id, query, l, ef, max)
  {
    var out :| LinkedAs(old_, a, id, query, l, ef, max, out);
    assert LinkedAs(old_, b, id, query, l, ef, max, out);
    forall n | n in old_ && n in b && n in Neighbors(b, id, l)
      ensures BackLinked(b, n, id, max, Neighbors(old_, n, l), Neighbors(b, n, l))
    {
      EdgesInRange(old_, dim, n, l);
      BackLinkedFrame(a, b, n, id, max, Neighbors(old_, n, l), Neighbors(a, n, l));
    }
  }

  function EmptyLists(n: nat): (s: seq<seq<int>>)
    ensures |s| == n && forall i :: 0 <= i < n ==> s[i] == []
  {
    seq(n, _ => [])
  }

  lemma RegisterOk(nodes: Nodes, dim: nat, maxM: nat, id: int, vector: Vector, level: nat)
    requires GraphOk(nodes, dim) && DegreesOk(nodes, maxM) && id !in nodes && |vector| == dim
    ensures var nodes' := nodes[id := HnswNode(vector, level, EmptyLists(level + 1))];
            && GraphOk(nodes', dim) && DegreesOk(nodes', maxM)
            && (forall l: nat :: Neighbors(nodes', id, l) == [])
            && (forall n, l: nat :: n in nodes' ==> id !in Neighbors(nodes', n, l))
  {
    var nodes' := nodes[id := HnswNode(vector, level, EmptyLists(level + 1))];
    forall n, l: nat | n in nodes' && l <= nodes'[n].maxLevel ensures EdgesOk(nodes', n, l) && id !in Neighbors(nodes', n, l) {
      if n != id { assert EdgesOk(nodes, n, l); }
    }
    forall n, l: nat | n in nodes' ensures id !in Neighbors(nodes', n, l) {
      if l <= nodes'[n].maxLevel { assert EdgesOk(nodes', n, l); }
    }
  }

  /** From a node that reaches the layer, layer edges lead only to nodes that reach it, and never to
      a node no list of the layer names. */
  lemma ReachStays(nodes: Nodes, dim: nat, lc: nat, ep: int, avoid: set<int>)
    requires GraphOk(nodes, dim) && ep in nodes && ep !in avoid && lc <= nodes[ep].maxLevel
    requires forall n, m :: n in nodes && m in avoid ==> m !in Neighbors(nodes, n, lc)
    ensures forall n :: n in Reach(nodes, lc, ep) ==> n in nodes && n !in avoid && lc <= nodes[n].maxLevel
  {
    var s := set n | n in nodes.Keys && n !in avoid && lc <= nodes[n].maxLevel;
    forall m, n | m in s && m in nodes && n in Neighbors(nodes, m, lc) ensures n in s {
      assert EdgesOk(nodes, m, lc);
    }
    assert Closed(nodes, lc, s) && ep in s;
  }
}
