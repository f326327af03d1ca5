/**
 * The graph builder over flat records: a node for each declaration, containment edges from
 * the parent links, and call edges, with the cache of parent walks both passes share.
 */
module GraphBuilder {
  import opened RecordFacts
  import opened RecordGraph

  datatype GraphNode = GraphNode(id: nat, irId: nat, name: string)

  datatype GraphEdge = GraphEdge(id: nat, ends: Edge)

  class Builder {
    var nodes: seq<GraphNode>
    var edges: seq<GraphEdge>
    var nextNodeId: nat
    var nextEdgeId: nat
    var nodeOf: map<nat, nat>
    var addedEdges: set<Edge>
    var parentCache: map<nat, nat>

    constructor (startNodeId: nat)
      ensures nodes == [] && edges == [] && nodeOf == map[] && parentCache == map[] && nextNodeId == startNodeId
    {
      nodes, edges, nextNodeId, nextEdgeId := [], [], startNodeId, 1;
      nodeOf, addedEdges, parentCache := map[], {}, map[];
    }

    /** The edges carry consecutive ids, no two are alike, and the dedup set holds just them. */
    ghost predicate EdgesTracked()
      reads `edges, `nextEdgeId, `addedEdges
    {
      && nextEdgeId == |edges| + 1
      && (forall i | 0 <= i < |edges| :: edges[i].id == i + 1 && edges[i].ends in addedEdges)
      && (forall i, j | 0 <= i < j < |edges| :: edges[i].ends != edges[j].ends)
      && forall e | e in addedEdges :: exists i | 0 <= i < |edges| :: edges[i].ends == e
    }

    /** Every cached answer is the answer of the walk. */
    ghost predicate CacheRight(u: Unit)
      requires Indexed(u)
      reads `parentCache, `nodeOf
    {
      forall id | id in parentCache :: IsNearest(Parents(u), nodeOf.Keys, id, parentCache[id])
    }

    method AddGraphEdge(e: Edge)
      requires EdgesTracked()
      modifies `edges, `nextEdgeId, `addedEdges
      ensures EdgesTracked() && addedEdges == old(addedEdges) + {e}
    {
      if e in addedEdges {
        return;
      }
      addedEdges := addedEdges + {e};
      edges := edges + [GraphEdge(nextEdgeId, e)];
      nextEdgeId := nextEdgeId + 1;
      assert edges[|edges| - 1].ends == e;
      forall x | x in addedEdges ensures exists i | 0 <= i < |edges| :: edges[i].ends == x {
        if x != e {
          var i :| 0 <= i < |old(edges)| && old(edges)[i].ends == x;
          assert edges[i].ends == x;
        }
      }
    }

    /**
     * The nearest enclosing record with a node. The walk may start from any id and go round
     * a cycle; it answers what the uncached walk answers and leaves the cache right.
     */
    method FindContainingFunction(u: Unit, rec: Record) returns (result: nat)
      requires Indexed(u) && CacheRight(u)
      modifies `parentCache
      ensures CacheRight(u) && IsNearest(Parents(u), nodeOf.Keys, rec.parentId, result)
    {
      hide IsNearest;
      var pid := rec.parentId;
      if pid == 0 {
        NearestOfZero(Parents(u), nodeOf.Keys);
        return 0;
      }
      if pid in parentCache {
        return parentCache[pid];
      }
      result := Walk(u, pid);
      parentCache := parentCache[rec.parentId := result];
    }

    method Walk(u: Unit, start: nat) returns (result: nat)
      requires Indexed(u) && CacheRight(u) && start != 0
      ensures IsNearest(Parents(u), nodeOf.Keys, start, result)
    {
      hide IsNearest, Step, Up, NoneBefore;
      ghost var ps, keys, n := Parents(u), nodeOf.Keys, 0;
      var pid := start;
      var visited: set<nat> := {};
      StartOfWalk(ps, keys, start);
      while pid != 0
        invariant pid == Up(ps, start, n) && visited <= u.index.Keys && NoneBefore(ps, keys, start, n)
        invariant forall x | x in visited :: exists m: nat :: m < n && Up(ps, start, m) == x
        decreases |u.index.Keys - visited|
      {
        if pid in visited {
          ghost var m: nat :| m < n && Up(ps, start, m) == pid;
          CycleHasNone(ps, keys, start, m, n);
          return 0;
        }
        if pid in nodeOf {
          FoundAt(ps, keys, start, n);
          return pid;
        }
        if pid in parentCache {
          NearestFromAbove(ps, keys, start, n, parentCache[pid]);
          return parentCache[pid];
        }
        if pid !in u.index {
          EndsAt(ps, keys, start, n);
          return 0;
        }
        assert pid in u.index.Keys - visited;
        visited := visited + {pid};
        StepUp(u, keys, start, n);
        pid, n := u.records[u.index[pid]].parentId, n + 1;
      }
      StopsAt(ps, keys, start, n);
      result := 0;
    }

    method AddGraphNode(rec: Record)
      modifies `nodes, `nodeOf, `nextNodeId
      ensures rec.id in old(nodeOf) ==> nodeOf == old(nodeOf) && nodes == old(nodes) && nextNodeId == old(nextNodeId)
      ensures rec.id !in old(nodeOf) ==>
        && nodes == old(nodes) + [GraphNode(old(nextNodeId), rec.id, rec.name)] && nextNodeId == old(nextNodeId) + 1
        && nodeOf == WithNode(old(nodeOf), rec, old(nextNodeId))
      ensures rec.id !in old(nodeOf) ==> forall id ::
        && (id in nodeOf <==> id in old(nodeOf) || Claims(rec, id))
        && (id in nodeOf ==> nodeOf[id] == if Claims(rec, id) then old(nextNodeId) else old(nodeOf)[id])
      ensures rec.id in nodeOf && (old(OneNodePerId()) ==> OneNodePerId())
    {
      if rec.id in nodeOf {
        return;
      }
      var id := nextNodeId;
      nextNodeId := nextNodeId + 1;
      nodeOf := nodeOf[rec.id := id];
      if rec.originalId != 0 && rec.originalId != rec.id {
        nodeOf := nodeOf[rec.originalId := id];
      }
      nodes := nodes + [GraphNode(id, rec.id, rec.name)];
    }

    /** No two nodes are made from one id. */
    ghost predicate OneNodePerId()
      reads `nodes, `nodeOf
    {
      && (forall i, j | 0 <= i < j < |nodes| :: nodes[i].irId != nodes[j].irId)
      && forall i | 0 <= i < |nodes| :: nodes[i].irId in nodeOf
    }

    /** The nodes are those of some records, and each id leads to the last of them that claims it. */
    ghost predicate NodesAre(made: seq<Record>, first: nat)
      reads `nodes, `nodeOf
    {
      AreNodes(made, first, nodes, nodeOf)
    }

    /** Each node stands for one declaration, and is the node its id leads to. */
    ghost predicate NodesStandFor(rs: seq<Record>)
      reads `nodes, `nodeOf
    {
      forall n | n in nodes ::
        && n.irId in nodeOf && nodeOf[n.irId] == n.id
        && exists r :: r in rs && Declares(r) && r.id == n.irId && r.name == n.name
    }

    /** The nodes have consecutive ids, and every id with a node has one of them. */
    ghost predicate NodesTracked(first: nat)
      reads `nodes, `nodeOf, `nextNodeId
    {
      && nextNodeId == first + |nodes|
      && (forall i | 0 <= i < |nodes| :: nodes[i].id == first + i)
      && forall id | id in nodeOf :: first <= nodeOf[id] < first + |nodes|
    }

    method BuildSymbolGraph(u: Unit)
      requires Indexed(u)
      modifies this
      ensures NodesTracked(old(nextNodeId)) && EdgesTracked() && CacheRight(u)
      ensures NodesAre(Made(u.records), old(nextNodeId)) && OneNodePerId()
      ensures IsPlain(u) ==> Numbers(u.records, nodeOf) && NodesStandFor(u.records)
      ensures forall e :: e in addedEdges <==> exists r :: r in u.records && ContainsEdge(Parents(u), nodeOf, r, e)
      ensures forall e :: e in addedEdges <==> IsContainsEdge(u, nodeOf, e)
    {
      nodes, edges, nextEdgeId, nodeOf, parentCache, addedEdges := [], [], 1, map[], map[], {};
      hide IsContainsEdge, ContainsEdge, AreNodes, Numbers, IsPlain, Made, NodesTracked, NodesStandFor, OneNodePerId;
      CreateNodes(u);
      AddContainment(u);
    }

    /** The first pass: a node for each declaration. */
    method CreateNodes(u: Unit)
      requires Indexed(u) && nodes == [] && nodeOf == map[]
      modifies `nodes, `nodeOf, `nextNodeId
      ensures NodesTracked(old(nextNodeId))
      ensures NodesAre(Made(u.records), old(nextNodeId)) && OneNodePerId()
      ensures IsPlain(u) ==> Numbers(u.records, nodeOf) && NodesStandFor(u.records)
    {
      hide AreNodes, Made;
      NothingMade(nextNodeId);
      for i := 0 to |u.records|
        invariant nextNodeId == old(nextNodeId) + |nodes| && OneNodePerId()
        invariant NodesAre(Made(u.records[..i]), old(nextNodeId))
        invariant IsPlain(u) ==> Numbers(u.records[..i], nodeOf) && NodesStandFor(u.records[..i])
      {
        var rec := u.records[i];
        assert u.records[..i + 1] == u.records[..i] + [rec];
        ghost var before, ids := nodes, nodeOf;
        if Declares(rec) {
          AreTracked(Made(u.records[..i]), old(nextNodeId), nodes, nodeOf);
          if IsPlain(u) {
            OneMore(u, i, nodeOf, nextNodeId);
          }
          AddGraphNode(rec);
        }
        MadeOneMore(u.records[..i], rec, old(nextNodeId), before, ids, nodes, nodeOf);
      }
      assert u.records[..|u.records|] == u.records;
      AreTracked(Made(u.records), old(nextNodeId), nodes, nodeOf);
    }

    /** The second pass: an edge from the nearest enclosing node. */
    method AddContainment(u: Unit)
      requires Indexed(u) && parentCache == map[] && addedEdges == {} && EdgesTracked()
      modifies `edges, `nextEdgeId, `addedEdges, `parentCache
      ensures EdgesTracked() && CacheRight(u)
      ensures forall e :: e in addedEdges <==> exists r :: r in u.records && ContainsEdge(Parents(u), nodeOf, r, e)
      ensures forall e :: e in addedEdges <==> IsContainsEdge(u, nodeOf, e)
    {
      hide IsNearest, EdgesTracked, IsContainsEdge;
      ghost var ps := Parents(u);
      for i := 0 to |u.records|
        invariant EdgesTracked() && CacheRight(u)
        invariant forall e ::
          e in addedEdges <==> exists r :: r in u.records[..i] && ContainsEdge(ps, nodeOf, r, e)
      {
        var rec := u.records[i];
        assert u.records[..i + 1] == u.records[..i] + [rec];
        assert forall e ::
            (exists r :: r in u.records[..i + 1] && ContainsEdge(ps, nodeOf, r, e)) <==>
            (exists r :: r in u.records[..i] && ContainsEdge(ps, nodeOf, r, e)) || ContainsEdge(ps, nodeOf, rec, e) by {
          assert rec in u.records[..i + 1];
        }
        if rec.parentId != 0 && rec.id in nodeOf {
          var ancestor := FindContainingFunction(u, rec);
          ContainsOnly(ps, nodeOf, rec, ancestor);
          if ancestor != 0 && ancestor != rec.id {
            NearestHasNode(ps, nodeOf.Keys, rec.parentId, ancestor);
            if nodeOf[ancestor] != nodeOf[rec.id] {
              AddGraphEdge(Edge(nodeOf[ancestor], nodeOf[rec.id], Contains));
            }
          }
        }
      }
      assert u.records[..|u.records|] == u.records;
      forall e ensures e in addedEdges <==> IsContainsEdge(u, nodeOf, e) {
        ContainsEdgesByRecords(u, nodeOf, e);
      }
    }

    method BuildCalleeIndex(u: Unit) returns (idx: CalleeIndex)
      ensures IndexesAll(u.records, nodeOf, idx)
    {
      idx := CalleeIndex([], []);
      for i := 0 to |u.records|
        invariant IndexesAll(u.records[..i], nodeOf, idx)
      {
        hide IndexesAll;
        var rec := u.records[i];
        assert u.records[..i + 1] == u.records[..i] + [rec];
        IndexOneMore(u.records[..i], rec, nodeOf, idx);
        if rec.id in nodeOf && rec.name != "" {
          if rec.qualifiedName != "" {
            idx := idx.(byQualified := idx.byQualified + [Named(rec.qualifiedName, nodeOf[rec.id])]);
          }
          idx := idx.(byName := idx.byName + [Candidate(rec.name, rec.arity, nodeOf[rec.id])]);
        }
      }
      assert u.records[..|u.records|] == u.records;
    }

    /** Calls resolved against the declarations of the same unit. */
    method BuildCallGraph(u: Unit)
      requires Indexed(u) && CacheRight(u)
      modifies `edges, `nextEdgeId, `addedEdges, `parentCache
      ensures EdgesTracked() && CacheRight(u)
      ensures IsLocalCallGraph(u, nodeOf, addedEdges)
      ensures forall e :: e in addedEdges <==> IsCallEdge(u, nodeOf, e)
    {
      var idx := BuildCalleeIndex(u);
      BuildCallGraphImpl(u, idx);
      hide IsCallEdge, CallEdge, IndexesAll;
      forall e ensures e in addedEdges <==> IsCallEdge(u, nodeOf, e) {
        CallEdgesByRecords(u, nodeOf, idx, e);
      }
    }

    method BuildCallGraphImpl(u: Unit, idx: CalleeIndex)
      requires Indexed(u) && CacheRight(u)
      modifies `edges, `nextEdgeId, `addedEdges, `parentCache
      ensures EdgesTracked() && CacheRight(u)
      ensures forall e :: e in addedEdges <==> exists r :: r in u.records && CallEdge(Parents(u), nodeOf, idx, r, e)
      ensures forall e :: e in addedEdges <==> IsResolvedEdge(u, nodeOf, idx, e)
    {
      edges, nextEdgeId, addedEdges := [], 1, {};
      assert EdgesTracked();
      hide IsNearest, EdgesTracked, Resolves, IsResolvedEdge;
      ghost var ps := Parents(u);
      for i := 0 to |u.records|
        invariant EdgesTracked() && CacheRight(u)
        invariant forall e ::
          e in addedEdges <==> exists r :: r in u.records[..i] && CallEdge(ps, nodeOf, idx, r, e)
      {
        var rec := u.records[i];
        assert u.records[..i + 1] == u.records[..i] + [rec];
        if rec.kind == CallExpr && HasSignal(rec) {
          var caller := FindContainingFunction(u, rec);
          CallsOnly(ps, nodeOf, idx, rec, caller);
          if caller in nodeOf {
            ResolveCallEdges(rec, nodeOf[caller], idx);
          }
        }
      }
      assert u.records[..|u.records|] == u.records;
      forall e ensures e in addedEdges <==> IsResolvedEdge(u, nodeOf, idx, e) {
        CallEdgesByIndex(u, nodeOf, idx, e);
      }
    }

    /** The edges of one call: to every node it resolves to, and to no other. */
    method ResolveCallEdges(call: Record, caller: nat, idx: CalleeIndex)
      requires EdgesTracked()
      modifies `edges, `nextEdgeId, `addedEdges
      ensures EdgesTracked()
      ensures forall e :: e in addedEdges <==>
        e in old(addedEdges) || (e.src == caller && e.kind == Calls && Resolves(nodeOf, idx, call, caller, e.tgt))
    {
      hide EdgesTracked;
      if call.refOriginalId != 0 {
        if call.refOriginalId in nodeOf && nodeOf[call.refOriginalId] != caller {
          AddGraphEdge(Edge(caller, nodeOf[call.refOriginalId], Calls));
        }
        return;
      }
      if call.qualifiedName != "" {
        var matched := AddQualified(call, caller, idx);
        if matched {
          return;
        }
      }
      if call.name == "" {
        return;
      }
      ResolveByName(call, caller, idx);
    }

    method AddQualified(call: Record, caller: nat, idx: CalleeIndex) returns (matched: bool)
      requires EdgesTracked() && call.qualifiedName != ""
      modifies `edges, `nextEdgeId, `addedEdges
      ensures EdgesTracked() && (matched <==> exists q :: QualifiedHit(idx, call, caller, q))
      ensures forall e :: e in addedEdges <==>
        e in old(addedEdges) || (e.src == caller && e.kind == Calls && QualifiedHit(idx, call, caller, e.tgt))
    {
      hide EdgesTracked;
      matched := false;
      var entries := idx.byQualified;
      for i := 0 to |entries|
        invariant EdgesTracked()
        invariant matched <==> exists q :: QualifiedHit(idx.(byQualified := entries[..i]), call, caller, q)
        invariant forall e :: e in addedEdges <==>
          e in old(addedEdges)
          || (e.src == caller && e.kind == Calls
              && QualifiedHit(idx.(byQualified := entries[..i]), call, caller, e.tgt))
      {
        var it := entries[i];
        assert entries[..i + 1] == entries[..i] + [it];
        assert forall q :: QualifiedHit(idx.(byQualified := entries[..i + 1]), call, caller, q) <==>
            QualifiedHit(idx.(byQualified := entries[..i]), call, caller, q)
            || (it == Named(call.qualifiedName, q) && q != caller);
        if it.qualified == call.qualifiedName && it.node != caller {
          AddGraphEdge(Edge(caller, it.node, Calls));
          matched := true;
        }
      }
      assert entries[..|entries|] == entries && idx.(byQualified := entries) == idx;
    }

    method ResolveByName(call: Record, caller: nat, idx: CalleeIndex)
      requires EdgesTracked() && call.name != ""
      modifies `edges, `nextEdgeId, `addedEdges
      ensures EdgesTracked()
      ensures forall e :: e in addedEdges <==>
        e in old(addedEdges) || (e.src == caller && e.kind == Calls && ByName(idx, call, caller, e.tgt))
    {
      hide EdgesTracked;
      if call.arity != 0 {
        var exact := Matches(call, caller, idx, call.arity);
        var unknown := Matches(call, caller, idx, 0);
        var chosen := if exact == [] then unknown else exact;
        assert exact != [] ==> exact[0] in exact;
        AddAll(caller, chosen);
      } else {
        var all: seq<nat> := [];
        for i := 0 to |idx.byName|
          invariant forall t :: t in all <==>
            exists a :: NameHit(idx.(byName := idx.byName[..i]), call, caller, a, t)
        {
          var it := idx.byName[i];
          assert idx.byName[..i + 1] == idx.byName[..i] + [it];
          assert forall a, t :: NameHit(idx.(byName := idx.byName[..i + 1]), call, caller, a, t) <==>
              NameHit(idx.(byName := idx.byName[..i]), call, caller, a, t)
              || (it == Candidate(call.name, a, t) && t != caller);
          if it.name == call.name && it.node != caller {
            all := all + [it.node];
          }
        }
        assert idx.byName[..|idx.byName|] == idx.byName && idx.(byName := idx.byName) == idx;
        AddAll(caller, all);
      }
    }

    /** The candidates of the call's name with one arity, without the caller. */
    method Matches(call: Record, caller: nat, idx: CalleeIndex, arity: int) returns (found: seq<nat>)
      requires call.name != ""
      ensures forall t :: t in found <==> NameHit(idx, call, caller, arity, t)
    {
      found := [];
      for i := 0 to |idx.byName|
        invariant forall t :: t in found <==>
          NameHit(idx.(byName := idx.byName[..i]), call, caller, arity, t)
      {
        var it := idx.byName[i];
        assert idx.byName[..i + 1] == idx.byName[..i] + [it];
        if it.name == call.name && it.node != caller && it.arity == arity {
          found := found + [it.node];
        }
      }
      assert idx.byName[..|idx.byName|] == idx.byName && idx.(byName := idx.byName) == idx;
    }

    method AddAll(caller: nat, targets: seq<nat>)
      requires EdgesTracked()
      modifies `edges, `nextEdgeId, `addedEdges
      ensures EdgesTracked()
      ensures forall e :: e in addedEdges <==>
        e in old(addedEdges) || (e.src == caller && e.kind == Calls && e.tgt in targets)
    {
      hide EdgesTracked;
      for i := 0 to |targets|
        invariant EdgesTracked()
        invariant forall e :: e in addedEdges <==>
          e in old(addedEdges) || (e.src == caller && e.kind == Calls && e.tgt in targets[..i])
      {
        AddGraphEdge(Edge(caller, targets[i], Calls));
        assert targets[..i + 1] == targets[..i] + [targets[i]];
      }
      assert targets[..|targets|] == targets;
    }
  }

  lemma IndexOneMore(rs: seq<Record>, rec: Record, nodes: map<nat, nat>, idx: CalleeIndex)
    requires IndexesAll(rs, nodes, idx)
    ensures var named := rec.id in nodes && rec.name != "";
      IndexesAll(rs + [rec], nodes, CalleeIndex(
        if named && rec.qualifiedName != "" then idx.byQualified + [Named(rec.qualifiedName, nodes[rec.id])]
        else idx.byQualified,
        if named then idx.byName + [Candidate(rec.name, rec.arity, nodes[rec.id])] else idx.byName))
  {
    assert forall c :: (exists r :: r in rs + [rec] && Enters(r, nodes, c)) <==>
      (exists r :: r in rs && Enters(r, nodes, c)) || Enters(rec, nodes, c) by {
      assert rec in rs + [rec];
    }
    assert forall n :: (exists r :: r in rs + [rec] && EntersQualified(r, nodes, n)) <==>
      (exists r :: r in rs && EntersQualified(r, nodes, n)) || EntersQualified(rec, nodes, n) by {
      assert rec in rs + [rec];
    }
  }

  /** The call edges of a unit under some index of its own declarations. */
  ghost predicate IsLocalCallGraph(u: Unit, nodes: map<nat, nat>, edges: set<Edge>)
    requires Indexed(u)
  {
    exists idx |
      IndexesAll(u.records, nodes, idx) ::
      forall e :: e in edges <==> exists r :: r in u.records && CallEdge(Parents(u), nodes, idx, r, e)
  }

  // ---- The end of a walk ----

  lemma NearestOfZero(ps: map<nat, nat>, keys: set<nat>)
    ensures IsNearest(ps, keys, 0, 0)
  {
    forall n: nat ensures Up(ps, 0, n) == 0 {
      ZeroStays(ps, 0, 0, n);
    }
  }

  lemma FoundAt(ps: map<nat, nat>, keys: set<nat>, start: nat, n: nat)
    requires NoneBefore(ps, keys, start, n) && Up(ps, start, n) in keys && Up(ps, start, n) != 0
    ensures IsNearest(ps, keys, start, Up(ps, start, n))
  {
  }

  lemma StopsAt(ps: map<nat, nat>, keys: set<nat>, start: nat, n: nat)
    requires NoneBefore(ps, keys, start, n) && Up(ps, start, n) == 0
    ensures IsNearest(ps, keys, start, 0)
  {
    forall m: nat ensures Up(ps, start, m) == 0 || Up(ps, start, m) !in keys {
      if m >= n {
        ZeroStays(ps, start, n, m);
      }
    }
  }

  lemma EndsAt(ps: map<nat, nat>, keys: set<nat>, start: nat, n: nat)
    requires NoneBefore(ps, keys, start, n) && Up(ps, start, n) !in keys && Up(ps, start, n) !in ps
    ensures IsNearest(ps, keys, start, 0)
  {
    assert Up(ps, start, n + 1) == Step(ps, Up(ps, start, n));
    StopsAt(ps, keys, start, n + 1);
  }

  lemma StartOfWalk(ps: map<nat, nat>, keys: set<nat>, start: nat)
    ensures Up(ps, start, 0) == start && NoneBefore(ps, keys, start, 0)
  {
  }

  lemma StepUp(u: Unit, keys: set<nat>, start: nat, n: nat)
    requires Indexed(u) && NoneBefore(Parents(u), keys, start, n)
    requires var q := Up(Parents(u), start, n); q != 0 && q in u.index && q !in keys
    ensures Up(Parents(u), start, n + 1) == u.records[u.index[Up(Parents(u), start, n)]].parentId
    ensures NoneBefore(Parents(u), keys, start, n + 1)
  {
  }

  lemma NearestHasNode(ps: map<nat, nat>, keys: set<nat>, id: nat, r: nat)
    requires IsNearest(ps, keys, id, r) && r != 0
    ensures r in keys
  {
  }

  // ---- One record's edges, once its nearest node is known ----

  lemma ContainsOnly(ps: map<nat, nat>, nodes: map<nat, nat>, r: Record, a: nat)
    requires r.id in nodes && IsNearest(ps, nodes.Keys, r.parentId, a)
    ensures forall e :: ContainsEdge(ps, nodes, r, e) <==>
      && r.parentId != 0 && a != 0 && a != r.id && a in nodes && nodes[a] != nodes[r.id]
      && e == Edge(nodes[a], nodes[r.id], Contains)
  {
    forall b | IsNearest(ps, nodes.Keys, r.parentId, b) ensures a == b {
      NearestIsUnique(ps, nodes.Keys, r.parentId, a, b);
    }
    hide Up, NoneBefore;
  }

  lemma CallsOnly(ps: map<nat, nat>, nodes: map<nat, nat>, idx: CalleeIndex, r: Record, a: nat)
    requires r.kind == CallExpr && HasSignal(r) && IsNearest(ps, nodes.Keys, r.parentId, a)
    ensures forall e :: CallEdge(ps, nodes, idx, r, e) <==>
      a in nodes && e.kind == Calls && e.src == nodes[a] && Resolves(nodes, idx, r, nodes[a], e.tgt)
  {
    hide Resolves;
    forall b | IsNearest(ps, nodes.Keys, r.parentId, b) ensures a == b {
      NearestIsUnique(ps, nodes.Keys, r.parentId, a, b);
    }
    hide IsNearest;
  }

  // ---- Which records get a node ----

  /** A node made from the record is found under this id. */
  predicate Claims(r: Record, id: nat) { r.id == id || (r.originalId != 0 && r.originalId == id) }

  predicate ClaimsAt(made: seq<Record>, id: nat, i: int) { 0 <= i < |made| && Claims(made[i], id) }

  predicate ClaimsLast(made: seq<Record>, id: nat, i: int) {
    ClaimsAt(made, id, i) && forall j | i < j < |made| :: !Claims(made[j], id)
  }

  ghost predicate Claimed(made: seq<Record>, id: nat) { exists i :: ClaimsAt(made, id, i) }

  /** The declarations whose id was claimed by none of those before. */
  ghost function Made(rs: seq<Record>): seq<Record> {
    if rs == [] then []
    else
      var before := Made(rs[..|rs| - 1]);
      var r := rs[|rs| - 1];
      if Declares(r) && !Claimed(before, r.id) then before + [r] else before
  }

  /** The nodes of some records, and the last record that claims an id for each id. */
  ghost predicate AreNodes(made: seq<Record>, first: nat, nodes: seq<GraphNode>, nodeOf: map<nat, nat>) {
    && |nodes| == |made|
    && (forall i | 0 <= i < |made| :: nodes[i] == GraphNode(first + i, made[i].id, made[i].name))
    && (forall id :: id in nodeOf <==> Claimed(made, id))
    && forall id | id in nodeOf :: ClaimsLast(made, id, nodeOf[id] - first)
  }

  lemma NothingMade(first: nat)
    ensures Made([]) == [] && AreNodes([], first, [], map[])
  {
  }

  lemma AreTracked(made: seq<Record>, first: nat, nodes: seq<GraphNode>, nodeOf: map<nat, nat>)
    requires AreNodes(made, first, nodes, nodeOf)
    ensures forall i | 0 <= i < |nodes| :: nodes[i].id == first + i
    ensures forall id | id in nodeOf :: first <= nodeOf[id] < first + |nodes|
  {
    hide Claimed, Claims;
  }

  lemma ClaimsOneMore(made: seq<Record>, r: Record, id: nat)
    ensures Claimed(made + [r], id) <==> Claimed(made, id) || Claims(r, id)
    ensures Claims(r, id) ==> ClaimsLast(made + [r], id, |made|)
    ensures forall i :: ClaimsLast(made, id, i) && !Claims(r, id) ==> ClaimsLast(made + [r], id, i)
  {
    if i :| ClaimsAt(made, id, i) {
      assert ClaimsAt(made + [r], id, i);
    }
    if Claims(r, id) {
      assert ClaimsAt(made + [r], id, |made|);
    }
    if i :| ClaimsAt(made + [r], id, i) {
      assert i < |made| ==> ClaimsAt(made, id, i);
    }
  }

  /** One more node, and what it does to the ids. */
  ghost predicate Joins(r: Record, node: nat, nodes: seq<GraphNode>, ids: map<nat, nat>,
                        nodes': seq<GraphNode>, ids': map<nat, nat>)
  {
    && nodes' == nodes + [GraphNode(node, r.id, r.name)]
    && (forall id :: id in ids' <==> id in ids || Claims(r, id))
    && forall id | id in ids' :: ids'[id] == if Claims(r, id) then node else ids[id]
  }

  /** What one record does to the nodes. */
  lemma MadeOneMore(rs: seq<Record>, r: Record, first: nat, nodes: seq<GraphNode>, ids: map<nat, nat>,
                    nodes': seq<GraphNode>, ids': map<nat, nat>)
    requires AreNodes(Made(rs), first, nodes, ids)
    requires if Declares(r) && r.id !in ids then Joins(r, first + |nodes|, nodes, ids, nodes', ids')
      else nodes' == nodes && ids' == ids
    ensures AreNodes(Made(rs + [r]), first, nodes', ids')
  {
    hide Claimed, ClaimsLast, Claims, Joins;
    assert (rs + [r])[..|rs|] == rs;
    assert r.id in ids <==> Claimed(Made(rs), r.id);
    hide AreNodes;
    if Declares(r) && r.id !in ids {
      JoinedNodes(Made(rs), r, first, nodes, ids, nodes', ids');
    }
  }

  lemma JoinedNodes(made: seq<Record>, r: Record, first: nat, nodes: seq<GraphNode>, ids: map<nat, nat>,
                    nodes': seq<GraphNode>, ids': map<nat, nat>)
    requires AreNodes(made, first, nodes, ids) && Joins(r, first + |nodes|, nodes, ids, nodes', ids')
    ensures AreNodes(made + [r], first, nodes', ids')
  {
    hide Claimed, ClaimsLast, Claims;
    forall id
      ensures id in ids' <==> Claimed(made + [r], id)
      ensures id in ids' ==> ClaimsLast(made + [r], id, ids'[id] - first)
    {
      ClaimsOneMore(made, r, id);
      if id in ids' && !Claims(r, id) {
        assert ClaimsLast(made, id, ids[id] - first);
      }
    }
  }

  /** Every declaration's id is claimed, and no node is made for an id claimed before. */
  lemma {:induction false} MadeLaws(rs: seq<Record>)
    ensures forall r | r in rs && Declares(r) :: Claimed(Made(rs), r.id)
    ensures forall r | r in Made(rs) :: r in rs && Declares(r)
    ensures forall i, j | 0 <= i < j < |Made(rs)| :: !Claims(Made(rs)[i], Made(rs)[j].id)
  {
    hide Claims;
    if rs != [] {
      var front, last := rs[..|rs| - 1], rs[|rs| - 1];
      MadeLaws(front);
      var made := Made(front);
      assert rs == front + [last];
      forall r | r in rs && Declares(r) ensures Claimed(Made(rs), r.id) {
        ClaimsOneMore(made, last, r.id);
        ClaimedItself(last);
      }
      forall i, j | 0 <= i < j < |Made(rs)| ensures !Claims(Made(rs)[i], Made(rs)[j].id) {
        assert ClaimsAt(made, Made(rs)[j].id, i) <==> Claims(Made(rs)[i], Made(rs)[j].id);
      }
    }
  }

  lemma ClaimedItself(r: Record)
    ensures Claims(r, r.id)
  {
  }

  /** Of two declarations with one id the first gets the node, so there the order of records is visible. */
  lemma FirstOfTwins(a: Record, b: Record)
    requires Declares(a) && Declares(b) && a.id == b.id
    ensures Made([a, b]) == [a] && Made([b, a]) == [b]
  {
    assert [a, b][..1] == [a] && [b, a][..1] == [b] && [a][..0] == [] && [b][..0] == [];
    assert Made([a]) == [a] && Made([b]) == [b];
    assert ClaimsAt([a], b.id, 0) && ClaimsAt([b], a.id, 0);
  }

  // ---- Plain units: what the visitors build ----

  /** Ids are not zero and distinct, no id is an alias, and the index finds every record. */
  ghost predicate IsPlain(u: Unit) {
    && Indexed(u)
    && (forall i | 0 <= i < |u.records| :: u.records[i].id != 0 && u.records[i].originalId in {0, u.records[i].id})
    && (forall i | 0 <= i < |u.records| :: u.records[i].id in u.index && u.index[u.records[i].id] == i)
    && forall id | id in u.index :: u.records[u.index[id]].id == id
  }

  /** The ids with a node are the declarations' ids, each with its own node. */
  ghost predicate Numbers(rs: seq<Record>, nodes: map<nat, nat>) {
    && (forall id :: id in nodes <==> exists r :: r in rs && Declares(r) && r.id == id)
    && forall a, b | a in nodes && b in nodes && nodes[a] == nodes[b] :: a == b
  }

  function WithNode(nodes: map<nat, nat>, rec: Record, id: nat): map<nat, nat> {
    var m := nodes[rec.id := id];
    if rec.originalId != 0 && rec.originalId != rec.id then m[rec.originalId := id] else m
  }

  lemma OneMore(u: Unit, i: nat, nodes: map<nat, nat>, next: nat)
    requires IsPlain(u) && i < |u.records| && Declares(u.records[i]) && Numbers(u.records[..i], nodes)
    requires forall id | id in nodes :: nodes[id] < next
    ensures u.records[i].id !in nodes
    ensures Numbers(u.records[..i + 1], WithNode(nodes, u.records[i], next))
  {
    var rec := u.records[i];
    assert u.records[..i + 1] == u.records[..i] + [rec];
    forall r | r in u.records[..i] ensures r.id != rec.id {
      var j :| 0 <= j < i && u.records[j] == r;
    }
  }
}
