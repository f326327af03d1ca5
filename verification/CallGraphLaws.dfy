/**
 * What the finished graphs promise: edges join nodes made from declarations, and read back
 * as pairs of records they depend only on which records a unit holds, not on their order
 * nor on the numbers the nodes were given.
 */
module CallGraphLaws {
  import opened GraphBuilder
  import opened RecordGraph

  /** Two numberings that give nodes to the same ids, and one node to the same ones. */
  ghost predicate SameKernel(nodes: map<nat, nat>, nodes': map<nat, nat>) {
    && nodes.Keys == nodes'.Keys
    && forall a, b | a in nodes && b in nodes :: nodes[a] == nodes[b] <==> nodes'[a] == nodes'[b]
  }

  /** Two indices of the same records under two numberings. */
  ghost predicate Alike(nodes: map<nat, nat>, idx: CalleeIndex, nodes': map<nat, nat>, idx': CalleeIndex)
    requires nodes.Keys == nodes'.Keys
  {
    && (forall name, arity, b | b in nodes ::
          Candidate(name, arity, nodes[b]) in idx.byName <==> Candidate(name, arity, nodes'[b]) in idx'.byName)
    && (forall q, b | b in nodes ::
          Named(q, nodes[b]) in idx.byQualified <==> Named(q, nodes'[b]) in idx'.byQualified)
    && PointsTo(idx, nodes) && PointsTo(idx', nodes')
  }

  /** Every entry leads to a node. */
  ghost predicate PointsTo(idx: CalleeIndex, nodes: map<nat, nat>) {
    && (forall c | c in idx.byName :: c.node in nodes.Values)
    && forall n | n in idx.byQualified :: n.node in nodes.Values
  }

  lemma IndexPointsTo(rs: seq<Record>, nodes: map<nat, nat>, idx: CalleeIndex)
    requires IndexesAll(rs, nodes, idx)
    ensures PointsTo(idx, nodes)
  {
    forall c | c in idx.byName ensures c.node in nodes.Values {
      var r :| r in rs && Enters(r, nodes, c);
    }
    forall n | n in idx.byQualified ensures n.node in nodes.Values {
      var r :| r in rs && EntersQualified(r, nodes, n);
    }
  }

  lemma IndicesAreAlike(rs: seq<Record>, nodes: map<nat, nat>, idx: CalleeIndex,
                        rs': seq<Record>, nodes': map<nat, nat>, idx': CalleeIndex)
    requires SameKernel(nodes, nodes') && forall r: Record :: r in rs <==> r in rs'
    requires IndexesAll(rs, nodes, idx) && IndexesAll(rs', nodes', idx')
    ensures Alike(nodes, idx, nodes', idx')
  {
    IndexPointsTo(rs, nodes, idx);
    IndexPointsTo(rs', nodes', idx');
    forall name, arity, b | b in nodes
      ensures Candidate(name, arity, nodes[b]) in idx.byName <==> Candidate(name, arity, nodes'[b]) in idx'.byName
    {
      forall r
        ensures Enters(r, nodes, Candidate(name, arity, nodes[b])) <==>
          Enters(r, nodes', Candidate(name, arity, nodes'[b]))
      {
      }
    }
    forall q, b | b in nodes
      ensures Named(q, nodes[b]) in idx.byQualified <==> Named(q, nodes'[b]) in idx'.byQualified
    {
      forall r
        ensures EntersQualified(r, nodes, Named(q, nodes[b])) <==> EntersQualified(r, nodes', Named(q, nodes'[b]))
      {
      }
    }
  }

  /** What is hit under one numbering is hit under the other. */
  lemma HitsRenumber(nodes: map<nat, nat>, idx: CalleeIndex, nodes': map<nat, nat>, idx': CalleeIndex,
                     call: Record, a: nat)
    requires SameKernel(nodes, nodes') && Alike(nodes, idx, nodes', idx') && a in nodes
    ensures forall b | b in nodes ::
      QualifiedHit(idx, call, nodes[a], nodes[b]) <==> QualifiedHit(idx', call, nodes'[a], nodes'[b])
    ensures forall arity, b | b in nodes ::
      NameHit(idx, call, nodes[a], arity, nodes[b]) <==> NameHit(idx', call, nodes'[a], arity, nodes'[b])
    ensures (exists t :: QualifiedHit(idx, call, nodes[a], t)) ==> exists t :: QualifiedHit(idx', call, nodes'[a], t)
    ensures forall arity :: SomeNameHit(idx, call, nodes[a], arity) ==> SomeNameHit(idx', call, nodes'[a], arity)
  {
    forall t | QualifiedHit(idx, call, nodes[a], t) ensures exists t' :: QualifiedHit(idx', call, nodes'[a], t') {
      assert Named(call.qualifiedName, t).node in nodes.Values;
      var b :| b in nodes && nodes[b] == t;
      assert QualifiedHit(idx', call, nodes'[a], nodes'[b]);
    }
    forall arity, t | NameHit(idx, call, nodes[a], arity, t) ensures SomeNameHit(idx', call, nodes'[a], arity) {
      assert Candidate(call.name, arity, t).node in nodes.Values;
      var b :| b in nodes && nodes[b] == t;
      assert NameHit(idx', call, nodes'[a], arity, nodes'[b]);
    }
  }

  /** Resolution does not see how nodes are numbered. */
  lemma ResolutionRenumbers(nodes: map<nat, nat>, idx: CalleeIndex, nodes': map<nat, nat>, idx': CalleeIndex,
                            call: Record, a: nat, b: nat)
    requires SameKernel(nodes, nodes') && Alike(nodes, idx, nodes', idx') && a in nodes && b in nodes
    ensures Resolves(nodes, idx, call, nodes[a], nodes[b]) <==> Resolves(nodes', idx', call, nodes'[a], nodes'[b])
  {
    hide QualifiedHit, NameHit;
    HitsRenumber(nodes, idx, nodes', idx', call, a);
    HitsRenumber(nodes', idx', nodes, idx, call, a);
  }

  /** A call resolved against a unit's own declarations ends at one of their nodes. */
  lemma ResolvesToANode(nodes: map<nat, nat>, idx: CalleeIndex, call: Record, caller: nat, t: nat)
    requires PointsTo(idx, nodes) && Resolves(nodes, idx, call, caller, t)
    ensures t in nodes.Values
  {
    if call.refOriginalId == 0 {
      if QualifiedHit(idx, call, caller, t) {
        assert Named(call.qualifiedName, t).node in nodes.Values;
      } else {
        NoArityClash(nodes, idx, call, caller, t);
        var a :| Candidate(call.name, a, t) in idx.byName;
        assert Candidate(call.name, a, t).node in nodes.Values;
      }
    }
  }

  // ---- Read back as pairs of records ----

  lemma EdgeRenumbers(parents: map<nat, nat>, nodes: map<nat, nat>, idx: CalleeIndex,
                      nodes': map<nat, nat>, idx': CalleeIndex, r: Record, a: nat, b: nat)
    requires SameKernel(nodes, nodes') && Alike(nodes, idx, nodes', idx') && a in nodes && b in nodes
    requires CallEdge(parents, nodes, idx, r, Edge(nodes[a], nodes[b], Calls))
    ensures CallEdge(parents, nodes', idx', r, Edge(nodes'[a], nodes'[b], Calls))
  {
    hide IsNearest, Resolves, Alike;
    var c :| IsNearest(parents, nodes.Keys, r.parentId, c) && c in nodes && nodes[a] == nodes[c]
      && Resolves(nodes, idx, r, nodes[c], nodes[b]);
    ResolutionRenumbers(nodes, idx, nodes', idx', r, c, b);
  }

  /** The two units hold the same records, in whatever order. */
  ghost predicate SameRecords(u: Unit, u': Unit) { forall r: Record :: r in u.records <==> r in u'.records }

  /**
   * Whatever the units are like: if they hold the same records and the same parent links, and
   * the same ids share a node, then their call graphs are the same but for the numbering.
   */
  lemma SameCallGraph(u: Unit, nodes: map<nat, nat>, edges: set<Edge>,
                      u': Unit, nodes': map<nat, nat>, edges': set<Edge>, a: nat, b: nat)
    requires Indexed(u) && Indexed(u') && SameRecords(u, u') && Parents(u) == Parents(u') && SameKernel(nodes, nodes')
    requires IsLocalCallGraph(u, nodes, edges) && IsLocalCallGraph(u', nodes', edges')
    requires a in nodes && b in nodes
    ensures Edge(nodes[a], nodes[b], Calls) in edges <==> Edge(nodes'[a], nodes'[b], Calls) in edges'
  {
    hide CallEdge, IndexesAll, Alike;
    var idx :| IndexesAll(u.records, nodes, idx) &&
      forall e :: e in edges <==> exists r :: r in u.records && CallEdge(Parents(u), nodes, idx, r, e);
    var idx' :| IndexesAll(u'.records, nodes', idx') &&
      forall e :: e in edges' <==> exists r :: r in u'.records && CallEdge(Parents(u'), nodes', idx', r, e);
    IndicesAreAlike(u.records, nodes, idx, u'.records, nodes', idx');
    IndicesAreAlike(u'.records, nodes', idx', u.records, nodes, idx);
    forall r: Record
      ensures CallEdge(Parents(u), nodes, idx, r, Edge(nodes[a], nodes[b], Calls)) <==>
        CallEdge(Parents(u), nodes', idx', r, Edge(nodes'[a], nodes'[b], Calls))
    {
      if CallEdge(Parents(u), nodes, idx, r, Edge(nodes[a], nodes[b], Calls)) {
        EdgeRenumbers(Parents(u), nodes, idx, nodes', idx', r, a, b);
      }
      if CallEdge(Parents(u), nodes', idx', r, Edge(nodes'[a], nodes'[b], Calls)) {
        EdgeRenumbers(Parents(u), nodes', idx', nodes, idx, r, a, b);
      }
    }
  }

  // ---- When the same ids share a node ----

  /** No id is claimed by two different declarations; aliases and repeated records are allowed. */
  ghost predicate ClaimedOnce(rs: seq<Record>) {
    forall r, r', id | r in rs && r' in rs && Declares(r) && Declares(r') && Claims(r, id) && Claims(r', id) :: r == r'
  }

  ghost predicate ClaimedIn(rs: seq<Record>, r: Record, id: nat) { r in rs && Declares(r) && Claims(r, id) }

  ghost predicate OneClaims(rs: seq<Record>, a: nat, b: nat) { exists r :: ClaimedIn(rs, r, a) && ClaimedIn(rs, r, b) }

  /** The record whose node an id leads to. */
  lemma NodeClaims(rs: seq<Record>, first: nat, ns: seq<GraphNode>, nodes: map<nat, nat>, id: nat)
    requires AreNodes(Made(rs), first, ns, nodes) && id in nodes
    ensures 0 <= nodes[id] - first < |Made(rs)| && ClaimedIn(rs, Made(rs)[nodes[id] - first], id)
  {
    hide Made, Claims;
    MadeLaws(rs);
    assert ClaimsLast(Made(rs), id, nodes[id] - first);
  }

  /** A declaration has a node, and its ids lead there. */
  lemma ClaimedHasNode(rs: seq<Record>, first: nat, ns: seq<GraphNode>, nodes: map<nat, nat>, r: Record, id: nat)
    requires ClaimedOnce(rs) && AreNodes(Made(rs), first, ns, nodes) && ClaimedIn(rs, r, id)
    ensures id in nodes && 0 <= nodes[id] - first < |Made(rs)| && Made(rs)[nodes[id] - first] == r
  {
    hide Made, Claims;
    MadeLaws(rs);
    ClaimedItself(r);
    var made := Made(rs);
    var i :| ClaimsAt(made, r.id, i);
    assert made[i] in made && made[i] == r;
    assert ClaimsAt(made, id, i);
    NodeClaims(rs, first, ns, nodes, id);
  }

  /** Then an id has a node if a declaration claims it, and two ids share one if one declaration claims both. */
  lemma NodesByClaims(rs: seq<Record>, first: nat, ns: seq<GraphNode>, nodes: map<nat, nat>, a: nat, b: nat)
    requires ClaimedOnce(rs) && AreNodes(Made(rs), first, ns, nodes)
    ensures a in nodes <==> OneClaims(rs, a, a)
    ensures a in nodes && b in nodes ==> (nodes[a] == nodes[b] <==> OneClaims(rs, a, b))
  {
    hide AreNodes, Made, Claims, ClaimedOnce;
    if a in nodes {
      NodeClaims(rs, first, ns, nodes, a);
      if b in nodes {
        NodeClaims(rs, first, ns, nodes, b);
      }
    }
    if r :| ClaimedIn(rs, r, a) {
      ClaimedHasNode(rs, first, ns, nodes, r, a);
    }
    if r :| ClaimedIn(rs, r, a) && ClaimedIn(rs, r, b) {
      ClaimedHasNode(rs, first, ns, nodes, r, a);
      ClaimedHasNode(rs, first, ns, nodes, r, b);
      assert Made(rs)[nodes[a] - first] == Made(rs)[nodes[b] - first];
      MadeOnce(rs, nodes[a] - first, nodes[b] - first);
    }
  }

  lemma MadeOnce(rs: seq<Record>, i: nat, j: nat)
    requires i < |Made(rs)| && j < |Made(rs)| && Made(rs)[i] == Made(rs)[j]
    ensures i == j
  {
    hide Made, Claims;
    MadeLaws(rs);
    ClaimedItself(Made(rs)[i]);
  }

  /**
   * The call graph of a unit, read as pairs of ids, is the same for every order of its records
   * and whatever numbers the nodes get, if no id is claimed by two different declarations.
   */
  lemma OrderIsInvisibleUnlessShared(
    u: Unit, first: nat, ns: seq<GraphNode>, nodes: map<nat, nat>, edges: set<Edge>,
    u': Unit, first': nat, ns': seq<GraphNode>, nodes': map<nat, nat>, edges': set<Edge>, a: nat, b: nat)
    requires Indexed(u) && Indexed(u') && SameRecords(u, u') && Parents(u) == Parents(u') && ClaimedOnce(u.records)
    requires AreNodes(Made(u.records), first, ns, nodes) && IsLocalCallGraph(u, nodes, edges)
    requires AreNodes(Made(u'.records), first', ns', nodes') && IsLocalCallGraph(u', nodes', edges')
    ensures nodes.Keys == nodes'.Keys
    ensures a in nodes && b in nodes ==>
      (Edge(nodes[a], nodes[b], Calls) in edges <==> Edge(nodes'[a], nodes'[b], Calls) in edges')
  {
    hide AreNodes, IsLocalCallGraph, Made, ClaimedOnce;
    assert forall r, id :: ClaimedIn(u.records, r, id) <==> ClaimedIn(u'.records, r, id);
    assert ClaimedOnce(u'.records) by {
      StillClaimedOnce(u, u');
    }
    hide ClaimedIn;
    forall x ensures x in nodes <==> x in nodes' {
      NodesByClaims(u.records, first, ns, nodes, x, x);
      NodesByClaims(u'.records, first', ns', nodes', x, x);
    }
    forall x, y | x in nodes && y in nodes
      ensures nodes[x] == nodes[y] <==> nodes'[x] == nodes'[y]
    {
      NodesByClaims(u.records, first, ns, nodes, x, y);
      NodesByClaims(u'.records, first', ns', nodes', x, y);
    }
    if a in nodes && b in nodes {
      SameCallGraph(u, nodes, edges, u', nodes', edges', a, b);
    }
  }

  lemma StillClaimedOnce(u: Unit, u': Unit)
    requires SameRecords(u, u') && ClaimedOnce(u.records)
    ensures ClaimedOnce(u'.records)
  {
    hide Claims;
  }

  lemma SameParents(u: Unit, u': Unit)
    requires IsPlain(u) && IsPlain(u') && SameRecords(u, u')
    ensures Parents(u) == Parents(u')
  {
    forall id ensures id in u.index ==> id in u'.index && Parents(u)[id] == Parents(u')[id] {
      SameEntry(u, u', id);
    }
    forall id ensures id in u'.index ==> id in u.index {
      SameEntry(u', u, id);
    }
  }

  lemma SameEntry(u: Unit, u': Unit, id: nat)
    requires IsPlain(u) && IsPlain(u') && SameRecords(u, u')
    ensures id in u.index ==> id in u'.index && u.records[u.index[id]] == u'.records[u'.index[id]]
  {
    if id in u.index {
      var r := u.records[u.index[id]];
      assert r in u'.records;
      var j :| 0 <= j < |u'.records| && u'.records[j] == r;
    }
  }

  /** Units as the visitors build them have no shared ids, and their records fix the parent links as well. */
  lemma OrderIsInvisible(u: Unit, nodes: map<nat, nat>, edges: set<Edge>,
                         u': Unit, nodes': map<nat, nat>, edges': set<Edge>, a: nat, b: nat)
    requires IsPlain(u) && IsPlain(u') && SameRecords(u, u')
    requires Numbers(u.records, nodes) && IsLocalCallGraph(u, nodes, edges)
    requires Numbers(u'.records, nodes') && IsLocalCallGraph(u', nodes', edges')
    requires a in nodes && b in nodes
    ensures a in nodes' && b in nodes'
    ensures Edge(nodes[a], nodes[b], Calls) in edges <==> Edge(nodes'[a], nodes'[b], Calls) in edges'
  {
    assert SameKernel(nodes, nodes') by {
      forall id ensures id in nodes <==> id in nodes' {
      }
    }
    hide Numbers, IsLocalCallGraph, Parents, SameKernel;
    SameParents(u, u');
    SameCallGraph(u, nodes, edges, u', nodes', edges', a, b);
  }

  /** Some node made from this declaration. */
  ghost predicate IsNodeOf(rs: seq<Record>, first: nat, ns: seq<GraphNode>, node: nat, r: Record) {
    && first <= node < first + |ns| && ns[node - first] == GraphNode(node, r.id, r.name)
    && r in rs && Declares(r)
  }

  /** Every call edge joins two different nodes, both made from declarations of the unit. */
  lemma EdgesJoinDeclarations(u: Unit, first: nat, ns: seq<GraphNode>, nodes: map<nat, nat>, edges: set<Edge>, e: Edge)
    requires Indexed(u) && AreNodes(Made(u.records), first, ns, nodes)
    requires IsLocalCallGraph(u, nodes, edges) && e in edges
    ensures e.kind == Calls && e.src != e.tgt
    ensures exists r :: IsNodeOf(u.records, first, ns, e.src, r)
    ensures exists r :: IsNodeOf(u.records, first, ns, e.tgt, r)
  {
    hide AreNodes, Made;
    EdgesJoinNodes(u, nodes, edges, e);
    var a :| a in nodes && nodes[a] == e.src;
    var b :| b in nodes && nodes[b] == e.tgt;
    NodeIsDeclared(u.records, first, ns, nodes, a);
    NodeIsDeclared(u.records, first, ns, nodes, b);
  }

  lemma NodeIsDeclared(rs: seq<Record>, first: nat, ns: seq<GraphNode>, nodes: map<nat, nat>, id: nat)
    requires AreNodes(Made(rs), first, ns, nodes) && id in nodes
    ensures exists r :: IsNodeOf(rs, first, ns, nodes[id], r)
  {
    hide Made, Claims;
    NodeClaims(rs, first, ns, nodes, id);
    assert IsNodeOf(rs, first, ns, nodes[id], Made(rs)[nodes[id] - first]);
  }

  lemma EdgesJoinNodes(u: Unit, nodes: map<nat, nat>, edges: set<Edge>, e: Edge)
    requires Indexed(u) && IsLocalCallGraph(u, nodes, edges) && e in edges
    ensures e.kind == Calls && e.src != e.tgt && e.src in nodes.Values && e.tgt in nodes.Values
  {
    hide IndexesAll, Resolves, IsNearest;
    var idx :| IndexesAll(u.records, nodes, idx) &&
      forall e :: e in edges <==> exists r :: r in u.records && CallEdge(Parents(u), nodes, idx, r, e);
    var r :| r in u.records && CallEdge(Parents(u), nodes, idx, r, e);
    IndexPointsTo(u.records, nodes, idx);
    ResolvesToANode(nodes, idx, r, e.src, e.tgt);
    NoSelfCalls(Parents(u), nodes, idx, r, e);
  }
}
