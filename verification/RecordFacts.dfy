/**
 * The two graphs told of the records alone: which edges there must be and may be, without the
 * index and the layers of the resolution.
 */
module RecordFacts {
  import opened RecordGraph

  // ---- Call edges ----

  /** A named record with a node other than the caller's: whom an unresolved call may lead to. */
  ghost predicate Callable(rs: seq<Record>, nodes: map<nat, nat>, x: Record, caller: nat) {
    x in rs && x.id in nodes && x.name != "" && nodes[x.id] != caller
  }

  ghost predicate ByQualifiedName(rs: seq<Record>, nodes: map<nat, nat>, call: Record, caller: nat, x: Record) {
    Callable(rs, nodes, x, caller) && call.qualifiedName != "" && x.qualifiedName == call.qualifiedName
  }

  ghost predicate ByBareName(rs: seq<Record>, nodes: map<nat, nat>, call: Record, caller: nat, x: Record) {
    Callable(rs, nodes, x, caller) && call.name != "" && x.name == call.name
  }

  /** The arity rule among the declarations of one bare name. */
  ghost predicate ArityFits(rs: seq<Record>, nodes: map<nat, nat>, call: Record, caller: nat, x: Record) {
    call.arity != 0 ==>
      || x.arity == call.arity
      || (x.arity == 0 && forall y | ByBareName(rs, nodes, call, caller, y) :: y.arity != call.arity)
  }

  /**
   * The declaration `x` that a call without a resolved reference leads to. A known number of
   * arguments is 1 or more; 0 says that it is not known.
   */
  ghost predicate LeadsTo(rs: seq<Record>, nodes: map<nat, nat>, call: Record, caller: nat, x: Record) {
    if exists y :: ByQualifiedName(rs, nodes, call, caller, y) then ByQualifiedName(rs, nodes, call, caller, x)
    else
      ByBareName(rs, nodes, call, caller, x) && ArityFits(rs, nodes, call, caller, x)
  }

  /** Node `t` is where the call leads: its resolved reference if it has one, a declaration otherwise. */
  ghost predicate Reaches(rs: seq<Record>, nodes: map<nat, nat>, call: Record, caller: nat, t: nat) {
    if call.refOriginalId != 0 then call.refOriginalId in nodes && nodes[call.refOriginalId] == t && t != caller
    else exists x :: LeadsTo(rs, nodes, call, caller, x) && nodes[x.id] == t
  }

  lemma QualifiedHits(rs: seq<Record>, nodes: map<nat, nat>, idx: CalleeIndex, call: Record, caller: nat, t: nat)
    requires IndexesAll(rs, nodes, idx)
    ensures QualifiedHit(idx, call, caller, t) <==>
      exists x :: ByQualifiedName(rs, nodes, call, caller, x) && nodes[x.id] == t
  {
    if QualifiedHit(idx, call, caller, t) {
      var x :| x in rs && EntersQualified(x, nodes, Named(call.qualifiedName, t));
      assert ByQualifiedName(rs, nodes, call, caller, x);
    }
    if x :| ByQualifiedName(rs, nodes, call, caller, x) && nodes[x.id] == t {
      assert EntersQualified(x, nodes, Named(call.qualifiedName, t));
    }
  }

  lemma NameHits(rs: seq<Record>, nodes: map<nat, nat>, idx: CalleeIndex, call: Record, caller: nat, a: int, t: nat)
    requires IndexesAll(rs, nodes, idx)
    ensures NameHit(idx, call, caller, a, t) <==>
      exists x :: ByBareName(rs, nodes, call, caller, x) && x.arity == a && nodes[x.id] == t
  {
    if NameHit(idx, call, caller, a, t) {
      var x :| x in rs && Enters(x, nodes, Candidate(call.name, a, t));
      assert ByBareName(rs, nodes, call, caller, x);
    }
    if x :| ByBareName(rs, nodes, call, caller, x) && x.arity == a && nodes[x.id] == t {
      assert Enters(x, nodes, Candidate(call.name, a, t));
    }
  }

  lemma ByNameMeans(rs: seq<Record>, nodes: map<nat, nat>, idx: CalleeIndex, call: Record, caller: nat, t: nat)
    requires IndexesAll(rs, nodes, idx)
    ensures ByName(idx, call, caller, t) <==>
      exists x :: ByBareName(rs, nodes, call, caller, x) && ArityFits(rs, nodes, call, caller, x) && nodes[x.id] == t
  {
    forall a, n ensures NameHit(idx, call, caller, a, n) <==>
      exists x :: ByBareName(rs, nodes, call, caller, x) && x.arity == a && nodes[x.id] == n
    {
      NameHits(rs, nodes, idx, call, caller, a, n);
    }
    hide IndexesAll, NameHit;
    assert SomeNameHit(idx, call, caller, call.arity) <==>
      exists x :: ByBareName(rs, nodes, call, caller, x) && x.arity == call.arity by {
      if x :| ByBareName(rs, nodes, call, caller, x) && x.arity == call.arity {
        assert NameHit(idx, call, caller, call.arity, nodes[x.id]);
      }
    }
    hide SomeNameHit;
    if x :| ByBareName(rs, nodes, call, caller, x) && ArityFits(rs, nodes, call, caller, x) && nodes[x.id] == t {
      assert NameHit(idx, call, caller, x.arity, t);
    }
    if ByName(idx, call, caller, t) {
      var a :| NameHit(idx, call, caller, a, t) && (call.arity == 0 || a == call.arity || a == 0);
    }
  }

  /** The layered resolution through an index of the records says just that. */
  lemma ResolutionByRecords(rs: seq<Record>, nodes: map<nat, nat>, idx: CalleeIndex, call: Record, caller: nat, t: nat)
    requires IndexesAll(rs, nodes, idx)
    ensures Resolves(nodes, idx, call, caller, t) <==> Reaches(rs, nodes, call, caller, t)
  {
    forall q ensures QualifiedHit(idx, call, caller, q) <==>
      exists x :: ByQualifiedName(rs, nodes, call, caller, x) && nodes[x.id] == q
    {
      QualifiedHits(rs, nodes, idx, call, caller, q);
    }
    ByNameMeans(rs, nodes, idx, call, caller, t);
    hide IndexesAll, QualifiedHit, ByName;
    assert (exists q :: QualifiedHit(idx, call, caller, q)) <==>
        exists x :: ByQualifiedName(rs, nodes, call, caller, x) by {
      if x :| ByQualifiedName(rs, nodes, call, caller, x) {
        assert QualifiedHit(idx, call, caller, nodes[x.id]);
      }
    }
    hide ByQualifiedName, ByBareName, ArityFits;
  }

  /** An edge goes from the node around a call record to each node the call leads to, and there is no other. */
  ghost predicate IsCallEdge(u: Unit, nodes: map<nat, nat>, e: Edge)
    requires Indexed(u)
  {
    exists call, a ::
      && call in u.records && call.kind == CallExpr && IsNearest(Parents(u), nodes.Keys, call.parentId, a)
      && a in nodes && e == Edge(nodes[a], e.tgt, Calls) && Reaches(u.records, nodes, call, nodes[a], e.tgt)
  }

  /** The edges that the call records contribute through an index of the unit's own records. */
  lemma CallEdgesByRecords(u: Unit, nodes: map<nat, nat>, idx: CalleeIndex, e: Edge)
    requires Indexed(u) && IndexesAll(u.records, nodes, idx)
    ensures (exists r :: r in u.records && CallEdge(Parents(u), nodes, idx, r, e)) <==> IsCallEdge(u, nodes, e)
  {
    hide IsNearest, Resolves, Reaches, IndexesAll;
    CallEdgesByIndex(u, nodes, idx, e);
    forall call, a | a in nodes
      ensures Resolves(nodes, idx, call, nodes[a], e.tgt) <==> Reaches(u.records, nodes, call, nodes[a], e.tgt)
    {
      ResolutionByRecords(u.records, nodes, idx, call, nodes[a], e.tgt);
    }
  }

  /** The same through any index: every call record that resolves to a node contributes the edge. */
  ghost predicate IsResolvedEdge(u: Unit, nodes: map<nat, nat>, idx: CalleeIndex, e: Edge)
    requires Indexed(u)
  {
    exists call, a ::
      && call in u.records && call.kind == CallExpr && IsNearest(Parents(u), nodes.Keys, call.parentId, a)
      && a in nodes && e == Edge(nodes[a], e.tgt, Calls) && Resolves(nodes, idx, call, nodes[a], e.tgt)
  }

  lemma CallEdgesByIndex(u: Unit, nodes: map<nat, nat>, idx: CalleeIndex, e: Edge)
    requires Indexed(u)
    ensures (exists r :: r in u.records && CallEdge(Parents(u), nodes, idx, r, e)) <==> IsResolvedEdge(u, nodes, idx, e)
  {
    hide IsNearest;
    forall call: Record, caller, t | Resolves(nodes, idx, call, caller, t)
      ensures call.name != "" || call.qualifiedName != "" || call.refOriginalId != 0
    {
    }
    hide Resolves;
    if call, a :|
      && call in u.records && call.kind == CallExpr && IsNearest(Parents(u), nodes.Keys, call.parentId, a)
      && a in nodes && e == Edge(nodes[a], e.tgt, Calls) && Resolves(nodes, idx, call, nodes[a], e.tgt)
    {
      assert CallEdge(Parents(u), nodes, idx, call, e);
    }
  }

  // ---- Containment edges ----

  /** An edge goes to each record with a node from the nearest other node around it, and there is no other. */
  ghost predicate IsContainsEdge(u: Unit, nodes: map<nat, nat>, e: Edge)
    requires Indexed(u)
  {
    exists r, a ::
      && r in u.records && r.id in nodes && r.parentId != 0 && IsNearest(Parents(u), nodes.Keys, r.parentId, a)
      && a in nodes && a != 0 && a != r.id && nodes[a] != nodes[r.id] && e == Edge(nodes[a], nodes[r.id], Contains)
  }

  lemma ContainsEdgesByRecords(u: Unit, nodes: map<nat, nat>, e: Edge)
    requires Indexed(u)
    ensures (exists r :: r in u.records && ContainsEdge(Parents(u), nodes, r, e)) <==> IsContainsEdge(u, nodes, e)
  {
    forall r, a | IsNearest(Parents(u), nodes.Keys, r, a) && a != 0 ensures a in nodes {
    }
    hide IsNearest;
    if r, a :|
      && r in u.records && r.id in nodes && r.parentId != 0 && IsNearest(Parents(u), nodes.Keys, r.parentId, a)
      && a in nodes && a != 0 && a != r.id && nodes[a] != nodes[r.id] && e == Edge(nodes[a], nodes[r.id], Contains)
    {
      assert ContainsEdge(Parents(u), nodes, r, e);
    }
  }

  /** All declarations get nodes, and variables unless they have neither name nor parent; nothing else does. */
  lemma WhatDeclares(r: Record)
    ensures r.kind == Declaration ==> Declares(r)
    ensures r.kind == Variable ==> (Declares(r) <==> r.name != "" || r.parentId != 0)
    ensures r.kind == CallExpr || r.kind == Other ==> !Declares(r)
  {
  }

  // ---- One unit ----

  // Two functions named `g`, of one and of two arguments, and in `f` a call of `g` with two.
  const F := Record(1, 0, Declaration, "f", "", 0, 0, 0)
  const G1 := Record(2, 0, Declaration, "g", "", 0, 0, 1)
  const G2 := Record(3, 0, Declaration, "g", "", 0, 0, 2)
  const CALL := Record(4, 0, CallExpr, "g", "", 1, 0, 2)
  const UNIT := Unit([F, G1, G2, CALL], map[1 := 0, 2 := 1, 3 := 2, 4 := 3])
  const NODES: map<nat, nat> := map[1 := 11, 2 := 12, 3 := 13]

  /** The call graph of this unit is the one edge to the function of two arguments. */
  lemma OneCall(e: Edge)
    ensures IsCallEdge(UNIT, NODES, e) <==> e == Edge(11, 13, Calls)
  {
    var rs := UNIT.records;
    assert rs[0] == F && rs[1] == G1 && rs[2] == G2 && rs[3] == CALL;
    assert "f"[0] != "g"[0];
    assert forall x | x in rs :: x == F || x == G1 || x == G2 || x == CALL;
    assert forall x :: !ByQualifiedName(rs, NODES, CALL, 11, x);
    assert forall x :: ByBareName(rs, NODES, CALL, 11, x) <==> x == G1 || x == G2;
    assert ArityFits(rs, NODES, CALL, 11, G2) && !ArityFits(rs, NODES, CALL, 11, G1);
    assert LeadsTo(rs, NODES, CALL, 11, G2);
    NearestToCall();
    forall a | IsNearest(Parents(UNIT), NODES.Keys, 1, a) ensures a == 1 {
      NearestIsUnique(Parents(UNIT), NODES.Keys, 1, 1, a);
    }
    hide IsNearest;
  }

  lemma NearestToCall()
    ensures IsNearest(Parents(UNIT), NODES.Keys, 1, 1)
  {
    assert Up(Parents(UNIT), 1, 0) == 1;
  }
}
