/**
 * Flat semantic records, the parent links between them, and which calls lead where: the
 * nearest enclosing node of a record and the layered resolution of a call, as relations.
 */
module RecordGraph {

  /** `Declaration` stands for every declaring kind except Variable. */
  datatype Kind = Variable | Declaration | CallExpr | Other

  datatype Record = Record(id: nat, originalId: nat, kind: Kind, name: string, qualifiedName: string,
                           parentId: nat, refOriginalId: nat, arity: int)

  /** The records of a file and the position each known id stands for. */
  datatype Unit = Unit(records: seq<Record>, index: map<nat, nat>)

  ghost predicate Indexed(u: Unit) { forall id | id in u.index :: u.index[id] < |u.records| }

  /** Records that get a graph node; the nameless root container does not. */
  predicate Declares(r: Record) {
    && (r.kind == Variable || r.kind == Declaration)
    && !(r.kind == Variable && r.name == "" && r.parentId == 0)
  }

  /** The parent every known id leads to. */
  ghost function Parents(u: Unit): map<nat, nat>
    requires Indexed(u)
  {
    map id | id in u.index :: u.records[u.index[id]].parentId
  }

  // ---- The nearest ancestor that has a node ----

  ghost function Step(parents: map<nat, nat>, id: nat): nat {
    if id != 0 && id in parents then parents[id] else 0
  }

  ghost function Up(parents: map<nat, nat>, id: nat, n: nat): nat {
    if n == 0 then id else Step(parents, Up(parents, id, n - 1))
  }

  /**
   * `r` is the first id with a node on the way up from `id`, or 0 if the way meets none,
   * whether it ends at the top, at an unknown id, or never.
   */
  ghost predicate IsNearest(parents: map<nat, nat>, nodes: set<nat>, id: nat, r: nat) {
    if r == 0 then forall n: nat :: Up(parents, id, n) == 0 || Up(parents, id, n) !in nodes
    else r in nodes && exists n: nat :: Up(parents, id, n) == r && NoneBefore(parents, nodes, id, n)
  }

  ghost predicate NoneBefore(parents: map<nat, nat>, nodes: set<nat>, id: nat, n: nat) {
    forall m: nat :: m < n ==> Up(parents, id, m) !in nodes
  }

  lemma {:induction false} UpAdd(parents: map<nat, nat>, id: nat, k: nat, n: nat)
    ensures Up(parents, Up(parents, id, k), n) == Up(parents, id, k + n)
  {
    if n > 0 {
      UpAdd(parents, id, k, n - 1);
    }
  }

  lemma {:induction false} ZeroStays(parents: map<nat, nat>, id: nat, k: nat, n: nat)
    requires k <= n && Up(parents, id, k) == 0
    ensures Up(parents, id, n) == 0
    decreases n
  {
    if k < n {
      ZeroStays(parents, id, k, n - 1);
    }
  }

  /** There is at most one nearest node. */
  lemma NearestIsUnique(parents: map<nat, nat>, nodes: set<nat>, id: nat, r: nat, r': nat)
    requires IsNearest(parents, nodes, id, r) && IsNearest(parents, nodes, id, r')
    ensures r == r'
  {
    if r != 0 && r' != 0 {
      var n: nat :| Up(parents, id, n) == r && NoneBefore(parents, nodes, id, n);
      var n': nat :| Up(parents, id, n') == r' && NoneBefore(parents, nodes, id, n');
      assert !(n < n') && !(n' < n);
    }
  }

  /** The answer from further up is the answer from below. */
  lemma NearestFromAbove(parents: map<nat, nat>, nodes: set<nat>, id: nat, k: nat, r: nat)
    requires NoneBefore(parents, nodes, id, k) && IsNearest(parents, nodes, Up(parents, id, k), r)
    ensures IsNearest(parents, nodes, id, r)
  {
    hide Up;
    var q := Up(parents, id, k);
    if r == 0 {
      forall n: nat ensures Up(parents, id, n) == 0 || Up(parents, id, n) !in nodes {
        if n >= k {
          UpAdd(parents, id, k, n - k);
          assert Up(parents, q, n - k) == 0 || Up(parents, q, n - k) !in nodes;
        }
      }
    } else {
      var n: nat :| Up(parents, q, n) == r && NoneBefore(parents, nodes, q, n);
      UpAdd(parents, id, k, n);
      forall m: nat | m < k + n ensures Up(parents, id, m) !in nodes {
        if m >= k {
          UpAdd(parents, id, k, m - k);
          assert Up(parents, q, m - k) !in nodes;
        }
      }
      assert NoneBefore(parents, nodes, id, k + n);
    }
  }

  /** A way up that comes back to itself meets only what it has met. */
  lemma {:induction false} CycleRepeats(parents: map<nat, nat>, id: nat, m: nat, n: nat, k: nat) returns (j: nat)
    requires m < n && Up(parents, id, m) == Up(parents, id, n)
    ensures j < n && Up(parents, id, j) == Up(parents, id, k)
    decreases k
  {
    if k < n {
      j := k;
    } else {
      UpAdd(parents, id, n, k - n);
      UpAdd(parents, id, m, k - n);
      j := CycleRepeats(parents, id, m, n, m + (k - n));
    }
  }

  lemma CycleHasNone(parents: map<nat, nat>, nodes: set<nat>, id: nat, m: nat, n: nat)
    requires m < n && Up(parents, id, m) == Up(parents, id, n) && NoneBefore(parents, nodes, id, n)
    ensures IsNearest(parents, nodes, id, 0)
  {
    forall k: nat ensures Up(parents, id, k) !in nodes {
      var j := CycleRepeats(parents, id, m, n, k);
    }
  }

  // ---- Resolving a call ----

  datatype Named = Named(qualified: string, node: nat)

  datatype Candidate = Candidate(name: string, arity: int, node: nat)

  /** The two multimaps of callable declarations, in any order. */
  datatype CalleeIndex = CalleeIndex(byQualified: seq<Named>, byName: seq<Candidate>)

  ghost predicate QualifiedHit(idx: CalleeIndex, call: Record, caller: nat, t: nat) {
    call.qualifiedName != "" && t != caller && Named(call.qualifiedName, t) in idx.byQualified
  }

  ghost predicate NameHit(idx: CalleeIndex, call: Record, caller: nat, arity: int, t: nat) {
    call.name != "" && t != caller && Candidate(call.name, arity, t) in idx.byName
  }

  ghost predicate SomeNameHit(idx: CalleeIndex, call: Record, caller: nat, arity: int) {
    exists t :: NameHit(idx, call, caller, arity, t)
  }

  /** Whom the bare name leads to: the same arity, else an unknown one; any, if the call's is unknown. */
  ghost predicate ByName(idx: CalleeIndex, call: Record, caller: nat, t: nat) {
    if call.arity == 0 then exists a :: NameHit(idx, call, caller, a, t)
    else if SomeNameHit(idx, call, caller, call.arity) then NameHit(idx, call, caller, call.arity, t)
    else NameHit(idx, call, caller, 0, t)
  }

  /** The resolved reference alone, else the qualified name if it names another node, else the bare name. */
  ghost predicate Resolves(nodes: map<nat, nat>, idx: CalleeIndex, call: Record, caller: nat, t: nat) {
    if call.refOriginalId != 0 then
      t != caller && call.refOriginalId in nodes && t == nodes[call.refOriginalId]
    else if exists q :: QualifiedHit(idx, call, caller, q) then QualifiedHit(idx, call, caller, t)
    else ByName(idx, call, caller, t)
  }

  datatype EdgeKind = Contains | Calls

  datatype Edge = Edge(src: nat, tgt: nat, kind: EdgeKind)

  predicate HasSignal(r: Record) { r.name != "" || r.qualifiedName != "" || r.refOriginalId != 0 }

  /** An edge one record contributes to the call graph. */
  ghost predicate CallEdge(parents: map<nat, nat>, nodes: map<nat, nat>, idx: CalleeIndex, r: Record, e: Edge) {
    && r.kind == CallExpr && HasSignal(r) && e.kind == Calls
    && exists a ::
         IsNearest(parents, nodes.Keys, r.parentId, a) && a in nodes
         && e.src == nodes[a] && Resolves(nodes, idx, r, nodes[a], e.tgt)
  }

  /** An edge one record contributes to the symbol graph. */
  ghost predicate ContainsEdge(parents: map<nat, nat>, nodes: map<nat, nat>, r: Record, e: Edge) {
    && r.parentId != 0 && r.id in nodes && e.kind == Contains && e.tgt == nodes[r.id]
    && exists a ::
         a != 0 && a != r.id && IsNearest(parents, nodes.Keys, r.parentId, a)
         && e.src == nodes[a] && nodes[a] != nodes[r.id]
  }

  // ---- The index of a unit's own declarations ----

  ghost predicate Enters(r: Record, nodes: map<nat, nat>, c: Candidate) {
    r.id in nodes && r.name != "" && c == Candidate(r.name, r.arity, nodes[r.id])
  }

  ghost predicate EntersQualified(r: Record, nodes: map<nat, nat>, n: Named) {
    r.id in nodes && r.name != "" && r.qualifiedName != "" && n == Named(r.qualifiedName, nodes[r.id])
  }

  /** An index that holds the records with a node and a name, and nothing else. */
  ghost predicate IndexesAll(rs: seq<Record>, nodes: map<nat, nat>, idx: CalleeIndex) {
    && (forall c :: c in idx.byName <==> exists r :: r in rs && Enters(r, nodes, c))
    && (forall n :: n in idx.byQualified <==> exists r :: r in rs && EntersQualified(r, nodes, n))
  }

  // ---- What resolution promises ----

  lemma NoSelfCalls(parents: map<nat, nat>, nodes: map<nat, nat>, idx: CalleeIndex, r: Record, e: Edge)
    requires CallEdge(parents, nodes, idx, r, e)
    ensures e.src != e.tgt
  {
  }

  /** A call resolved by its bare name never reaches a candidate known to take another number of arguments. */
  lemma NoArityClash(nodes: map<nat, nat>, idx: CalleeIndex, call: Record, caller: nat, t: nat)
    requires Resolves(nodes, idx, call, caller, t) && call.refOriginalId == 0
    ensures QualifiedHit(idx, call, caller, t)
      || exists a :: Candidate(call.name, a, t) in idx.byName && (a == call.arity || a == 0 || call.arity == 0)
  {
    if !QualifiedHit(idx, call, caller, t) {
      if call.arity == 0 {
        var a :| NameHit(idx, call, caller, a, t);
        assert Candidate(call.name, a, t) in idx.byName;
      } else if NameHit(idx, call, caller, call.arity, t) {
        assert Candidate(call.name, call.arity, t) in idx.byName;
      } else {
        assert Candidate(call.name, 0, t) in idx.byName;
      }
    }
  }

  /**
   * A qualified call keeps to its qualified name exactly when that name is borne by a node
   * other than the caller, or when the bare name leads nowhere else.
   */
  lemma QualifiedIsPreciseUnlessSelf(nodes: map<nat, nat>, idx: CalleeIndex, call: Record, caller: nat)
    requires call.refOriginalId == 0
    ensures (forall t :: Resolves(nodes, idx, call, caller, t) ==> QualifiedHit(idx, call, caller, t)) <==>
      (exists q :: QualifiedHit(idx, call, caller, q)) || forall t :: !ByName(idx, call, caller, t)
  {
    if forall q :: !QualifiedHit(idx, call, caller, q) {
      forall t ensures Resolves(nodes, idx, call, caller, t) <==> ByName(idx, call, caller, t) {
      }
    }
  }

  /** A function that calls itself by its qualified name gets an edge to a stranger of the same bare name. */
  lemma SelfCallReachesAStranger()
    ensures var call := Record(3, 0, CallExpr, "f", "A.f", 1, 0, 0);
      var idx := CalleeIndex([Named("A.f", 1), Named("B.f", 2)], [Candidate("f", 0, 1), Candidate("f", 0, 2)]);
      Resolves(map[1 := 1, 2 := 2], idx, call, 1, 2)
  {
    var call := Record(3, 0, CallExpr, "f", "A.f", 1, 0, 0);
    var idx := CalleeIndex([Named("A.f", 1), Named("B.f", 2)], [Candidate("f", 0, 1), Candidate("f", 0, 2)]);
    assert Candidate("f", 0, 2) == idx.byName[1];
    assert NameHit(idx, call, 1, 0, 2);
    assert "A.f"[0] != "B.f"[0];
    assert forall q :: !QualifiedHit(idx, call, 1, q);
  }

  /** The order in which a multimap yields its entries cannot be seen in the result. */
  lemma MultimapOrderIsInvisible(nodes: map<nat, nat>, idx: CalleeIndex, idx': CalleeIndex,
                                 call: Record, caller: nat, t: nat)
    requires forall n: Named :: n in idx.byQualified <==> n in idx'.byQualified
    requires forall c: Candidate :: c in idx.byName <==> c in idx'.byName
    ensures Resolves(nodes, idx, call, caller, t) <==> Resolves(nodes, idx', call, caller, t)
  {
    assert forall q :: QualifiedHit(idx, call, caller, q) <==> QualifiedHit(idx', call, caller, q);
    assert forall a, x :: NameHit(idx, call, caller, a, x) <==> NameHit(idx', call, caller, a, x);
    assert forall a :: SomeNameHit(idx, call, caller, a) <==> SomeNameHit(idx', call, caller, a);
  }
}
