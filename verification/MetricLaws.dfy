/**
 * What the rows of the metrics walk mean, told of the tree itself: how many nodes of each kind
 * a function owns, and how deep they nest.
 */
module MetricLaws {
  import opened Basics
  import opened Ownership

  // ---- The nodes of a tree, each with the nodes above it ----

  /** The chain from the root down to each node of the subtree at `n`. */
  ghost function Chains(above: seq<Node>, n: Node): seq<seq<Node>>
    decreases n, 1
  {
    [above + [n]] + ChainsAll(above + [n], n.children)
  }

  ghost function ChainsAll(above: seq<Node>, ns: seq<Node>): seq<seq<Node>>
    decreases ns, 0
  {
    if ns == [] then [] else Chains(above, ns[0]) + ChainsAll(above, ns[1..])
  }

  ghost function Number(chains: seq<seq<Node>>, p: seq<Node> -> bool): nat {
    if chains == [] then 0 else (if p(chains[0]) then 1 else 0) + Number(chains[1..], p)
  }

  lemma {:induction false} NumberAppend(a: seq<seq<Node>>, b: seq<seq<Node>>, p: seq<Node> -> bool)
    ensures Number(a + b, p) == Number(a, p) + Number(b, p)
  {
    if a == [] {
      assert a + b == b;
    } else {
      assert (a + b)[1..] == a[1..] + b;
      NumberAppend(a[1..], b, p);
    }
  }

  /** The node at the end of the chain is of this kind and owned by this function. */
  ghost function OfKind(funcs: seq<Func>, kind: Kind, f: nat): seq<Node> -> bool {
    (c: seq<Node>) => c != [] && c[|c| - 1].kind == kind && Owner(funcs, c) == Some(f)
  }

  /** The same for any function among the first `k`. */
  ghost function OfKindBelow(funcs: seq<Func>, kind: Kind, k: nat): seq<Node> -> bool {
    (c: seq<Node>) => c != [] && c[|c| - 1].kind == kind && Owner(funcs, c).Some? && Owner(funcs, c).value < k
  }

  lemma {:induction false} TallyCounts(funcs: seq<Func>, above: seq<Node>, n: Node, f: nat)
    ensures Tally(funcs, above, n, f).branches == Number(Chains(above, n), OfKind(funcs, Branch, f))
    ensures Tally(funcs, above, n, f).loops == Number(Chains(above, n), OfKind(funcs, Loop, f))
    decreases n, 1
  {
    hide Tally, TallyAll, Chains, ChainsAll, OfKind, Number, Own;
    var here := above + [n];
    TallyAllCounts(funcs, here, n.children, f);
    OwnCounts(funcs, here, f);
    FirstChain(funcs, above, n, OfKind(funcs, Branch, f));
    FirstChain(funcs, above, n, OfKind(funcs, Loop, f));
    TallyParts(funcs, above, n, f);
  }

  lemma TallyParts(funcs: seq<Func>, above: seq<Node>, n: Node, f: nat)
    ensures Tally(funcs, above, n, f) == Join(Own(funcs, above + [n], f), TallyAll(funcs, above + [n], n.children, f))
  {
  }

  lemma FirstChain(funcs: seq<Func>, above: seq<Node>, n: Node, p: seq<Node> -> bool)
    ensures Number(Chains(above, n), p) ==
      (if p(above + [n]) then 1 else 0) + Number(ChainsAll(above + [n], n.children), p)
  {
    hide ChainsAll;
    var rest := ChainsAll(above + [n], n.children);
    assert Chains(above, n)[1..] == rest && Chains(above, n)[0] == above + [n];
  }

  lemma OwnCounts(funcs: seq<Func>, chain: seq<Node>, f: nat)
    requires chain != []
    ensures Own(funcs, chain, f).branches == if OfKind(funcs, Branch, f)(chain) then 1 else 0
    ensures Own(funcs, chain, f).loops == if OfKind(funcs, Loop, f)(chain) then 1 else 0
  {
    hide Owner, Run;
  }

  lemma {:induction false} TallyAllCounts(funcs: seq<Func>, above: seq<Node>, ns: seq<Node>, f: nat)
    ensures TallyAll(funcs, above, ns, f).branches == Number(ChainsAll(above, ns), OfKind(funcs, Branch, f))
    ensures TallyAll(funcs, above, ns, f).loops == Number(ChainsAll(above, ns), OfKind(funcs, Loop, f))
    decreases ns, 0
  {
    hide Tally, Owner, OfKind;
    if ns != [] {
      TallyCounts(funcs, above, ns[0], f);
      TallyAllCounts(funcs, above, ns[1..], f);
      NumberAppend(Chains(above, ns[0]), ChainsAll(above, ns[1..]), OfKind(funcs, Branch, f));
      NumberAppend(Chains(above, ns[0]), ChainsAll(above, ns[1..]), OfKind(funcs, Loop, f));
    }
  }

  lemma {:induction false} OneMoreFunction(funcs: seq<Func>, chains: seq<seq<Node>>, kind: Kind, k: nat)
    ensures Number(chains, OfKindBelow(funcs, kind, k + 1)) ==
      Number(chains, OfKindBelow(funcs, kind, k)) + Number(chains, OfKind(funcs, kind, k))
  {
    hide Owner;
    if chains != [] {
      OneMoreFunction(funcs, chains[1..], kind, k);
    }
  }

  lemma {:induction false} NoFunctions(funcs: seq<Func>, chains: seq<seq<Node>>, kind: Kind)
    ensures Number(chains, OfKindBelow(funcs, kind, 0)) == 0
  {
    if chains != [] {
      NoFunctions(funcs, chains[1..], kind);
    }
  }

  /** The branches of the first `k` rows together, and the loops. */
  ghost function SumBranches(rows: seq<Row>, k: nat): nat
    requires k <= |rows|
  {
    if k == 0 then 0 else SumBranches(rows, k - 1) + rows[k - 1].branches
  }

  ghost function SumLoops(rows: seq<Row>, k: nat): nat
    requires k <= |rows|
  {
    if k == 0 then 0 else SumLoops(rows, k - 1) + rows[k - 1].loops
  }

  /** What is counted over all functions are the nodes of each kind that have an owner. */
  lemma {:induction false} SumsByKind(funcs: seq<Func>, root: Node, rows: seq<Row>, k: nat)
    requires k <= |rows| && forall f | 0 <= f < |rows| :: rows[f] == Tally(funcs, [], root, f)
    ensures SumBranches(rows, k) == Number(Chains([], root), OfKindBelow(funcs, Branch, k))
    ensures SumLoops(rows, k) == Number(Chains([], root), OfKindBelow(funcs, Loop, k))
  {
    hide Tally, Chains, OfKindBelow, OfKind;
    if k == 0 {
      NoFunctions(funcs, Chains([], root), Branch);
      NoFunctions(funcs, Chains([], root), Loop);
    } else {
      SumsByKind(funcs, root, rows, k - 1);
      TallyCounts(funcs, [], root, k - 1);
      OneMoreFunction(funcs, Chains([], root), Branch, k - 1);
      OneMoreFunction(funcs, Chains([], root), Loop, k - 1);
    }
  }

  // ---- Owners ----

  /** Function `f` is the last listed one whose bytes the offset lies in. */
  ghost predicate LiesIn(funcs: seq<Func>, offset: nat, f: nat) {
    && f < |funcs| && funcs[f].start <= offset && offset < funcs[f].end
    && forall g | f < g < |funcs| :: offset < funcs[g].start || funcs[g].end <= offset
  }

  /** The owner is the function that the nearest node lies in, going up from the end of the chain. */
  lemma {:induction false} OwnerIsNearest(funcs: seq<Func>, chain: seq<Node>, f: nat)
    ensures Owner(funcs, chain) == Some(f) <==>
      exists i | 0 <= i < |chain| ::
        LiesIn(funcs, chain[i].start, f) && forall j, g | i < j < |chain| :: !LiesIn(funcs, chain[j].start, g)
  {
    if chain != [] {
      var n := |chain| - 1;
      LastListed(funcs, chain[n].start);
      OwnerIsNearest(funcs, chain[..n], f);
      hide LiesIn;
      var found := Containing(funcs, chain[n].start);
      if found.Some? {
        assert LiesIn(funcs, chain[n].start, found.value);
      } else {
        assert forall i | 0 <= i < n :: chain[..n][i] == chain[i];
      }
    }
  }

  lemma LastListed(funcs: seq<Func>, offset: nat)
    ensures forall f: nat :: Containing(funcs, offset) == Some(f) <==> LiesIn(funcs, offset, f)
  {
  }

  // ---- Nesting ----

  /** From `i` to its end the chain is owned by `f` without a break. */
  ghost predicate OwnedFrom(funcs: seq<Func>, chain: seq<Node>, i: nat, f: nat) {
    i <= |chain| && forall j | i < j <= |chain| :: Owner(funcs, chain[..j]) == Some(f)
  }

  ghost function Controls(chain: seq<Node>): nat {
    if chain == [] then 0
    else
      var n := chain[|chain| - 1];
      Controls(chain[..|chain| - 1]) + if n.kind == Branch || n.kind == Loop then 1 else 0
  }

  lemma LastControl(chain: seq<Node>, k: nat)
    requires k < |chain|
    ensures var n := |chain| - 1;
      Controls(chain[k..]) == Controls(chain[..n][k..]) + if chain[n].kind == Branch || chain[n].kind == Loop then 1 else 0
  {
    var n := |chain| - 1;
    assert chain[k..][..n - k] == chain[..n][k..] && chain[k..][n - k] == chain[n];
  }

  lemma OwnedInFront(funcs: seq<Func>, chain: seq<Node>, k: nat, f: nat)
    requires k < |chain| && OwnedFrom(funcs, chain, k, f)
    ensures OwnedFrom(funcs, chain[..|chain| - 1], k, f)
    ensures k < |chain| - 1 ==> Owner(funcs, chain[..|chain| - 1]) == Some(f)
  {
    hide Owner;
    var front := chain[..|chain| - 1];
    forall j | k < j <= |front| ensures Owner(funcs, front[..j]) == Some(f) {
      assert front[..j] == chain[..j];
    }
    if k < |front| {
      assert front[..|front|] == front;
    }
  }

  /** The run at the end of a chain counts the control-flow nodes of its longest unbroken end. */
  lemma {:induction false} RunIsLongest(funcs: seq<Func>, chain: seq<Node>, f: nat) returns (i: nat)
    requires Owner(funcs, chain) == Some(f)
    ensures OwnedFrom(funcs, chain, i, f) && Controls(chain[i..]) == Run(funcs, chain)
    ensures forall k: nat | OwnedFrom(funcs, chain, k, f) :: Controls(chain[k..]) <= Run(funcs, chain)
  {
    OwnedIsNonempty(funcs, chain, f);
    hide Owner, Controls;
    var n := |chain| - 1;
    var front := chain[..n];
    NoControls();
    assert chain[n + 1..] == [] && front[n..] == [];
    i := n;
    if Owner(funcs, front) == Some(f) {
      i := RunIsLongest(funcs, front, f);
    }
    OwnedOneMore(funcs, chain, i, f);
    LastControl(chain, i);
    forall k: nat | OwnedFrom(funcs, chain, k, f) ensures Controls(chain[k..]) <= Run(funcs, chain) {
      if k <= n {
        OwnedInFront(funcs, chain, k, f);
        LastControl(chain, k);
      }
    }
  }

  lemma NoControls()
    ensures Controls([]) == 0
  {
  }

  lemma OwnedOneMore(funcs: seq<Func>, chain: seq<Node>, i: nat, f: nat)
    requires chain != [] && Owner(funcs, chain) == Some(f)
    requires i == |chain| - 1 || OwnedFrom(funcs, chain[..|chain| - 1], i, f)
    ensures OwnedFrom(funcs, chain, i, f)
  {
    hide Owner;
    var front := chain[..|chain| - 1];
    assert chain[..|chain|] == chain;
    forall j | i < j <= |front| ensures Owner(funcs, chain[..j]) == Some(f) {
      assert front[..j] == chain[..j];
    }
  }

  lemma OwnedIsNonempty(funcs: seq<Func>, chain: seq<Node>, f: nat)
    requires Owner(funcs, chain) == Some(f)
    ensures chain != []
  {
  }

  lemma {:induction false} NestingIsReached(funcs: seq<Func>, above: seq<Node>, n: Node, f: nat)
    ensures var d := Tally(funcs, above, n, f).nesting;
      d > 0 ==> exists c :: c in Chains(above, n) && Owner(funcs, c) == Some(f) && Run(funcs, c) == d
    decreases n, 1
  {
    hide Owner, Run;
    NestingIsReachedAll(funcs, above + [n], n.children, f);
    assert above + [n] in Chains(above, n);
  }

  lemma {:induction false} NestingIsReachedAll(funcs: seq<Func>, above: seq<Node>, ns: seq<Node>, f: nat)
    ensures var d := TallyAll(funcs, above, ns, f).nesting;
      d > 0 ==> exists c :: c in ChainsAll(above, ns) && Owner(funcs, c) == Some(f) && Run(funcs, c) == d
    decreases ns, 0
  {
    hide Owner, Run, Tally;
    if ns != [] {
      NestingIsReached(funcs, above, ns[0], f);
      NestingIsReachedAll(funcs, above, ns[1..], f);
    }
  }

  lemma {:induction false} NestingIsLeast(funcs: seq<Func>, above: seq<Node>, n: Node, f: nat, c: seq<Node>)
    requires c in Chains(above, n) && Owner(funcs, c) == Some(f)
    ensures Run(funcs, c) <= Max(Base(funcs, above, f), Tally(funcs, above, n, f).nesting)
    decreases n, 1
  {
    var here := above + [n];
    assert here[..|above|] == above;
    if c != here {
      hide Owner;
      NestingIsLeastAll(funcs, here, n.children, f, c);
    }
  }

  lemma {:induction false} NestingIsLeastAll(funcs: seq<Func>, above: seq<Node>, ns: seq<Node>, f: nat, c: seq<Node>)
    requires c in ChainsAll(above, ns) && Owner(funcs, c) == Some(f)
    ensures Run(funcs, c) <= Max(Base(funcs, above, f), TallyAll(funcs, above, ns, f).nesting)
    decreases ns, 0
  {
    hide Owner, Run, Base, Tally;
    if c in Chains(above, ns[0]) {
      NestingIsLeast(funcs, above, ns[0], f, c);
    } else {
      NestingIsLeastAll(funcs, above, ns[1..], f, c);
    }
  }

  /** `d` is the most control-flow nodes on any stretch of a chain that `f` owns without a break. */
  ghost predicate IsDeepest(funcs: seq<Func>, root: Node, f: nat, d: nat) {
    && (d > 0 ==> exists c, i: nat ::
          c in Chains([], root) && c != [] && OwnedFrom(funcs, c, i, f) && Controls(c[i..]) == d)
    && forall c, i: nat | c in Chains([], root) && i < |c| && OwnedFrom(funcs, c, i, f) :: Controls(c[i..]) <= d
  }

  lemma NestingIsDeepest(funcs: seq<Func>, root: Node, f: nat)
    ensures IsDeepest(funcs, root, f, Tally(funcs, [], root, f).nesting)
  {
    hide Owner, Run, Tally, Chains, OwnedFrom, Controls;
    var d := Tally(funcs, [], root, f).nesting;
    NestingIsReached(funcs, [], root, f);
    if d > 0 {
      var c :| c in Chains([], root) && Owner(funcs, c) == Some(f) && Run(funcs, c) == d;
      OwnedIsNonempty(funcs, c, f);
      var i := RunIsLongest(funcs, c, f);
    }
    forall c, i: nat | c in Chains([], root) && i < |c| && OwnedFrom(funcs, c, i, f) ensures Controls(c[i..]) <= d {
      OwnedToTheEnd(funcs, c, i, f);
      NestingIsLeast(funcs, [], root, f, c);
      NothingAbove(funcs, f);
      var k := RunIsLongest(funcs, c, f);
    }
  }

  lemma OwnedToTheEnd(funcs: seq<Func>, chain: seq<Node>, i: nat, f: nat)
    requires OwnedFrom(funcs, chain, i, f) && i < |chain|
    ensures Owner(funcs, chain) == Some(f)
  {
    assert chain[..|chain|] == chain;
  }

  lemma NothingAbove(funcs: seq<Func>, f: nat)
    ensures Base(funcs, [], f) == 0
  {
  }

  /** The row of a function, told of the tree. */
  ghost predicate IsRowOf(funcs: seq<Func>, root: Node, f: nat, row: Row) {
    && row.branches == Number(Chains([], root), OfKind(funcs, Branch, f))
    && row.loops == Number(Chains([], root), OfKind(funcs, Loop, f))
    && IsDeepest(funcs, root, f, row.nesting)
  }

  lemma TallyIsRow(funcs: seq<Func>, root: Node, f: nat)
    ensures IsRowOf(funcs, root, f, Tally(funcs, [], root, f))
  {
    hide Tally, Chains, OfKind, IsDeepest;
    TallyCounts(funcs, [], root, f);
    NestingIsDeepest(funcs, root, f);
  }

  // ---- One tree ----

  /** A loop in a branch, and in the loop a function of its own that holds a branch. */
  const OUTER_AND_INNER := [Func(0, 20), Func(5, 10)]
  const INNER := Node(6, Branch, [])
  const LOOP := Node(2, Loop, [INNER])
  const BRANCH := Node(1, Branch, [LOOP])
  const ROOT := Node(0, Plain, [BRANCH])

  lemma OneTree()
    ensures Tally(OUTER_AND_INNER, [], ROOT, 0) == Row(1, 1, 2) && Tally(OUTER_AND_INNER, [], ROOT, 1) == Row(1, 0, 1)
  {
    hide *;
    OneTreeFor(0);
    OneTreeFor(1);
  }

  lemma OneTreeFor(f: nat)
    requires f < 2
    ensures Tally(OUTER_AND_INNER, [], ROOT, f) == if f == 0 then Row(1, 1, 2) else Row(1, 0, 1)
  {
    hide Tally, TallyAll, Own;
    OwnRows(f);
    OneBelowAnother(OUTER_AND_INNER, ROOT, BRANCH, LOOP, INNER, f);
  }

  /** Four nodes below one another. */
  lemma OneBelowAnother(funcs: seq<Func>, a: Node, b: Node, c: Node, d: Node, f: nat)
    requires a.children == [b] && b.children == [c] && c.children == [d] && d.children == []
    ensures Tally(funcs, [], a, f) ==
      Join(Own(funcs, [a], f),
           Join(Own(funcs, [a, b], f), Join(Own(funcs, [a, b, c], f), Own(funcs, [a, b, c, d], f))))
  {
    hide Tally, TallyAll, Own, Join;
    assert [] + [a] == [a] && [a] + [b] == [a, b] && [a, b] + [c] == [a, b, c] && [a, b, c] + [d] == [a, b, c, d];
    OneChild(funcs, [a, b, c], d, [], f);
    OneChild(funcs, [a, b], c, [d], f);
    OneChild(funcs, [a], b, [c], f);
    OneChild(funcs, [], a, [b], f);
  }

  lemma OwnRows(f: nat)
    requires f < 2
    ensures var fs := OUTER_AND_INNER;
      && Own(fs, [ROOT], f) == Row(0, 0, 0)
      && Own(fs, [ROOT, BRANCH], f) == (if f == 0 then Row(1, 0, 1) else Row(0, 0, 0))
      && Own(fs, [ROOT, BRANCH, LOOP], f) == (if f == 0 then Row(0, 1, 2) else Row(0, 0, 0))
      && Own(fs, [ROOT, BRANCH, LOOP, INNER], f) == if f == 1 then Row(1, 0, 1) else Row(0, 0, 0)
  {
    Owners();
    Runs();
    hide Owner, Run;
  }

  lemma OneChild(funcs: seq<Func>, above: seq<Node>, n: Node, children: seq<Node>, f: nat)
    requires n.children == children && |children| <= 1
    ensures Tally(funcs, above, n, f) ==
      if children == [] then Own(funcs, above + [n], f)
      else Join(Own(funcs, above + [n], f), Tally(funcs, above + [n], children[0], f))
  {
    hide Own;
    if children != [] {
      assert children[1..] == [];
      assert TallyAll(funcs, above + [n], [], f) == EMPTY_ROW;
    }
  }

  lemma Owners()
    ensures var fs := OUTER_AND_INNER;
      && Owner(fs, []) == None && Owner(fs, [ROOT]) == Owner(fs, [ROOT, BRANCH]) == Some(0)
      && Owner(fs, [ROOT, BRANCH, LOOP]) == Some(0) && Owner(fs, [ROOT, BRANCH, LOOP, INNER]) == Some(1)
  {
    var fs := OUTER_AND_INNER;
    assert fs[..1] == [Func(0, 20)];
  }

  lemma Runs()
    ensures var fs := OUTER_AND_INNER;
      && Run(fs, [ROOT, BRANCH]) == 1 && Run(fs, [ROOT, BRANCH, LOOP]) == 2 && Run(fs, [ROOT, BRANCH, LOOP, INNER]) == 1
  {
    Owners();
    hide Owner;
    var inner := [ROOT, BRANCH, LOOP, INNER];
    assert inner[..3] == [ROOT, BRANCH, LOOP] && inner[..3][..2] == [ROOT, BRANCH] && [ROOT, BRANCH][..1] == [ROOT];
    assert [ROOT][..0] == [];
  }
}
