/**
 * Which function owns a syntax node: the definition the metrics walk is meant to compute.
 */
module Ownership {
  import opened Basics

  /** The byte range of a function record, `start` included and `end` excluded. */
  datatype Func = Func(start: nat, end: nat)

  ghost predicate Contains(f: Func, offset: nat) {
    f.start <= offset < f.end
  }

  ghost predicate Sorted(funcs: seq<Func>) {
    forall i, j | 0 <= i <= j < |funcs| :: funcs[i].start <= funcs[j].start
  }

  /** The last function in the list whose range contains the offset. */
  ghost function Containing(funcs: seq<Func>, offset: nat): (r: Option<nat>)
    ensures r.Some? ==> r.value < |funcs| && Contains(funcs[r.value], offset)
    ensures r.Some? ==> forall k | r.value < k < |funcs| :: !Contains(funcs[k], offset)
    ensures r.None? ==> forall k | 0 <= k < |funcs| :: !Contains(funcs[k], offset)
  {
    if funcs == [] then None
    else if Contains(funcs[|funcs| - 1], offset) then Some(|funcs| - 1)
    else Containing(funcs[..|funcs| - 1], offset)
  }

  // ---- When the last containing function is the innermost one ----

  /** Ranges nest or stay apart, as the functions of one file do. */
  ghost predicate Laminar(funcs: seq<Func>) {
    forall i, j | 0 <= i < |funcs| && 0 <= j < |funcs| ::
      || funcs[i].end <= funcs[j].start || funcs[j].end <= funcs[i].start
      || Inside(funcs[i], funcs[j]) || Inside(funcs[j], funcs[i])
  }

  ghost predicate Inside(f: Func, g: Func) {
    g.start <= f.start && f.end <= g.end
  }

  ghost predicate Innermost(funcs: seq<Func>, offset: nat, i: nat) {
    && i < |funcs| && Contains(funcs[i], offset)
    && forall j | 0 <= j < |funcs| && Contains(funcs[j], offset) :: Inside(funcs[i], funcs[j])
  }

  /** Of the functions starting where `k` starts, none listed earlier ends sooner past the offset. */
  ghost predicate NoShorterTwin(funcs: seq<Func>, offset: nat, k: nat)
    requires k < |funcs|
  {
    forall i | 0 <= i < k && funcs[i].start == funcs[k].start && Contains(funcs[i], offset) ::
      funcs[k].end <= funcs[i].end
  }

  /**
   * For nested ranges sorted by start, the function found is the innermost one exactly when
   * it has no shorter twin listed before it.
   */
  lemma InnermostIffNoShorterTwin(funcs: seq<Func>, offset: nat)
    requires Sorted(funcs) && Laminar(funcs) && Containing(funcs, offset).Some?
    ensures var k := Containing(funcs, offset).value;
      Innermost(funcs, offset, k) <==> NoShorterTwin(funcs, offset, k)
  {
    var k := Containing(funcs, offset).value;
    forall j | 0 <= j < |funcs| && Contains(funcs[j], offset) && NoShorterTwin(funcs, offset, k)
      ensures Inside(funcs[k], funcs[j])
    {
      assert j <= k && funcs[j].start <= funcs[k].start;
    }
    forall i |
      0 <= i < k && funcs[i].start == funcs[k].start && Contains(funcs[i], offset) && Innermost(funcs, offset, k)
      ensures funcs[k].end <= funcs[i].end
    {
      assert Inside(funcs[k], funcs[i]);
    }
  }

  /** Where two functions of the list start together, the wider one comes last and shows in place of the other. */
  ghost predicate Hidden(funcs: seq<Func>, i: nat, j: nat, offset: nat) {
    && i < j < |funcs| && funcs[i].start == funcs[j].start && funcs[i].end < funcs[j].end
    && Contains(funcs[i], offset) && forall m | j < m < |funcs| :: !Contains(funcs[m], offset)
  }

  ghost predicate NoneHidden(funcs: seq<Func>, offset: nat) { forall i, j :: !Hidden(funcs, i, j, offset) }

  /** At this offset the innermost function is found, if any contains it. */
  ghost predicate FindsInnermost(funcs: seq<Func>, offset: nat) {
    var found := Containing(funcs, offset);
    found.Some? ==> Innermost(funcs, offset, found.value)
  }

  /**
   * On the list alone: the function found is innermost at every offset exactly when, of two
   * functions that start together, a narrower one listed before a wider one never has an
   * offset that no later function contains.
   */
  lemma AlwaysInnermostExactly(funcs: seq<Func>)
    requires Sorted(funcs) && Laminar(funcs)
    ensures (forall offset :: FindsInnermost(funcs, offset)) <==> forall offset :: NoneHidden(funcs, offset)
  {
    forall offset ensures FindsInnermost(funcs, offset) <==> NoneHidden(funcs, offset) {
      if Containing(funcs, offset).Some? {
        InnermostUnlessHidden(funcs, offset);
      } else {
        forall i, j ensures !Hidden(funcs, i, j, offset) {
        }
      }
    }
  }

  lemma HiddenIsContained(funcs: seq<Func>, i: nat, j: nat, offset: nat)
    requires Hidden(funcs, i, j, offset)
    ensures Containing(funcs, offset) == Some(j)
  {
    assert Contains(funcs[j], offset);
  }

  lemma InnermostUnlessHidden(funcs: seq<Func>, offset: nat)
    requires Sorted(funcs) && Laminar(funcs) && Containing(funcs, offset).Some?
    ensures Innermost(funcs, offset, Containing(funcs, offset).value) <==> NoneHidden(funcs, offset)
  {
    InnermostIffNoShorterTwin(funcs, offset);
    hide Innermost, Sorted, Laminar, Containing;
    var k := Containing(funcs, offset).value;
    forall i, j | Hidden(funcs, i, j, offset) ensures j == k && !NoShorterTwin(funcs, offset, k) {
      HiddenIsContained(funcs, i, j, offset);
    }
    if !NoShorterTwin(funcs, offset, k) {
      var i: nat :| i < k && funcs[i].start == funcs[k].start && Contains(funcs[i], offset)
        && funcs[i].end < funcs[k].end;
      assert Hidden(funcs, i, k, offset);
    }
  }

  /** Functions of one file start at different places, and then there are no twins. */
  lemma DistinctStartsGiveInnermost(funcs: seq<Func>, offset: nat)
    requires Sorted(funcs) && Laminar(funcs) && Containing(funcs, offset).Some?
    requires forall i, j | 0 <= i < j < |funcs| :: funcs[i].start != funcs[j].start
    ensures Innermost(funcs, offset, Containing(funcs, offset).value)
  {
    InnermostIffNoShorterTwin(funcs, offset);
  }

  /** The sort orders by start alone, so twins may come shortest first; then the wider one is found. */
  lemma TwinsCanHideTheInner()
    ensures var funcs := [Func(0, 5), Func(0, 9)];
      Sorted(funcs) && Laminar(funcs) && Containing(funcs, 2) == Some(1) && !Innermost(funcs, 2, 1)
  {
    var funcs := [Func(0, 5), Func(0, 9)];
    assert Contains(funcs[0], 2) && !Inside(funcs[1], funcs[0]);
  }

  // ---- Owners along a chain of nodes ----

  /** The type name of a syntax node is looked up in two disjoint tables, branches first. */
  datatype Kind = Branch | Loop | Plain

  datatype Node = Node(start: nat, kind: Kind, children: seq<Node>)

  predicate IsControl(n: Node) { n.kind != Plain }

  /**
   * The owner of the last node of a chain from the root: the function its start lies in, or
   * else the owner of its parent.
   */
  ghost function Owner(funcs: seq<Func>, chain: seq<Node>): (r: Option<nat>)
    ensures r.Some? ==> r.value < |funcs|
  {
    if chain == [] then None
    else
      var found := Containing(funcs, chain[|chain| - 1].start);
      if found.Some? then found else Owner(funcs, chain[..|chain| - 1])
  }

  /** Control-flow nodes at the end of a chain, counted back to where the owner last changed. */
  ghost function Run(funcs: seq<Func>, chain: seq<Node>): nat {
    if chain == [] then 0
    else
      var front := chain[..|chain| - 1];
      (if Owner(funcs, front) == Owner(funcs, chain) then Run(funcs, front) else 0)
      + (if Owner(funcs, chain).Some? && IsControl(chain[|chain| - 1]) then 1 else 0)
  }

  // ---- Tallies ----

  datatype Row = Row(branches: nat, loops: nat, nesting: nat)

  const EMPTY_ROW := Row(0, 0, 0)

  ghost function Join(a: Row, b: Row): Row {
    Row(a.branches + b.branches, a.loops + b.loops, Max(a.nesting, b.nesting))
  }

  /** What one node contributes to function `f`. */
  ghost function Own(funcs: seq<Func>, chain: seq<Node>, f: nat): Row
    requires chain != []
  {
    var n := chain[|chain| - 1];
    if Owner(funcs, chain) == Some(f) && IsControl(n) then
      Row(if n.kind.Branch? then 1 else 0, if n.kind.Branch? then 0 else 1, Run(funcs, chain))
    else EMPTY_ROW
  }

  /** What the subtree at `n`, hanging under the chain, contributes to function `f`. */
  ghost function Tally(funcs: seq<Func>, chain: seq<Node>, n: Node, f: nat): Row
    decreases n, 1
  {
    Join(Own(funcs, chain + [n], f), TallyAll(funcs, chain + [n], n.children, f))
  }

  ghost function TallyAll(funcs: seq<Func>, chain: seq<Node>, ns: seq<Node>, f: nat): Row
    decreases ns, 0
  {
    if ns == [] then EMPTY_ROW
    else Join(Tally(funcs, chain, ns[0], f), TallyAll(funcs, chain, ns[1..], f))
  }

  // ---- Bounds ----

  ghost function Count(r: Row): nat { r.branches + r.loops }

  /** Depth already reached by the nodes above, if they belong to `f`. */
  ghost function Base(funcs: seq<Func>, chain: seq<Node>, f: nat): nat {
    if Owner(funcs, chain) == Some(f) then Run(funcs, chain) else 0
  }

  lemma {:induction false} NestingIsCovered(funcs: seq<Func>, chain: seq<Node>, n: Node, f: nat)
    ensures Tally(funcs, chain, n, f).nesting <= Base(funcs, chain, f) + Count(Tally(funcs, chain, n, f))
    decreases n, 1
  {
    hide TallyAll;
    assert (chain + [n])[..|chain|] == chain;
    NestingIsCoveredAll(funcs, chain + [n], n.children, f);
  }

  lemma {:induction false} NestingIsCoveredAll(funcs: seq<Func>, chain: seq<Node>, ns: seq<Node>, f: nat)
    ensures TallyAll(funcs, chain, ns, f).nesting <= Base(funcs, chain, f) + Count(TallyAll(funcs, chain, ns, f))
    decreases ns, 0
  {
    hide Tally, Base;
    if ns != [] {
      NestingIsCovered(funcs, chain, ns[0], f);
      NestingIsCoveredAll(funcs, chain, ns[1..], f);
    }
  }

  // ---- Conservation ----

  /** Control-flow nodes of a subtree that have an owner at all. */
  ghost function Owned(funcs: seq<Func>, chain: seq<Node>, n: Node): nat
    decreases n, 1
  {
    (if Owner(funcs, chain + [n]).Some? && IsControl(n) then 1 else 0)
    + OwnedAll(funcs, chain + [n], n.children)
  }

  ghost function OwnedAll(funcs: seq<Func>, chain: seq<Node>, ns: seq<Node>): nat
    decreases ns, 0
  {
    if ns == [] then 0 else Owned(funcs, chain, ns[0]) + OwnedAll(funcs, chain, ns[1..])
  }

  /** The counts of the first `k` rows together. */
  ghost function TotalCount(rows: seq<Row>, k: nat): nat
    requires k <= |rows|
  {
    if k == 0 then 0 else TotalCount(rows, k - 1) + Count(rows[k - 1])
  }

  // The same over the tallies of the first `k` functions: of one node alone, of a subtree,
  // of a list of subtrees.
  ghost function OwnTotal(funcs: seq<Func>, chain: seq<Node>, k: nat): nat
    requires chain != []
  {
    if k == 0 then 0 else OwnTotal(funcs, chain, k - 1) + Count(Own(funcs, chain, k - 1))
  }

  ghost function TallyTotal(funcs: seq<Func>, chain: seq<Node>, n: Node, k: nat): nat {
    if k == 0 then 0 else TallyTotal(funcs, chain, n, k - 1) + Count(Tally(funcs, chain, n, k - 1))
  }

  ghost function TallyAllTotal(funcs: seq<Func>, chain: seq<Node>, ns: seq<Node>, k: nat): nat {
    if k == 0 then 0 else TallyAllTotal(funcs, chain, ns, k - 1) + Count(TallyAll(funcs, chain, ns, k - 1))
  }

  lemma CountOwn(funcs: seq<Func>, chain: seq<Node>, f: nat)
    requires chain != []
    ensures Count(Own(funcs, chain, f)) ==
      if Owner(funcs, chain) == Some(f) && IsControl(chain[|chain| - 1]) then 1 else 0
  {
    hide Owner, Run;
  }

  /** A node is counted for its owner and for nobody else. */
  lemma {:induction false} OwnTotalIsOne(funcs: seq<Func>, chain: seq<Node>, k: nat)
    requires chain != []
    ensures OwnTotal(funcs, chain, k) ==
      if Owner(funcs, chain).Some? && Owner(funcs, chain).value < k && IsControl(chain[|chain| - 1]) then 1 else 0
  {
    hide Owner, Own, Count, IsControl;
    if k > 0 {
      OwnTotalIsOne(funcs, chain, k - 1);
      CountOwn(funcs, chain, k - 1);
    }
  }

  lemma {:induction false} TallyTotalSplits(funcs: seq<Func>, chain: seq<Node>, n: Node, k: nat)
    ensures TallyTotal(funcs, chain, n, k) ==
      OwnTotal(funcs, chain + [n], k) + TallyAllTotal(funcs, chain + [n], n.children, k)
  {
    if k > 0 {
      TallyTotalSplits(funcs, chain, n, k - 1);
    }
  }

  lemma {:induction false} TallyAllTotalSplits(funcs: seq<Func>, chain: seq<Node>, ns: seq<Node>, k: nat)
    ensures TallyAllTotal(funcs, chain, ns, k) ==
      if ns == [] then 0 else TallyTotal(funcs, chain, ns[0], k) + TallyAllTotal(funcs, chain, ns[1..], k)
  {
    if k > 0 {
      TallyAllTotalSplits(funcs, chain, ns, k - 1);
    }
  }

  /** Nothing is counted twice and nothing owned is missed. */
  lemma {:induction false} TalliesCoverOwned(funcs: seq<Func>, chain: seq<Node>, n: Node)
    ensures TallyTotal(funcs, chain, n, |funcs|) == Owned(funcs, chain, n)
    decreases n, 1
  {
    TallyTotalSplits(funcs, chain, n, |funcs|);
    OwnTotalIsOne(funcs, chain + [n], |funcs|);
    TalliesCoverOwnedAll(funcs, chain + [n], n.children);
  }

  lemma {:induction false} TalliesCoverOwnedAll(funcs: seq<Func>, chain: seq<Node>, ns: seq<Node>)
    ensures TallyAllTotal(funcs, chain, ns, |funcs|) == OwnedAll(funcs, chain, ns)
    decreases ns, 0
  {
    TallyAllTotalSplits(funcs, chain, ns, |funcs|);
    if ns != [] {
      TalliesCoverOwned(funcs, chain, ns[0]);
      TalliesCoverOwnedAll(funcs, chain, ns[1..]);
    }
  }

  lemma {:induction false} TotalOfTallies(funcs: seq<Func>, n: Node, rows: seq<Row>, k: nat)
    requires k <= |rows| && forall f | 0 <= f < |rows| :: rows[f] == Tally(funcs, [], n, f)
    ensures TotalCount(rows, k) == TallyTotal(funcs, [], n, k)
  {
    if k > 0 {
      TotalOfTallies(funcs, n, rows, k - 1);
    }
  }
}
