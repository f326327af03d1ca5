/**
 * The metrics walk of engine_index_metrics.cpp: a binary search with a backward scan for the
 * containing function, and an explicit-stack walk that updates one row per function.
 */
module CstMetrics {
  import opened Basics
  import opened MetricLaws
  import opened Ownership

  /** `std::upper_bound`: the first function that starts after the offset. */
  method UpperBound(funcs: seq<Func>, offset: nat) returns (lo: nat)
    requires Sorted(funcs)
    ensures lo <= |funcs|
    ensures forall k | 0 <= k < lo :: funcs[k].start <= offset
    ensures forall k | lo <= k < |funcs| :: offset < funcs[k].start
  {
    lo := 0;
    var hi := |funcs|;
    while lo < hi
      invariant 0 <= lo <= hi <= |funcs|
      invariant forall k | 0 <= k < lo :: funcs[k].start <= offset
      invariant forall k | hi <= k < |funcs| :: offset < funcs[k].start
    {
      var mid := lo + (hi - lo) / 2;
      if offset < funcs[mid].start {
        hi := mid;
      } else {
        lo := mid + 1;
      }
    }
  }

  method FindContainingFunc(funcs: seq<Func>, offset: nat) returns (r: Option<nat>)
    requires Sorted(funcs)
    ensures r == Containing(funcs, offset)
  {
    var it: int := UpperBound(funcs, offset);
    while it != 0
      invariant 0 <= it <= |funcs|
      invariant forall k | it <= k < |funcs| :: !Contains(funcs[k], offset)
    {
      it := it - 1;
      if offset >= funcs[it].start && offset < funcs[it].end {
        return Some(it);
      }
    }
    return None;
  }

  // ---- The walk ----

  /** A stack entry; the ghost part is the chain of nodes above, which the walk never stores. */
  datatype Frame = Frame(node: Node, depth: nat, cur: Option<nat>)

  ghost predicate Faithful(funcs: seq<Func>, fr: Frame, chain: seq<Node>) {
    fr.depth == Run(funcs, chain) && fr.cur == Owner(funcs, chain)
  }

  ghost predicate AllFaithful(funcs: seq<Func>, stack: seq<Frame>, chains: seq<seq<Node>>) {
    |stack| == |chains| && forall i | 0 <= i < |stack| :: Faithful(funcs, stack[i], chains[i])
  }

  /** What the frames still on the stack will contribute to `f`. */
  ghost function Pending(funcs: seq<Func>, stack: seq<Frame>, chains: seq<seq<Node>>, f: nat): Row
    requires |stack| == |chains|
  {
    if stack == [] then EMPTY_ROW
    else
      var n := |stack| - 1;
      Join(Tally(funcs, chains[n], stack[n].node, f), Pending(funcs, stack[..n], chains[..n], f))
  }

  ghost function Size(n: Node): nat
    decreases n, 1
  {
    1 + SizeAll(n.children)
  }

  ghost function SizeAll(ns: seq<Node>): nat
    decreases ns, 0
  {
    if ns == [] then 0 else Size(ns[0]) + SizeAll(ns[1..])
  }

  ghost function StackSize(stack: seq<Frame>): nat {
    if stack == [] then 0 else Size(stack[|stack| - 1].node) + StackSize(stack[..|stack| - 1])
  }

  lemma PendingPush(funcs: seq<Func>, stack: seq<Frame>, chains: seq<seq<Node>>, fr: Frame, chain: seq<Node>, f: nat)
    requires |stack| == |chains|
    ensures Pending(funcs, stack + [fr], chains + [chain], f) ==
      Join(Tally(funcs, chain, fr.node, f), Pending(funcs, stack, chains, f))
    ensures StackSize(stack + [fr]) == Size(fr.node) + StackSize(stack)
  {
    assert (stack + [fr])[..|stack|] == stack && (chains + [chain])[..|stack|] == chains;
  }

  /** Children go on the stack last first, so that they come off first first. */
  method PushChildren(funcs: seq<Func>, stack: seq<Frame>, ghost chains: seq<seq<Node>>, node: Node, depth: nat,
                      cur: Option<nat>, ghost chain: seq<Node>)
    returns (stack': seq<Frame>, ghost chains': seq<seq<Node>>)
    requires AllFaithful(funcs, stack, chains) && Faithful(funcs, Frame(node, depth, cur), chain)
    ensures AllFaithful(funcs, stack', chains')
    ensures StackSize(stack') == StackSize(stack) + SizeAll(node.children)
    ensures forall f: nat ::
              Pending(funcs, stack', chains', f) ==
              Join(TallyAll(funcs, chain, node.children, f), Pending(funcs, stack, chains, f))
  {
    stack', chains' := stack, chains;
    var i := |node.children|;
    while i > 0
      invariant 0 <= i <= |node.children|
      invariant AllFaithful(funcs, stack', chains')
      invariant StackSize(stack') == StackSize(stack) + SizeAll(node.children[i..])
      invariant forall f: nat ::
                  Pending(funcs, stack', chains', f) ==
                  Join(TallyAll(funcs, chain, node.children[i..], f), Pending(funcs, stack, chains, f))
    {
      ghost var tail := node.children[i - 1..];
      assert tail[1..] == node.children[i..];
      var fr := Frame(node.children[i - 1], depth, cur);
      forall f: nat {
        PendingPush(funcs, stack', chains', fr, chain, f);
      }
      stack', chains' := stack' + [fr], chains' + [chain];
      i := i - 1;
    }
    assert node.children[0..] == node.children;
  }

  /** Owner and depth of a node from those of its parent. */
  method Enter(funcs: seq<Func>, frame: Frame, ghost chain: seq<Node>) returns (depth: nat, owner: Option<nat>)
    requires Sorted(funcs) && chain != [] && chain[|chain| - 1] == frame.node
    requires Faithful(funcs, frame, chain[..|chain| - 1])
    ensures owner == Owner(funcs, chain)
    ensures depth == if owner == frame.cur then frame.depth else 0
  {
    var found := FindContainingFunc(funcs, frame.node.start);
    depth, owner := frame.depth, frame.cur;
    if found.Some? && found != frame.cur {
      depth, owner := 0, found;
    }
  }

  /** The row updates for one node. */
  method Record(funcs: seq<Func>, rows: seq<Row>, node: Node, depth: nat, owner: Option<nat>, ghost chain: seq<Node>)
    returns (rows': seq<Row>, depth': nat)
    requires |rows| == |funcs| && chain != [] && chain[|chain| - 1] == node
    requires owner == Owner(funcs, chain)
    requires depth == if Owner(funcs, chain[..|chain| - 1]) == owner then Run(funcs, chain[..|chain| - 1]) else 0
    ensures |rows'| == |funcs| && depth' == Run(funcs, chain)
    ensures forall f | 0 <= f < |funcs| :: rows'[f] == Join(rows[f], Own(funcs, chain, f))
  {
    rows', depth' := rows, depth;
    if owner.Some? && (node.kind.Branch? || node.kind.Loop?) {
      var o := owner.value;
      if node.kind.Branch? {
        rows' := rows'[o := rows'[o].(branches := rows'[o].branches + 1)];
      } else {
        rows' := rows'[o := rows'[o].(loops := rows'[o].loops + 1)];
      }
      depth' := depth' + 1;
      if depth' > rows'[o].nesting {
        rows' := rows'[o := rows'[o].(nesting := depth')];
      }
    }
  }

  lemma JoinAssociates(a: Row, b: Row, c: Row, d: Row)
    ensures Join(Join(a, b), Join(c, d)) == Join(a, Join(Join(b, c), d))
  {
  }

  lemma PendingPop(funcs: seq<Func>, stack: seq<Frame>, chains: seq<seq<Node>>, f: nat)
    requires stack != [] && |stack| == |chains|
    ensures var n := |stack| - 1;
      var chain := chains[n] + [stack[n].node];
      && Pending(funcs, stack, chains, f) ==
         Join(Join(Own(funcs, chain, f), TallyAll(funcs, chain, stack[n].node.children, f)),
              Pending(funcs, stack[..n], chains[..n], f))
      && StackSize(stack) == 1 + SizeAll(stack[n].node.children) + StackSize(stack[..n])
  {
    hide Own, Join;
  }

  /** Before the first step everything is still pending. */
  lemma WalkStart(funcs: seq<Func>, root: Node)
    ensures AllFaithful(funcs, [Frame(root, 0, None)], [[]])
    ensures forall f: nat ::
              Join(EMPTY_ROW, Pending(funcs, [Frame(root, 0, None)], [[]], f)) == Tally(funcs, [], root, f)
    ensures forall row, f: nat :: Join(row, Pending(funcs, [], [], f)) == row
  {
    hide Tally;
    forall f: nat
      ensures Pending(funcs, [Frame(root, 0, None)], [[]], f) == Join(Tally(funcs, [], root, f), EMPTY_ROW)
    {
      PendingPush(funcs, [], [], Frame(root, 0, None), [], f);
    }
  }

  /** One turn of the loop: a node off the stack, its row updated, its children on the stack. */
  method WalkStep(funcs: seq<Func>, stack: seq<Frame>, rows: seq<Row>, ghost chains: seq<seq<Node>>)
    returns (stack': seq<Frame>, rows': seq<Row>, ghost chains': seq<seq<Node>>)
    requires Sorted(funcs) && stack != [] && |rows| == |funcs| && AllFaithful(funcs, stack, chains)
    ensures |rows'| == |funcs| && AllFaithful(funcs, stack', chains')
    ensures StackSize(stack') < StackSize(stack)
    ensures forall f | 0 <= f < |funcs| ::
              Join(rows'[f], Pending(funcs, stack', chains', f)) == Join(rows[f], Pending(funcs, stack, chains, f))
  {
    hide Pending, Tally, TallyAll, Own, Join, StackSize, SizeAll, Run, Owner;
    var last := |stack| - 1;
    var frame := stack[last];
    ghost var chain := chains[last] + [frame.node];
    assert chain[..|chain| - 1] == chains[last];
    var depth, owner := Enter(funcs, frame, chain);
    rows', depth := Record(funcs, rows, frame.node, depth, owner, chain);
    stack', chains' := PushChildren(funcs, stack[..last], chains[..last], frame.node, depth, owner, chain);
    forall f | 0 <= f < |funcs|
      ensures Join(rows'[f], Pending(funcs, stack', chains', f)) == Join(rows[f], Pending(funcs, stack, chains, f))
    {
      PendingPop(funcs, stack, chains, f);
      JoinAssociates(rows[f], Own(funcs, chain, f), TallyAll(funcs, chain, frame.node.children, f),
                     Pending(funcs, stack[..last], chains[..last], f));
    }
    PendingPop(funcs, stack, chains, 0);
  }

  /** The whole walk: every function ends with exactly its tally over the tree. */
  method Walk(funcs: seq<Func>, root: Node) returns (rows: seq<Row>)
    requires Sorted(funcs)
    ensures |rows| == |funcs|
    ensures forall f | 0 <= f < |funcs| :: rows[f] == Tally(funcs, [], root, f)
    ensures forall f | 0 <= f < |funcs| :: IsRowOf(funcs, root, f, rows[f])
  {
    hide IsRowOf, Pending, Tally, Join, StackSize, Faithful;
    WalkStart(funcs, root);
    rows := seq(|funcs|, _ => EMPTY_ROW);
    var stack := [Frame(root, 0, None)];
    ghost var chains: seq<seq<Node>> := [[]];
    while stack != []
      invariant |rows| == |funcs| && |stack| == |chains| && AllFaithful(funcs, stack, chains)
      invariant forall f | 0 <= f < |funcs| ::
                  Join(rows[f], Pending(funcs, stack, chains, f)) == Tally(funcs, [], root, f)
      decreases StackSize(stack)
    {
      stack, rows, chains := WalkStep(funcs, stack, rows, chains);
    }
    assert chains == [];
    forall f | 0 <= f < |funcs| ensures IsRowOf(funcs, root, f, rows[f]) {
      TallyIsRow(funcs, root, f);
    }
  }

  // ---- Finalisation ----

  datatype Metrics = Metrics(row: Row, cyclomatic: nat, cognitive: nat)

  /** The metrics of every function over the syntax tree of its file. */
  method Compute(funcs: seq<Func>, root: Node) returns (result: seq<Metrics>)
    requires Sorted(funcs)
    ensures |result| == |funcs|
    ensures forall f | 0 <= f < |funcs| :: result[f].row == Tally(funcs, [], root, f)
    ensures forall f | 0 <= f < |funcs| :: IsRowOf(funcs, root, f, result[f].row)
    ensures forall m | m in result :: m.cyclomatic == 1 + m.row.branches + m.row.loops
    ensures forall m | m in result :: m.row.nesting <= m.row.branches + m.row.loops
    ensures forall m | m in result :: m.cognitive == m.cyclomatic + m.row.nesting <= 2 * m.cyclomatic - 1
    ensures CountAll(result) == Owned(funcs, [], root)
  {
    hide Tally, Owned, TallyTotal, IsRowOf;
    var rows := Walk(funcs, root);
    result := [];
    for f := 0 to |funcs|
      invariant |result| == f
      invariant forall g | 0 <= g < f ::
                  && result[g].row == rows[g] == Tally(funcs, [], root, g) && IsRowOf(funcs, root, g, rows[g])
                  && result[g].cyclomatic == 1 + rows[g].branches + rows[g].loops
                  && result[g].cognitive == result[g].cyclomatic + rows[g].nesting
                  && rows[g].nesting <= rows[g].branches + rows[g].loops
      invariant CountAll(result) == TotalCount(rows, f)
    {
      NestingIsCovered(funcs, [], root, f);
      var cyclomatic := 1 + rows[f].branches + rows[f].loops;
      ghost var before := result;
      result := result + [Metrics(rows[f], cyclomatic, cyclomatic + rows[f].nesting)];
      assert result[..f] == before;
    }
    TotalOfTallies(funcs, root, rows, |rows|);
    TalliesCoverOwned(funcs, [], root);
  }

  /** All branches and loops of all functions. */
  ghost function CountAll(ms: seq<Metrics>): nat {
    if ms == [] then 0 else CountAll(ms[..|ms| - 1]) + Count(ms[|ms| - 1].row)
  }
}
