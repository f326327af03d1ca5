/**
 * The order in which the breadth-first pass of the automaton visits a trie, and why every
 * link it reads has already been laid.
 */
module BreadthFirst {
  import opened Basics
  import opened TriePaths

  /** The stored children of `p` by letters below `n`, in letter order. */
  ghost function Kids(paths: set<Path>, p: Path, n: nat): seq<Path>
    requires n <= 256
  {
    if n == 0 then []
    else Kids(paths, p, n - 1) + if Step(p, n - 1) in paths then [Step(p, n - 1)] else []
  }

  lemma {:induction false} KidsAre(paths: set<Path>, p: Path, n: nat)
    requires n <= 256
    ensures NoRepeats(Kids(paths, p, n))
    ensures forall q :: q in Kids(paths, p, n) <==> q in paths && q.Step? && q.up == p && q.letter < n
  {
    if n > 0 {
      KidsAre(paths, p, n - 1);
    }
  }

  /** `order` holds what was queued so far; the nodes before `head` have been expanded. */
  ghost predicate Progress(paths: set<Path>, order: seq<Path>, head: nat) {
    && head <= |order| && NoRepeats(order)
    && (forall p | p in order :: p in paths && p.Step?)
    && (forall j, k | 0 <= j <= k < |order| :: Len(order[j]) <= Len(order[k]))
    && (forall p | p in paths && p.Step? :: p in order <==> p.up.Root? || p.up in order[..head])
  }

  lemma Start(paths: set<Path>)
    ensures Progress(paths, Kids(paths, Root, 256), 0)
  {
    KidsAre(paths, Root, 256);
    assert forall k | 0 <= k < |Kids(paths, Root, 256)| :: Kids(paths, Root, 256)[k] in Kids(paths, Root, 256);
  }

  /** New children are no shorter than anything queued, and were not queued before. */
  lemma KidsComeLast(paths: set<Path>, order: seq<Path>, head: nat, p: Path)
    requires Progress(paths, order, head) && head < |order| && p in order
    ensures Len(p) <= Len(order[head]) + 1 && p.up != order[head]
  {
    assert order[head] in order;
    if p.up.Step? {
      var j :| 0 <= j < head && order[j] == p.up;
    }
  }

  lemma Advance(paths: set<Path>, order: seq<Path>, head: nat)
    requires Progress(paths, order, head) && head < |order|
    ensures Progress(paths, order + Kids(paths, order[head], 256), head + 1)
    ensures order[head] !in order[..head]
  {
    var p := order[head];
    var kids := Kids(paths, p, 256);
    var next := order + kids;
    KidsAre(paths, p, 256);
    forall q | q in order ensures Len(q) <= Len(p) + 1 && q.up != p {
      KidsComeLast(paths, order, head, q);
    }
    assert forall k | 0 <= k < |next| :: if k < |order| then next[k] in order else next[k] in kids;
    assert next[..head + 1] == order[..head] + [p];
  }

  /** Every node no deeper than the one being expanded has already been queued. */
  lemma {:induction false} ShallowIsQueued(paths: set<Path>, order: seq<Path>, head: nat, p: Path)
    requires Closed(paths) && Progress(paths, order, head)
    requires p in paths && p.Step?
    requires head < |order| ==> Len(p) <= Len(order[head])
    ensures p in order
  {
    if p.up.Step? {
      ShallowIsQueued(paths, order, head, p.up);
      var j :| 0 <= j < |order| && order[j] == p.up;
      assert head < |order| ==> j < head;
      assert order[..head][j] == p.up;
    }
  }

  /** A list of distinct stored words is no longer than the store. */
  lemma {:induction false} DistinctFits(paths: set<Path>, order: seq<Path>)
    requires NoRepeats(order) && forall p | p in order :: p in paths
    ensures |order| <= |paths|
  {
    if order != [] {
      var last := order[|order| - 1];
      var front := order[..|order| - 1];
      assert last in order;
      assert forall p | p in front :: p in order && p in paths - {last};
      DistinctFits(paths - {last}, front);
    }
  }
}
