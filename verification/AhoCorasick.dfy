/**
 * The multi-pattern automaton of ahocorasick.h: a trie of heap nodes, failure and
 * dictionary-suffix links laid by a breadth-first pass, and a one-pass scan.
 */
module AhoCorasick {
  import opened Basics
  import opened TriePaths
  import opened BreadthFirst
  import opened LongestMatch

  class Node {
    const next: array<Node?>
    var fail: Node?
    var outLink: Node?
    var output: int
    var outputLen: nat

    constructor ()
      ensures next.Length == 256 && fresh(next)
      ensures forall c: Byte :: next[c] == null
      ensures fail == null && outLink == null && output == 0 && outputLen == 0
    {
      next := new Node?[256](_ => null);
      fail, outLink, output, outputLen := null, null, 0, 0;
    }
  }

  /** Nodes and child tables are all different, and the trie is closed under parents. */
  ghost predicate ShapeOf(nodes: map<Path, Node>, tables: map<array<Node?>, Path>, repr: set<Node>, root: Node) {
    && Closed(nodes.Keys) && nodes[Root] == root
    && (forall p | p in nodes :: nodes[p] in repr && nodes[p].next.Length == 256)
    && (forall p | p in nodes :: nodes[p].next in tables && tables[nodes[p].next] == p)
  }

  /** Exactly the nodes of patterns carry an output, and it is the pattern's. */
  ghost predicate OutputsOf(nodes: map<Path, Node>, repr: set<Node>, dict: map<Path, int>)
    requires forall p | p in nodes :: nodes[p] in repr
    reads repr`output, repr`outputLen
  {
    && Root !in dict && dict.Keys <= nodes.Keys
    && (forall p | p in nodes :: nodes[p].output == IdOf(dict, p))
    && (forall p | p in nodes && nodes[p].output != 0 :: nodes[p].outputLen == Len(p))
  }

  lemma GrowShape(nodes: map<Path, Node>, tables: map<array<Node?>, Path>, repr: set<Node>, root: Node,
                  p: Path, c: Byte, n: Node)
    requires ShapeOf(nodes, tables, repr, root) && p in nodes && Step(p, c) !in nodes
    requires n.next.Length == 256 && n.next !in tables
    ensures ShapeOf(nodes[Step(p, c) := n], tables[n.next := Step(p, c)], repr + {n}, root)
    ensures nodes[Step(p, c) := n].Keys == nodes.Keys + {Step(p, c)}
  {
  }

  lemma GrowOutputs(nodes: map<Path, Node>, repr: set<Node>, dict: map<Path, int>, p: Path, c: Byte, n: Node)
    requires forall q | q in nodes :: nodes[q] in repr
    requires OutputsOf(nodes, repr, dict) && Step(p, c) !in nodes && n.output == 0
    ensures OutputsOf(nodes[Step(p, c) := n], repr + {n}, dict)
  {
  }

  class Automaton {
    const root: Node
    // Every node by its path, the owner of every child table, all nodes as a frame, and
    // the patterns added so far with the identifier given last.
    ghost var nodes: map<Path, Node>
    ghost var tables: map<array<Node?>, Path>
    ghost var repr: set<Node>
    ghost var dict: map<Path, int>

    ghost function At(p: Path): Node?
      reads this
    {
      if p in nodes then nodes[p] else null
    }

    ghost predicate Shape()
      reads this
    {
      ShapeOf(nodes, tables, repr, root)
    }

    ghost predicate Edges()
      requires Shape()
      reads this, tables.Keys
    {
      forall p, c: Byte {:trigger nodes[p].next[c]} | p in nodes :: nodes[p].next[c] == At(Step(p, c))
    }

    ghost predicate Outputs()
      requires Shape()
      reads this, repr`output, repr`outputLen
    {
      OutputsOf(nodes, repr, dict)
    }

    ghost predicate RootUnlinked()
      reads root`fail, root`outLink
    {
      root.fail == null && root.outLink == null
    }

    /** What every operation keeps about the trie itself. */
    ghost predicate Trie()
      reads this, tables.Keys, repr, root
    {
      Shape() && Edges() && Outputs() && RootUnlinked()
    }

    constructor ()
      ensures Trie() && fresh(repr) && fresh(tables.Keys)
      ensures dict == map[] && nodes.Keys == {Root}
    {
      var r := new Node();
      root := r;
      nodes := map[Root := r];
      tables := map[r.next := Root];
      repr := {r};
      dict := map[];
    }

    /** The trie only grew, and only by objects that did not exist before. */
    twostate predicate Grew()
      reads this
    {
      && (forall n | n in repr :: n in old(repr) || fresh(n))
      && (forall t | t in tables :: t in old(tables) || fresh(t))
    }

    lemma RootIsStored()
      requires Trie()
      ensures Root in nodes && nodes[Root] == root && Root !in dict
      ensures forall p | p in nodes :: nodes[p].next in tables && nodes[p] in repr
    {
    }

    lemma EdgeFacts(p: Path, c: Byte)
      requires Trie() && p in nodes
      ensures nodes[p].next.Length == 256 && nodes[p].next[c] == At(Step(p, c))
      ensures nodes[p].next in tables
    {
    }

    /** Edges after hanging `n` at `p` by `c`, given the child tables as they were before. */
    lemma HungEdges(before: map<Path, Node>, links: map<Path, seq<Node?>>, p: Path, c: Byte, n: Node)
      requires Shape() && nodes == before[Step(p, c) := n]
      requires Closed(before.Keys) && p in before && Step(p, c) !in before
      requires LinksOf(before, links)
      requires forall q | q in before :: before[q].next[..] == if q == p then links[p][c := n] else links[q]
      requires n.next.Length == 256 && forall d: Byte :: n.next[d] == null
      ensures Edges()
    {
      forall q, d: Byte | q in nodes
        ensures nodes[q].next[d] == At(Step(q, d))
      {
        if q in before {
          assert nodes[q].next[d] == nodes[q].next[..][d];
          assert links[q][d] == if Step(q, d) in before then before[Step(q, d)] else null;
        } else {
          assert Step(q, d) !in before;
        }
      }
    }

    /** A copy of every child table of a trie. */
    ghost predicate LinksOf(before: map<Path, Node>, links: map<Path, seq<Node?>>) {
      && links.Keys == before.Keys && (forall q | q in before :: |links[q]| == 256)
      && (forall q, d: Byte {:trigger links[q][d]} | q in before ::
            links[q][d] == if Step(q, d) in before then before[Step(q, d)] else null)
    }

    lemma CopyLinks() returns (links: map<Path, seq<Node?>>)
      requires Trie()
      ensures LinksOf(nodes, links) && forall q | q in nodes :: nodes[q].next[..] == links[q]
      ensures Closed(nodes.Keys) && forall p | p in nodes :: nodes[p].next in tables && nodes[p].next.Length == 256
      ensures forall p, q | p in nodes && q in nodes && p != q :: nodes[p].next != nodes[q].next
      ensures forall p | p in nodes :: nodes[p] in repr
    {
      links := map q | q in nodes :: nodes[q].next[..];
    }

    /** The assignment to one entry of one child table, seen against a copy of all tables. */
    method SetEdge(ghost p: Path, cur: Node, c: Byte, n: Node, ghost links: map<Path, seq<Node?>>)
      requires Shape() && p in nodes && cur == nodes[p]
      requires LinksOf(nodes, links) && forall q | q in nodes :: nodes[q].next[..] == links[q]
      modifies cur.next
      ensures forall q | q in nodes :: nodes[q].next[..] == if q == p then links[p][c := n] else links[q]
    {
      cur.next[c] := n;
      forall q | q in nodes && q != p
        ensures nodes[q].next[..] == links[q]
      {
        assert nodes[q].next != cur.next;
      }
    }

    /** Hang the new node `n` under `cur`. */
    method Hang(ghost p: Path, cur: Node, c: Byte, n: Node)
      requires Trie() && p in nodes && cur == nodes[p] && Step(p, c) !in nodes
      requires n !in repr && n.next !in tables && n.next.Length == 256 && n.output == 0
      requires forall d: Byte :: n.next[d] == null
      modifies this, cur.next
      ensures Trie() && nodes == old(nodes)[Step(p, c) := n] && dict == old(dict)
      ensures repr == old(repr) + {n} && tables.Keys == old(tables.Keys) + {n.next}
    {
      hide ShapeOf, OutputsOf, Edges, Closed, LinksOf;
      ghost var links := CopyLinks();
      ghost var before := nodes;
      GrowShape(nodes, tables, repr, root, p, c, n);
      GrowOutputs(nodes, repr, dict, p, c, n);
      SetEdge(p, cur, c, n, links);
      Record(p, c, n);
      HungEdges(before, links, p, c, n);
    }

    ghost method Record(p: Path, c: Byte, n: Node)
      modifies this
      ensures nodes == old(nodes)[Step(p, c) := n] && tables == old(tables)[n.next := Step(p, c)]
      ensures repr == old(repr) + {n} && dict == old(dict)
    {
      nodes, tables, repr := nodes[Step(p, c) := n], tables[n.next := Step(p, c)], repr + {n};
    }

    /** One iteration of the insertion loop. */
    method Descend(ghost p: Path, cur: Node, c: Byte) returns (child: Node)
      requires Trie() && p in nodes && cur == nodes[p]
      modifies this, cur.next
      ensures Trie() && Grew()
      ensures nodes.Keys == old(nodes.Keys) + {Step(p, c)} && dict == old(dict)
      ensures child == nodes[Step(p, c)]
    {
      EdgeFacts(p, c);
      hide ShapeOf, OutputsOf, Edges;
      if cur.next[c] == null {
        var n := new Node();
        Hang(p, cur, c, n);
      }
      EdgeFacts(p, c);
      child := cur.next[c];
    }

    /** The insertion loop: walk from the root along `pattern`, creating what is missing. */
    method Insert(pattern: Word) returns (cur: Node)
      requires Trie()
      modifies this, repr, tables.Keys
      ensures Trie() && Grew()
      ensures nodes.Keys == old(nodes.Keys) + Prefixes(PathOf(pattern)) && dict == old(dict)
      ensures PathOf(pattern) in nodes && cur == nodes[PathOf(pattern)]
    {
      hide Trie, Shape, Closed, PathOf, Prefixes;
      RootIsStored();
      PrefixesOfRoot(pattern);
      cur := root;
      var i := 0;
      while i < |pattern|
        invariant 0 <= i <= |pattern|
        invariant Trie() && Grew()
        invariant nodes.Keys == old(nodes.Keys) + Prefixes(PathOf(pattern[..i])) && dict == old(dict)
        invariant PathOf(pattern[..i]) in nodes && cur == nodes[PathOf(pattern[..i])]
      {
        PathOfExtend(pattern, i);
        RootIsStored();
        cur := Descend(PathOf(pattern[..i]), cur, pattern[i]);
        i := i + 1;
      }
      assert pattern[..|pattern|] == pattern;
    }

    /** The node reached by the insertion loop becomes the end of a pattern. */
    method Mark(cur: Node, pattern: Word, id: int)
      requires Trie() && PathOf(pattern) in nodes && cur == nodes[PathOf(pattern)] && pattern != []
      modifies this`dict, cur`output, cur`outputLen
      ensures Trie() && dict == old(dict)[PathOf(pattern) := id]
    {
      PathOfLen(pattern);
      cur.output := id;
      cur.outputLen := |pattern|;
      dict := dict[PathOf(pattern) := id];
    }

    method AddPattern(pattern: Word, id: int)
      requires Trie()
      modifies this, repr, tables.Keys
      ensures Trie() && Grew()
      ensures dict == if pattern == [] then old(dict) else old(dict)[PathOf(pattern) := id]
      ensures nodes.Keys == old(nodes.Keys) + Prefixes(PathOf(pattern))
    {
      if pattern == [] {
        return;
      }
      var cur := Insert(pattern);
      Mark(cur, pattern, id);
    }

    // ---- Failure and dictionary-suffix links ----

    ghost function Target(l: Link): Node?
      reads this
    {
      match l
      case NoLink => null
      case To(p) => At(p)
    }

    /** Both links of the node at `p` are final. */
    ghost predicate Linked(p: Path)
      requires Shape() && p in nodes && p.Step?
      reads this, repr`fail, repr`outLink
    {
      && nodes[p].fail == At(FailOf(nodes.Keys, p))
      && nodes[p].outLink == Target(OutOf(dict, p))
    }

    /** Every node of depth at most `depth` is linked. */
    ghost predicate LinkedUpTo(depth: nat)
      requires Shape()
      reads this, repr`fail, repr`outLink
    {
      forall p | p in nodes && p.Step? && Len(p) <= depth :: Linked(p)
    }

    ghost predicate Built()
      reads this, tables.Keys, repr, root
    {
      Trie() && forall p | p in nodes && p.Step? :: Linked(p)
    }

    /**
     * The failure-chain loop: from the failure target of the parent at `p`, the first node
     * that has a child by `c`.
     */
    method ChainSearch(ghost p: Path, cur: Node, c: Byte) returns (f: Node?)
      requires Trie() && p in nodes && p.Step? && cur == nodes[p]
      requires LinkedUpTo(Len(p))
      ensures var goal := FailOf(nodes.Keys, Step(p, c));
        if f == null then goal == Root else f in repr && f.next.Length == 256 && goal.Step? && f.next[c] == At(goal)
    {
      ghost var goal := FailOf(nodes.Keys, Step(p, c));
      ghost var at := FailOf(nodes.Keys, p);
      LongestInExtend(nodes.Keys, Tail(p), c);
      FailIsShorter(nodes.Keys, p);
      f := cur.fail;
      while f != null && f.next[c] == null
        invariant f != null ==> at in nodes && f == nodes[at] && Len(at) < Len(p)
        invariant f != null ==> goal == LongestIn(nodes.Keys, Step(at, c))
        invariant f == null ==> goal == Root
        decreases if f == null then 0 else 1 + Len(at)
      {
        FailStep(nodes.Keys, at, c);
        f := f.fail;
        if at.Step? {
          FailIsShorter(nodes.Keys, at);
          at := FailOf(nodes.Keys, at);
        }
      }
    }

    /** Links that were final stay final. */
    twostate predicate KeepsLinked()
      requires Shape() && old(Shape()) && nodes.Keys == old(nodes.Keys)
      reads this, repr`fail, repr`outLink
    {
      forall p | p in nodes && p.Step? && old(Linked(p)) :: Linked(p)
    }

    /** Writing the right links into one node leaves the trie and all other links alone. */
    method SetLinks(ghost p: Path, n: Node, f: Node?, out: Node?)
      requires Trie() && p in nodes && p.Step? && n == nodes[p]
      requires f == At(FailOf(nodes.Keys, p)) && out == Target(OutOf(dict, p))
      modifies n`fail, n`outLink
      ensures Trie() && Linked(p) && KeepsLinked()
    {
      hide Edges, Outputs, FailOf, OutOf, Closed;
      RootIsStored();
      assert n.next != root.next;
      assert forall r | r in nodes && r != p :: nodes[r].next != n.next;
      n.fail := f;
      n.outLink := out;
    }

    /** The link targets of one child, computed from links of nodes no deeper than its parent. */
    method FindTargets(ghost p: Path, cur: Node, c: Byte) returns (failNode: Node, out: Node?)
      requires Trie() && p in nodes && p.Step? && cur == nodes[p]
      requires Step(p, c) in nodes && LinkedUpTo(Len(p))
      ensures failNode == At(FailOf(nodes.Keys, Step(p, c))) && out == Target(OutOf(dict, Step(p, c)))
    {
      ghost var goal := FailOf(nodes.Keys, Step(p, c));
      FailIsShorter(nodes.Keys, Step(p, c));
      OutViaFail(nodes.Keys, dict, Step(p, c));
      var f := ChainSearch(p, cur, c);
      failNode := if f != null then f.next[c] else root;
      assert failNode == nodes[goal];
      out := if failNode != root && failNode.output != 0 then failNode else failNode.outLink;
    }

    /** The links of one child. */
    method LinkChild(ghost p: Path, cur: Node, c: Byte, child: Node)
      requires Trie() && p in nodes && p.Step? && cur == nodes[p]
      requires Step(p, c) in nodes && child == nodes[Step(p, c)]
      requires LinkedUpTo(Len(p))
      modifies child`fail, child`outLink
      ensures Trie() && Linked(Step(p, c)) && KeepsLinked()
    {
      hide FailOf, OutOf, Linked, Edges, OutputsOf, Target, Closed, LinkedUpTo;
      var failNode, out := FindTargets(p, cur, c);
      SetLinks(Step(p, c), child, failNode, out);
    }

    /** `q` lists the nodes at the paths `ps`. */
    ghost predicate AllAt(q: seq<Node>, ps: seq<Path>)
      reads this
    {
      |q| == |ps| && forall k | 0 <= k < |q| :: ps[k] in nodes && q[k] == nodes[ps[k]]
    }

    /** The first loop of the pass: children of the root fail to the root. */
    method LinkTop() returns (q: seq<Node>)
      requires Trie()
      modifies repr`fail, repr`outLink
      ensures Trie() && AllAt(q, Kids(nodes.Keys, Root, 256))
      ensures forall p | p in Kids(nodes.Keys, Root, 256) :: p in nodes && p.Step? && Linked(p)
    {
      hide Edges, OutputsOf, ShapeOf, RootUnlinked, Linked, FailOf, OutOf, Closed;
      RootIsStored();
      q := [];
      for i := 0 to 256
        invariant Trie() && AllAt(q, Kids(nodes.Keys, Root, i))
        invariant forall p | p in Kids(nodes.Keys, Root, i) :: p in nodes && p.Step? && Linked(p)
      {
        KidsAre(nodes.Keys, Root, i);
        EdgeFacts(Root, i);
        TopLinks(nodes.Keys, dict, i);
        var n := root.next[i];
        if n != null {
          SetLinks(Step(Root, i), n, root, null);
          q := q + [n];
        }
      }
    }

    /** The body of the second loop: link and queue every child of the dequeued node. */
    method LinkChildren(ghost p: Path, cur: Node) returns (q: seq<Node>)
      requires Trie() && p in nodes && p.Step? && cur == nodes[p]
      requires LinkedUpTo(Len(p))
      modifies repr`fail, repr`outLink
      ensures Trie() && AllAt(q, Kids(nodes.Keys, p, 256)) && KeepsLinked()
      ensures forall k | k in Kids(nodes.Keys, p, 256) :: k in nodes && k.Step? && Linked(k)
    {
      hide Edges, Outputs, RootUnlinked, Linked, FailOf, OutOf, Closed;
      q := [];
      for i := 0 to 256
        invariant Trie() && AllAt(q, Kids(nodes.Keys, p, i)) && KeepsLinked()
        invariant forall k | k in Kids(nodes.Keys, p, i) :: k in nodes && k.Step? && Linked(k)
      {
        KidsAre(nodes.Keys, p, i);
        EdgeFacts(p, i);
        var child := cur.next[i];
        if child != null {
          LinkChild(p, cur, i, child);
          q := q + [child];
        }
      }
    }

    /** What the breadth-first loop keeps: queued nodes are linked, and the queue is `order[head..]`. */
    ghost predicate Queued(q: seq<Node>, order: seq<Path>, head: nat)
      requires Shape()
      reads this, repr`fail, repr`outLink
    {
      && Progress(nodes.Keys, order, head) && AllAt(q, order[head..])
      && forall p | p in order :: Linked(p)
    }

    /** Everything no deeper than the next node to expand is linked; at the end, everything. */
    lemma QueuedAreLinked(q: seq<Node>, order: seq<Path>, head: nat)
      requires Shape() && Queued(q, order, head)
      ensures head < |order| ==> LinkedUpTo(Len(order[head]))
      ensures head == |order| ==> forall p | p in nodes && p.Step? :: Linked(p)
    {
      forall p | p in nodes && p.Step? && (head < |order| ==> Len(p) <= Len(order[head]))
        ensures Linked(p)
      {
        ShallowIsQueued(nodes.Keys, order, head, p);
      }
    }

    lemma AllAtAdvance(q: seq<Node>, order: seq<Path>, head: nat, kids: seq<Node>, more: seq<Path>)
      requires head < |order| && AllAt(q, order[head..]) && AllAt(kids, more)
      ensures AllAt(q[1..] + kids, (order + more)[head + 1..])
    {
      assert (order + more)[head + 1..] == order[head..][1..] + more;
    }

    /** One turn of the second loop. */
    method Expand(q: seq<Node>, ghost order: seq<Path>, ghost head: nat)
      returns (q': seq<Node>, ghost order': seq<Path>)
      requires Trie() && Queued(q, order, head) && q != []
      modifies repr`fail, repr`outLink
      ensures Trie() && Queued(q', order', head + 1)
    {
      ghost var p := order[head];
      QueuedAreLinked(q, order, head);
      assert p in order;
      var kids := LinkChildren(p, q[0]);
      q' := q[1..] + kids;
      order' := order + Kids(nodes.Keys, p, 256);
      Advance(nodes.Keys, order, head);
      AllAtAdvance(q, order, head, kids, Kids(nodes.Keys, p, 256));
    }

    method Build()
      requires Trie()
      modifies repr`fail, repr`outLink
      ensures Built()
    {
      var q := LinkTop();
      ghost var order, head := Kids(nodes.Keys, Root, 256), 0;
      Start(nodes.Keys);
      assert order[head..] == order;
      while q != []
        invariant Trie() && Queued(q, order, head)
        decreases |nodes.Keys| - head
      {
        DistinctFits(nodes.Keys, order);
        q, order := Expand(q, order, head);
        head := head + 1;
      }
      QueuedAreLinked(q, order, head);
    }

    // ---- The scan ----

    /** The failure loop of the scan, ending at the longest stored suffix of `text` read so far. */
    method NextState(ghost p: Path, start: Node, c: Byte) returns (cur: Node, ghost steps: nat)
      requires Built() && p in nodes && start == nodes[p]
      ensures LongestIn(nodes.Keys, Step(p, c)) in nodes && cur == nodes[LongestIn(nodes.Keys, Step(p, c))]
      ensures steps + Len(LongestIn(nodes.Keys, Step(p, c))) <= Len(p) + 1
    {
      ghost var at := p;
      cur, steps := start, 0;
      while cur != root && cur.next[c] == null
        invariant at in nodes && cur == nodes[at] && steps + Len(at) <= Len(p)
        invariant LongestIn(nodes.Keys, Step(at, c)) == LongestIn(nodes.Keys, Step(p, c))
        decreases Len(at)
      {
        FailStep(nodes.Keys, at, c);
        FailIsShorter(nodes.Keys, at);
        cur := cur.fail;
        at := FailOf(nodes.Keys, at);
        steps := steps + 1;
      }
      if cur.next[c] != null {
        cur := cur.next[c];
      } else {
        FailStep(nodes.Keys, at, c);
      }
    }

    /** All that the scan reads in a node, in terms of the patterns. */
    lemma NodeFacts(p: Path)
      requires Built() && p in nodes
      ensures nodes[p].output == IdOf(dict, p)
      ensures nodes[p].output != 0 ==> nodes[p].outputLen == Len(p)
      ensures Root !in dict && dict.Keys <= nodes.Keys && Closed(nodes.Keys)
      ensures match OutOf(dict, p)
        case NoLink => nodes[p].outLink == null
        case To(q) => q in nodes && nodes[p].outLink == nodes[q]
    {
      if OutOf(dict, p).To? {
        OutIsShorter(dict, p);
      }
    }

    /**
     * The dictionary-suffix chain from `cur`: keep the best hit so far unless a longer
     * pattern ends here.
     */
    method Collect(ghost text: Word, ghost e: nat, ghost p: Path, cur: Node, best: Hit)
      returns (best': Hit, ghost steps: nat)
      requires Built() && p in nodes && cur == nodes[p]
      requires e <= |text| && IsSuffix(p, PathOf(text[..e]))
      requires BestAlong(dict, text, e, Len(p) + 1, best)
      ensures BestAlong(dict, text, e, 0, best')
      ensures steps == |ShorterPatterns(dict, p)|
    {
      hide Built, Trie, BestAlong, ShorterPatterns, IsSuffix, OutOf;
      ghost var pats := dict;
      var o: Node? := cur;
      ghost var at := p;
      best', steps := best, 0;
      while o != null
        invariant pats == dict && Built()
        invariant o != null ==> at in nodes && o == nodes[at] && IsSuffix(at, PathOf(text[..e]))
        invariant BestAlong(pats, text, e, if o == null then 0 else Len(at) + 1, best')
        invariant steps + (if o == null then 0 else |ShorterPatterns(pats, at)|) == |ShorterPatterns(pats, p)|
        decreases if o == null then 0 else Len(at) + 1
      {
        NodeFacts(at);
        ChainStep(pats, text, e, at, best');
        if o.output != 0 && o.outputLen > best'.len {
          best' := Hit(o.output, o.outputLen);
        }
        o := o.outLink;
        if o != null {
          steps := steps + 1;
          at := OutOf(pats, at).path;
        }
      }
    }

    /** The character loop, up to the terminating NUL. */
    method Scan(t: Word) returns (best: Hit, ghost n: nat, ghost failSteps: nat, ghost outSteps: nat)
      requires Built()
      ensures n <= |t| && CString(t) == t[..n]
      ensures BestAlong(dict, t, n, 0, best)
      ensures failSteps <= n && outSteps == ChainWork(nodes.Keys, dict, t[..n])
    {
      hide *;
      ScanStart(t);
      NothingAtStart(dict, t);
      ghost var paths, pats := nodes.Keys, dict;
      var cur, i := root, 0;
      ghost var state := Root;
      best, failSteps, outSteps := Hit(0, 0), 0, 0;
      while i < |t| && t[i] != 0
        invariant paths == nodes.Keys && pats == dict && Built()
        invariant Root in paths && Closed(paths) && pats.Keys <= paths
        invariant 0 <= i <= |t| && forall j | 0 <= j < i :: t[j] != 0
        invariant state == LongestIn(paths, PathOf(t[..i])) && state in paths && cur == nodes[state]
        invariant BestAlong(pats, t, i, 0, best)
        invariant failSteps + Len(state) <= i
        invariant outSteps == ChainWork(paths, pats, t[..i])
      {
        ghost var work, more := 0, 0;
        ScanStep(paths, pats, t, i, best);
        cur, work := NextState(state, cur, t[i]);
        state := LongestIn(paths, PathOf(t[..i + 1]));
        best, more := Collect(t, i + 1, state, cur, best);
        failSteps, outSteps, i := failSteps + work, outSteps + more, i + 1;
      }
      n := i;
      CStringIs(t, i);
    }

    lemma ScanStart(t: Word)
      requires Built()
      ensures Root in nodes && nodes[Root] == root && Closed(nodes.Keys)
      ensures Root !in dict && dict.Keys <= nodes.Keys
      ensures LongestIn(nodes.Keys, PathOf(t[..0])) == Root && Len(Root) == 0
      ensures ChainWork(nodes.Keys, dict, t[..0]) == 0
    {
    }

    /** The scan of a C string; `None` is the null pointer. */
    method MatchCString(text: Option<Word>) returns (id: int, ghost failSteps: nat, ghost outSteps: nat)
      requires Built()
      ensures text.None? ==> id == 0
      ensures text.Some? ==> IsAnswer(dict, CString(text.value), id)
      ensures text.Some? ==> failSteps <= |CString(text.value)|
      ensures text.Some? ==> outSteps == ChainWork(nodes.Keys, dict, CString(text.value))
    {
      if text.None? {
        return 0, 0, 0;
      }
      var best: Hit;
      ghost var n;
      best, n, failSteps, outSteps := Scan(text.value);
      BestOfPrefix(dict, text.value, n, best);
      FinishedScan(dict, text.value[..n], best);
      id := best.id;
    }

    method Match(text: Word) returns (id: int)
      requires Built()
      ensures IsAnswer(dict, CString(text), id)
    {
      ghost var f, o;
      id, f, o := MatchCString(Some(text));
    }
  }
}
