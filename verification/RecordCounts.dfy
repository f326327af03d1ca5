/**
 * The record search that counts parameters and calls below a function, over parent links
 * that may form a cycle: what it counts when it ends, and exactly when it ends.
 */
module RecordCounts {
  import opened Basics

  datatype Kind = Parameter | Call | Other

  datatype Rec = Rec(id: nat, parentId: nat, kind: Kind)

  /** Ids are distinct, as the record container hands them out. */
  ghost predicate Distinct(rs: seq<Rec>) { forall i, j | 0 <= i < j < |rs| :: rs[i].id != rs[j].id }

  /** A parent id of zero means that there is no parent. */
  ghost predicate IsChild(rs: seq<Rec>, x: nat, c: nat) { x > 0 && exists r :: r in rs && r.id == c && r.parentId == x }

  /** Each id of the path is a child of the one before. */
  ghost predicate Chain(rs: seq<Rec>, path: seq<nat>) {
    forall i | 0 <= i < |path| - 1 :: IsChild(rs, path[i], path[i + 1])
  }

  ghost predicate Leads(rs: seq<Rec>, path: seq<nat>, f: nat, c: nat) {
    |path| >= 2 && path[0] == f && path[|path| - 1] == c && Chain(rs, path)
  }

  /** `c` is a proper descendant of `f`. */
  ghost predicate Below(rs: seq<Rec>, f: nat, c: nat) { exists path :: Leads(rs, path, f, c) }

  ghost function Ids(rs: seq<Rec>): set<nat> { set r | r in rs :: r.id }

  /** The descendants of one kind. */
  ghost function Counted(rs: seq<Rec>, f: nat, kind: Kind): set<nat> {
    set r | r in rs && r.kind == kind && Below(rs, f, r.id) :: r.id
  }

  // ---- The search as the code runs it ----

  function Children(rs: seq<Rec>, x: nat): (cs: seq<nat>) {
    if rs == [] then []
    else
      var last := rs[|rs| - 1];
      Children(rs[..|rs| - 1], x) + if x > 0 && last.parentId == x then [last.id] else []
  }

  /** One turn: an id off the stack, its children on. */
  function Turn(rs: seq<Rec>, stack: seq<nat>): seq<nat> {
    if stack == [] then [] else stack[..|stack| - 1] + Children(rs, stack[|stack| - 1])
  }

  function After(rs: seq<Rec>, stack: seq<nat>, n: nat): seq<nat> {
    if n == 0 then stack else Turn(rs, After(rs, stack, n - 1))
  }

  /** A table of the children of every id. */
  ghost predicate Lists(rs: seq<Rec>, childrenOf: map<nat, seq<nat>>) {
    forall x :: Children(rs, x) == At(childrenOf, x)
  }

  function At(childrenOf: map<nat, seq<nat>>, x: nat): seq<nat> {
    if x in childrenOf then childrenOf[x] else []
  }

  method BuildChildren(rs: seq<Rec>) returns (childrenOf: map<nat, seq<nat>>)
    ensures Lists(rs, childrenOf)
  {
    hide *;
    childrenOf := map[];
    NoLists();
    for i := 0 to |rs|
      invariant Lists(rs[..i], childrenOf)
    {
      ListOneMore(rs[..i], rs[i], childrenOf);
      assert rs[..i + 1] == rs[..i] + [rs[i]];
      if rs[i].parentId > 0 {
        childrenOf := childrenOf[rs[i].parentId := At(childrenOf, rs[i].parentId) + [rs[i].id]];
      }
    }
    assert rs[..|rs|] == rs;
  }

  lemma NoLists()
    ensures Lists([], map[])
  {
  }

  lemma ListOneMore(rs: seq<Rec>, r: Rec, childrenOf: map<nat, seq<nat>>)
    requires Lists(rs, childrenOf)
    ensures r.parentId == 0 ==> Lists(rs + [r], childrenOf)
    ensures r.parentId > 0 ==> Lists(rs + [r], childrenOf[r.parentId := At(childrenOf, r.parentId) + [r.id]])
  {
    assert (rs + [r])[..|rs|] == rs;
    forall x ensures Children(rs + [r], x) ==
      if x > 0 && r.parentId == x then Children(rs, x) + [r.id] else Children(rs, x)
    {
      assert Children(rs, x) + [] == Children(rs, x);
    }
  }

  lemma ListAt(rs: seq<Rec>, childrenOf: map<nat, seq<nat>>, x: nat)
    requires Lists(rs, childrenOf)
    ensures At(childrenOf, x) == Children(rs, x)
  {
  }

  // ---- Children ----

  lemma {:induction false} ChildrenAre(rs: seq<Rec>, x: nat)
    ensures forall c :: c in Children(rs, x) <==> IsChild(rs, x, c)
  {
    if rs != [] {
      var front, last := rs[..|rs| - 1], rs[|rs| - 1];
      ChildrenAre(front, x);
      assert rs == front + [last];
      assert forall r :: r in rs <==> r in front || r == last;
    }
  }

  lemma {:induction false} ChildrenDiffer(rs: seq<Rec>, x: nat)
    requires Distinct(rs)
    ensures NoRepeats(Children(rs, x))
  {
    if rs != [] {
      var front, last := rs[..|rs| - 1], rs[|rs| - 1];
      ChildrenDiffer(front, x);
      ChildrenAre(front, x);
      forall r | r in front ensures r.id != last.id {
        var i :| 0 <= i < |front| && front[i] == r;
        assert rs[i] == r;
      }
      assert forall c | c in Children(front, x) :: c != last.id;
      AppendDiffer(Children(front, x), [last.id]);
    }
  }

  lemma AppendDiffer(a: seq<nat>, b: seq<nat>)
    requires NoRepeats(a) && NoRepeats(b) && forall c | c in b :: c !in a
    ensures NoRepeats(a + b)
  {
    forall i, j | 0 <= i < j < |a + b| ensures (a + b)[i] != (a + b)[j] {
      if i < |a| <= j {
        assert (a + b)[i] in a && (a + b)[j] in b;
      }
    }
  }

  lemma OneParent(rs: seq<Rec>, x: nat, y: nat, c: nat)
    requires Distinct(rs) && IsChild(rs, x, c) && IsChild(rs, y, c)
    ensures x == y
  {
    var r :| r in rs && r.id == c && r.parentId == x;
    var s :| s in rs && s.id == c && s.parentId == y;
    var i :| 0 <= i < |rs| && rs[i] == r;
    var j :| 0 <= j < |rs| && rs[j] == s;
  }

  lemma BelowStep(rs: seq<Rec>, f: nat, x: nat, c: nat)
    requires (x == f || Below(rs, f, x)) && IsChild(rs, x, c)
    ensures Below(rs, f, c)
  {
    var path := [f];
    if x != f {
      path :| Leads(rs, path, f, x);
    }
    assert Leads(rs, path + [c], f, c);
  }

  // ---- What the search keeps ----

  /** `c` is a child of the function or of an id already taken off the stack. */
  ghost predicate Sourced(rs: seq<Rec>, f: nat, done: set<nat>, c: nat) {
    exists x :: (x == f || x in done) && IsChild(rs, x, c)
  }

  /** The stack holds ids not in `done`, each once. */
  ghost predicate Fresh(done: set<nat>, stack: seq<nat>) {
    NoRepeats(stack) && forall c | c in stack :: c !in done
  }

  /** Both hold descendants, found through `done`. */
  ghost predicate Found(rs: seq<Rec>, f: nat, done: set<nat>, stack: seq<nat>) {
    forall c | c in done || c in stack :: Below(rs, f, c) && Sourced(rs, f, done, c)
  }

  /** Whatever can be found through `done` is in one of them. */
  ghost predicate Covered(rs: seq<Rec>, f: nat, done: set<nat>, stack: seq<nat>) {
    forall x, c | (x == f || x in done) && IsChild(rs, x, c) :: c in done || c in stack
  }

  ghost predicate Searching(rs: seq<Rec>, f: nat, done: set<nat>, stack: seq<nat>) {
    Fresh(done, stack) && Found(rs, f, done, stack) && Covered(rs, f, done, stack)
  }

  lemma SearchStarts(rs: seq<Rec>, f: nat)
    requires Distinct(rs)
    ensures Searching(rs, f, {}, Children(rs, f))
  {
    ChildrenAre(rs, f);
    ChildrenDiffer(rs, f);
    forall c | c in Children(rs, f) ensures Below(rs, f, c) && Sourced(rs, f, {}, c) {
      BelowStep(rs, f, f, c);
    }
  }

  /** Without a cycle through `f`, no child is met twice. */
  lemma ChildrenAreNew(rs: seq<Rec>, f: nat, done: set<nat>, stack: seq<nat>, c: nat)
    requires Distinct(rs) && !Below(rs, f, f) && Searching(rs, f, done, stack) && stack != []
    requires IsChild(rs, stack[|stack| - 1], c)
    ensures c !in done && c !in stack
  {
    var x := stack[|stack| - 1];
    assert x in stack && x != f;
    hide Below, IsChild;
    if c in done || c in stack {
      assert Sourced(rs, f, done, c);
      var y :| (y == f || y in done) && IsChild(rs, y, c);
      OneParent(rs, x, y, c);
    }
  }

  lemma SearchGoesOn(rs: seq<Rec>, f: nat, done: set<nat>, stack: seq<nat>)
    requires Distinct(rs) && !Below(rs, f, f) && Searching(rs, f, done, stack) && stack != []
    ensures Searching(rs, f, done + {stack[|stack| - 1]}, Turn(rs, stack))
  {
    hide Below, IsChild, Children, NoRepeats;
    var n := |stack| - 1;
    var x := stack[n];
    var cs := Children(rs, x);
    ChildrenAre(rs, x);
    ChildrenDiffer(rs, x);
    assert x in stack;
    StackFront(stack);
    forall c | c in cs ensures c !in done && c !in stack && Below(rs, f, c) {
      ChildrenAreNew(rs, f, done, stack, c);
      BelowStep(rs, f, x, c);
    }
    AppendDiffer(stack[..n], cs);
    forall c | Sourced(rs, f, done, c) || IsChild(rs, x, c) ensures Sourced(rs, f, done + {x}, c) {
    }
  }

  lemma StackFront(stack: seq<nat>)
    requires NoRepeats(stack) && stack != []
    ensures NoRepeats(stack[..|stack| - 1])
    ensures forall c :: c in stack[..|stack| - 1] <==> c in stack && c != stack[|stack| - 1]
  {
    assert stack == stack[..|stack| - 1] + [stack[|stack| - 1]];
  }

  /** An empty stack means that every descendant has been found. */
  lemma {:induction false} AllFound(rs: seq<Rec>, f: nat, done: set<nat>, path: seq<nat>, c: nat)
    requires Searching(rs, f, done, []) && Leads(rs, path, f, c)
    ensures c in done
    decreases |path|
  {
    var n := |path| - 1;
    if n > 1 {
      assert Leads(rs, path[..n], f, path[n - 1]);
      AllFound(rs, f, done, path[..n], path[n - 1]);
    }
    assert IsChild(rs, path[n - 1], path[n]);
  }

  /** The record of an id. */
  ghost predicate Looks(rs: seq<Rec>, recordMap: map<nat, Rec>) {
    && (forall id | id in recordMap :: recordMap[id] in rs && recordMap[id].id == id)
    && forall r | r in rs :: r.id in recordMap
  }

  method BuildRecordMap(rs: seq<Rec>) returns (recordMap: map<nat, Rec>)
    ensures Looks(rs, recordMap)
  {
    recordMap := map[];
    for i := 0 to |rs|
      invariant Looks(rs[..i], recordMap)
    {
      assert rs[..i + 1] == rs[..i] + [rs[i]];
      recordMap := recordMap[rs[i].id := rs[i]];
    }
    assert rs[..|rs|] == rs;
  }

  /** Of some ids, those of records of a kind. */
  ghost function OfKind(recordMap: map<nat, Rec>, ids: set<nat>, kind: Kind): set<nat> {
    set id | id in ids && id in recordMap && recordMap[id].kind == kind
  }

  /**
   * The search below a function that is not its own descendant: it ends, and counts each
   * parameter and each call among the descendants once.
   */
  method CountBelow(rs: seq<Rec>, f: nat) returns (params: nat, calls: nat)
    requires Distinct(rs) && !Below(rs, f, f)
    ensures params == |Counted(rs, f, Parameter)| && calls == |Counted(rs, f, Call)|
  {
    hide *;
    var childrenOf := BuildChildren(rs);
    var recordMap := BuildRecordMap(rs);
    var stack := At(childrenOf, f);
    ghost var done: set<nat> := {};
    params, calls := 0, 0;
    ListAt(rs, childrenOf, f);
    SearchStarts(rs, f);
    NoneOfKind(recordMap);
    while stack != []
      invariant Searching(rs, f, done, stack) && done <= Ids(rs)
      invariant params == |OfKind(recordMap, done, Parameter)| && calls == |OfKind(recordMap, done, Call)|
      decreases |Ids(rs) - done|
    {
      var id := stack[|stack| - 1];
      TakeTop(rs, f, done, stack, recordMap, childrenOf);
      var kind := recordMap[id].kind;
      if kind == Parameter {
        params := params + 1;
      } else if kind == Call {
        calls := calls + 1;
      }
      stack := stack[..|stack| - 1] + At(childrenOf, id);
      done := done + {id};
    }
    FoundIsCounted(rs, f, done, recordMap, Parameter);
    FoundIsCounted(rs, f, done, recordMap, Call);
  }

  lemma NoneOfKind(recordMap: map<nat, Rec>)
    ensures OfKind(recordMap, {}, Parameter) == {} && OfKind(recordMap, {}, Call) == {}
  {
  }

  /** All that one turn of the loop relies on. */
  lemma TakeTop(rs: seq<Rec>, f: nat, done: set<nat>, stack: seq<nat>, recordMap: map<nat, Rec>,
                childrenOf: map<nat, seq<nat>>)
    requires Distinct(rs) && !Below(rs, f, f) && Searching(rs, f, done, stack) && stack != [] && done <= Ids(rs)
    requires Looks(rs, recordMap) && Lists(rs, childrenOf)
    ensures var id := stack[|stack| - 1];
      && id in recordMap && done + {id} <= Ids(rs) && |Ids(rs) - (done + {id})| < |Ids(rs) - done|
      && Searching(rs, f, done + {id}, stack[..|stack| - 1] + At(childrenOf, id))
      && |OfKind(recordMap, done + {id}, Parameter)|
         == |OfKind(recordMap, done, Parameter)| + (if recordMap[id].kind == Parameter then 1 else 0)
      && |OfKind(recordMap, done + {id}, Call)|
         == |OfKind(recordMap, done, Call)| + (if recordMap[id].kind == Call then 1 else 0)
  {
    hide *;
    var id := stack[|stack| - 1];
    FoundIsRecord(rs, f, done, stack, recordMap);
    SearchGoesOn(rs, f, done, stack);
    ListAt(rs, childrenOf, id);
    TurnIs(rs, stack, At(childrenOf, id));
    FewerLeft(Ids(rs), done, id);
    OneMoreOfKind(recordMap, done, id, Parameter);
    OneMoreOfKind(recordMap, done, id, Call);
  }

  lemma TurnIs(rs: seq<Rec>, stack: seq<nat>, more: seq<nat>)
    requires stack != [] && more == Children(rs, stack[|stack| - 1])
    ensures Turn(rs, stack) == stack[..|stack| - 1] + more
  {
  }

  lemma FoundIsRecord(rs: seq<Rec>, f: nat, done: set<nat>, stack: seq<nat>, recordMap: map<nat, Rec>)
    requires Searching(rs, f, done, stack) && stack != [] && Looks(rs, recordMap)
    ensures var id := stack[|stack| - 1]; id in recordMap && id in Ids(rs) && id !in done
  {
    TopIsNew(rs, f, done, stack);
  }

  lemma TopIsNew(rs: seq<Rec>, f: nat, done: set<nat>, stack: seq<nat>)
    requires Searching(rs, f, done, stack) && stack != []
    ensures var id := stack[|stack| - 1]; id in Ids(rs) && id !in done
  {
    var id := stack[|stack| - 1];
    hide Below;
    assert id in stack;
    assert Sourced(rs, f, done, id);
    var x :| (x == f || x in done) && IsChild(rs, x, id);
    var r :| r in rs && r.id == id && r.parentId == x;
  }

  lemma OneMoreOfKind(recordMap: map<nat, Rec>, ids: set<nat>, id: nat, kind: Kind)
    requires id in recordMap && id !in ids
    ensures |OfKind(recordMap, ids + {id}, kind)| ==
      |OfKind(recordMap, ids, kind)| + if recordMap[id].kind == kind then 1 else 0
  {
    if recordMap[id].kind == kind {
      assert OfKind(recordMap, ids + {id}, kind) == OfKind(recordMap, ids, kind) + {id};
    } else {
      assert OfKind(recordMap, ids + {id}, kind) == OfKind(recordMap, ids, kind);
    }
  }

  lemma FoundIsCounted(rs: seq<Rec>, f: nat, done: set<nat>, recordMap: map<nat, Rec>, kind: Kind)
    requires Distinct(rs) && Searching(rs, f, done, []) && Looks(rs, recordMap)
    ensures OfKind(recordMap, done, kind) == Counted(rs, f, kind)
  {
    forall r | r in rs ensures recordMap[r.id] == r && (r.id in done <==> Below(rs, f, r.id)) {
      var i :| 0 <= i < |rs| && rs[i] == r;
      var j :| 0 <= j < |rs| && rs[j] == recordMap[r.id];
      if path :| Leads(rs, path, f, r.id) {
        AllFound(rs, f, done, path, r.id);
      }
    }
  }

  // ---- When the search does not end ----

  /**
   * A function that is its own descendant, as a cycle of parent ids makes it, is searched
   * for ever: after any number of turns the stack is not empty.
   */
  lemma {:induction false} OwnDescendantNeverEnds(rs: seq<Rec>, f: nat, path: seq<nat>, n: nat) returns (i: nat)
    requires Leads(rs, path, f, f)
    ensures 0 < i < |path| && path[i] in After(rs, Children(rs, f), n)
  {
    if n == 0 {
      i := 1;
      assert IsChild(rs, path[0], path[1]);
      ChildrenAre(rs, f);
    } else {
      i := OwnDescendantNeverEnds(rs, f, path, n - 1);
      var stack := After(rs, Children(rs, f), n - 1);
      var top := stack[|stack| - 1];
      if path[i] == top {
        i := if i == |path| - 1 then 1 else i + 1;
        assert IsChild(rs, path[i - 1], path[i]);
        ChildrenAre(rs, top);
      } else {
        var k :| 0 <= k < |stack| && stack[k] == path[i];
        assert stack[..|stack| - 1][k] == path[i];
      }
    }
  }

  /** The search ends exactly for the functions that are not their own descendants. */
  lemma EndsExactlyWithoutCycle(rs: seq<Rec>, f: nat)
    requires Distinct(rs)
    ensures (exists n: nat :: After(rs, Children(rs, f), n) == []) <==> !Below(rs, f, f)
  {
    if path :| Leads(rs, path, f, f) {
      forall n: nat ensures After(rs, Children(rs, f), n) != [] {
        var i := OwnDescendantNeverEnds(rs, f, path, n);
      }
    } else {
      SearchStarts(rs, f);
      var n := TurnsLeft(rs, f, {}, Children(rs, f), 0);
    }
  }

  lemma {:induction false} TurnsLeft(rs: seq<Rec>, f: nat, done: set<nat>, stack: seq<nat>, k: nat) returns (n: nat)
    requires Distinct(rs) && !Below(rs, f, f) && Searching(rs, f, done, stack) && done <= Ids(rs)
    requires stack == After(rs, Children(rs, f), k)
    ensures After(rs, Children(rs, f), n) == []
    decreases |Ids(rs) - done|
  {
    hide *;
    if stack == [] {
      n := k;
    } else {
      var id := stack[|stack| - 1];
      TopIsNew(rs, f, done, stack);
      FewerLeft(Ids(rs), done, id);
      SearchGoesOn(rs, f, done, stack);
      OneMoreTurn(rs, Children(rs, f), k);
      n := TurnsLeft(rs, f, done + {id}, Turn(rs, stack), k + 1);
    }
  }

  lemma OneMoreTurn(rs: seq<Rec>, stack: seq<nat>, k: nat)
    ensures After(rs, stack, k + 1) == Turn(rs, After(rs, stack, k))
  {
  }

  lemma FewerLeft(ids: set<nat>, done: set<nat>, id: nat)
    requires id in ids && id !in done && done <= ids
    ensures |ids - (done + {id})| < |ids - done| && done + {id} <= ids
  {
    assert ids - done == (ids - (done + {id})) + {id};
  }

  /** A record that is its own parent: the stack is never empty. */
  lemma OwnParentNeverEnds(n: nat)
    ensures var rs := [Rec(1, 1, Other)]; Below(rs, 1, 1) && After(rs, Children(rs, 1), n) != []
  {
    var rs, path := [Rec(1, 1, Other)], [1, 1];
    assert rs[0] in rs && IsChild(rs, 1, 1);
    assert Leads(rs, path, 1, 1);
    var i := OwnDescendantNeverEnds(rs, 1, path, n);
  }

  /** A function with a parameter and a call, and in the call another call. */
  const SMALL := [Rec(1, 0, Other), Rec(2, 1, Parameter), Rec(3, 1, Call), Rec(4, 3, Call)]

  lemma SmallCounts()
    ensures Counted(SMALL, 1, Parameter) == {2} && Counted(SMALL, 1, Call) == {3, 4}
    ensures Counted(SMALL, 3, Parameter) == {} && Counted(SMALL, 3, Call) == {4}
  {
    var rs := SMALL;
    assert rs[1] in rs && rs[2] in rs && rs[3] in rs;
    assert IsChild(rs, 1, 2) && IsChild(rs, 1, 3) && IsChild(rs, 3, 4);
    assert Leads(rs, [1, 2], 1, 2) && Leads(rs, [1, 3], 1, 3) && Leads(rs, [1, 3, 4], 1, 4) && Leads(rs, [3, 4], 3, 4);
    assert forall r | r in rs :: r == rs[0] || r == rs[1] || r == rs[2] || r == rs[3];
    forall path, c | Leads(rs, path, 3, c) ensures c == 4 {
      BelowThree(path, c);
    }
  }

  /** The only descendant of the inner call is the last record. */
  lemma BelowThree(path: seq<nat>, c: nat)
    requires Leads(SMALL, path, 3, c)
    ensures c == 4
  {
    var rs := SMALL;
    assert forall x, y :: IsChild(rs, x, y) ==> (x == 1 && (y == 2 || y == 3)) || (x == 3 && y == 4);
    assert IsChild(rs, path[0], path[1]);
    forall i | 0 <= i < |path| - 1 ensures path[i] == 1 || path[i] == 3 {
      assert IsChild(rs, path[i], path[i + 1]);
    }
  }
}
