/**
 * When the order in which directories are enumerated can be seen in what the walk collects:
 * between the two contexts the walk is squeezed, and exactly two kinds of file together let
 * two enumerations of one directory tree disagree.
 */
module DiscoveryOrder {
  import opened DiscoveryTree
  import opened SkipPolicy

  ghost predicate HasJava(h: Host, root: seq<Entry>) { exists f :: f in Files(root, []) && h.spelledJava(f) }

  /** What discovery collects: the context is fixed first, then the tree is walked. */
  ghost function Collected(h: Host, p: Policy, root: seq<Entry>, java: bool): seq<Path> {
    VisitAll(h, p, root, [], java || HasJava(h, root)).jobs
  }

  // ---- The walk in a steady context ----

  lemma SteadyWalk(h: Host, p: Policy, root: seq<Entry>, java: bool)
    requires java || forall f | f in Files(root, []) :: !Flips(h, p, f)
    ensures VisitAll(h, p, root, [], java) == Outcome(Kept(h, p, java, Files(root, [])), java)
  {
    SteadyVisitAll(h, p, root, [], java);
  }

  /** Two enumerations of the same files collect the same set when nothing can flip the context. */
  lemma OrderIsInvisibleWhenSteady(h: Host, p: Policy, root: seq<Entry>, root': seq<Entry>, java: bool, f: Path)
    requires forall g: Path :: g in Files(root, []) <==> g in Files(root', [])
    requires java || HasJava(h, root) || forall g | g in Files(root, []) :: !Flips(h, p, g)
    ensures f in Collected(h, p, root, java) <==>
      f in Files(root, []) && Keeps(h, p, java || HasJava(h, root), f)
    ensures f in Collected(h, p, root, java) <==> f in Collected(h, p, root', java)
  {
    var context := java || HasJava(h, root);
    assert HasJava(h, root) <==> HasJava(h, root');
    SteadyWalk(h, p, root, context);
    SteadyWalk(h, p, root', context);
    KeptMembers(h, p, context, Files(root, []), f);
    KeptMembers(h, p, context, Files(root', []), f);
  }

  // ---- Between the two contexts ----

  /** What is kept outside the Java context is kept inside it. */
  lemma JavaKeepsMore(h: Host, p: Policy, path: Path, isDir: bool)
    requires Covers(p)
    ensures Clear(p, false, path, isDir) ==> Clear(p, true, path, isDir)
    ensures Keeps(h, p, false, path) ==> Keeps(h, p, true, path)
  {
    hide Skips;
    forall k: nat, d | 1 <= k <= |path| && Skips(p, true, path[..k], d) ensures Skips(p, false, path[..k], d) {
      JavaOnlyRemovesSkips(p, path[..k], d);
    }
  }

  /** Whatever the walk collects, from whichever context, is kept in the Java context. */
  lemma {:induction false} CollectedIsKept(h: Host, p: Policy, es: seq<Entry>, at: Path, java: bool, f: Path)
    requires Covers(p) && Clear(p, true, at, true) && f in VisitAll(h, p, es, at, java).jobs
    ensures f in Files(es, at) && Keeps(h, p, true, f)
    decreases es, 0
  {
    var first := Visit(h, p, es[0], at, java);
    if f in first.jobs {
      CollectedInIsKept(h, p, es[0], at, java, f);
    } else {
      CollectedIsKept(h, p, es[1..], at, first.java, f);
    }
  }

  lemma {:induction false} CollectedInIsKept(h: Host, p: Policy, e: Entry, at: Path, java: bool, f: Path)
    requires Covers(p) && Clear(p, true, at, true) && f in Visit(h, p, e, at, java).jobs
    ensures f in FilesOf(e, at) && Keeps(h, p, true, f)
    decreases e, 1
  {
    hide Skips;
    var path := at + [e.name];
    if Skips(p, true, path, e.Dir?) {
      JavaOnlyRemovesSkips(p, path, e.Dir?);
    }
    ClearChild(p, true, at, e.name, e.Dir?);
    if e.Dir? {
      CollectedIsKept(h, p, e.children, path, java, f);
    }
  }

  /** Whatever is kept outside the Java context is collected, from whichever context. */
  lemma {:induction false} KeptIsCollected(h: Host, p: Policy, es: seq<Entry>, at: Path, java: bool, f: Path)
    requires Covers(p) && f in Files(es, at) && Keeps(h, p, false, f)
    ensures f in VisitAll(h, p, es, at, java).jobs
    decreases es, 0
  {
    if f in FilesOf(es[0], at) {
      KeptInIsCollected(h, p, es[0], at, java, f);
    } else {
      KeptIsCollected(h, p, es[1..], at, Visit(h, p, es[0], at, java).java, f);
    }
  }

  lemma {:induction false} KeptInIsCollected(h: Host, p: Policy, e: Entry, at: Path, java: bool, f: Path)
    requires Covers(p) && f in FilesOf(e, at) && Keeps(h, p, false, f)
    ensures f in Visit(h, p, e, at, java).jobs
    decreases e, 1
  {
    hide Skips;
    var path := at + [e.name];
    if e.Dir? {
      FilesAreBelow(e.children, path, f);
    }
    assert f[..|path|] == path && !Skips(p, false, path, e.Dir?);
    if Skips(p, true, path, e.Dir?) {
      JavaOnlyRemovesSkips(p, path, e.Dir?);
    }
    if e.Dir? {
      KeptIsCollected(h, p, e.children, path, java, f);
    }
  }

  lemma Squeezed(h: Host, p: Policy, root: seq<Entry>, java: bool)
    requires Covers(p)
    ensures var jobs := VisitAll(h, p, root, [], java).jobs;
      forall f ::
        && (f in Files(root, []) && Keeps(h, p, false, f) ==> f in jobs)
        && (f in jobs ==> f in Files(root, []) && Keeps(h, p, true, f))
  {
    hide Keeps;
    assert Clear(p, true, [], true);
    forall f | f in Files(root, []) && Keeps(h, p, false, f) ensures f in VisitAll(h, p, root, [], java).jobs {
      KeptIsCollected(h, p, root, [], java, f);
    }
    forall f | f in VisitAll(h, p, root, [], java).jobs ensures f in Files(root, []) && Keeps(h, p, true, f) {
      CollectedIsKept(h, p, root, [], java, f);
    }
  }

  // ---- One directory tree, enumerated in different orders ----

  /** The tree holds a file, or a directory, at this path. */
  ghost predicate Holds(es: seq<Entry>, path: Path, isDir: bool)
    decreases |path|, 1
  {
    exists e :: e in es && HoldsIn(e, path, isDir)
  }

  ghost predicate HoldsIn(e: Entry, path: Path, isDir: bool)
    decreases |path|, 0
  {
    && path != [] && e.name == path[0]
    && if |path| == 1 then e.Dir? == isDir else e.Dir? && Holds(e.children, path[1..], isDir)
  }

  /** No directory lists a name twice. */
  ghost predicate Proper(es: seq<Entry>)
    decreases es
  {
    DistinctNames(es) && forall i | 0 <= i < |es| && es[i].Dir? :: Proper(es[i].children)
  }

  ghost predicate DistinctNames(es: seq<Entry>) {
    forall i, j | 0 <= i < j < |es| :: es[i].name != es[j].name
  }

  /** Two enumerations of the same directory tree. */
  ghost predicate SameTree(a: seq<Entry>, b: seq<Entry>) {
    Proper(a) && Proper(b) && forall path, isDir :: Holds(a, path, isDir) <==> Holds(b, path, isDir)
  }

  lemma {:induction false} FilesAreHeld(es: seq<Entry>, at: Path, f: Path)
    ensures f in Files(es, at) <==> |at| < |f| && f[..|at|] == at && Holds(es, f[|at|..], false)
    decreases es, 0
  {
    hide HoldsIn;
    if es != [] {
      FileOfIsHeld(es[0], at, f);
      FilesAreHeld(es[1..], at, f);
      assert forall e :: e in es <==> e == es[0] || e in es[1..];
    }
  }

  lemma {:induction false} FileOfIsHeld(e: Entry, at: Path, f: Path)
    ensures f in FilesOf(e, at) <==> |at| < |f| && f[..|at|] == at && HoldsIn(e, f[|at|..], false)
    decreases e, 1
  {
    var path := at + [e.name];
    if e.Dir? {
      FilesAreHeld(e.children, path, f);
      if |f| > |at| {
        assert f[..|at| + 1] == f[..|at|] + [f[|at|]];
        assert f[|at|..][1..] == f[|at| + 1..];
      }
    } else if |f| > |at| {
      assert |f| == |at| + 1 ==> f == f[..|at|] + [f[|at|]];
    }
  }

  lemma SameTreeSameFiles(a: seq<Entry>, b: seq<Entry>)
    requires SameTree(a, b)
    ensures forall f :: f in Files(a, []) <==> f in Files(b, [])
  {
    hide Holds;
    forall f ensures f in Files(a, []) <==> f in Files(b, []) {
      FilesAreHeld(a, [], f);
      FilesAreHeld(b, [], f);
      assert f[0..] == f;
    }
  }

  /** The file at `path` is the first that an enumeration meets. */
  ghost predicate Leads(es: seq<Entry>, path: Path)
    decreases |path|
  {
    && path != [] && es != [] && es[0].name == path[0]
    && if |path| == 1 then es[0].File? else es[0].Dir? && Leads(es[0].children, path[1..])
  }

  /** Any file can be enumerated first: move the entry that leads to it to the front of every directory. */
  lemma {:induction false} BringToFront(es: seq<Entry>, path: Path) returns (front: seq<Entry>)
    requires Proper(es) && Holds(es, path, false)
    ensures SameTree(es, front) && Leads(front, path)
    decreases |path|
  {
    var e :| e in es && HoldsIn(e, path, false);
    var i :| 0 <= i < |es| && es[i] == e;
    var top := e;
    if |path| > 1 {
      var children := BringToFront(e.children, path[1..]);
      top := Dir(e.name, children);
    }
    front := [top] + (es[..i] + es[i + 1..]);
    MovedIsProper(es, i, top);
    MovedIsSame(es, i, top);
  }

  /** The same entry, possibly enumerated in another order. */
  ghost predicate SameEntry(e: Entry, e': Entry) {
    e == e' || (e.Dir? && e'.Dir? && e.name == e'.name && SameTree(e.children, e'.children))
  }

  lemma MovedIsProper(es: seq<Entry>, i: nat, top: Entry)
    requires Proper(es) && i < |es| && SameEntry(es[i], top)
    ensures Proper([top] + (es[..i] + es[i + 1..]))
  {
    MovedNamesDiffer(es, i, top);
    hide DistinctNames, Holds;
    var front := [top] + (es[..i] + es[i + 1..]);
    forall k | 0 <= k < |front| && front[k].Dir? ensures Proper(front[k].children) {
      assert k > 0 ==> front[k] == es[if k <= i then k - 1 else k];
    }
  }

  lemma MovedNamesDiffer(es: seq<Entry>, i: nat, top: Entry)
    requires DistinctNames(es) && i < |es| && es[i].name == top.name
    ensures DistinctNames([top] + (es[..i] + es[i + 1..]))
  {
  }

  lemma EntryHoldsSame(e: Entry, e': Entry, path: Path, isDir: bool)
    requires SameEntry(e, e')
    ensures HoldsIn(e, path, isDir) <==> HoldsIn(e', path, isDir)
  {
    hide Holds, Proper;
  }

  lemma MovedIsSame(es: seq<Entry>, i: nat, top: Entry)
    requires Proper(es) && i < |es| && SameEntry(es[i], top)
    ensures SameTree(es, [top] + (es[..i] + es[i + 1..]))
  {
    hide HoldsIn, Proper;
    var rest := es[..i] + es[i + 1..];
    MovedIsProper(es, i, top);
    assert forall e :: e in es <==> e == es[i] || e in rest;
    assert forall e :: e in [top] + rest <==> e == top || e in rest;
    forall path, isDir ensures Holds(es, path, isDir) <==> Holds([top] + rest, path, isDir) {
      EntryHoldsSame(es[i], top, path, isDir);
    }
  }

  // ---- The two enumerations that disagree ----

  /** With the flipping file first, everything after it is walked as Java. */
  lemma {:induction false} AfterTheFlip(h: Host, p: Policy, es: seq<Entry>, at: Path, path: Path, g: Path)
    requires Covers(p) && Clear(p, false, at, true)
    requires Leads(es, path) && Flips(h, p, at + path)
    requires g in Files(es, at) && g != at + path && Keeps(h, p, true, g)
    ensures g in VisitAll(h, p, es, at, false).jobs
    decreases |path|
  {
    hide Skips;
    var e := es[0];
    var dir := at + [e.name];
    var first := Visit(h, p, e, at, false);
    LeaderIsFile(es, at, path);
    FlipHappensIn(h, p, e, at, at + path);
    if g in Files(es[1..], at) {
      JavaKeepsMore(h, p, at, true);
      SteadyVisitAll(h, p, es[1..], at, true);
      KeptMembers(h, p, true, Files(es[1..], at), g);
    } else {
      assert g in FilesOf(e, at) && |path| > 1;
      assert dir + path[1..] == at + path && (at + path)[..|dir|] == dir;
      assert !Skips(p, false, (at + path)[..|dir|], true);
      ClearChild(p, false, at, e.name, true);
      AfterTheFlip(h, p, e.children, dir, path[1..], g);
    }
  }

  lemma {:induction false} LeaderIsFile(es: seq<Entry>, at: Path, path: Path)
    requires Leads(es, path)
    ensures at + path in FilesOf(es[0], at) && at + path in Files(es, at)
    decreases |path|
  {
    if |path| > 1 {
      LeaderIsFile(es[0].children, at + [path[0]], path[1..]);
      assert at + [path[0]] + path[1..] == at + path;
    } else {
      assert path == [path[0]];
    }
  }

  /** With a file first that is not kept outside the Java context, it is not collected from there. */
  lemma {:induction false} BeforeAnyFlip(h: Host, p: Policy, es: seq<Entry>, at: Path, path: Path)
    requires Covers(p) && Clear(p, false, at, true) && Proper(es)
    requires Leads(es, path) && !Keeps(h, p, false, at + path)
    ensures at + path !in VisitAll(h, p, es, at, false).jobs
    decreases |path|
  {
    hide Skips;
    var e := es[0];
    var g := at + path;
    var first := Visit(h, p, e, at, false);
    JavaKeepsMore(h, p, at, true);
    if g in VisitAll(h, p, es[1..], at, first.java).jobs {
      CollectedIsKept(h, p, es[1..], at, first.java, g);
      OnlyOnce(es, at, path);
    }
    ClearChild(p, false, at, e.name, e.Dir?);
    if |path| > 1 {
      assert at + [e.name] + path[1..] == g;
      if !Skips(p, false, at + [e.name], true) {
        BeforeAnyFlip(h, p, e.children, at + [e.name], path[1..]);
      }
    } else {
      assert g == at + [e.name];
    }
  }

  lemma OnlyOnce(es: seq<Entry>, at: Path, path: Path)
    requires Proper(es) && Leads(es, path)
    ensures at + path !in Files(es[1..], at)
  {
    FilesAreHeld(es[1..], at, at + path);
    assert (at + path)[|at|..] == path;
    forall e | e in es[1..] ensures !HoldsIn(e, path, false) {
      var k :| 0 <= k < |es[1..]| && es[1..][k] == e;
      assert es[k + 1] == e;
    }
  }

  // ---- The exact condition ----

  /** Some file is collected in one enumeration of the tree and not in another. */
  ghost predicate OrderIsVisible(h: Host, p: Policy, root: seq<Entry>, java: bool) {
    exists a, b, f ::
      SameTree(root, a) && SameTree(root, b) && f in Collected(h, p, a, java) && f !in Collected(h, p, b, java)
  }

  /**
   * The context is not Java from the start, and the tree has a Java file that can be reached
   * there and a file that would only be kept in the Java context.
   */
  ghost predicate Torn(h: Host, p: Policy, root: seq<Entry>, java: bool) {
    && !java && !HasJava(h, root)
    && exists f, g ::
         f in Files(root, []) && g in Files(root, []) && Flips(h, p, f)
         && Keeps(h, p, true, g) && !Keeps(h, p, false, g)
  }

  lemma TornIsVisible(h: Host, p: Policy, root: seq<Entry>, java: bool)
    requires Covers(p) && Proper(root) && Torn(h, p, root, java)
    ensures OrderIsVisible(h, p, root, java)
  {
    var f, g :|
      f in Files(root, []) && g in Files(root, []) && Flips(h, p, f) && Keeps(h, p, true, g) && !Keeps(h, p, false, g);
    assert f[0..] == f && g[0..] == g && [] + f == f && [] + g == g;
    FilesAreHeld(root, [], f);
    FilesAreHeld(root, [], g);
    var a := BringToFront(root, f);
    var b := BringToFront(root, g);
    SameTreeSameFiles(root, a);
    SameTreeSameFiles(root, b);
    assert !HasJava(h, a) && !HasJava(h, b);
    assert Clear(p, false, [], true);
    assert f != g;
    AfterTheFlip(h, p, a, [], f, g);
    BeforeAnyFlip(h, p, b, [], g);
    assert g in Collected(h, p, a, java) && g !in Collected(h, p, b, java);
  }

  /** Otherwise any two trees that list the same files collect the same ones. */
  lemma SameUnlessTorn(h: Host, p: Policy, a: seq<Entry>, b: seq<Entry>, java: bool, f: Path)
    requires Covers(p) && !Torn(h, p, a, java) && f in Collected(h, p, a, java)
    requires forall g: Path :: g in Files(a, []) <==> g in Files(b, [])
    ensures f in Collected(h, p, b, java)
  {
    hide Keeps, Flips;
    if java || HasJava(h, a) || forall g | g in Files(a, []) :: !Flips(h, p, g) {
      OrderIsInvisibleWhenSteady(h, p, a, b, java, f);
    } else {
      assert Clear(p, true, [], true);
      CollectedIsKept(h, p, a, [], java || HasJava(h, a), f);
      KeptIsCollected(h, p, b, [], java || HasJava(h, b), f);
    }
  }

  /**
   * Two enumerations of a directory tree disagree about some file exactly when the context
   * is not Java from the start, a Java file not spelled `.java` can be reached outside it,
   * and another file is kept inside it only.
   */
  lemma OrderIsVisibleExactlyWhenTorn(h: Host, p: Policy, root: seq<Entry>, java: bool)
    requires Covers(p) && Proper(root)
    ensures OrderIsVisible(h, p, root, java) <==> Torn(h, p, root, java)
  {
    if Torn(h, p, root, java) {
      TornIsVisible(h, p, root, java);
    } else {
      forall a, b, f | SameTree(root, a) && SameTree(root, b) && f in Collected(h, p, a, java)
        ensures f in Collected(h, p, b, java)
      {
        SameTreeSameFiles(root, a);
        SameTreeSameFiles(root, b);
        SameUnlessTorn(h, p, a, b, java, f);
      }
    }
  }

  // ---- A tree that is torn ----

  /** A file at the root is Java by its language; `test` is skipped, except below the top in a Java project. */
  const ODD_HOST := Host((f: Path) => if |f| == 1 then Java else Other("python"), (f: Path) => false,
                         (f: Path) => false, (l: Language) => true, (n: string) => false)
  const TEST_POLICY := Policy({"test"}, {}, {}, {"test"}, (f: Path, d: bool) => false)
  const DEEP := Dir("a", [Dir("b", [Dir("c", [Dir("test", [File("x.py")])])])])
  const DEEP_FILE: Path := ["a", "b", "c", "test", "x.py"]
  const ODD := File("X.JAVA")

  lemma ShortNames(java: bool, i: nat)
    requires i < 5
    ensures SkipsName(TEST_POLICY, java, DEEP_FILE[i]) <==> i == 3 && !java
    ensures SkipsNearTop(TEST_POLICY, java, DEEP_FILE[i]) <==> i == 3 && java
  {
    var name := DEEP_FILE[i];
    assert Lower(name) == name;
    assert name == "test" <==> i == 3 by {
      assert "x.py"[0] != "test"[0];
    }
  }

  lemma DeepFiles()
    ensures FilesOf(DEEP, []) == [DEEP_FILE]
  {
    var file := File("x.py");
    var test := Dir("test", [file]);
    var c := Dir("c", [test]);
    var b := Dir("b", [c]);
    OneEntry(file, ["a", "b", "c", "test"]);
    OneEntry(test, ["a", "b", "c"]);
    OneEntry(c, ["a", "b"]);
    OneEntry(b, ["a"]);
    assert ["a", "b", "c", "test"] + ["x.py"] == DEEP_FILE && ["a", "b", "c"] + ["test"] == ["a", "b", "c", "test"];
    assert ["a", "b"] + ["c"] == ["a", "b", "c"] && ["a"] + ["b"] == ["a", "b"] && [] + ["a"] == ["a"];
  }

  lemma OneEntry(e: Entry, at: Path)
    ensures Files([e], at) == FilesOf(e, at)
  {
    assert [e][1..] == [];
    assert Files([], at) == [];
    assert FilesOf(e, at) + [] == FilesOf(e, at);
  }

  lemma DeepSkips(java: bool, k: nat)
    requires 1 <= k <= 5
    ensures Skips(TEST_POLICY, java, DEEP_FILE[..k], k < 5) <==> k >= 4 && !java
  {
    var path := DEEP_FILE[..k];
    forall i | 0 <= i < k
      ensures SkipsName(TEST_POLICY, java, path[i]) <==> i == 3 && !java
      ensures SkipsNearTop(TEST_POLICY, java, path[i]) <==> i == 3 && java
    {
      assert path[i] == DEEP_FILE[i];
      ShortNames(java, i);
    }
    hide SkipsName, SkipsNearTop;
    if k >= 4 && !java {
      assert SkipsName(TEST_POLICY, java, path[3]);
    }
  }

  lemma DeepIsKeptInJavaOnly(java: bool)
    ensures Keeps(ODD_HOST, TEST_POLICY, java, DEEP_FILE) <==> java
  {
    hide Skips;
    forall k: nat | 1 <= k <= 5 ensures Skips(TEST_POLICY, java, DEEP_FILE[..k], k < 5) <==> k >= 4 && !java {
      DeepSkips(java, k);
    }
    assert Skips(TEST_POLICY, java, DEEP_FILE[..4], true) <==> !java;
    assert Clear(TEST_POLICY, java, DEEP_FILE, false) <==> java;
  }

  lemma OddFlips()
    ensures Flips(ODD_HOST, TEST_POLICY, ["X.JAVA"])
  {
    var path := ["X.JAVA"];
    assert |Lower("X.JAVA")| == 6 && |"test"| == 4;
    assert !Skips(TEST_POLICY, false, path, false);
    assert path[..1] == path;
  }

  /**
   * A Java file spelled `X.JAVA` is missed by the scan and flips the context in the middle
   * of the walk, so that the order of enumeration decides what is collected.
   */
  lemma UnspelledJavaMakesOrderVisible()
    ensures Torn(ODD_HOST, TEST_POLICY, [ODD, DEEP], false) && OrderIsVisible(ODD_HOST, TEST_POLICY, [ODD, DEEP], false)
  {
    var root := [ODD, DEEP];
    DeepFiles();
    OneEntry(DEEP, []);
    assert root[1..] == [DEEP];
    assert [] + ["X.JAVA"] == ["X.JAVA"] && FilesOf(ODD, []) == [["X.JAVA"]];
    assert ["X.JAVA"] in FilesOf(ODD, []) && DEEP_FILE in FilesOf(DEEP, []);
    OddFlips();
    DeepIsKeptInJavaOnly(true);
    DeepIsKeptInJavaOnly(false);
    hide Keeps, Flips;
    assert Torn(ODD_HOST, TEST_POLICY, root, false);
    OddTreeIsProper();
    TornIsVisible(ODD_HOST, TEST_POLICY, root, false);
  }

  lemma OddTreeIsProper()
    ensures Proper([ODD, DEEP])
  {
    assert |"X.JAVA"| != |"a"|;
    var test := [Dir("test", [File("x.py")])];
    assert Proper([File("x.py")]) && Proper(test);
    assert Proper([Dir("c", test)]);
    assert Proper([Dir("b", [Dir("c", test)])]);
  }
}
