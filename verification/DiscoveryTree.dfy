/**
 * The pruned directory walk as a function: what it collects in enumeration order, and how
 * the first Java file it meets changes the context for what comes after.
 */
module DiscoveryTree {
  import opened SkipPolicy

  /** A directory's entries come in the order the file system yields them. */
  datatype Entry = File(name: string) | Dir(name: string, children: seq<Entry>)

  datatype Language = Unknown | Java | Other(name: string)

  /** What the walk asks about a file besides its path. */
  datatype Host = Host(language: Path -> Language, spelledJava: Path -> bool, upToDate: Path -> bool,
                       accepted: Language -> bool, readme: string -> bool)

  /** The files collected and the context at the end. */
  datatype Outcome = Outcome(jobs: seq<Path>, java: bool)

  function Then(a: Outcome, b: Outcome): Outcome { Outcome(a.jobs + b.jobs, b.java) }

  function Visit(h: Host, p: Policy, e: Entry, at: Path, java: bool): Outcome
    decreases e, 1
  {
    match e
    case File(name) => VisitFile(h, p, at + [name], java)
    case Dir(name, children) =>
      if Skips(p, java, at + [name], true) then Outcome([], java)
      else VisitAll(h, p, children, at + [name], java)
  }

  function VisitAll(h: Host, p: Policy, es: seq<Entry>, at: Path, java: bool): Outcome
    decreases es, 0
  {
    if es == [] then Outcome([], java)
    else
      var first := Visit(h, p, es[0], at, java);
      Then(first, VisitAll(h, p, es[1..], at, first.java))
  }

  function VisitFile(h: Host, p: Policy, path: Path, java: bool): Outcome
    requires path != []
  {
    if (|path| == 1 && h.readme(path[0])) || Skips(p, java, path, false) || h.upToDate(path)
       || h.language(path) == Unknown then Outcome([], java)
    else
      Outcome(if h.accepted(h.language(path)) then [path] else [], java || h.language(path) == Java)
  }

  // ---- The declarative side ----

  function FilesOf(e: Entry, at: Path): seq<Path>
    decreases e, 1
  {
    match e
    case File(name) => [at + [name]]
    case Dir(name, children) => Files(children, at + [name])
  }

  function Files(es: seq<Entry>, at: Path): seq<Path>
    decreases es, 0
  {
    if es == [] then [] else FilesOf(es[0], at) + Files(es[1..], at)
  }

  /** Neither the entry nor a directory above it is skipped. */
  ghost predicate Clear(p: Policy, java: bool, path: Path, isDir: bool) {
    forall k: nat :: 1 <= k <= |path| ==> !Skips(p, java, path[..k], isDir || k < |path|)
  }

  /** The walk looks at the file's language. */
  ghost predicate Reaches(h: Host, p: Policy, java: bool, path: Path) {
    && !(|path| == 1 && h.readme(path[0])) && Clear(p, java, path, false) && !h.upToDate(path)
  }

  /** The walk collects the file. */
  ghost predicate Keeps(h: Host, p: Policy, java: bool, path: Path) {
    Reaches(h, p, java, path) && h.language(path) != Unknown && h.accepted(h.language(path))
  }

  ghost function Kept(h: Host, p: Policy, java: bool, paths: seq<Path>): seq<Path> {
    if paths == [] then []
    else (if Keeps(h, p, java, paths[0]) then [paths[0]] else []) + Kept(h, p, java, paths[1..])
  }

  /** A Java file that a walk outside the Java context looks at: the one that would flip it. */
  ghost predicate Flips(h: Host, p: Policy, f: Path) { Reaches(h, p, false, f) && h.language(f) == Java }

  ghost predicate Steady(h: Host, p: Policy, java: bool, paths: seq<Path>) {
    java || forall f | f in paths :: !Flips(h, p, f)
  }

  lemma {:induction false} KeptAppend(h: Host, p: Policy, java: bool, a: seq<Path>, b: seq<Path>)
    ensures Kept(h, p, java, a + b) == Kept(h, p, java, a) + Kept(h, p, java, b)
  {
    if a == [] {
      assert a + b == b;
    } else {
      assert (a + b)[1..] == a[1..] + b;
      KeptAppend(h, p, java, a[1..], b);
    }
  }

  lemma {:induction false} KeptMembers(h: Host, p: Policy, java: bool, paths: seq<Path>, f: Path)
    ensures f in Kept(h, p, java, paths) <==> f in paths && Keeps(h, p, java, f)
  {
    if paths != [] {
      KeptMembers(h, p, java, paths[1..], f);
    }
  }

  /** Files are below the directory they are listed from. */
  lemma {:induction false} FilesAreBelow(es: seq<Entry>, at: Path, f: Path)
    requires f in Files(es, at)
    ensures |at| < |f| && f[..|at|] == at
    decreases es, 0
  {
    if f in FilesOf(es[0], at) {
      FileIsBelow(es[0], at, f);
    } else {
      FilesAreBelow(es[1..], at, f);
    }
  }

  lemma {:induction false} FileIsBelow(e: Entry, at: Path, f: Path)
    requires f in FilesOf(e, at)
    ensures |at| < |f| && f[..|at|] == at
    decreases e, 1
  {
    if e.Dir? {
      FilesAreBelow(e.children, at + [e.name], f);
      assert f[..|at|] == (at + [e.name])[..|at|];
    }
  }

  lemma {:induction false} NothingKept(h: Host, p: Policy, java: bool, paths: seq<Path>)
    requires forall f | f in paths :: !Keeps(h, p, java, f)
    ensures Kept(h, p, java, paths) == []
  {
    if paths != [] {
      NothingKept(h, p, java, paths[1..]);
    }
  }

  /** Below a skipped directory nothing is reached. */
  lemma SkippedIsClosed(p: Policy, java: bool, dir: Path, f: Path)
    requires dir != [] && Skips(p, java, dir, true) && |dir| < |f| && f[..|dir|] == dir
    ensures !Clear(p, java, f, false)
  {
    assert Skips(p, java, f[..|dir|], true);
  }

  lemma ClearChild(p: Policy, java: bool, at: Path, name: string, isDir: bool)
    requires Clear(p, java, at, true)
    ensures Clear(p, java, at + [name], isDir) <==> !Skips(p, java, at + [name], isDir)
  {
    var path := at + [name];
    assert path[..|path|] == path;
    forall k: nat | 1 <= k <= |at| ensures !Skips(p, java, path[..k], true) {
      assert path[..k] == at[..k];
    }
  }

  // ---- The walk while the context stays as it is ----

  lemma {:induction false} SteadyVisit(h: Host, p: Policy, e: Entry, at: Path, java: bool)
    requires Clear(p, java, at, true) && Steady(h, p, java, FilesOf(e, at))
    ensures Visit(h, p, e, at, java) == Outcome(Kept(h, p, java, FilesOf(e, at)), java)
    decreases e, 1
  {
    var path := at + [e.name];
    if e.File? {
      ClearChild(p, java, at, e.name, false);
      assert [path][1..] == [] && Kept(h, p, java, []) == [];
      assert path in [path];
    } else if Skips(p, java, path, true) {
      forall f | f in FilesOf(e, at) ensures !Keeps(h, p, java, f) {
        FilesAreBelow(e.children, path, f);
        SkippedIsClosed(p, java, path, f);
      }
      NothingKept(h, p, java, FilesOf(e, at));
    } else {
      ClearChild(p, java, at, e.name, true);
      SteadyVisitAll(h, p, e.children, path, java);
    }
  }

  lemma {:induction false} SteadyVisitAll(h: Host, p: Policy, es: seq<Entry>, at: Path, java: bool)
    requires Clear(p, java, at, true) && Steady(h, p, java, Files(es, at))
    ensures VisitAll(h, p, es, at, java) == Outcome(Kept(h, p, java, Files(es, at)), java)
    decreases es, 0
  {
    if es != [] {
      SteadyVisit(h, p, es[0], at, java);
      SteadyVisitAll(h, p, es[1..], at, java);
      KeptAppend(h, p, java, FilesOf(es[0], at), Files(es[1..], at));
    }
  }

  // ---- The flip ----

  /** Once Java, always Java. */
  lemma {:induction false} JavaStays(h: Host, p: Policy, es: seq<Entry>, at: Path)
    ensures VisitAll(h, p, es, at, true).java
    decreases es, 0
  {
    if es != [] {
      JavaStaysIn(h, p, es[0], at);
      JavaStays(h, p, es[1..], at);
    }
  }

  lemma {:induction false} JavaStaysIn(h: Host, p: Policy, e: Entry, at: Path)
    ensures Visit(h, p, e, at, true).java
    decreases e, 1
  {
    if e.Dir? {
      JavaStays(h, p, e.children, at + [e.name]);
    }
  }

  lemma {:induction false} FlipHappens(h: Host, p: Policy, es: seq<Entry>, at: Path, f: Path)
    requires Clear(p, false, at, true) && f in Files(es, at) && Flips(h, p, f)
    ensures VisitAll(h, p, es, at, false).java
    decreases es, 0
  {
    var first := Visit(h, p, es[0], at, false);
    if f in FilesOf(es[0], at) {
      FlipHappensIn(h, p, es[0], at, f);
    }
    if first.java {
      JavaStays(h, p, es[1..], at);
    } else {
      FlipHappens(h, p, es[1..], at, f);
    }
  }

  lemma {:induction false} FlipHappensIn(h: Host, p: Policy, e: Entry, at: Path, f: Path)
    requires Clear(p, false, at, true) && f in FilesOf(e, at) && Flips(h, p, f)
    ensures Visit(h, p, e, at, false).java
    decreases e, 1
  {
    var path := at + [e.name];
    if e.File? {
      ClearChild(p, false, at, e.name, false);
    } else {
      FilesAreBelow(e.children, path, f);
      if Skips(p, false, path, true) {
        SkippedIsClosed(p, false, path, f);
      } else {
        ClearChild(p, false, at, e.name, true);
        FlipHappens(h, p, e.children, path, f);
      }
    }
  }

  /**
   * A walk started outside the Java context ends in it exactly when some Java file can be
   * reached without it, whatever the order of enumeration.
   */
  lemma FlipsExactly(h: Host, p: Policy, es: seq<Entry>)
    ensures VisitAll(h, p, es, [], false).java <==> exists f :: f in Files(es, []) && Flips(h, p, f)
  {
    if f :| f in Files(es, []) && Flips(h, p, f) {
      FlipHappens(h, p, es, [], f);
    } else {
      SteadyVisitAll(h, p, es, [], false);
    }
  }
}
