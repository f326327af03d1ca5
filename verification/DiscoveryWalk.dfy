/**
 * The discovery code: the scan that fixes the language context and the pruned walk, both
 * over an explicit stack of directories, and what they promise together.
 */
module DiscoveryWalk {
  import opened DiscoveryOrder
  import opened DiscoveryTree
  import opened SkipPolicy

  /** A directory being enumerated: the entries still to come. */
  datatype Level = Level(at: Path, rest: seq<Entry>)

  /** The rest of a walk, innermost directory last. */
  ghost function VisitStack(h: Host, p: Policy, stack: seq<Level>, java: bool): Outcome {
    if stack == [] then Outcome([], java)
    else
      var top := stack[|stack| - 1];
      var first := VisitAll(h, p, top.rest, top.at, java);
      Then(first, VisitStack(h, p, stack[..|stack| - 1], first.java))
  }

  ghost function StackFiles(stack: seq<Level>): seq<Path> {
    if stack == [] then []
    else
      var top := stack[|stack| - 1];
      Files(top.rest, top.at) + StackFiles(stack[..|stack| - 1])
  }

  // ---- A measure of what is left ----

  ghost function Size(e: Entry): (n: nat)
    ensures n >= 1
    decreases e, 1
  {
    if e.File? then 1 else 2 + Sizes(e.children)
  }

  ghost function Sizes(es: seq<Entry>): nat
    decreases es, 0
  {
    if es == [] then 0 else Size(es[0]) + Sizes(es[1..])
  }

  ghost function StackSize(stack: seq<Level>): nat {
    if stack == [] then 0 else 1 + Sizes(stack[|stack| - 1].rest) + StackSize(stack[..|stack| - 1])
  }

  // ---- Moving the iterator ----

  /** The stack after the top's next entry is taken, with the directory it opens, if any, on top. */
  function Advance(stack: seq<Level>, entered: seq<Level>): seq<Level>
    requires stack != [] && stack[|stack| - 1].rest != []
  {
    var n := |stack| - 1;
    stack[..n] + [Level(stack[n].at, stack[n].rest[1..])] + entered
  }

  lemma PopMeans(h: Host, p: Policy, stack: seq<Level>, java: bool)
    requires stack != [] && stack[|stack| - 1].rest == []
    ensures VisitStack(h, p, stack, java) == VisitStack(h, p, stack[..|stack| - 1], java)
    ensures StackFiles(stack) == StackFiles(stack[..|stack| - 1])
    ensures StackSize(stack[..|stack| - 1]) < StackSize(stack)
  {
    var top := stack[|stack| - 1];
    assert Files(top.rest, top.at) + StackFiles(stack[..|stack| - 1]) == StackFiles(stack[..|stack| - 1]);
    var rest := VisitStack(h, p, stack[..|stack| - 1], java);
    assert [] + rest.jobs == rest.jobs;
  }

  lemma PassMeans(h: Host, p: Policy, stack: seq<Level>, java: bool)
    requires stack != [] && stack[|stack| - 1].rest != []
    ensures var top := stack[|stack| - 1];
      var first := Visit(h, p, top.rest[0], top.at, java);
      && VisitStack(h, p, stack, java) == Then(first, VisitStack(h, p, Advance(stack, []), first.java))
      && StackFiles(stack) == FilesOf(top.rest[0], top.at) + StackFiles(Advance(stack, []))
      && StackSize(Advance(stack, [])) < StackSize(stack)
  {
    hide Visit, FilesOf, Size;
    var n := |stack| - 1;
    var top := stack[n];
    var next := Advance(stack, []);
    assert next[..n] == stack[..n] && next[n] == Level(top.at, top.rest[1..]) && |next| == n + 1;
    var first := Visit(h, p, top.rest[0], top.at, java);
    var second := VisitAll(h, p, top.rest[1..], top.at, first.java);
    var third := VisitStack(h, p, stack[..n], second.java);
    assert VisitStack(h, p, next, first.java) == Then(second, third);
    assert StackSize(next) == 1 + Sizes(top.rest[1..]) + StackSize(stack[..n]);
    assert StackFiles(next) == Files(top.rest[1..], top.at) + StackFiles(stack[..n]);
    assert VisitAll(h, p, top.rest, top.at, java) == Then(first, second);
    assert VisitStack(h, p, stack, java) == Then(Then(first, second), third);
    assert first.jobs + second.jobs + third.jobs == first.jobs + (second.jobs + third.jobs);
    assert FilesOf(top.rest[0], top.at) + Files(top.rest[1..], top.at) + StackFiles(stack[..n])
      == FilesOf(top.rest[0], top.at) + (Files(top.rest[1..], top.at) + StackFiles(stack[..n]));
  }

  lemma EnterMeans(h: Host, p: Policy, stack: seq<Level>, java: bool)
    requires stack != [] && stack[|stack| - 1].rest != [] && stack[|stack| - 1].rest[0].Dir?
    ensures var top := stack[|stack| - 1];
      var e := top.rest[0];
      var into := Advance(stack, [Level(top.at + [e.name], e.children)]);
      && (!Skips(p, java, top.at + [e.name], true) ==> VisitStack(h, p, stack, java) == VisitStack(h, p, into, java))
      && StackFiles(stack) == StackFiles(into) && StackSize(into) < StackSize(stack)
  {
    var n := |stack| - 1;
    var top := stack[n];
    var e := top.rest[0];
    var next := Advance(stack, []);
    var into := Advance(stack, [Level(top.at + [e.name], e.children)]);
    assert |into| == n + 2 && into[..n + 1] == next && into[n + 1] == Level(top.at + [e.name], e.children);
    PassMeans(h, p, stack, java);
    assert next[..n] == stack[..n] && next[n] == Level(top.at, top.rest[1..]);
    assert StackSize(next) == 1 + Sizes(top.rest[1..]) + StackSize(stack[..n]);
    assert Size(e) == 2 + Sizes(e.children) && Sizes(top.rest) == Size(e) + Sizes(top.rest[1..]);
    assert StackSize(into) == 1 + Sizes(e.children) + StackSize(next);
    assert StackFiles(into) == FilesOf(e, top.at) + StackFiles(next);
  }

  lemma StartMeans(h: Host, p: Policy, root: seq<Entry>, java: bool)
    ensures VisitStack(h, p, [Level([], root)], java) == VisitAll(h, p, root, [], java)
    ensures StackFiles([Level([], root)]) == Files(root, [])
  {
    var stack := [Level([], root)];
    assert stack[..0] == [];
    assert Files(root, []) + [] == Files(root, []);
    var all := VisitAll(h, p, root, [], java);
    assert all.jobs + [] == all.jobs;
  }

  /** The part of the filter the walk changes: the language context. */
  class FilterPolicy {
    const policy: Policy
    var java: bool

    constructor (policy: Policy)
      ensures this.policy == policy && !java
    {
      this.policy, java := policy, false;
    }

    /** Any `.java` file in the tree, skipped or not, makes the context Java. */
    method ApplyProjectLanguageContext(h: Host, root: seq<Entry>)
      modifies this
      ensures java <==> old(java) || exists f :: f in Files(root, []) && h.spelledJava(f)
    {
      if java {
        return;
      }
      var stack := [Level([], root)];
      StartMeans(h, policy, root, java);
      while stack != []
        invariant !java && forall f | f in Files(root, []) && f !in StackFiles(stack) :: !h.spelledJava(f)
        invariant forall f | f in StackFiles(stack) :: f in Files(root, [])
        decreases StackSize(stack)
      {
        var top := stack[|stack| - 1];
        if top.rest == [] {
          PopMeans(h, policy, stack, java);
          stack := stack[..|stack| - 1];
        } else {
          var e := top.rest[0];
          var path := top.at + [e.name];
          PassMeans(h, policy, stack, java);
          if e.Dir? {
            EnterMeans(h, policy, stack, java);
            stack := Advance(stack, [Level(path, e.children)]);
          } else {
            if h.spelledJava(path) {
              assert path in FilesOf(e, top.at);
              java := true;
              return;
            }
            stack := Advance(stack, []);
          }
        }
      }
    }

    /** The pruned walk itself. */
    method Walk(h: Host, root: seq<Entry>) returns (jobs: seq<Path>)
      modifies this
      ensures Outcome(jobs, java) == VisitAll(h, policy, root, [], old(java))
    {
      jobs := [];
      var stack := [Level([], root)];
      StartMeans(h, policy, root, java);
      while stack != []
        invariant VisitAll(h, policy, root, [], old(java)) ==
                  Then(Outcome(jobs, java), VisitStack(h, policy, stack, java))
        decreases StackSize(stack)
      {
        hide VisitAll, VisitStack, StackFiles, Skips;
        var top := stack[|stack| - 1];
        if top.rest == [] {
          PopMeans(h, policy, stack, java);
          stack := stack[..|stack| - 1];
        } else {
          var e := top.rest[0];
          PassMeans(h, policy, stack, java);
          if e.Dir? {
            var skip := ShouldSkipPath(policy, java, top.at + [e.name], true);
            if skip {
              SkippedDirectory(h, policy, e, top.at, java);
              stack := Advance(stack, []);
            } else {
              EnterMeans(h, policy, stack, java);
              stack := Advance(stack, [Level(top.at + [e.name], e.children)]);
            }
          } else {
            ghost var was := java;
            var found := VisitRegular(h, top.at + [e.name]);
            AppendFound(jobs, found, java, VisitStack(h, policy, Advance(stack, []), java));
            jobs := jobs + found;
            stack := Advance(stack, []);
          }
        }
      }
    }

    /** One regular file: at most one job, and a Java file flips the context even if its language is not accepted. */
    method VisitRegular(h: Host, path: Path) returns (found: seq<Path>)
      requires path != []
      modifies this
      ensures Outcome(found, java) == VisitFile(h, policy, path, old(java))
      ensures found == [] || found == [path]
      ensures found == [path] <==>
        && !(|path| == 1 && h.readme(path[0])) && !Skips(policy, old(java), path, false) && !h.upToDate(path)
        && h.language(path) != Unknown && h.accepted(h.language(path))
      ensures |path| == 1 && h.readme(path[0]) ==> found == [] && java == old(java)
      ensures old(java) ==> java
      ensures java && !old(java) ==> h.language(path) == Java && (found == [path] <==> h.accepted(Java))
    {
      found := [];
      if |path| == 1 && h.readme(path[0]) {
        return;
      }
      var skip := ShouldSkipPath(policy, java, path, false);
      if skip || h.upToDate(path) {
        return;
      }
      var lang := h.language(path);
      if lang == Unknown {
        return;
      }
      if lang == Java && !java {
        java := true;
      }
      if h.accepted(lang) {
        found := [path];
      }
    }

    /**
     * Discovery: the context first, then the walk. The walk flips the context exactly when a
     * Java file can be reached outside it; while it does not, the jobs are the kept files in
     * enumeration order, and in every case they lie between those kept in the two contexts.
     */
    method CollectFileJobs(h: Host, root: seq<Entry>) returns (jobs: seq<Path>)
      modifies this
      ensures jobs == Collected(h, policy, root, old(java))
      ensures java <==> old(java) || HasJava(h, root) || exists f :: f in Files(root, []) && Flips(h, policy, f)
      ensures (java ==> old(java) || HasJava(h, root)) ==> jobs == Kept(h, policy, java, Files(root, []))
      ensures Covers(policy) ==> forall f ::
        && (f in Files(root, []) && Keeps(h, policy, false, f) ==> f in jobs)
        && (f in jobs ==> f in Files(root, []) && Keeps(h, policy, true, f))
    {
      ApplyProjectLanguageContext(h, root);
      ghost var context := java;
      jobs := Walk(h, root);
      WalkFromContext(h, policy, root, context);
    }
  }

  lemma SkippedDirectory(h: Host, p: Policy, e: Entry, at: Path, java: bool)
    requires e.Dir? && Skips(p, java, at + [e.name], true)
    ensures forall rest: Outcome :: Then(Visit(h, p, e, at, java), Outcome(rest.jobs, rest.java)) == rest
    ensures Visit(h, p, e, at, java).java == java
  {
    forall rest: Outcome ensures Then(Visit(h, p, e, at, java), Outcome(rest.jobs, rest.java)) == rest {
      assert [] + rest.jobs == rest.jobs;
    }
  }

  lemma AppendFound(jobs: seq<Path>, found: seq<Path>, java: bool, rest: Outcome)
    ensures jobs + (found + rest.jobs) == (jobs + found) + rest.jobs
  {
  }

  /** What the walk does from a context that has been fixed. */
  lemma WalkFromContext(h: Host, p: Policy, root: seq<Entry>, java: bool)
    ensures var r := VisitAll(h, p, root, [], java);
      && (r.java <==> java || exists f :: f in Files(root, []) && Flips(h, p, f))
      && (r.java == java ==> r.jobs == Kept(h, p, java, Files(root, [])))
      && (Covers(p) ==> forall f ::
           && (f in Files(root, []) && Keeps(h, p, false, f) ==> f in r.jobs)
           && (f in r.jobs ==> f in Files(root, []) && Keeps(h, p, true, f)))
  {
    hide Keeps, Flips;
    if java {
      JavaStays(h, p, root, []);
      SteadyWalk(h, p, root, true);
    } else {
      FlipsExactly(h, p, root);
      if forall f | f in Files(root, []) :: !Flips(h, p, f) {
        SteadyWalk(h, p, root, false);
      }
    }
    if Covers(p) {
      Squeezed(h, p, root, java);
    }
  }
}
