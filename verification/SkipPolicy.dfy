/**
 * Which entries discovery skips: names refused at any depth, names refused near the top,
 * and the exception for Java projects. A path is the sequence of its component names.
 */
module SkipPolicy {

  type Path = seq<string>

  /** `others` stands for the rules that do not depend on the language: ignore files, suffixes, excludes. */
  datatype Policy = Policy(active: set<string>, prefixes: set<string>, topOnly: set<string>,
                           guarded: set<string>, others: (Path, bool) -> bool)

  const HEAD := 3

  function LowerChar(c: char): char {
    if 'A' <= c <= 'Z' then (c as int + 32) as char else c
  }

  function Lower(s: string): (t: string)
    ensures |t| == |s| && forall i | 0 <= i < |s| :: t[i] == LowerChar(s[i])
  {
    if s == "" then "" else [LowerChar(s[0])] + Lower(s[1..])
  }

  /** Every name Java guards is one that other projects skip somewhere. */
  ghost predicate Covers(p: Policy) { p.guarded <= p.active + p.topOnly }

  // ---- What is skipped ----

  predicate HasPrefix(p: Policy, name: string) {
    exists x | x in p.prefixes :: |x| <= |name| && name[..|x|] == x
  }

  /** A name refused wherever it stands. */
  predicate SkipsName(p: Policy, java: bool, name: string) {
    var lower := Lower(name);
    if lower in p.active then !(java && lower in p.guarded) else HasPrefix(p, lower)
  }

  /** A name refused among the first three components. */
  predicate SkipsNearTop(p: Policy, java: bool, name: string) {
    var lower := Lower(name);
    name != "" && (lower in p.topOnly || (java && lower in p.guarded))
  }

  predicate SkipsPath(p: Policy, java: bool, path: Path) {
    || (exists i | 0 <= i < |path| :: SkipsName(p, java, path[i]))
    || (exists i | 0 <= i < |path| && i < HEAD :: SkipsNearTop(p, java, path[i]))
  }

  predicate Skips(p: Policy, java: bool, path: Path, isDir: bool) {
    path != [] && (SkipsPath(p, java, path) || p.others(path, isDir))
  }

  method ShouldSkipDir(p: Policy, java: bool, name: string) returns (skip: bool)
    ensures skip <==> SkipsName(p, java, name)
    ensures forall other | Lower(other) == Lower(name) :: SkipsName(p, java, other) <==> skip
    ensures Lower(name) in p.active && !java ==> skip
    ensures Lower(name) in p.active && java ==> (skip <==> Lower(name) !in p.guarded)
    ensures Lower(name) !in p.active ==> (skip <==> exists x | x in p.prefixes :: x <= Lower(name))
  {
    var lower := Lower(name);
    if lower in p.active {
      if java && lower in p.guarded {
        return false;
      }
      return true;
    }
    skip := ShouldSkipDirPrefix(p, lower);
  }

  method ShouldSkipDirPrefix(p: Policy, name: string) returns (skip: bool)
    ensures skip <==> HasPrefix(p, name)
  {
    var left := p.prefixes;
    while left != {}
      invariant left <= p.prefixes
      invariant forall x | x in p.prefixes - left :: !(|x| <= |name| && name[..|x|] == x)
      decreases |left|
    {
      var x :| x in left;
      if |x| <= |name| && name[..|x|] == x {
        return true;
      }
      left := left - {x};
    }
    skip := false;
  }

  method ShouldSkipPath(p: Policy, java: bool, path: Path, isDir: bool) returns (skip: bool)
    ensures skip <==> Skips(p, java, path, isDir)
  {
    if path == [] {
      return false;
    }
    for i := 0 to |path|
      invariant forall k | 0 <= k < i :: !SkipsName(p, java, path[k])
    {
      skip := ShouldSkipDir(p, java, path[i]);
      if skip {
        return;
      }
    }
    var depth := 0;
    while depth < HEAD && depth < |path|
      invariant 0 <= depth <= |path|
      invariant forall k | 0 <= k < depth :: !SkipsNearTop(p, java, path[k])
    {
      var comp := Lower(path[depth]);
      if comp != "" {
        if comp in p.topOnly {
          assert SkipsNearTop(p, java, path[depth]);
          return true;
        }
        if java && comp in p.guarded {
          assert SkipsNearTop(p, java, path[depth]);
          return true;
        }
      }
      depth := depth + 1;
    }
    skip := p.others(path, isDir);
  }

  /** Paths that differ in the case of their letters only are skipped alike by name. */
  lemma CaseDoesNotMatter(p: Policy, java: bool, path: Path, other: Path)
    requires |path| == |other| && forall i | 0 <= i < |path| :: Lower(path[i]) == Lower(other[i])
    ensures SkipsPath(p, java, path) <==> SkipsPath(p, java, other)
  {
    forall i | 0 <= i < |path|
      ensures SkipsName(p, java, path[i]) <==> SkipsName(p, java, other[i])
      ensures SkipsNearTop(p, java, path[i]) <==> SkipsNearTop(p, java, other[i])
    {
      assert path[i] == "" <==> other[i] == "";
    }
    hide SkipsName, SkipsNearTop;
  }

  // ---- What Java changes ----

  /** A component skipped in other projects only because of a name Java guards. */
  predicate Deferred(p: Policy, name: string) { Lower(name) in p.active && Lower(name) in p.guarded }

  /** A component skipped in every project. */
  predicate Hard(p: Policy, name: string) {
    if Lower(name) in p.active then Lower(name) !in p.guarded else HasPrefix(p, Lower(name))
  }

  lemma NameReasons(p: Policy, name: string)
    ensures SkipsName(p, true, name) <==> Hard(p, name)
    ensures SkipsName(p, false, name) <==> Hard(p, name) || Deferred(p, name)
    ensures Covers(p) && name != "" ==>
      (SkipsNearTop(p, true, name) ==> SkipsNearTop(p, false, name) || SkipsName(p, false, name))
    ensures SkipsNearTop(p, false, name) ==> SkipsNearTop(p, true, name)
    ensures name != "" && Deferred(p, name) ==> SkipsNearTop(p, true, name)
  {
  }

  /** The Java context skips nothing that other projects would keep. */
  lemma JavaOnlyRemovesSkips(p: Policy, path: Path, isDir: bool)
    requires Covers(p) && Skips(p, true, path, isDir)
    ensures Skips(p, false, path, isDir)
  {
    hide SkipsName, SkipsNearTop;
    forall i | 0 <= i < |path| ensures SkipsName(p, true, path[i]) ==> SkipsName(p, false, path[i]) {
      NameReasons(p, path[i]);
    }
    if i :| 0 <= i < |path| && i < HEAD && SkipsNearTop(p, true, path[i]) {
      NearTopHasName(p, path[i]);
      NameReasons(p, path[i]);
    }
  }

  lemma NearTopHasName(p: Policy, name: string)
    requires SkipsNearTop(p, true, name)
    ensures name != ""
  {
  }

  /** No reason to skip a path other than guarded names. */
  predicate OnlyGuarded(p: Policy, path: Path, isDir: bool) {
    && !p.others(path, isDir)
    && (forall i | 0 <= i < |path| :: !Hard(p, path[i]))
    && (forall i | 0 <= i < |path| && i < HEAD :: !SkipsNearTop(p, true, path[i]))
  }

  /**
   * It keeps, of what they skip, exactly the paths with a guarded name below the first
   * three components and no other reason.
   */
  lemma JavaRemovesExactly(p: Policy, path: Path, isDir: bool)
    requires forall i | 0 <= i < |path| :: path[i] != ""
    ensures Skips(p, false, path, isDir) && !Skips(p, true, path, isDir) <==>
      OnlyGuarded(p, path, isDir) && exists i | HEAD <= i < |path| :: Deferred(p, path[i])
  {
    hide SkipsName, SkipsNearTop, Hard, Deferred;
    forall i | 0 <= i < |path|
      ensures SkipsName(p, true, path[i]) <==> Hard(p, path[i])
      ensures SkipsName(p, false, path[i]) <==> Hard(p, path[i]) || Deferred(p, path[i])
      ensures SkipsNearTop(p, false, path[i]) || Deferred(p, path[i]) ==> SkipsNearTop(p, true, path[i])
    {
      NameReasons(p, path[i]);
    }
  }
}
