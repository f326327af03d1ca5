/**
 * Ignore rules inside discovery: what the rules ignore is never collected, whatever the
 * language context does during the walk, and when asking about a path alone, as the server
 * does, gives the answer of a walk that also asks about every directory above.
 */
module IgnoredTrees {
  import opened ClosedRules
  import opened DiscoveryTree
  import opened Gitignore
  import opened GlobShapes
  import opened PathComponents
  import opened SkipPolicy

  /** The path as the root of the rules sees it: behind the prefix of the scanned module. */
  function RulePath(prefix: string, path: Path): string
    requires path != []
  {
    prefix + Join(path)
  }

  /** The rules are among the reasons for which the policy skips. */
  ghost predicate Heeds(p: Policy, rules: seq<Rule>, prefix: string) {
    forall path, isDir | path != [] && Ignored(rules, RulePath(prefix, path), isDir) :: p.others(path, isDir)
  }

  /** Besides names, the rules are the only reason. */
  ghost predicate HeedsOnly(p: Policy, rules: seq<Rule>, prefix: string) {
    forall path, isDir | path != [] :: p.others(path, isDir) <==> Ignored(rules, RulePath(prefix, path), isDir)
  }

  lemma BelowIsAbove(prefix: string, dir: Path, path: Path)
    requires dir != [] && |dir| < |path| && path[..|dir|] == dir
    ensures IsAbove(RulePath(prefix, dir), RulePath(prefix, path))
  {
    var rest := path[|dir|..];
    assert path == dir + rest;
    JoinAppend(dir, rest);
    assert RulePath(prefix, path) == RulePath(prefix, dir) + "/" + Join(rest);
  }

  // ---- In the walk ----

  /** No rule, and nothing else that ignores the language, speaks against the path from `from` components on. */
  ghost predicate Unopposed(p: Policy, f: Path, from: nat) {
    forall k: nat :: from < k <= |f| ==> !p.others(f[..k], k < |f|)
  }

  lemma {:induction false} CollectedIsUnopposed(h: Host, p: Policy, es: seq<Entry>, at: Path, java: bool, f: Path)
    requires f in VisitAll(h, p, es, at, java).jobs
    ensures |at| < |f| && f[..|at|] == at && Unopposed(p, f, |at|)
    decreases es, 0
  {
    var first := Visit(h, p, es[0], at, java);
    if f in first.jobs {
      CollectedInIsUnopposed(h, p, es[0], at, java, f);
    } else {
      CollectedIsUnopposed(h, p, es[1..], at, first.java, f);
    }
  }

  lemma {:induction false} CollectedInIsUnopposed(h: Host, p: Policy, e: Entry, at: Path, java: bool, f: Path)
    requires f in Visit(h, p, e, at, java).jobs
    ensures |at| < |f| && f[..|at|] == at && Unopposed(p, f, |at|)
    decreases e, 1
  {
    hide SkipsPath;
    var path := at + [e.name];
    if e.Dir? {
      CollectedIsUnopposed(h, p, e.children, path, java, f);
      assert f[..|at|] == path[..|at|];
      assert f[..|at| + 1] == path;
    } else {
      assert f == path && f[..|f|] == f;
    }
  }

  /**
   * No collected file is ignored, and none lies in an ignored directory: for any rules, any
   * context the walk starts from and any changes of context on the way.
   */
  lemma IgnoredIsNeverCollected(h: Host, p: Policy, rules: seq<Rule>, prefix: string, root: seq<Entry>, java: bool,
                                f: Path, k: nat)
    requires Heeds(p, rules, prefix)
    requires f in VisitAll(h, p, root, [], java).jobs && 1 <= k <= |f|
    ensures !Ignored(rules, RulePath(prefix, f[..k]), k < |f|)
  {
    hide Ignored, VisitAll;
    CollectedIsUnopposed(h, p, root, [], java, f);
  }

  // ---- Asked about a path alone ----

  /** Whatever the list ignores as a directory, it ignores with everything below. */
  ghost predicate ListClosedBelow(rules: seq<Rule>) {
    forall dir, path, isDir | Plain(path) && Ignored(rules, dir, true) && IsAbove(dir, path) ::
      Ignored(rules, path, isDir)
  }

  lemma ClosedRulesMakeClosedList(rules: seq<Rule>)
    requires forall r | r in rules && !r.negate :: ClosedBelow(r)
    ensures ListClosedBelow(rules)
  {
    hide Hits, IsAbove, Plain;
    forall dir, path, isDir | Plain(path) && Ignored(rules, dir, true) && IsAbove(dir, path)
      ensures Ignored(rules, path, isDir)
    {
      var i :| 0 <= i < |rules| && !rules[i].negate && Hits(rules[i], dir, true);
      assert ClosedBelow(rules[i]);
    }
  }

  lemma NamesAreClosedBelow(p: Policy, java: bool, path: Path, k: nat)
    requires k <= |path| && SkipsPath(p, java, path[..k])
    ensures SkipsPath(p, java, path)
  {
    hide SkipsName, SkipsNearTop;
    assert forall i | 0 <= i < k :: path[..k][i] == path[i];
  }

  /** One question is enough for a path if an ignored directory above it makes it ignored. */
  lemma OneQuestionByClosure(p: Policy, rules: seq<Rule>, prefix: string, java: bool, path: Path, isDir: bool)
    requires HeedsOnly(p, rules, prefix) && path != []
    requires var whole := RulePath(prefix, path);
      forall dir | IsAbove(dir, whole) && Ignored(rules, dir, true) :: Ignored(rules, whole, isDir)
    ensures Skips(p, java, path, isDir) <==> !Clear(p, java, path, isDir)
  {
    hide SkipsPath, Ignored, RulePath, IsAbove;
    assert path[..|path|] == path;
    forall k: nat | 1 <= k < |path| && Skips(p, java, path[..k], true) ensures Skips(p, java, path, isDir) {
      if SkipsPath(p, java, path[..k]) {
        NamesAreClosedBelow(p, java, path, k);
      } else {
        BelowIsAbove(prefix, path[..k], path);
      }
    }
  }

  /** One question about a path is answered as by asking all the way down, whatever the policy's names are. */
  ghost predicate OneQuestionIsEnough(rules: seq<Rule>) {
    forall p, prefix, java, path, isDir |
      HeedsOnly(p, rules, prefix) && path != [] && Plain(RulePath(prefix, path)) ::
      Skips(p, java, path, isDir) <==> !Clear(p, java, path, isDir)
  }

  /** That is so exactly for the lists that are closed below. */
  lemma OneQuestionExactly(rules: seq<Rule>)
    ensures OneQuestionIsEnough(rules) <==> ListClosedBelow(rules)
  {
    hide Skips, Clear, HeedsOnly, Ignored, IsAbove, Plain;
    if ListClosedBelow(rules) {
      forall p, prefix, java, path, isDir | HeedsOnly(p, rules, prefix) && path != [] && Plain(RulePath(prefix, path))
        ensures Skips(p, java, path, isDir) <==> !Clear(p, java, path, isDir)
      {
        OneQuestionByClosure(p, rules, prefix, java, path, isDir);
      }
    }
    if OneQuestionIsEnough(rules) {
      forall dir, path, isDir | Plain(path) && Ignored(rules, dir, true) && IsAbove(dir, path)
        ensures Ignored(rules, path, isDir)
      {
        EnoughMeansClosed(rules, dir, path, isDir);
      }
    }
  }

  /** A policy with no names: what it skips is what the rules ignore. */
  ghost function RulesAlone(rules: seq<Rule>): Policy {
    Policy({}, {}, {}, {}, (path: Path, isDir: bool) => path != [] && Ignored(rules, RulePath("", path), isDir))
  }

  lemma RulesAloneSkips(rules: seq<Rule>, path: Path, isDir: bool)
    ensures HeedsOnly(RulesAlone(rules), rules, "")
    ensures path != [] ==> (Skips(RulesAlone(rules), false, path, isDir) <==> Ignored(rules, Join(path), isDir))
  {
    hide Ignored;
    assert path != [] ==> RulePath("", path) == Join(path);
  }

  lemma EnoughMeansClosed(rules: seq<Rule>, dir: string, path: string, isDir: bool)
    requires OneQuestionIsEnough(rules) && Plain(path) && Ignored(rules, dir, true) && IsAbove(dir, path)
    ensures Ignored(rules, path, isDir)
  {
    hide Ignored, HeedsOnly, Skips, Plain, RulesAlone;
    var cs, k := Split(path), |Split(dir)|;
    JoinSplit(path);
    JoinSplit(dir);
    assert path == dir + "/" + path[|dir| + 1..];
    SplitAppend(dir, path[|dir| + 1..]);
    assert cs[..k] == Split(dir) && k < |cs|;
    RulesAloneSkips(rules, cs, isDir);
    RulesAloneSkips(rules, cs[..k], true);
    assert RulePath("", cs) == path;
    assert !Clear(RulesAlone(rules), false, cs, isDir);
  }

  // ---- Lists without wildcards, but for directory rules ----

  /** Every rule is for directories, or has no wildcards. */
  ghost predicate FewWildcards(rules: seq<Rule>) {
    forall r | r in rules && !r.negate :: r.dirOnly || !r.hasStar
  }

  /** A rule that is closed below, or one that is not. */
  predicate ReachesDown(r: Rule) { r.dirOnly || !r.anchored }

  ghost predicate IsBacked(rules: seq<Rule>, r: Rule) {
    exists other :: other in rules && !other.negate && ReachesDown(other) && Hits(other, r.pattern, true)
  }

  /** What an anchored rule names is also hit by a rule that reaches down. */
  ghost predicate AllBacked(rules: seq<Rule>) {
    forall r | r in rules && !r.negate && !ReachesDown(r) && Plain(r.pattern) :: IsBacked(rules, r)
  }

  /**
   * Such a list is closed below exactly when each anchored rule that is not for directories,
   * if it can name a path at all, is backed by a directory rule or one that is not anchored.
   */
  lemma ListClosedExactly(rules: seq<Rule>)
    requires FewWildcards(rules)
    ensures ListClosedBelow(rules) <==> AllBacked(rules)
  {
    hide Hits, Ignored, IsAbove, Plain, IsBacked;
    if AllBacked(rules) {
      forall dir, path, isDir | Plain(path) && Ignored(rules, dir, true) && IsAbove(dir, path)
        ensures Ignored(rules, path, isDir)
      {
        BackedReachesDown(rules, dir, path, isDir);
      }
    }
    if ListClosedBelow(rules) {
      forall r | r in rules && !r.negate && !ReachesDown(r) && Plain(r.pattern) ensures IsBacked(rules, r) {
        ClosedMeansBacked(rules, r);
      }
    }
  }

  lemma ReachesBelow(rules: seq<Rule>, r: Rule, dir: string, path: string, isDir: bool)
    requires r in rules && !r.negate && ReachesDown(r) && (r.dirOnly || !r.hasStar)
    requires Hits(r, dir, true) && IsAbove(dir, path)
    ensures Ignored(rules, path, isDir)
  {
    hide Hits, IsAbove;
    if r.dirOnly {
      DirectoryRuleIsClosedBelow(r, dir, path, isDir);
    } else {
      LiteralRuleIsClosedBelow(r, dir, path, isDir);
    }
    var i :| 0 <= i < |rules| && rules[i] == r;
  }

  lemma BackedReachesDown(rules: seq<Rule>, dir: string, path: string, isDir: bool)
    requires FewWildcards(rules) && AllBacked(rules)
    requires Plain(path) && Ignored(rules, dir, true) && IsAbove(dir, path)
    ensures Ignored(rules, path, isDir)
  {
    PlainAbove(dir, path);
    hide IsAbove, Plain;
    var i :| 0 <= i < |rules| && !rules[i].negate && Hits(rules[i], dir, true);
    var r := rules[i];
    assert r in rules;
    if ReachesDown(r) {
      ReachesBelow(rules, r, dir, path, isDir);
    } else {
      assert dir == r.pattern;
      var other :| other in rules && !other.negate && ReachesDown(other) && Hits(other, dir, true);
      ReachesBelow(rules, other, dir, path, isDir);
    }
  }

  ghost function LongestPattern(rules: seq<Rule>): (n: nat)
    ensures forall r | r in rules :: |r.pattern| <= n
  {
    if rules == [] then 0
    else
      var n := LongestPattern(rules[1..]);
      if |rules[0].pattern| > n then |rules[0].pattern| else n
  }

  /** Below the named directory, a name longer than all patterns can only be hit through that directory. */
  lemma ClosedMeansBacked(rules: seq<Rule>, r: Rule)
    requires FewWildcards(rules) && ListClosedBelow(rules)
    requires r in rules && !r.negate && !ReachesDown(r) && Plain(r.pattern)
    ensures IsBacked(rules, r)
  {
    var dir, name := r.pattern, Name('x', LongestPattern(rules) + 1);
    var path := dir + "/" + name;
    PlainBelow(dir, name);
    hide Plain;
    var k :| 0 <= k < |rules| && rules[k] == r;
    assert Hits(r, dir, true) && Ignored(rules, dir, true) && IsAbove(dir, path);
    assert Ignored(rules, path, false);
    var i :| 0 <= i < |rules| && !rules[i].negate && Hits(rules[i], path, false);
    assert rules[i] in rules;
    hide Hits, Ignored, ListClosedBelow, LongestPattern, Name;
    HitThroughDirectory(rules[i], dir, name);
  }

  lemma HitThroughDirectory(r: Rule, dir: string, name: string)
    requires (r.dirOnly || !r.hasStar) && Hits(r, dir + "/" + name, false) && '/' !in name && |name| > |r.pattern|
    ensures ReachesDown(r) && Hits(r, dir, true)
  {
    var path := dir + "/" + name;
    if r.dirOnly {
      hide Accepts;
      var top :| IsAbove(top, path) && Accepts(r, top);
      AboveLast(top, dir, name);
    } else {
      SplitAppend(dir, name);
      SplitWhole(name);
      var p, cs := Split(r.pattern), Split(dir);
      var i :| 0 <= i <= |cs| + 1 - |p| && (cs + [name])[i..][..|p|] == p;
      if i + |p| == |cs| + 1 {
        assert p[|p| - 1] == name;
        ComponentIsShort(r.pattern, |p| - 1);
      }
      assert cs[i..][..|p|] == p;
    }
  }

  lemma AboveLast(top: string, dir: string, name: string)
    requires IsAbove(top, dir + "/" + name) && '/' !in name
    ensures top == dir || IsAbove(top, dir)
  {
    var path := dir + "/" + name;
    forall j | |dir| < j < |path| ensures path[j] != '/' {
      assert path[j] == name[j - |dir| - 1];
    }
    assert path[..|top|] == dir[..|top|];
  }

  lemma {:induction false} ComponentIsShort(s: string, i: nat)
    requires i < |Split(s)|
    ensures |Split(s)[i]| <= |s|
  {
    if s != "" {
      var rest := Split(s[1..]);
      if s[0] == '/' {
        if i > 0 {
          ComponentIsShort(s[1..], i - 1);
        }
      } else {
        ComponentIsShort(s[1..], i);
      }
    }
  }

  /** In particular a file in an ignored directory is skipped when asked about alone, on any path. */
  lemma DirectoryRulesNeedOneQuestion(p: Policy, rules: seq<Rule>, prefix: string, java: bool, path: Path, isDir: bool)
    requires HeedsOnly(p, rules, prefix) && path != []
    requires forall r | r in rules && !r.negate :: r.dirOnly || (!r.hasStar && !r.anchored)
    ensures Skips(p, java, path, isDir) <==> !Clear(p, java, path, isDir)
  {
    hide Skips, Clear, HeedsOnly, Hits, IsAbove;
    var whole := RulePath(prefix, path);
    forall dir | IsAbove(dir, whole) && Ignored(rules, dir, true) ensures Ignored(rules, whole, isDir) {
      var i :| 0 <= i < |rules| && !rules[i].negate && Hits(rules[i], dir, true);
      assert rules[i] in rules;
      ReachesBelow(rules, rules[i], dir, whole, isDir);
    }
    OneQuestionByClosure(p, rules, prefix, java, path, isDir);
  }

  /** The line `/a` is not for directories: the walk prunes `a`, and `a/b` asked about alone is not skipped. */
  lemma AnchoredRuleNeedsTheWalk(p: Policy, java: bool)
    requires HeedsOnly(p, [Rule("a", false, false, true, false)], "")
    requires p.active == p.prefixes == p.topOnly == p.guarded == {}
    ensures !Skips(p, java, ["a", "b"], false) && !Clear(p, java, ["a", "b"], false)
  {
    var r := Rule("a", false, false, true, false);
    var path := ["a", "b"];
    assert path[1..] == ["b"] && path[..1] == ["a"];
    assert RulePath("", path) == "a/b" && RulePath("", ["a"]) == "a";
    assert [r][0] == r && Hits(r, "a", true) && !Hits(r, "a/b", false);
    assert Ignored([r], "a", true) && !Ignored([r], "a/b", false);
    assert Skips(p, java, path[..1], true);
  }
}
