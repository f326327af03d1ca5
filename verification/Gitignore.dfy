/** The ignore rules: what one rule matches, and the verdict over a list of rules. */
module Gitignore {
  import opened Glob
  import opened PathComponents

  datatype Rule = Rule(pattern: string, negate: bool, dirOnly: bool, anchored: bool, hasStar: bool)

  // ---- What one rule means ----

  /** A rule against one candidate path. */
  ghost predicate Accepts(r: Rule, candidate: string) {
    if r.hasStar then
      Matches(r.pattern, if !r.anchored && '/' !in r.pattern then Last(Split(candidate)) else candidate)
    else if r.anchored then candidate == r.pattern
    else Run(Split(r.pattern), Split(candidate))
  }

  /** `dir` is a directory above `path`. */
  ghost predicate IsAbove(dir: string, path: string) {
    |dir| < |path| && path[..|dir|] == dir && path[|dir|] == '/'
  }

  /** A rule against an entry: directly, or for a directory rule through a directory above. */
  ghost predicate Hits(r: Rule, path: string, isDir: bool) {
    || ((isDir || !r.dirOnly) && Accepts(r, path))
    || (r.dirOnly && exists dir :: IsAbove(dir, path) && Accepts(r, dir))
  }

  /** An entry is ignored when some rule that is not negated hits it. */
  ghost predicate Ignored(rules: seq<Rule>, path: string, isDir: bool) {
    exists i | 0 <= i < |rules| :: !rules[i].negate && Hits(rules[i], path, isDir)
  }

  // ---- The code ----

  /** The first position from `from` on where `p` occurs, or -1. */
  method Find(s: string, p: string, from: nat) returns (pos: int)
    ensures pos == -1 || (from <= pos && OccursAt(p, s, pos))
    ensures forall k :: from <= k && (pos == -1 || k < pos) ==> !OccursAt(p, s, k)
  {
    pos := from;
    while pos <= |s| - |p|
      invariant from <= pos
      invariant forall k :: from <= k < pos ==> !OccursAt(p, s, k)
    {
      if OccursAt(p, s, pos) {
        return;
      }
      pos := pos + 1;
    }
    pos := -1;
  }

  /** The part after the last slash. */
  method Basename(s: string) returns (b: string)
    ensures b == Last(Split(s))
  {
    var i := |s|;
    while i > 0 && s[i - 1] != '/'
      invariant 0 <= i <= |s| && '/' !in s[i..]
    {
      i := i - 1;
    }
    b := s[i..];
    SplitWhole(b);
    if i > 0 {
      assert s == s[..i - 1] + "/" + b;
      SplitAppend(s[..i - 1], b);
    } else {
      assert s == b;
    }
  }

  /** An unanchored literal: every occurrence is tried until one stands between boundaries. */
  method FindStanding(p: string, candidate: string) returns (ok: bool)
    ensures ok <==> Run(Split(p), Split(candidate))
  {
    StandsIffRun(p, candidate);
    var searchFrom := 0;
    while true
      invariant searchFrom <= |candidate| + 1
      invariant forall k :: k < searchFrom ==> !StandsAt(p, candidate, k)
      decreases |candidate| + 1 - searchFrom
    {
      var pos := Find(candidate, p, searchFrom);
      if pos == -1 {
        return false;
      }
      var after := pos + |p|;
      var leftBoundary := pos == 0 || candidate[pos - 1] == '/';
      var rightBoundary := after == |candidate| || candidate[after] == '/';
      if leftBoundary && rightBoundary {
        assert StandsAt(p, candidate, pos);
        return true;
      }
      searchFrom := pos + 1;
    }
  }

  method MatchesOne(r: Rule, candidate: string) returns (ok: bool)
    ensures ok <==> Accepts(r, candidate)
  {
    if r.hasStar {
      if !r.anchored && '/' !in r.pattern {
        var basename := Basename(candidate);
        ok := GlobMatch(r.pattern, basename);
        return;
      }
      ok := GlobMatch(r.pattern, candidate);
      return;
    }
    if r.anchored {
      return candidate == r.pattern;
    }
    ok := FindStanding(r.pattern, candidate);
  }

  /** The directories above a path, from the root down. */
  method AncestorMatches(r: Rule, path: string) returns (ok: bool)
    ensures ok <==> exists dir :: IsAbove(dir, path) && Accepts(r, dir)
  {
    hide Accepts;
    for slash := 0 to |path|
      invariant forall dir :: IsAbove(dir, path) && |dir| < slash ==> !Accepts(r, dir)
    {
      if path[slash] == '/' {
        ok := MatchesOne(r, path[..slash]);
        if ok {
          assert IsAbove(path[..slash], path);
          return;
        }
      }
    }
    ok := false;
  }

  method GitignoreMatches(rules: seq<Rule>, path: string, isDir: bool) returns (ignored: bool)
    ensures ignored <==> Ignored(rules, path, isDir)
  {
    hide Accepts, IsAbove;
    ignored := false;
    for i := 0 to |rules|
      invariant !ignored && !Ignored(rules[..i], path, isDir)
    {
      var r := rules[i];
      var match_;
      if r.dirOnly && !isDir {
        match_ := AncestorMatches(r, path);
      } else {
        match_ := MatchesOne(r, path);
        if !match_ && r.dirOnly {
          match_ := AncestorMatches(r, path);
        }
      }
      assert match_ <==> Hits(r, path, isDir);
      if match_ {
        ignored := !r.negate;
        if !r.negate {
          return;
        }
      }
    }
    assert rules[..|rules|] == rules;
  }

  // ---- What the verdict does and does not depend on ----

  /** Only the set of rules that are not negated matters: order, repeats and negated rules do not. */
  lemma VerdictIgnoresOrder(rules: seq<Rule>, others: seq<Rule>, path: string, isDir: bool)
    requires forall r: Rule :: !r.negate ==> (r in rules <==> r in others)
    ensures Ignored(rules, path, isDir) <==> Ignored(others, path, isDir)
  {
    hide Hits;
  }

  /** Reading more ignore files never un-ignores an entry. */
  lemma MoreRulesIgnoreMore(rules: seq<Rule>, more: seq<Rule>, path: string, isDir: bool)
    ensures Ignored(rules + more, path, isDir) <==> Ignored(rules, path, isDir) || Ignored(more, path, isDir)
  {
    hide Hits;
    var all := rules + more;
    if i :| 0 <= i < |rules| && !rules[i].negate && Hits(rules[i], path, isDir) {
      assert all[i] == rules[i];
    }
    if i :| 0 <= i < |more| && !more[i].negate && Hits(more[i], path, isDir) {
      assert all[|rules| + i] == more[i];
    }
  }

  lemma AboveIsTransitive(a: string, b: string, c: string)
    requires IsAbove(a, b) && IsAbove(b, c)
    ensures IsAbove(a, c)
  {
  }

  /** A directory rule that hits a directory hits everything below it. */
  lemma DirectoryRuleIsClosedBelow(r: Rule, dir: string, path: string, isDir: bool)
    requires r.dirOnly && Hits(r, dir, true) && IsAbove(dir, path)
    ensures Hits(r, path, isDir)
  {
    if !Accepts(r, dir) {
      var top :| IsAbove(top, dir) && Accepts(r, top);
      AboveIsTransitive(top, dir, path);
    }
  }

  /** So does an unanchored rule without wildcards, even one that is not for directories only. */
  lemma LiteralRuleIsClosedBelow(r: Rule, dir: string, path: string, isDir: bool)
    requires !r.hasStar && !r.anchored && Hits(r, dir, true) && IsAbove(dir, path)
    ensures Hits(r, path, isDir)
  {
    if r.dirOnly {
      DirectoryRuleIsClosedBelow(r, dir, path, isDir);
    } else {
      assert path == dir + "/" + path[|dir| + 1..];
      SplitAppend(dir, path[|dir| + 1..]);
      var p, cs := Split(r.pattern), Split(dir);
      var i :| 0 <= i <= |cs| - |p| && cs[i..][..|p|] == p;
      assert Split(path)[i..][..|p|] == p;
    }
  }

  // ---- Against the rule that the last match decides ----

  /** The verdict if the last rule that hits decided, as the negation flag suggests. */
  ghost predicate LastDecides(rules: seq<Rule>, path: string, isDir: bool) {
    rules != [] &&
    var last := rules[|rules| - 1];
    if Hits(last, path, isDir) then !last.negate else LastDecides(rules[..|rules| - 1], path, isDir)
  }

  /** A hit that is not negated, then the last hit, and that one is negated. */
  ghost predicate ReinstatedBy(rules: seq<Rule>, path: string, isDir: bool, i: nat, j: nat) {
    && i < j < |rules|
    && !rules[i].negate && Hits(rules[i], path, isDir)
    && rules[j].negate && Hits(rules[j], path, isDir)
    && forall k: nat :: j < k < |rules| ==> !Hits(rules[k], path, isDir)
  }

  ghost predicate Reinstated(rules: seq<Rule>, path: string, isDir: bool) {
    exists i: nat, j: nat :: ReinstatedBy(rules, path, isDir, i, j)
  }

  /**
   * The verdict differs from the last match exactly when a later negated rule reinstates the
   * entry: then it is ignored all the same.
   */
  lemma {:induction false} DiffersExactlyWhenReinstated(rules: seq<Rule>, path: string, isDir: bool)
    ensures LastDecides(rules, path, isDir) ==> Ignored(rules, path, isDir)
    ensures Ignored(rules, path, isDir) && !LastDecides(rules, path, isDir) <==> Reinstated(rules, path, isDir)
  {
    hide Hits;
    if rules != [] {
      hide Ignored, Reinstated;
      var front, last := rules[..|rules| - 1], rules[|rules| - 1];
      DiffersExactlyWhenReinstated(front, path, isDir);
      MoreRulesIgnoreMore(front, [last], path, isDir);
      OneRule(last, path, isDir);
      assert rules == front + [last];
      ReinstatedLast(front, last, path, isDir);
    }
  }

  lemma OneRule(r: Rule, path: string, isDir: bool)
    ensures Ignored([r], path, isDir) <==> !r.negate && Hits(r, path, isDir)
  {
    hide Hits;
    assert [r][0] == r;
  }

  lemma ReinstatedLast(front: seq<Rule>, last: Rule, path: string, isDir: bool)
    ensures Reinstated(front + [last], path, isDir) <==>
      if Hits(last, path, isDir) then last.negate && Ignored(front, path, isDir) else Reinstated(front, path, isDir)
  {
    hide Hits;
    var rules, n := front + [last], |front|;
    assert rules[n] == last && forall k: nat :: k < n ==> rules[k] == front[k];
    if Hits(last, path, isDir) {
      if last.negate && Ignored(front, path, isDir) {
        var i: nat :| i < n && !front[i].negate && Hits(front[i], path, isDir);
        assert ReinstatedBy(rules, path, isDir, i, n);
      }
      forall i: nat, j: nat | ReinstatedBy(rules, path, isDir, i, j)
        ensures last.negate && Ignored(front, path, isDir)
      {
        assert j == n && rules[i] == front[i];
      }
    } else {
      forall i: nat, j: nat ensures ReinstatedBy(rules, path, isDir, i, j) <==> ReinstatedBy(front, path, isDir, i, j) {
      }
    }
  }

  /** A rule followed by its own negation: what it hits stays ignored, though the last match is negated. */
  lemma NegationDoesNotReinstate(r: Rule, path: string, isDir: bool)
    requires !r.negate && Hits(r, path, isDir)
    ensures var rules := [r, r.(negate := true)];
      Ignored(rules, path, isDir) && !LastDecides(rules, path, isDir) && Reinstated(rules, path, isDir)
  {
    var rules := [r, r.(negate := true)];
    assert Hits(r.(negate := true), path, isDir) by {
      SameHits(r, path, isDir);
    }
    hide Hits;
    assert rules[0] == r && rules[1] == r.(negate := true);
    assert ReinstatedBy(rules, path, isDir, 0, 1);
  }

  lemma SameHits(r: Rule, path: string, isDir: bool)
    ensures Hits(r, path, isDir) <==> Hits(r.(negate := true), path, isDir)
  {
    assert forall c :: Accepts(r, c) <==> Accepts(r.(negate := true), c);
  }

  /** The lines `build` and `!build` leave `build` ignored. */
  lemma BuildStaysIgnored()
    ensures var rules := [Rule("build", false, false, false, false), Rule("build", true, false, false, false)];
      Ignored(rules, "build", true) && !LastDecides(rules, "build", true) && Reinstated(rules, "build", true)
  {
    var r := Rule("build", false, false, false, false);
    var cs := Split("build");
    assert cs[0..][..|cs|] == cs;
    NegationDoesNotReinstate(r, "build", true);
  }
}
