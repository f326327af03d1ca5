/**
 * The ignore verdict told in characters and positions, and a few lines of an ignore file with
 * the entries they ignore and the entries they do not.
 */
module IgnoreFacts {
  import opened Gitignore
  import opened Glob
  import opened PathComponents

  // ---- One rule ----

  /** The string is `front`, which is nothing or ends in a slash, then `part`. */
  ghost predicate BehindSlash(s: string, front: string, part: string) {
    s == front + part && (front == "" || front[|front| - 1] == '/')
  }

  /** The string is `part`, then nothing or a slash and more. */
  ghost predicate BeforeSlash(s: string, part: string, back: string) {
    s == part + back && (back == "" || back[0] == '/')
  }

  /** What the branches of the rule ask of one path. */
  ghost predicate Asks(r: Rule, s: string) {
    if r.hasStar && !r.anchored && '/' !in r.pattern then
      exists front, name :: BehindSlash(s, front, name) && '/' !in name && Matches(r.pattern, name)
    else if r.hasStar then Matches(r.pattern, s)
    else if r.anchored then s == r.pattern
    else exists front, rest, back :: BehindSlash(s, front, rest) && BeforeSlash(rest, r.pattern, back)
  }

  lemma AcceptsMeans(r: Rule, s: string)
    ensures Accepts(r, s) <==> Asks(r, s)
  {
    hide Matches, Run, Split, BehindSlash, BeforeSlash;
    if r.hasStar && !r.anchored && '/' !in r.pattern {
      LastIsName(s);
    } else if !r.hasStar && !r.anchored {
      RunMeans(r.pattern, s);
    }
  }

  lemma RunMeans(p: string, s: string)
    ensures Run(Split(p), Split(s)) <==>
      exists front, rest, back :: BehindSlash(s, front, rest) && BeforeSlash(rest, p, back)
  {
    StandsIffRun(p, s);
    hide Run, Split, StandsAt, BehindSlash, BeforeSlash;
    if pos :| StandsAt(p, s, pos) {
      StandsBetween(p, s, pos);
      assert BehindSlash(s, s[..pos], s[pos..]) && BeforeSlash(s[pos..], p, s[pos + |p|..]);
    }
    if front, rest, back :| BehindSlash(s, front, rest) && BeforeSlash(rest, p, back) {
      StandsBehind(p, s, front, rest, back);
      assert StandsAt(p, s, |front|);
    }
  }

  lemma StandsBetween(p: string, s: string, pos: int)
    requires StandsAt(p, s, pos)
    ensures 0 <= pos <= |s| - |p|
    ensures BehindSlash(s, s[..pos], s[pos..]) && BeforeSlash(s[pos..], p, s[pos + |p|..])
  {
    assert s == s[..pos] + s[pos..] && s[pos..] == s[pos..pos + |p|] + s[pos + |p|..];
  }

  lemma StandsBehind(p: string, s: string, front: string, rest: string, back: string)
    requires BehindSlash(s, front, rest) && BeforeSlash(rest, p, back)
    ensures StandsAt(p, s, |front|)
  {
    assert s[|front|..|front| + |p|] == p;
  }

  lemma LastIsName(s: string)
    ensures exists front :: BehindSlash(s, front, Last(Split(s)))
    ensures '/' !in Last(Split(s))
    ensures forall front, name | BehindSlash(s, front, name) && '/' !in name :: name == Last(Split(s))
  {
    var i := |s|;
    while i > 0 && s[i - 1] != '/'
      invariant 0 <= i <= |s| && '/' !in s[i..]
    {
      i := i - 1;
    }
    NameAfter(s, s[..i], s[i..]);
    assert BehindSlash(s, s[..i], s[i..]);
    forall front, name | BehindSlash(s, front, name) && '/' !in name ensures name == Last(Split(s)) {
      NameAfter(s, front, name);
    }
  }

  lemma NameAfter(s: string, front: string, name: string)
    requires BehindSlash(s, front, name) && '/' !in name
    ensures Last(Split(s)) == name
  {
    SplitWhole(name);
    if front == "" {
      assert s == name;
    } else {
      var above := front[..|front| - 1];
      assert s == above + "/" + name;
      SplitAppend(above, name);
    }
  }

  // ---- The verdict ----

  /**
   * An entry is ignored when a rule that is not negated asks for it, which a rule for
   * directories does of directories only, or, if it is one, asks for the path up to some slash.
   */
  ghost predicate IsAskedFor(r: Rule, path: string, isDir: bool) {
    || ((r.dirOnly ==> isDir) && Asks(r, path))
    || (r.dirOnly && exists i | 0 <= i < |path| && path[i] == '/' :: Asks(r, path[..i]))
  }

  lemma HitsMeans(r: Rule, path: string, isDir: bool)
    ensures Hits(r, path, isDir) <==> IsAskedFor(r, path, isDir)
  {
    hide Accepts, Asks;
    AcceptsMeans(r, path);
    forall dir ensures Accepts(r, dir) <==> Asks(r, dir) {
      AcceptsMeans(r, dir);
    }
    forall dir | IsAbove(dir, path) ensures dir == path[..|dir|] && path[|dir|] == '/' {
    }
    forall i | 0 <= i < |path| && path[i] == '/' ensures IsAbove(path[..i], path) {
    }
  }

  lemma VerdictMeans(rules: seq<Rule>, path: string, isDir: bool)
    ensures Ignored(rules, path, isDir) <==> exists r :: r in rules && !r.negate && IsAskedFor(r, path, isDir)
  {
    forall r: Rule ensures Hits(r, path, isDir) <==> IsAskedFor(r, path, isDir) {
      HitsMeans(r, path, isDir);
    }
    hide Hits, IsAskedFor;
  }

  /** A rule for directories never ignores a file by itself: some directory above it must be ignored. */
  lemma FilesOnlyThroughDirectories(r: Rule, path: string)
    requires r.dirOnly
    ensures Ignored([r], path, false) <==> exists dir :: IsAbove(dir, path) && Ignored([r], dir, true)
  {
    forall p, d ensures Ignored([r], p, d) <==> !r.negate && Hits(r, p, d) {
      OneRule(r, p, d);
    }
    hide Ignored, Accepts;
    if dir :| IsAbove(dir, path) && !r.negate && Hits(r, dir, true) {
      DirectoryRuleIsClosedBelow(r, dir, path, false);
    }
    assert forall dir | IsAbove(dir, path) && Accepts(r, dir) :: Hits(r, dir, true);
  }

  // ---- Lines of an ignore file ----

  /** `name/`: a directory of that name and what is in it, not a file of that name, nor any other name. */
  lemma DirectoryLine(name: string, front: string, back: string)
    requires '/' !in name && (front == "" || front[|front| - 1] == '/') && back != "" && back[0] == '/'
    ensures var rules := [Rule(name, false, true, false, false)];
      && Ignored(rules, front + name, true) && Ignored(rules, front + name + back, false)
      && !Ignored(rules, name, false) && forall other | '/' !in other && other != name :: !Ignored(rules, other, true)
  {
    var r := Rule(name, false, true, false, false);
    hide Asks, Ignored;
    Standing(front, name, "");
    assert front + name + "" == front + name;
    ByDirectory(r, front + name, back);
    ByName(r, name);
    forall other | '/' !in other && other != name ensures !Ignored([r], other, true) {
      NoStanding(other, name);
      ByName(r, other);
    }
  }

  /** A directory asked for is ignored, and what is below it. */
  lemma ByDirectory(r: Rule, dir: string, below: string)
    requires r.dirOnly && !r.negate && Asks(r, dir) && below != "" && below[0] == '/'
    ensures Ignored([r], dir, true) && Ignored([r], dir + below, false)
  {
    hide Asks, Ignored;
    OneRule(r, dir, true);
    OneRule(r, dir + below, false);
    HitsMeans(r, dir, true);
    HitsMeans(r, dir + below, false);
    assert (dir + below)[..|dir|] == dir && (dir + below)[|dir|] == '/';
  }

  /** An entry at the root: never as a file, and as a directory only if asked for. */
  lemma ByName(r: Rule, name: string)
    requires r.dirOnly && !r.negate && '/' !in name
    ensures !Ignored([r], name, false) && (Ignored([r], name, true) <==> Asks(r, name))
  {
    hide Asks, Ignored;
    OneRule(r, name, true);
    OneRule(r, name, false);
    HitsMeans(r, name, true);
    HitsMeans(r, name, false);
  }

  lemma Standing(front: string, p: string, back: string)
    requires (front == "" || front[|front| - 1] == '/') && (back == "" || back[0] == '/')
    ensures Asks(Rule(p, false, true, false, false), front + p + back)
    ensures Asks(Rule(p, false, false, false, false), front + p + back)
  {
    assert front + p + back == front + (p + back);
    assert BehindSlash(front + p + back, front, p + back) && BeforeSlash(p + back, p, back);
  }

  /** Without a slash only the whole name can stand in a name. */
  lemma NoStanding(s: string, p: string)
    requires '/' !in s && s != p
    ensures forall d :: !Asks(Rule(p, false, d, false, false), s)
  {
    forall front, rest, back ensures !(BehindSlash(s, front, rest) && BeforeSlash(rest, p, back)) {
      if BehindSlash(s, front, rest) && BeforeSlash(rest, p, back) {
        SlashInFront(s, front, rest);
        SlashBehind(rest, p, back);
      }
    }
  }

  lemma SlashInFront(s: string, front: string, rest: string)
    requires BehindSlash(s, front, rest)
    ensures '/' !in s ==> front == "" && rest == s
  {
    assert front != "" ==> s[|front| - 1] == '/';
  }

  lemma SlashBehind(s: string, p: string, back: string)
    requires BeforeSlash(s, p, back)
    ensures '/' !in s ==> back == "" && p == s
  {
    assert back != "" ==> s[|p|] == '/';
  }

  /** `/a` and `a`: at the root only, or anywhere, as a whole name. */
  lemma AnchoredOrNot()
    ensures var anchored := [Rule("a", false, false, true, false)];
      Ignored(anchored, "a", false) && !Ignored(anchored, "b/a", false)
    ensures var anywhere := [Rule("a", false, false, false, false)];
      && Ignored(anywhere, "a", false) && Ignored(anywhere, "b/a", false) && Ignored(anywhere, "b/a/c", false)
      && !Ignored(anywhere, "ba", false)
  {
    var r, q := Rule("a", false, false, true, false), Rule("a", false, false, false, false);
    forall p, d ensures Ignored([r], p, d) <==> Hits(r, p, d) {
      OneRule(r, p, d);
    }
    forall p, d ensures Ignored([q], p, d) <==> Asks(q, p) {
      OneRule(q, p, d);
      HitsMeans(q, p, d);
    }
    hide Ignored;
    Standing("", "a", "");
    Standing("b/", "a", "");
    Standing("b/", "a", "/c");
    assert "" + "a" + "" == "a" && "b/" + "a" + "" == "b/a" && "b/" + "a" + "/c" == "b/a/c";
    NoStanding("ba", "a");
  }
}
