/**
 * Which ignore rules hit everything below a directory that they hit, on the paths a walk
 * meets: conditions on the rule alone, for each of the ways in which a rule is matched.
 */
module ClosedRules {
  import opened Gitignore
  import opened Glob
  import opened GlobShapes
  import opened PathComponents

  /** Whatever the rule hits as a directory, it hits everything below. */
  ghost predicate ClosedBelow(r: Rule) {
    forall dir, path, isDir | Plain(path) && Hits(r, dir, true) && IsAbove(dir, path) :: Hits(r, path, isDir)
  }

  /** A rule without wildcards: it is for directories, or not anchored, or can hit no path at all. */
  lemma LiteralClosedExactly(r: Rule)
    requires !r.hasStar
    ensures ClosedBelow(r) <==> r.dirOnly || !r.anchored || !Plain(r.pattern)
  {
    forall dir, path, isDir | Plain(path) && Hits(r, dir, true) && IsAbove(dir, path)
      ensures (r.dirOnly || !r.anchored ==> Hits(r, path, isDir)) && Plain(dir)
    {
      PlainAbove(dir, path);
      if r.dirOnly {
        DirectoryRuleIsClosedBelow(r, dir, path, isDir);
      } else if !r.anchored {
        LiteralRuleIsClosedBelow(r, dir, path, isDir);
      }
    }
    if Plain(r.pattern) && r.anchored && !r.dirOnly {
      PlainBelow(r.pattern, "x");
      assert Hits(r, r.pattern, true) && IsAbove(r.pattern, r.pattern + "/x");
      assert Plain(r.pattern + "/x") && !Hits(r, r.pattern + "/x", false);
    }
  }

  // ---- Wildcard rules that are not for directories only ----

  lemma MatchesByLanguage(p: string, s: string)
    ensures Matches(p, s) <==> Deeps(Tokens(p)) <= MAX_DEEP && Language(Tokens(p), s)
  {
    LanguageIsReadings(Tokens(p), s);
  }

  /** A wildcard rule that is matched against the last component only. */
  ghost predicate OnBasename(r: Rule) { r.hasStar && !r.anchored && '/' !in r.pattern }

  /** Tokens that take every name: nothing but wildcards, a star among them, and at most one `?`. */
  ghost predicate TakesEveryName(ts: seq<Token>) {
    AllWild(ts) && (Star in ts || Deep in ts) && Count(ts, Any) <= 1
  }

  ghost predicate IsName(w: string) { w != "" && '/' !in w }

  /** They take every name, and no other tokens without a slash do. */
  lemma TakesEveryNameExactly(ts: seq<Token>)
    ensures TakesEveryName(ts) <==> forall w | IsName(w) :: Language(ts, w)
  {
    if TakesEveryName(ts) {
      forall w | IsName(w) ensures Language(ts, w) {
        WildsTakeNames(ts, w);
      }
    } else {
      var w := NameNotTaken(ts);
    }
  }

  lemma NameNotTaken(ts: seq<Token>) returns (w: string)
    requires !TakesEveryName(ts)
    ensures IsName(w) && !Language(ts, w)
  {
    w := "x";
    if t :| t in ts && !IsWild(t) {
      w := if t.c == 'x' then "y" else "x";
      if Language(ts, w) {
        LiteralInWord(ts, w, t.c);
      }
    } else {
      if Star !in ts && Deep !in ts && |ts| == 1 {
        w := "xx";
      }
      if Language(ts, w) {
        WordsAreLong(ts, w);
      }
    }
  }

  lemma {:induction false} NoSlashToken(p: string)
    requires '/' !in p
    ensures SLASH !in Tokens(p)
    decreases |p|
  {
    if p != "" {
      assert p[0] in p;
      assert forall i | Width(p) <= i < |p| :: p[i] in p;
      NoSlashToken(p[Width(p)..]);
    }
  }

  lemma NameBelowName(w: string, v: string)
    requires IsName(w) && IsName(v)
    ensures Plain(w + "/" + v) && IsAbove(w, w + "/" + v)
    ensures Last(Split(w)) == w && Last(Split(w + "/" + v)) == v
  {
    PlainBelow(w, v);
    SplitAppend(w, v);
    SplitWhole(w);
    SplitWhole(v);
  }

  /** The last component of a plain path is a name. */
  lemma LastIsName(path: string)
    requires Plain(path)
    ensures IsName(Last(Split(path)))
  {
    PlainIsComponents(path);
    ComponentsAreWhole(path);
    assert Last(Split(path)) in Split(path);
  }

  lemma {:induction false} ComponentsAreWhole(s: string)
    ensures forall c | c in Split(s) :: '/' !in c
  {
    if s != "" {
      ComponentsAreWhole(s[1..]);
      assert Split(s[1..])[0] in Split(s[1..]);
    }
  }

  /**
   * Matched against the last component, a rule is closed below exactly when it matches every
   * name or none: when its tokens take every name, or there are none, or too many `**`.
   */
  lemma BasenameClosedExactly(r: Rule)
    requires OnBasename(r) && !r.dirOnly
    ensures ClosedBelow(r) <==>
      (forall w | IsName(w) :: Matches(r.pattern, w)) || (forall w | IsName(w) :: !Matches(r.pattern, w))
    ensures var ts := Tokens(r.pattern);
      ClosedBelow(r) <==> TakesEveryName(ts) || ts == [] || Deeps(ts) > MAX_DEEP
  {
    hide Matches, Language, TakesEveryName, Plain;
    var ts := Tokens(r.pattern);
    forall w ensures Matches(r.pattern, w) <==> Deeps(ts) <= MAX_DEEP && Language(ts, w) {
      MatchesByLanguage(r.pattern, w);
    }
    TakesEveryNameExactly(ts);
    FillIsWord(ts);
    FillIsName(r.pattern);
    NoTokens();
    ClosedByNames(r);
  }

  lemma NoTokens()
    ensures forall w :: Language([], w) ==> w == ""
  {
  }

  lemma FillIsName(p: string)
    requires '/' !in p
    ensures Tokens(p) != [] ==> IsName(Fill(Tokens(p)))
  {
    NoSlashToken(p);
  }

  lemma ClosedByNames(r: Rule)
    requires OnBasename(r) && !r.dirOnly
    ensures ClosedBelow(r) <==>
      (forall w | IsName(w) :: Matches(r.pattern, w)) || (forall w | IsName(w) :: !Matches(r.pattern, w))
  {
    hide Matches, Plain, Split, IsName;
    if ClosedBelow(r) {
      forall w, v | IsName(w) && IsName(v) && Matches(r.pattern, w) ensures Matches(r.pattern, v) {
        NameBelowName(w, v);
        assert Hits(r, w, true) && Hits(r, w + "/" + v, false);
      }
    } else {
      var dir, path, isDir :| Plain(path) && Hits(r, dir, true) && IsAbove(dir, path) && !Hits(r, path, isDir);
      PlainAbove(dir, path);
      LastIsName(dir);
      LastIsName(path);
    }
  }

  /** A wildcard rule that is matched against the whole path. */
  ghost predicate OnWholePath(r: Rule) { r.hasStar && !OnBasename(r) }

  /** A `**`, and after the last one only wildcards and slashes, loose and with no blunt end. */
  ghost predicate KeepsTaking(ts: seq<Token>) { Deep in ts && Loose(Tail(ts)) && !EndsBlunt(Tail(ts)) }

  /**
   * Matched against the whole path, a rule is closed below exactly when it keeps taking, or
   * matches no plain path at all. Left open are rules that keep taking and are tangled: after
   * some slash behind the last `**` comes a `?`, and another one before the next slash.
   */
  lemma WholePathClosedExactly(r: Rule)
    requires OnWholePath(r) && !r.dirOnly
    requires var ts := Tokens(r.pattern);
      KeepsTaking(ts) && Tidy(ts, SLASH) && Deeps(ts) <= MAX_DEEP ==> !Knotty(Tail(ts))
    ensures var ts := Tokens(r.pattern);
      ClosedBelow(r) <==> KeepsTaking(ts) || !Tidy(ts, SLASH) || Deeps(ts) > MAX_DEEP
  {
    var ts := Tokens(r.pattern);
    if Deeps(ts) <= MAX_DEEP && Tidy(ts, SLASH) && !KeepsTaking(ts) {
      WholePathNotClosed(r);
    } else {
      hide Matches, Language, Plain, Loose, Knotty, Tail, EndsBlunt;
      forall dir, path, isDir | Plain(path) && Hits(r, dir, true) && IsAbove(dir, path) ensures Hits(r, path, isDir) {
        PlainAbove(dir, path);
        PlainWordExists(ts);
        MatchesByLanguage(r.pattern, dir);
        MatchesByLanguage(r.pattern, path);
        if KeepsTaking(ts) {
          GrowsBelow(ts, dir, path);
        }
      }
    }
  }

  /** This half holds with any arrangement of `?` too. */
  lemma WholePathNotClosed(r: Rule)
    requires OnWholePath(r) && !r.dirOnly
    requires var ts := Tokens(r.pattern);
      Deeps(ts) <= MAX_DEEP && Tidy(ts, SLASH) && !KeepsTaking(ts)
    ensures !ClosedBelow(r)
  {
    hide Matches, Language, Plain, Loose, Tail, EndsBlunt;
    var ts := Tokens(r.pattern);
    var dir, path;
    if EndsBlunt(Tail(ts)) {
      dir, path := BluntStuck(ts);
    } else {
      dir, path := StuckBelow(ts);
    }
    MatchesByLanguage(r.pattern, dir);
    MatchesByLanguage(r.pattern, path);
    assert Hits(r, dir, true) && !Hits(r, path, false);
  }

  // ---- Rules of both kinds ----

  /** By their last component: `*` and `?*` are closed below, `*.o` is not. */
  lemma NamesOfBothKinds()
    ensures ClosedBelow(Rule("*", false, false, false, true)) && ClosedBelow(Rule("?*", false, false, false, true))
    ensures !ClosedBelow(Rule("*.o", false, false, false, true))
  {
    hide ClosedBelow, Tokens;
    ReadPatterns();
    var suffixed := [Star, Literal('.'), Literal('o')];
    assert [Any, Star][1..] == [Star] && [Star][1..] == [];
    assert suffixed[1..] == [Literal('.'), Literal('o')] && suffixed[1..][1..] == [Literal('o')];
    assert [Literal('o')][1..] == [];
    assert TakesEveryName([Star]) && TakesEveryName([Any, Star]);
    assert suffixed[1] in suffixed && Deeps(suffixed) == 0;
    BasenameClosedExactly(Rule("*", false, false, false, true));
    BasenameClosedExactly(Rule("?*", false, false, false, true));
    BasenameClosedExactly(Rule("*.o", false, false, false, true));
  }

  // By the whole path: an anchored `**` is closed below, and so are two `*` under `**`; an anchored `*` and
  // the object files under `**` are not.
  lemma PathsOfBothKinds()
    ensures ClosedBelow(Rule("**", false, false, true, true)) && ClosedBelow(Rule("**/*/*", false, false, false, true))
    ensures !ClosedBelow(Rule("*", false, false, true, true)) && !ClosedBelow(Rule("**/*.o", false, false, false, true))
  {
    hide ClosedBelow, Tokens, Loose, Knotty;
    ReadPatterns();
    ReadPaths();
    var star, deep, nested := [Star], [Deep], [Deep, Star, SLASH, Star];
    var suffixed := [Deep, Star, Literal('.'), Literal('o')];
    assert star[1..] == [] && deep[1..] == [];
    assert nested[1..] == [Star, SLASH, Star] && suffixed[1..] == [Star, Literal('.'), Literal('o')];
    SmallTails();
    WholePathClosedExactly(Rule("**", false, false, true, true));
    WholePathClosedExactly(Rule("*", false, false, true, true));
    WholePathClosedExactly(Rule("**/*/*", false, false, false, true));
    WholePathClosedExactly(Rule("**/*.o", false, false, false, true));
  }

  /** Under `**`, two components of which the last has at least two characters are hit; what is below need not be. */
  lemma BluntEndIsNotClosed()
    ensures !ClosedBelow(Rule("**/*/??*", false, false, false, true))
  {
    hide ClosedBelow, Tokens, Loose;
    ReadPaths();
    var ts := [Deep, Star, SLASH, Any, Any, Star];
    assert ts[1..] == [Star, SLASH, Any, Any, Star] && ts[1..][2..] == [Any, Any, Star];
    assert EndsBluntAt(ts[1..], 1, 2, 0);
    FewDeeps(ts);
    WholePathNotClosed(Rule("**/*/??*", false, false, false, true));
  }

  lemma SmallTails()
    ensures Loose([]) && !Knotty([]) && !Knotty([Star])
    ensures Loose([Star, SLASH, Star]) && !Knotty([Star, SLASH, Star])
    ensures !Loose([Star, Literal('.'), Literal('o')]) && !Knotty([Star, Literal('.'), Literal('o')])
  {
    var nested, suffixed := [Star, SLASH, Star], [Star, Literal('.'), Literal('o')];
    assert nested[2..] == [Star] && [Star][1..] == [];
    assert Stretch([Star]) == [Star];
    assert suffixed[1] in suffixed;
  }

  lemma {:induction false} FewDeeps(ts: seq<Token>)
    ensures Deeps(ts) <= |ts|
  {
    if ts != [] {
      FewDeeps(ts[1..]);
    }
  }

  // ---- Reading patterns ----

  lemma ReadChar(c: char, rest: string)
    requires c != '*'
    ensures Tokens([c] + rest) == [if c == '?' then Any else Literal(c)] + Tokens(rest)
  {
    assert ([c] + rest)[1..] == rest;
  }

  lemma ReadStar(rest: string)
    requires rest == "" || rest[0] != '*'
    ensures Tokens("*" + rest) == [Star] + Tokens(rest)
  {
    assert ("*" + rest)[1..] == rest;
  }

  lemma ReadDeep(rest: string)
    ensures Tokens("**/" + rest) == [Deep] + Tokens(rest)
  {
    assert ("**/" + rest)[3..] == rest;
  }

  lemma ReadPatterns()
    ensures Tokens("*") == [Star] && Tokens("?*") == [Any, Star] && Tokens("**") == [Deep]
    ensures Tokens("*.o") == [Star, Literal('.'), Literal('o')]
  {
    assert Tokens("") == [] && Tokens("**") == [Deep];
    hide Tokens;
    ReadStar("");
    assert "*" + "" == "*" && ['?'] + "*" == "?*" && ['o'] + "" == "o" && ['.'] + "o" == ".o" && "*" + ".o" == "*.o";
    ReadChar('?', "*");
    ReadChar('o', "");
    ReadChar('.', "o");
    ReadStar(".o");
  }

  lemma ReadPaths()
    ensures Tokens("**/*.o") == [Deep, Star, Literal('.'), Literal('o')]
    ensures Tokens("**/*/*") == [Deep, Star, SLASH, Star]
    ensures Tokens("**/*/??*") == [Deep, Star, SLASH, Any, Any, Star]
  {
    hide Tokens;
    ReadPatterns();
    ReadDeep("*.o");
    assert "**/" + "*.o" == "**/*.o";
    ReadChar('/', "*");
    assert ['/'] + "*" == "/*";
    ReadStar("/" + "*");
    ReadDeep("*" + "/*");
    assert "**/" + ("*" + "/*") == "**/*/*" && "/" + "*" == "/*";
    ReadChar('?', "?*");
    assert ['?'] + "?*" == "??*";
    ReadChar('/', "??*");
    assert ['/'] + "??*" == "/??*";
    ReadStar("/??*");
    assert "*" + "/??*" == "*/??*";
    ReadDeep("*/??*");
    assert "**/" + "*/??*" == "**/*/??*";
  }
}
