/** Slash-separated paths as sequences of components. */
module PathComponents {

  function Split(s: string): (cs: seq<string>)
    ensures cs != []
  {
    if s == "" then [""]
    else
      var rest := Split(s[1..]);
      if s[0] == '/' then [""] + rest else [[s[0]] + rest[0]] + rest[1..]
  }

  function Join(cs: seq<string>): string
    requires cs != []
  {
    if |cs| == 1 then cs[0] else cs[0] + "/" + Join(cs[1..])
  }

  lemma {:induction false} SplitAppend(a: string, b: string)
    ensures Split(a + "/" + b) == Split(a) + Split(b)
  {
    if a == "" {
      assert ("" + "/" + b)[1..] == b;
    } else {
      assert (a + "/" + b)[1..] == a[1..] + "/" + b;
      SplitAppend(a[1..], b);
    }
  }

  lemma {:induction false} JoinSplit(s: string)
    ensures Join(Split(s)) == s
  {
    if s != "" {
      JoinSplit(s[1..]);
      var rest := Split(s[1..]);
      assert Split(s)[1..] == if s[0] == '/' then rest else rest[1..];
      if s[0] == '/' {
        assert "" + "/" + s[1..] == s;
      } else {
        if |rest| > 1 {
          assert [s[0]] + rest[0] + "/" + Join(rest[1..]) == [s[0]] + (rest[0] + "/" + Join(rest[1..]));
        }
        assert [s[0]] + s[1..] == s;
      }
    }
  }

  lemma {:induction false} JoinAppend(xs: seq<string>, ys: seq<string>)
    requires xs != [] && ys != []
    ensures Join(xs + ys) == Join(xs) + "/" + Join(ys)
  {
    if |xs| == 1 {
      assert (xs + ys)[1..] == ys;
    } else {
      assert (xs + ys)[1..] == xs[1..] + ys;
      JoinAppend(xs[1..], ys);
      assert xs[0] + "/" + (Join(xs[1..]) + "/" + Join(ys)) == (xs[0] + "/" + Join(xs[1..])) + "/" + Join(ys);
    }
  }

  /** Without a slash there is one component. */
  lemma {:induction false} SplitWhole(s: string)
    requires '/' !in s
    ensures Split(s) == [s]
  {
    if s != "" {
      assert '/' !in s[1..];
      SplitWhole(s[1..]);
      assert s == [s[0]] + s[1..];
    }
  }

  /** No separator comes first, last or beside another, and the sequence is not empty. */
  predicate Tidy<T(==)>(s: seq<T>, separator: T) {
    s != [] && forall i | 0 <= i < |s| && s[i] == separator :: 0 < i < |s| - 1 && s[i + 1] != separator
  }

  /** A path as a directory walk meets it. */
  predicate Plain(s: string) { Tidy(s, '/') }

  predicate NoneEmpty(cs: seq<string>) { forall c | c in cs :: c != "" }

  lemma NoneEmptyStep(c: string, cs: seq<string>)
    ensures NoneEmpty([c] + cs) <==> c != "" && NoneEmpty(cs)
  {
    assert c in [c] + cs && forall x | x in cs :: x in [c] + cs;
  }

  /** It is one whose components are not empty. */
  lemma PlainIsComponents(s: string)
    ensures Plain(s) <==> NoneEmpty(Split(s))
  {
    LaterComponents(s);
    var cs := Split(s);
    NoneEmptyStep(cs[0], cs[1..]);
    assert cs == [cs[0]] + cs[1..];
    assert Plain(s) <==> s != "" && s[0] != '/' && LaterWhole(s);
  }

  /** No slash comes last or beside another. */
  predicate LaterWhole(s: string) { forall i | 0 <= i < |s| && s[i] == '/' :: i < |s| - 1 && s[i + 1] != '/' }

  lemma {:induction false} LaterComponents(s: string)
    ensures Split(s)[0] == "" <==> s == "" || s[0] == '/'
    ensures NoneEmpty(Split(s)[1..]) <==> LaterWhole(s)
  {
    hide LaterWhole, NoneEmpty;
    if s == "" {
      NothingLater();
    } else {
      var rest := Split(s[1..]);
      LaterComponents(s[1..]);
      NoneEmptyStep(rest[0], rest[1..]);
      assert rest == [rest[0]] + rest[1..];
      assert Split(s)[1..] == if s[0] == '/' then rest else rest[1..];
      LaterWholeStep(s);
    }
  }

  lemma NothingLater()
    ensures NoneEmpty(Split("")[1..]) && LaterWhole("")
  {
  }

  lemma LaterWholeStep(s: string)
    requires s != ""
    ensures LaterWhole(s) <==> LaterWhole(s[1..]) && (s[0] == '/' ==> |s| > 1 && s[1] != '/')
  {
    if LaterWhole(s[1..]) && (s[0] == '/' ==> |s| > 1 && s[1] != '/') {
      forall i | 0 <= i < |s| && s[i] == '/' ensures i < |s| - 1 && s[i + 1] != '/' {
        assert i > 0 ==> s[1..][i - 1] == '/';
      }
    }
    if LaterWhole(s) {
      forall i | 0 <= i < |s[1..]| && s[1..][i] == '/' ensures i < |s[1..]| - 1 && s[1..][i + 1] != '/' {
        assert s[i + 1] == '/';
      }
    }
  }

  /** A directory above a plain path is a plain path. */
  lemma PlainAbove(dir: string, path: string)
    requires Plain(path) && |dir| < |path| && path[..|dir|] == dir && path[|dir|] == '/'
    ensures Plain(dir)
  {
    assert forall i | 0 <= i < |dir| :: dir[i] == path[i];
  }

  lemma PlainBelow(dir: string, name: string)
    requires Plain(dir) && name != "" && '/' !in name
    ensures Plain(dir + "/" + name)
  {
  }

  ghost function Last(cs: seq<string>): string
    requires cs != []
  {
    cs[|cs| - 1]
  }

  /** Some stretch of `ys` is `xs`, component for component. */
  ghost predicate Run(xs: seq<string>, ys: seq<string>) {
    exists i | 0 <= i <= |ys| - |xs| :: ys[i..][..|xs|] == xs
  }

  predicate OccursAt(p: string, s: string, pos: int) {
    0 <= pos <= |s| - |p| && s[pos..pos + |p|] == p
  }

  /** `p` occurs in `s` at `pos`, between ends of the string or slashes. */
  ghost predicate StandsAt(p: string, s: string, pos: int) {
    && OccursAt(p, s, pos)
    && (pos == 0 || s[pos - 1] == '/')
    && (pos + |p| == |s| || s[pos + |p|] == '/')
  }

  /** The components from a boundary on, and those of a string that ends at one. */
  lemma SplitFrom(s: string, pos: int) returns (xs: seq<string>)
    requires 0 <= pos <= |s| && (pos == 0 || s[pos - 1] == '/')
    ensures Split(s) == xs + Split(s[pos..])
  {
    xs := [];
    if pos == 0 {
      assert s[0..] == s;
    } else {
      xs := Split(s[..pos - 1]);
      assert s == s[..pos - 1] + "/" + s[pos..];
      SplitAppend(s[..pos - 1], s[pos..]);
    }
  }

  lemma SplitUpTo(p: string, s: string) returns (ys: seq<string>)
    requires |p| <= |s| && s[..|p|] == p && (|p| == |s| || s[|p|] == '/')
    ensures Split(s) == Split(p) + ys
  {
    ys := [];
    if |p| == |s| {
      assert s == p;
    } else {
      ys := Split(s[|p| + 1..]);
      assert s == p + "/" + s[|p| + 1..];
      SplitAppend(p, s[|p| + 1..]);
    }
  }

  lemma RunInside(xs: seq<string>, ps: seq<string>, ys: seq<string>)
    ensures Run(ps, xs + (ps + ys))
  {
    assert (xs + (ps + ys))[|xs|..][..|ps|] == ps;
  }

  lemma StandingIsRun(p: string, s: string, pos: int)
    requires StandsAt(p, s, pos)
    ensures Run(Split(p), Split(s))
  {
    hide Split, Run;
    var right := s[pos..];
    assert right[..|p|] == p;
    var xs := SplitFrom(s, pos);
    var ys := SplitUpTo(p, right);
    RunInside(xs, Split(p), ys);
  }

  lemma RunIsStanding(p: string, s: string, i: int) returns (pos: int)
    requires 0 <= i <= |Split(s)| - |Split(p)| && Split(s)[i..][..|Split(p)|] == Split(p)
    ensures StandsAt(p, s, pos)
  {
    hide Split, Join;
    var ps, cs := Split(p), Split(s);
    JoinSplit(p);
    JoinSplit(s);
    var xs, ys := cs[..i], cs[i + |ps|..];
    var right := ps + ys;
    assert cs == xs + right;
    pos := 0;
    if i > 0 {
      JoinAppend(xs, right);
      pos := |Join(xs)| + 1;
    }
    assert s[pos..] == Join(right);
    if ys == [] {
      assert right == ps;
    } else {
      JoinAppend(ps, ys);
    }
    assert s[pos..][..|p|] == p;
  }

  /** A string stands somewhere in a path exactly when its components are a run of the path's. */
  lemma StandsIffRun(p: string, s: string)
    ensures (exists pos :: StandsAt(p, s, pos)) <==> Run(Split(p), Split(s))
  {
    if pos :| StandsAt(p, s, pos) {
      StandingIsRun(p, s, pos);
    }
    if Run(Split(p), Split(s)) {
      var i :| 0 <= i <= |Split(s)| - |Split(p)| && Split(s)[i..][..|Split(p)|] == Split(p);
      var pos := RunIsStanding(p, s, i);
    }
  }
}
