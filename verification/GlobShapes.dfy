/**
 * Token sequences and the plain paths in their language: joining and cutting, which shapes
 * have a plain path at all, and what is left of a word when its path grows.
 */
module GlobShapes {
  import opened Glob
  import opened PathComponents

  const SLASH := Literal('/')

  // ---- Joining and cutting ----

  lemma FirstPart(ts: seq<Token>, s: string) returns (n: nat)
    requires ts != [] && Language(ts, s)
    ensures n <= |s| && Fits(ts[0], s[..n]) && Language(ts[1..], s[n..])
  {
    n :| 0 <= n <= |s| && Fits(ts[0], s[..n]) && Language(ts[1..], s[n..]);
  }

  lemma TakePart(ts: seq<Token>, s: string, n: nat)
    requires ts != [] && n <= |s| && Fits(ts[0], s[..n]) && Language(ts[1..], s[n..])
    ensures Language(ts, s)
  {
  }

  lemma {:induction false} LanguageJoin(a: seq<Token>, b: seq<Token>, s: string, t: string)
    requires Language(a, s) && Language(b, t)
    ensures Language(a + b, s + t)
  {
    if a == [] {
      assert a + b == b && s + t == t;
    } else {
      hide Fits, Language;
      var n := FirstPart(a, s);
      LanguageJoin(a[1..], b, s[n..], t);
      assert (a + b)[1..] == a[1..] + b;
      assert (s + t)[..n] == s[..n] && (s + t)[n..] == s[n..] + t;
      TakePart(a + b, s + t, n);
    }
  }

  lemma {:induction false} LanguageCut(a: seq<Token>, b: seq<Token>, s: string) returns (k: nat)
    requires Language(a + b, s)
    ensures k <= |s| && Language(a, s[..k]) && Language(b, s[k..])
  {
    if a == [] {
      assert a + b == b && s[0..] == s;
      k := 0;
    } else {
      hide Fits, Language;
      assert (a + b)[1..] == a[1..] + b;
      var n := FirstPart(a + b, s);
      var j := LanguageCut(a[1..], b, s[n..]);
      k := n + j;
      assert s[..k][..n] == s[..n] && s[..k][n..] == s[n..][..j] && s[k..] == s[n..][j..];
      TakePart(a, s[..k], n);
    }
  }

  lemma OneToken(t: Token, s: string)
    ensures Language([t], s) <==> Fits(t, s)
  {
    assert [t][1..] == [] && s[..|s|] == s && s[|s|..] == "";
  }

  // ---- Which shapes have a plain path ----

  lemma {:induction false} LiteralInWord(ts: seq<Token>, s: string, c: char)
    requires Language(ts, s) && Literal(c) in ts
    ensures c in s
  {
    var n := FirstPart(ts, s);
    if ts[0] == Literal(c) {
      assert s[..n][0] == c;
    } else {
      LiteralInWord(ts[1..], s[n..], c);
    }
  }

  /** A plain path is in the language exactly when no slash of the tokens comes first, last or beside another. */
  lemma PlainWordExists(ts: seq<Token>)
    ensures (exists s :: Language(ts, s) && Plain(s)) <==> Tidy(ts, SLASH)
  {
    if Tidy(ts, SLASH) {
      FillIsWord(ts);
      assert Language(ts, Fill(ts)) && Plain(Fill(ts));
    }
    forall s | Language(ts, s) && Plain(s) ensures Tidy(ts, SLASH) {
      WordIsTidy(ts, s);
    }
  }

  /** Where a slash of the tokens stands in a word. */
  lemma SlashStands(ts: seq<Token>, s: string, i: nat) returns (k: nat)
    requires Language(ts, s) && i < |ts| && ts[i] == SLASH
    ensures k < |s| && s[k] == '/' && Language(ts[..i], s[..k]) && Language(ts[i + 1..], s[k + 1..])
    ensures i == 0 ==> k == 0
    ensures i == |ts| - 1 ==> k == |s| - 1
  {
    hide Fits;
    assert ts == ts[..i] + ts[i..] && ts[i..] == [SLASH] + ts[i + 1..];
    k := LanguageCut(ts[..i], ts[i..], s);
    var j := LanguageCut([SLASH], ts[i + 1..], s[k..]);
    SlashAlone(s[k..][..j]);
    assert s[k..][1..] == s[k + 1..];
  }

  lemma JoinAtSlash(ts: seq<Token>, s: string, t: string, i: nat)
    requires i < |ts| && ts[i] == SLASH && Language(ts[..i], s) && Language(ts[i + 1..], t)
    ensures Language(ts, s + "/" + t)
  {
    hide Language;
    SlashAlone("/");
    LanguageJoin(ts[..i], [SLASH], s, "/");
    LanguageJoin(ts[..i] + [SLASH], ts[i + 1..], s + "/", t);
    assert ts == ts[..i] + [SLASH] + ts[i + 1..];
  }

  lemma SlashAlone(s: string)
    ensures Language([SLASH], s) <==> s == "/"
  {
    OneToken(SLASH, s);
  }

  lemma WordIsTidy(ts: seq<Token>, s: string)
    requires Language(ts, s) && Plain(s)
    ensures Tidy(ts, SLASH)
  {
    hide Language;
    forall i | 0 <= i < |ts| && ts[i] == SLASH ensures 0 < i < |ts| - 1 && ts[i + 1] != SLASH {
      var k := SlashStands(ts, s, i);
      if 0 < i < |ts| - 1 && ts[i + 1] == SLASH {
        var j := SlashStands(ts[i + 1..], s[k + 1..], 0);
      }
    }
    assert ts == [] ==> Language([], s) && s == "" by {
      if ts == [] {
        EmptyWord(s);
      }
    }
  }

  lemma EmptyWord(s: string)
    requires Language([], s)
    ensures s == ""
  {
  }

  // ---- Short words and slash-free words ----

  ghost function Count(ts: seq<Token>, t: Token): nat {
    if ts == [] then 0 else (if ts[0] == t then 1 else 0) + Count(ts[1..], t)
  }

  predicate IsWild(t: Token) { t == Star || t == Deep || t == Any }

  ghost predicate AllWild(ts: seq<Token>) { forall t | t in ts :: IsWild(t) }

  /** With the stars empty, wildcards take any word of as many characters as they have `?`. */
  lemma {:induction false} AnysTakeAll(ts: seq<Token>, s: string)
    requires AllWild(ts) && |s| == Count(ts, Any)
    ensures Language(ts, s)
  {
    if ts != [] {
      assert ts[0] in ts;
      var n := if ts[0] == Any then 1 else 0;
      AnysTakeAll(ts[1..], s[n..]);
      assert Fits(ts[0], s[..n]);
    }
  }

  /** Wildcards with a star among them take any slash-free word that is not too short. */
  lemma {:induction false} WildsTakeNames(ts: seq<Token>, s: string)
    requires AllWild(ts) && (Star in ts || Deep in ts) && '/' !in s && |s| >= Count(ts, Any)
    ensures Language(ts, s)
  {
    assert ts[0] in ts;
    if ts[0] == Any {
      WildsTakeNames(ts[1..], s[1..]);
      assert Fits(Any, s[..1]);
    } else {
      var n := |s| - Count(ts, Any);
      AnysTakeAll(ts[1..], s[n..]);
      assert Fits(ts[0], s[..n]);
    }
  }

  lemma {:induction false} WordsAreLong(ts: seq<Token>, s: string)
    requires Language(ts, s)
    ensures |s| >= Count(ts, Any)
    ensures Star !in ts && Deep !in ts ==> |s| == |ts|
  {
    if ts != [] {
      var n := FirstPart(ts, s);
      WordsAreLong(ts[1..], s[n..]);
      assert |s[..n]| == n;
    }
  }

  ghost function Slashes(s: string): nat {
    if s == "" then 0 else (if s[0] == '/' then 1 else 0) + Slashes(s[1..])
  }

  lemma {:induction false} SlashesAppend(a: string, b: string)
    ensures Slashes(a + b) == Slashes(a) + Slashes(b)
  {
    if a == "" {
      assert a + b == b;
    } else {
      assert (a + b)[1..] == a[1..] + b;
      SlashesAppend(a[1..], b);
    }
  }

  lemma CutAt(s: string, n: nat)
    requires n <= |s|
    ensures s == s[..n] + s[n..]
  {
  }

  lemma {:induction false} NoSlashes(s: string)
    requires '/' !in s
    ensures Slashes(s) == 0
  {
    if s != "" {
      NoSlashes(s[1..]);
    }
  }

  /** Without `**` each token takes at most one slash. */
  lemma {:induction false} FewSlashes(ts: seq<Token>, s: string)
    requires Deep !in ts && Language(ts, s)
    ensures Slashes(s) <= |ts|
  {
    if ts != [] {
      var n := FirstPart(ts, s);
      FewSlashes(ts[1..], s[n..]);
      CutAt(s, n);
      SlashesAppend(s[..n], s[n..]);
      if ts[0] == Star {
        NoSlashes(s[..n]);
      } else {
        assert |s[..n]| == 1 && s[..n][1..] == "";
      }
    }
  }

  // ---- The tokens after the last `**` ----

  ghost function Tail(ts: seq<Token>): seq<Token> {
    if Deep in ts && Deep in ts[1..] then Tail(ts[1..])
    else if ts != [] && ts[0] == Deep then ts[1..]
    else ts
  }

  lemma {:induction false} TailIsLast(ts: seq<Token>) returns (front: seq<Token>)
    requires Deep in ts
    ensures ts == front + [Deep] + Tail(ts) && Deep !in Tail(ts)
    decreases |ts|
  {
    if Deep in ts[1..] {
      front := TailIsLast(ts[1..]);
      front := [ts[0]] + front;
    } else {
      front := [];
    }
  }

  /** Behind this beginning a word of the last tokens may start anywhere. */
  ghost predicate TailMoves(ts: seq<Token>, front: string) {
    forall w, m | |front| <= m <= |w| && w[..|front|] == front && Language(Tail(ts), w[m..]) :: Language(ts, w)
  }

  /** A word of the last tokens, cut off a word of all. */
  lemma TailWord(ts: seq<Token>, s: string) returns (k: nat)
    requires Language(ts, s)
    ensures k <= |s| && Language(Tail(ts), s[k..]) && Deep !in Tail(ts)
    ensures Deep !in ts ==> k == 0
    ensures Deep in ts ==> TailMoves(ts, s[..k])
  {
    hide Language, Fits, Tail;
    if Deep in ts {
      var front := TailIsLast(ts);
      var i := LanguageCut(front + [Deep], Tail(ts), s);
      var j := LanguageCut(front, [Deep], s[..i]);
      k := i;
      forall w, m | k <= m <= |w| && w[..k] == s[..k] && Language(Tail(ts), w[m..]) ensures Language(ts, w) {
        assert w[..j] == w[..k][..j] == s[..i][..j];
        DeepTakesAll(w[j..m]);
        LanguageJoin(front, [Deep], w[..j], w[j..m]);
        LanguageJoin(front + [Deep], Tail(ts), w[..j] + w[j..m], w[m..]);
        assert w == w[..j] + w[j..m] + w[m..];
      }
    } else {
      TailIsAll(ts);
      assert s[0..] == s;
      k := 0;
    }
  }

  lemma DeepTakesAll(s: string)
    ensures Language([Deep], s)
  {
    OneToken(Deep, s);
  }

  lemma TailIsAll(ts: seq<Token>)
    requires Deep !in ts
    ensures Tail(ts) == ts
  {
  }

  // ---- Tokens between slashes ----

  /** The tokens before the next slash. */
  ghost function Stretch(ts: seq<Token>): seq<Token> {
    if ts == [] || ts[0] == SLASH then [] else [ts[0]] + Stretch(ts[1..])
  }

  lemma {:induction false} StretchUpTo(a: seq<Token>, b: seq<Token>)
    ensures Stretch(a + [SLASH] + b) == Stretch(a)
    ensures SLASH !in a ==> Stretch(a) == a
  {
    var all := a + [SLASH] + b;
    if a != [] && a[0] != SLASH {
      assert all[1..] == a[1..] + [SLASH] + b;
      StretchUpTo(a[1..], b);
    }
  }

  /** Wildcards and slashes, with a `*` after every slash before the next. */
  ghost predicate Loose(ts: seq<Token>) {
    && (forall t | t in ts :: IsWild(t) || t == SLASH)
    && forall i | 0 <= i < |ts| && ts[i] == SLASH :: Star in Stretch(ts[i + 1..])
  }

  /** After some slash comes `?`, and another one before the next slash. */
  ghost predicate Knotty(ts: seq<Token>) {
    exists i | 0 <= i < |ts| && ts[i] == SLASH :: IsKnot(Stretch(ts[i + 1..]))
  }

  ghost predicate IsKnot(ts: seq<Token>) { ts != [] && ts[0] == Any && Count(ts, Any) >= 2 }

  // ---- A word whose path grows ----

  /** A stretch with a star takes whatever lies behind the last slash that leaves room for its `?`. */
  lemma StretchFits(ts: seq<Token>, y: string)
    requires AllWild(ts) && Star in ts && !IsKnot(ts)
    requires y != "" && y[|y| - 1] != '/' && |y| >= Count(ts, Any)
    requires forall j | 0 <= j < |y| && y[j] == '/' :: |y| - j - 1 < Count(ts, Any)
    ensures Language(ts, y)
  {
    var n := Count(ts, Any);
    assert ts[0] in ts;
    if ts[0] == Any {
      WildsTakeNames(ts, y);
    } else {
      AnysTakeAll(ts[1..], y[|y| - n..]);
      assert '/' !in y[..|y| - n];
      assert Fits(ts[0], y[..|y| - n]);
    }
  }

  lemma {:induction false} LatestSlash(s: string, n: nat, k: nat) returns (q: nat)
    requires k < |s| && s[k] == '/' && |s| - k - 1 >= n
    ensures k <= q < |s| && s[q] == '/' && |s| - q - 1 >= n
    ensures forall j | q < j < |s| && s[j] == '/' :: |s| - j - 1 < n
    decreases |s| - k
  {
    if j :| k < j < |s| && s[j] == '/' && |s| - j - 1 >= n {
      q := LatestSlash(s, n, j);
    } else {
      q := k;
    }
  }

  lemma LastSlashOf(ts: seq<Token>) returns (i: nat)
    requires SLASH in ts
    ensures i < |ts| && ts[i] == SLASH && SLASH !in ts[i + 1..]
  {
    i := |ts| - 1;
    while ts[i] != SLASH
      invariant 0 <= i < |ts| && SLASH !in ts[i + 1..]
      decreases i
    {
      assert ts[i..] == [ts[i]] + ts[i + 1..];
      i := i - 1;
    }
  }

  /** The stretches before the last slash are stretches of the whole. */
  lemma FrontStretch(ts: seq<Token>, i: nat, j: nat)
    requires j < i < |ts| && ts[i] == SLASH
    ensures Stretch(ts[..i][j + 1..]) == Stretch(ts[j + 1..])
  {
    hide Stretch;
    StretchUpTo(ts[..i][j + 1..], ts[i + 1..]);
    assert ts[j + 1..] == ts[..i][j + 1..] + [SLASH] + ts[i + 1..];
  }

  /** What holds of the tokens holds of those before a slash. */
  lemma LooseFront(ts: seq<Token>, i: nat)
    requires Loose(ts) && !Knotty(ts) && i < |ts| && ts[i] == SLASH
    ensures Loose(ts[..i]) && !Knotty(ts[..i])
  {
    hide IsKnot, Stretch;
    forall j | 0 <= j < i && ts[..i][j] == SLASH
      ensures Star in Stretch(ts[..i][j + 1..]) && !IsKnot(Stretch(ts[..i][j + 1..]))
    {
      assert ts[j] == SLASH;
      FrontStretch(ts, i, j);
    }
    forall t | t in ts[..i] ensures IsWild(t) || t == SLASH {
      assert t in ts;
    }
  }

  /** What is after the last slash is a stretch. */
  lemma LooseLast(ts: seq<Token>, i: nat)
    requires Loose(ts) && !Knotty(ts) && i < |ts| && ts[i] == SLASH && SLASH !in ts[i + 1..]
    ensures AllWild(ts[i + 1..]) && Star in ts[i + 1..] && !IsKnot(ts[i + 1..])
  {
    hide IsKnot, Stretch;
    StretchUpTo(ts[i + 1..], []);
    forall t | t in ts[i + 1..] ensures IsWild(t) {
      assert t in ts;
    }
  }

  /** A path may grow below a word of loose tokens: a word of them still ends it, starting no earlier. */
  lemma {:induction false} Slide(ts: seq<Token>, t: string, s: string) returns (m: nat)
    requires Deep !in ts && Loose(ts) && !Knotty(ts) && Language(ts, t)
    requires LaterWhole(s) && |t| <= |s| && s[..|t|] == t && (|t| < |s| ==> s[|t|] == '/')
    ensures m <= |s| && Language(ts, s[m..])
    decreases |ts|
  {
    hide Language, Fits;
    if SLASH in ts {
      var i := LastSlashOf(ts);
      var front, last := ts[..i], ts[i + 1..];
      LooseFront(ts, i);
      LooseLast(ts, i);
      hide Loose, Knotty;
      var k := SlashStands(ts, t, i);
      WordsAreLong(last, t[k + 1..]);
      var q := LatestSlash(s, Count(last, Any), k);
      var y := s[q + 1..];
      assert s[q + 1..][|y| - 1] == s[|s| - 1];
      StretchFits(last, y);
      assert s[..q][..k] == t[..k] && LaterWhole(s[..q]);
      m := Slide(front, t[..k], s[..q]);
      JoinAtSlash(ts, s[..q][m..], y, i);
      assert s[m..] == s[..q][m..] + "/" + y;
    } else {
      assert AllWild(ts);
      WordsAreLong(ts, t);
      m := |s| - Count(ts, Any);
      AnysTakeAll(ts, s[m..]);
    }
  }

  /** With a `**` and loose tokens after the last one, everything below a word is a word. */
  lemma GrowsBelow(ts: seq<Token>, dir: string, path: string)
    requires Deep in ts && Loose(Tail(ts)) && !Knotty(Tail(ts)) && Language(ts, dir)
    requires Plain(path) && |dir| < |path| && path[..|dir|] == dir && path[|dir|] == '/'
    ensures Language(ts, path)
  {
    hide Language, Loose, Knotty, Tail;
    var k := TailWord(ts, dir);
    var rest := path[k..];
    assert rest[..|dir| - k] == dir[k..];
    assert LaterWhole(rest) by {
      assert forall i | 0 <= i < |rest| :: rest[i] == path[k + i];
    }
    var m := Slide(Tail(ts), dir[k..], rest);
    assert rest[m..] == path[k + m..] && path[..k] == dir[..k] && |dir[..k]| == k;
  }

  // ---- A path that grows out of reach ----

  ghost function Name(d: char, n: nat): string { seq(n, (i: nat) => d) }

  /** Directories below one another, all with one long name. */
  ghost function Chain(d: char, n: nat, count: nat): string {
    if count == 0 then "" else "/" + Name(d, n) + Chain(d, n, count - 1)
  }

  lemma {:induction false} ChainSlashes(d: char, n: nat, count: nat)
    requires d != '/'
    ensures Slashes(Chain(d, n, count)) == count
  {
    if count > 0 {
      ChainSlashes(d, n, count - 1);
      SlashesAppend("/" + Name(d, n), Chain(d, n, count - 1));
      SlashesAppend("/", Name(d, n));
      NoSlashes(Name(d, n));
      assert Slashes("/") == 1 by {
        assert "/"[1..] == "";
      }
    }
  }

  lemma {:induction false} ChainAt(d: char, n: nat, count: nat, j: nat)
    requires d != '/' && j < |Chain(d, n, count)|
    ensures var s := Chain(d, n, count);
      && (s[j] == '/' || s[j] == d)
      && (s[j] == '/' ==> j + n < |s| && s[j + 1..j + 1 + n] == Name(d, n))
  {
    var first, rest := "/" + Name(d, n), Chain(d, n, count - 1);
    var s := first + rest;
    if j > n {
      ChainAt(d, n, count - 1, j - n - 1);
      assert s[n + 1..] == rest && s[j] == rest[j - n - 1];
      if s[j] == '/' {
        assert s[j + 1..j + 1 + n] == rest[j - n..j];
      }
    } else if j > 0 {
      assert s[j] == Name(d, n)[j - 1];
    } else {
      assert s[1..1 + n] == Name(d, n);
    }
  }

  lemma {:induction false} PlainChain(dir: string, d: char, n: nat, count: nat)
    requires Plain(dir) && d != '/' && n > 0
    ensures Plain(dir + Chain(d, n, count))
    decreases count
  {
    if count > 0 {
      PlainBelow(dir, Name(d, n));
      PlainChain(dir + "/" + Name(d, n), d, n, count - 1);
      assert dir + Chain(d, n, count) == dir + "/" + Name(d, n) + Chain(d, n, count - 1);
    } else {
      assert dir + "" == dir;
    }
  }

  /** Without a star a stretch takes as many characters as it has tokens. */
  lemma {:induction false} StretchWord(ts: seq<Token>, w: string)
    requires Language(ts, w) && Deep !in ts && Star !in Stretch(ts)
    ensures var n := |Stretch(ts)|; n <= |w| && (n < |w| ==> w[n] == '/') && n <= |ts|
  {
    if ts != [] {
      var n :| 0 <= n <= |w| && Fits(ts[0], w[..n]) && Language(ts[1..], w[n..]);
      if ts[0] == SLASH {
        assert w[..n] == "/" && w[0] == w[..n][0];
      } else {
        assert Stretch(ts)[1..] == Stretch(ts[1..]) && Stretch(ts)[0] == ts[0];
        assert |w[..n]| == 1;
        StretchWord(ts[1..], w[n..]);
      }
    }
  }

  /** The end of a long chain has no other characters than these. */
  lemma NoOtherChar(t: string, d: char, n: nat, count: nat, z: nat, c: char)
    requires d != '/' && z <= |Chain(d, n, count)| && Chain(d, n, count)[z..] == t && c in t
    ensures c == '/' || c == d
  {
    hide Chain;
    var j :| 0 <= j < |t| && t[j] == c;
    ChainAt(d, n, count, z + j);
  }

  /** Without a star a stretch after a slash does not reach the next slash of the chain, nor its end. */
  lemma NoShortStretch(ts: seq<Token>, t: string, d: char, n: nat, count: nat, z: nat, i: nat)
    requires Deep !in ts && n > |ts| && d != '/'
    requires i < |ts| && ts[i] == SLASH && Star !in Stretch(ts[i + 1..])
    requires z <= |Chain(d, n, count)| && Chain(d, n, count)[z..] == t
    ensures !Language(ts, t)
  {
    hide Language, Chain;
    var s := Chain(d, n, count);
    if Language(ts, t) {
      var k := SlashStands(ts, t, i);
      ChainAt(d, n, count, z + k);
      hide Name;
      var rest := t[k + 1..];
      StretchWord(ts[i + 1..], rest);
      assert rest[..n] == s[z + k + 1..z + k + 1 + n];
      NameHasNoSlash(d, n, |Stretch(ts[i + 1..])|, rest);
    }
  }

  lemma NameHasNoSlash(d: char, n: nat, j: nat, s: string)
    requires j < n <= |s| && s[..n] == Name(d, n) && d != '/'
    ensures s[j] != '/'
  {
    assert s[..n][j] == d;
  }

  /** No word of tokens that are not loose fits into a chain that is long enough. */
  lemma NotInChain(ts: seq<Token>, t: string, d: char, n: nat, count: nat, z: nat)
    requires Deep !in ts && !Loose(ts) && n > |ts|
    requires d == if Literal('x') in ts then 'y' else 'x'
    requires z <= |Chain(d, n, count)| && Chain(d, n, count)[z..] == t
    ensures !Language(ts, t)
  {
    hide Language, Chain, Stretch;
    if x :| x in ts && !IsWild(x) && x != SLASH {
      var c := if Literal('x') in ts then 'x' else x.c;
      if Language(ts, t) {
        LiteralInWord(ts, t, c);
        NoOtherChar(t, d, n, count, z, c);
      }
    } else {
      var i :| 0 <= i < |ts| && ts[i] == SLASH && Star !in Stretch(ts[i + 1..]);
      NoShortStretch(ts, t, d, n, count, z, i);
    }
  }

  /** Without such tokens at the end, some path below a plain word is no word. */
  lemma StuckBelow(ts: seq<Token>) returns (dir: string, path: string)
    requires Tidy(ts, SLASH) && !(Deep in ts && Loose(Tail(ts)))
    ensures Language(ts, dir) && !Language(ts, path) && Plain(path)
    ensures |dir| < |path| && path[..|dir|] == dir && path[|dir|] == '/'
  {
    hide Language, Loose, Tail;
    var n := |ts| + 1;
    var d := if Literal('x') in Tail(ts) then 'y' else 'x';
    var chain := Chain(d, n, n);
    dir := Fill(ts);
    path := dir + chain;
    FillIsWord(ts);
    PlainChain(dir, d, n, n);
    ChainSlashes(d, n, n);
    if Language(ts, path) {
      var k := TailWord(ts, path);
      TailIsShort(ts);
      var t := path[k..];
      FewSlashes(Tail(ts), t);
      if k <= |dir| {
        assert t == path[k..|dir|] + chain;
        SlashesAppend(path[k..|dir|], chain);
      } else {
        assert t == chain[k - |dir|..];
        NotInChain(Tail(ts), t, d, n, n, k - |dir|);
      }
    }
  }

  lemma {:induction false} TailIsShort(ts: seq<Token>)
    ensures |Tail(ts)| <= |ts|
  {
    if Deep in ts && Deep in ts[1..] {
      TailIsShort(ts[1..]);
    }
  }

  // ---- A `*` that cannot reach over a slash ----

  /** `a` times `?`, then only `*`, then `b` times `?`. */
  ghost predicate BluntAt(ts: seq<Token>, a: nat, b: nat) {
    && a + b < |ts| && forall i | 0 <= i < |ts| :: ts[i] == if a <= i < |ts| - b then Star else Any
  }

  ghost predicate EndsBluntAt(ts: seq<Token>, i: nat, a: nat, b: nat) {
    i < |ts| && ts[i] == SLASH && BluntAt(ts[i + 1..], a, b) && a >= 1 && a + b >= 2
  }

  /** After the last slash there are at least two `?`, at least one of them in front, and the `*` stand together. */
  ghost predicate EndsBlunt(ts: seq<Token>) { exists i, a, b :: EndsBluntAt(ts, i, a, b) }

  ghost predicate AllAre(ts: seq<Token>, t: Token) { forall x | x in ts :: x == t }

  lemma {:induction false} StarsTakeNoSlash(ts: seq<Token>, s: string)
    requires Language(ts, s) && AllAre(ts, Star)
    ensures '/' !in s
  {
    if ts != [] {
      assert ts[0] in ts && forall t | t in ts[1..] :: t in ts;
      var n := FirstPart(ts, s);
      StarsTakeNoSlash(ts[1..], s[n..]);
      CutAt(s, n);
    }
  }

  lemma BluntParts(ts: seq<Token>, a: nat, b: nat)
    requires BluntAt(ts, a, b)
    ensures ts == ts[..a] + (ts[a..|ts| - b] + ts[|ts| - b..])
    ensures AllAre(ts[a..|ts| - b], Star) && AllAre(ts[..a], Any) && AllAre(ts[|ts| - b..], Any)
  {
  }

  lemma BluntWord(ts: seq<Token>, a: nat, b: nat, y: string)
    requires BluntAt(ts, a, b) && Language(ts, y)
    ensures a + b <= |y| && '/' !in y[a..|y| - b]
  {
    BluntParts(ts, a, b);
    hide Language, Fits, BluntAt;
    var front, stars, back := ts[..a], ts[a..|ts| - b], ts[|ts| - b..];
    var k := LanguageCut(front, stars + back, y);
    var j := LanguageCut(stars, back, y[k..]);
    WordsAreLong(front, y[..k]);
    WordsAreLong(back, y[k..][j..]);
    StarsTakeNoSlash(stars, y[k..][..j]);
    assert y[a..|y| - b] == y[k..][..j];
  }

  /** The name is too short for the `?`, and further up the `*` would have to take the slash above it. */
  lemma BluntMisses(ts: seq<Token>, a: nat, b: nat, above: string, name: string)
    requires BluntAt(ts, a, b) && a >= 1 && a + b >= 2 && |name| == (if b == 0 then 1 else b) && a <= |above|
    ensures !Language(ts, name) && !Language(ts, above + "/" + name)
  {
    hide Language, BluntAt;
    if Language(ts, name) {
      BluntWord(ts, a, b, name);
    }
    var y := above + "/" + name;
    assert y[a..|y| - b][|above| - a] == '/';
    if Language(ts, y) {
      BluntWord(ts, a, b, y);
    }
  }

  /** Below a long chain, in a name that is too short for the last tokens, no word of them ends. */
  lemma BluntStuck(ts: seq<Token>) returns (dir: string, path: string)
    requires Tidy(ts, SLASH) && EndsBlunt(Tail(ts))
    ensures Language(ts, dir) && !Language(ts, path) && Plain(path)
    ensures |dir| < |path| && path[..|dir|] == dir && path[|dir|] == '/'
  {
    hide Language, Tail, Chain, EndsBluntAt;
    var i: nat, a: nat, b: nat :| EndsBluntAt(Tail(ts), i, a, b);
    var n := |ts| + 1;
    var name := Name('x', if b == 0 then 1 else b);
    dir := Fill(ts);
    var above := dir + Chain('x', n, n);
    path := above + "/" + name;
    FillIsWord(ts);
    PlainChain(dir, 'x', n, n);
    PlainBelow(above, name);
    ChainIsLong('x', n, n);
    BluntNotTaken(ts, dir, name, i, a, b);
  }

  lemma BluntNotTaken(ts: seq<Token>, dir: string, name: string, i: nat, a: nat, b: nat)
    requires EndsBluntAt(Tail(ts), i, a, b) && '/' !in name && |name| == if b == 0 then 1 else b
    ensures var n := |ts| + 1; !Language(ts, dir + Chain('x', n, n) + "/" + name)
  {
    hide Language, Tail, Chain;
    assert a + b < |Tail(ts)|;
    hide BluntAt;
    var n := |ts| + 1;
    var above := dir + Chain('x', n, n);
    var path := above + "/" + name;
    TailIsShort(ts);
    ChainIsLong('x', n, n);
    if Language(ts, path) {
      var k := TailWord(ts, path);
      var j := SlashStands(Tail(ts), path[k..], i);
      var p := k + j;
      assert path[k..][j + 1..] == path[p + 1..] && path[p] == '/';
      SlashOfChain(dir, n, name, p);
      assert path[p + 1..] == if p == |above| then name else above[p + 1..] + "/" + name;
      BluntMisses(Tail(ts)[i + 1..], a, b, if p == |above| then above else above[p + 1..], name);
    }
  }

  lemma SlashOfChain(dir: string, n: nat, name: string, p: nat)
    requires '/' !in name && n > 0
    requires var path := dir + Chain('x', n, n) + "/" + name; p < |path| && path[p] == '/'
    ensures var above := |dir + Chain('x', n, n)|; p == above || p + n < above
  {
    var chain := Chain('x', n, n);
    var above := dir + chain;
    var path := above + "/" + name;
    assert forall q | |above| < q < |path| :: path[q] == name[q - |above| - 1];
    if |dir| <= p < |above| {
      assert chain[p - |dir|] == '/';
      ChainAt('x', n, n, p - |dir|);
    }
    ChainIsLong('x', n, n);
  }

  lemma {:induction false} ChainIsLong(d: char, n: nat, count: nat)
    ensures count > 0 ==> |Chain(d, n, count)| > n && Chain(d, n, count)[0] == '/'
  {
  }
}
