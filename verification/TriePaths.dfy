/**
 * Words as paths from the root of a trie, and the mathematics behind failure links and
 * dictionary-suffix links. Nothing here mentions the heap.
 */
module TriePaths {

  type Byte = x: int | 0 <= x < 256

  type Word = seq<Byte>

  /** A word read from its last letter backwards: the edge into a node, then its parent. */
  datatype Path = Root | Step(up: Path, letter: Byte)

  ghost function Spell(p: Path): Word {
    match p
    case Root => []
    case Step(up, c) => Spell(up) + [c]
  }

  ghost function PathOf(w: Word): Path {
    if w == [] then Root else Step(PathOf(w[..|w| - 1]), w[|w| - 1])
  }

  lemma {:induction false} SpellPathOf(w: Word)
    ensures Spell(PathOf(w)) == w
  {
    if w != [] {
      SpellPathOf(w[..|w| - 1]);
    }
  }

  lemma {:induction false} PathOfSpell(p: Path)
    ensures PathOf(Spell(p)) == p
  {
    if p.Step? {
      PathOfSpell(p.up);
      assert Spell(p)[..|Spell(p)| - 1] == Spell(p.up);
    }
  }

  /** The path itself and everything above it. */
  ghost function Prefixes(p: Path): set<Path> {
    match p
    case Root => {Root}
    case Step(up, _) => Prefixes(up) + {p}
  }

  lemma PathOfExtend(w: Word, k: nat)
    requires k < |w|
    ensures PathOf(w[..k + 1]) == Step(PathOf(w[..k]), w[k])
    ensures Prefixes(PathOf(w[..k + 1])) == Prefixes(PathOf(w[..k])) + {PathOf(w[..k + 1])}
  {
    assert w[..k + 1][..k] == w[..k];
  }

  lemma PrefixesOfRoot(w: Word)
    ensures PathOf(w[..0]) == Root && Prefixes(Root) == {Root}
  {
  }

  ghost function Len(p: Path): nat {
    match p
    case Root => 0
    case Step(up, _) => 1 + Len(up)
  }

  lemma SpellLen(p: Path)
    ensures |Spell(p)| == Len(p)
  {
  }

  lemma {:induction false} PathOfLen(w: Word)
    ensures Len(PathOf(w)) == |w|
  {
    if w != [] {
      PathOfLen(w[..|w| - 1]);
    }
  }

  /** The path of the same word without its first letter. */
  ghost function Tail(p: Path): (t: Path)
    requires p.Step?
    ensures Len(t) == Len(p) - 1
  {
    if p.up.Root? then Root else Step(Tail(p.up), p.letter)
  }

  lemma {:induction false} SpellTail(p: Path)
    requires p.Step?
    ensures Spell(p) != [] && Spell(Tail(p)) == Spell(p)[1..]
  {
    if p.up.Step? {
      SpellTail(p.up);
      assert Spell(p)[1..] == Spell(p.up)[1..] + [p.letter];
    }
  }

  ghost predicate IsSuffix(s: Path, p: Path)
    decreases Len(p)
  {
    s == p || (p.Step? && IsSuffix(s, Tail(p)))
  }

  /** The recursive definition is the usual one on words. */
  lemma {:induction false} SuffixMeaning(s: Path, p: Path)
    ensures IsSuffix(s, p) <==> |Spell(s)| <= |Spell(p)| && Spell(p)[|Spell(p)| - |Spell(s)|..] == Spell(s)
    decreases Len(p)
  {
    SpellLen(s);
    SpellLen(p);
    if Spell(s) == Spell(p) {
      PathOfSpell(s);
      PathOfSpell(p);
    } else if p.Step? {
      SpellTail(p);
      SpellLen(Tail(p));
      SuffixMeaning(s, Tail(p));
      if |Spell(s)| < |Spell(p)| {
        assert Spell(p)[|Spell(p)| - |Spell(s)|..] == Spell(p)[1..][|Spell(p)| - 1 - |Spell(s)|..];
      }
    }
  }

  lemma SuffixLen(s: Path, p: Path)
    requires IsSuffix(s, p)
    ensures Len(s) <= Len(p) && (Len(s) == Len(p) ==> s == p)
    decreases Len(p)
  {
  }

  lemma {:induction false} SuffixTransitive(s: Path, u: Path, p: Path)
    requires IsSuffix(s, u) && IsSuffix(u, p)
    ensures IsSuffix(s, p)
    decreases Len(p)
  {
    if u != p {
      SuffixTransitive(s, u, Tail(p));
    }
  }

  /** Two suffixes of one word are comparable: the shorter is a suffix of the longer. */
  lemma {:induction false} SuffixesNest(s: Path, u: Path, p: Path)
    requires IsSuffix(s, p) && IsSuffix(u, p) && Len(s) <= Len(u)
    ensures IsSuffix(s, u)
    decreases Len(p)
  {
    if s == p {
      SuffixLen(u, p);
    } else if u != p {
      SuffixesNest(s, u, Tail(p));
    }
  }

  ghost predicate Closed(paths: set<Path>) {
    Root in paths && forall p | p in paths && p.Step? :: p.up in paths
  }

  /** The longest suffix of `p` that belongs to `paths`. */
  ghost function LongestIn(paths: set<Path>, p: Path): Path
    requires Root in paths
    decreases Len(p)
  {
    if p in paths then p else LongestIn(paths, Tail(p))
  }

  lemma {:induction false} LongestInIsLongest(paths: set<Path>, p: Path)
    requires Root in paths
    ensures LongestIn(paths, p) in paths && IsSuffix(LongestIn(paths, p), p)
    ensures forall s | s in paths && IsSuffix(s, p) :: IsSuffix(s, LongestIn(paths, p))
    decreases Len(p)
  {
    if p !in paths {
      LongestInIsLongest(paths, Tail(p));
    }
  }

  /** Reading one more letter only needs the longest stored suffix of what came before. */
  lemma {:induction false} LongestInExtend(paths: set<Path>, p: Path, c: Byte)
    requires Closed(paths)
    ensures LongestIn(paths, Step(p, c)) == LongestIn(paths, Step(LongestIn(paths, p), c))
    decreases Len(p)
  {
    if p !in paths {
      assert Step(p, c) !in paths;
      LongestInExtend(paths, Tail(p), c);
    }
  }

  /** The failure target of a stored word: its longest proper suffix that is stored. */
  ghost function FailOf(paths: set<Path>, p: Path): Path
    requires Root in paths && p.Step?
  {
    LongestIn(paths, Tail(p))
  }

  lemma FailIsShorter(paths: set<Path>, p: Path)
    requires Root in paths && p.Step?
    ensures FailOf(paths, p) in paths && IsSuffix(FailOf(paths, p), p)
    ensures Len(FailOf(paths, p)) < Len(p)
  {
    LongestInIsLongest(paths, Tail(p));
    SuffixLen(FailOf(paths, p), Tail(p));
  }

  /** One failure step: if `f` has no child by `c`, its failure target answers instead. */
  lemma FailStep(paths: set<Path>, f: Path, c: Byte)
    requires Closed(paths) && Step(f, c) !in paths
    ensures f.Step? ==> LongestIn(paths, Step(f, c)) == LongestIn(paths, Step(FailOf(paths, f), c))
    ensures f.Root? ==> LongestIn(paths, Step(f, c)) == Root
  {
    if f.Step? {
      LongestInExtend(paths, Tail(f), c);
    }
  }

  /** Identifier of a pattern; 0 means that the word carries no pattern. */
  ghost function IdOf(dict: map<Path, int>, p: Path): int {
    if p in dict then dict[p] else 0
  }

  datatype Link = NoLink | To(path: Path)

  /** The longest suffix of `p` that is a pattern. */
  ghost function LongestPattern(dict: map<Path, int>, p: Path): Link
    decreases Len(p)
  {
    if p.Root? then NoLink
    else if IdOf(dict, p) != 0 then To(p)
    else LongestPattern(dict, Tail(p))
  }

  lemma {:induction false} LongestPatternIsLongest(dict: map<Path, int>, p: Path)
    requires Root !in dict
    ensures LongestPattern(dict, p).To? ==>
      var l := LongestPattern(dict, p).path; IdOf(dict, l) != 0 && IsSuffix(l, p)
    ensures forall s | IdOf(dict, s) != 0 && IsSuffix(s, p) ::
      LongestPattern(dict, p).To? && IsSuffix(s, LongestPattern(dict, p).path)
    decreases Len(p)
  {
    if p.Step? && IdOf(dict, p) == 0 {
      LongestPatternIsLongest(dict, Tail(p));
    }
  }

  /** The dictionary link of a word: its longest proper suffix that is a pattern. */
  ghost function OutOf(dict: map<Path, int>, p: Path): Link {
    if p.Root? then NoLink else LongestPattern(dict, Tail(p))
  }

  lemma OutIsShorter(dict: map<Path, int>, p: Path)
    requires Root !in dict && OutOf(dict, p).To?
    ensures var l := OutOf(dict, p).path;
      IdOf(dict, l) != 0 && IsSuffix(l, p) && Len(l) < Len(p)
  {
    LongestPatternIsLongest(dict, Tail(p));
    SuffixLen(OutOf(dict, p).path, Tail(p));
  }

  /** No pattern is skipped when the search for it starts at the longest stored suffix. */
  lemma {:induction false} LongestPatternOfLongestIn(paths: set<Path>, dict: map<Path, int>, p: Path)
    requires Root in paths && dict.Keys <= paths
    ensures LongestPattern(dict, p) == LongestPattern(dict, LongestIn(paths, p))
    decreases Len(p)
  {
    if p !in paths {
      LongestPatternOfLongestIn(paths, dict, Tail(p));
    }
  }

  /** How the dictionary link of a word follows from the node its failure link points to. */
  lemma OutViaFail(paths: set<Path>, dict: map<Path, int>, p: Path)
    requires Root in paths && dict.Keys <= paths && p.Step?
    ensures var f := FailOf(paths, p);
      OutOf(dict, p) == if f.Step? && IdOf(dict, f) != 0 then To(f) else OutOf(dict, f)
  {
    LongestPatternOfLongestIn(paths, dict, Tail(p));
  }

  /** One-letter words fail to the root and have no dictionary link. */
  lemma TopLinks(paths: set<Path>, dict: map<Path, int>, c: Byte)
    requires Root in paths && Root !in dict
    ensures FailOf(paths, Step(Root, c)) == Root && OutOf(dict, Step(Root, c)) == NoLink
  {
  }

  /** What the two links mean: the longest stored, and the longest pattern, among all proper suffixes. */
  lemma LinksAreLongest(paths: set<Path>, dict: map<Path, int>, p: Path, s: Path)
    requires Root in paths && Root !in dict && p.Step? && s != p && IsSuffix(s, p)
    ensures s in paths ==> IsSuffix(s, FailOf(paths, p))
    ensures IdOf(dict, s) != 0 ==> OutOf(dict, p).To? && IsSuffix(s, OutOf(dict, p).path)
  {
    LongestInIsLongest(paths, Tail(p));
    LongestPatternIsLongest(dict, Tail(p));
  }
}
