/**
 * What the scan is meant to find, stated on plain words: the longest pattern occurring in a
 * text, the one ending first among equals. Beside it, the same notion for a scan in progress.
 */
module LongestMatch {
  import opened TriePaths

  /** The pattern `w` occurs in `text` and ends just before position `e`. */
  ghost predicate OccursAt(dict: map<Path, int>, text: Word, w: Word, e: nat) {
    IdOf(dict, PathOf(w)) != 0 && |w| <= e <= |text| && text[e - |w|..e] == w
  }

  /** `w` ending at `e` beats every occurrence: it is longer, or as long and ends no later. */
  ghost predicate IsWinner(dict: map<Path, int>, text: Word, w: Word, e: nat) {
    && OccursAt(dict, text, w, e)
    && forall v, k | OccursAt(dict, text, v, k) :: |v| < |w| || (|v| == |w| && e <= k)
  }

  /** The answer a naive search over all patterns and positions gives; 0 when nothing occurs. */
  ghost predicate IsAnswer(dict: map<Path, int>, text: Word, id: int) {
    if id == 0 then forall w, e :: !OccursAt(dict, text, w, e)
    else exists w, e :: IsWinner(dict, text, w, e) && id == IdOf(dict, PathOf(w))
  }

  /** There is only one answer. */
  lemma AnswerIsUnique(dict: map<Path, int>, text: Word, id: int, id': int)
    requires IsAnswer(dict, text, id) && IsAnswer(dict, text, id')
    ensures id == id'
  {
    if id != 0 && id' != 0 {
      var w, e :| IsWinner(dict, text, w, e) && id == IdOf(dict, PathOf(w));
      var v, k :| IsWinner(dict, text, v, k) && id' == IdOf(dict, PathOf(v));
      assert |w| == |v| && e == k;
    }
  }

  // ---- A scan in progress ----

  datatype Hit = Hit(id: int, len: nat)

  ghost predicate Ends(dict: map<Path, int>, text: Word, p: Path, e: nat) {
    IdOf(dict, p) != 0 && e <= |text| && IsSuffix(p, PathOf(text[..e]))
  }

  /** Occurrences already weighed: all that end before `e`, and those at `e` of length `left` or more. */
  ghost predicate Weighed(dict: map<Path, int>, text: Word, e: nat, left: nat, p: Path, k: nat) {
    Ends(dict, text, p, k) && (k < e || (k == e && Len(p) >= left))
  }

  ghost predicate Leads(dict: map<Path, int>, text: Word, e: nat, left: nat, p: Path, k: nat) {
    && Weighed(dict, text, e, left, p, k)
    && forall q, m | Weighed(dict, text, e, left, q, m) :: Len(q) < Len(p) || (Len(q) == Len(p) && k <= m)
  }

  ghost predicate BestAlong(dict: map<Path, int>, text: Word, e: nat, left: nat, best: Hit) {
    if best.id == 0 then best.len == 0 && forall p, k :: !Weighed(dict, text, e, left, p, k)
    else exists p, k :: Leads(dict, text, e, left, p, k) && best == Hit(IdOf(dict, p), Len(p))
  }

  lemma NothingAtStart(dict: map<Path, int>, text: Word)
    requires Root !in dict
    ensures BestAlong(dict, text, 0, 0, Hit(0, 0))
  {
  }

  /** Nothing changes when no occurrence lies between two thresholds. */
  lemma SameWeighed(dict: map<Path, int>, text: Word, e: nat, left: nat, e': nat, left': nat, best: Hit)
    requires BestAlong(dict, text, e, left, best)
    requires forall p, k :: Weighed(dict, text, e, left, p, k) <==> Weighed(dict, text, e', left', p, k)
    ensures BestAlong(dict, text, e', left', best)
  {
    if best.id != 0 {
      var p, k :| Leads(dict, text, e, left, p, k) && best == Hit(IdOf(dict, p), Len(p));
      assert Leads(dict, text, e', left', p, k);
    }
  }

  /** The next position starts above the longest stored suffix: nothing that long ends there. */
  lemma EnterPosition(paths: set<Path>, dict: map<Path, int>, text: Word, e: nat, best: Hit)
    requires Root in paths && dict.Keys <= paths && e < |text|
    requires BestAlong(dict, text, e, 0, best)
    ensures BestAlong(dict, text, e + 1, Len(LongestIn(paths, PathOf(text[..e + 1]))) + 1, best)
  {
    var p := PathOf(text[..e + 1]);
    LongestInIsLongest(paths, p);
    forall q, k
      ensures Weighed(dict, text, e, 0, q, k) <==> Weighed(dict, text, e + 1, Len(LongestIn(paths, p)) + 1, q, k)
    {
      if k == e + 1 && Ends(dict, text, q, k) {
        SuffixLen(q, LongestIn(paths, p));
      }
    }
    SameWeighed(dict, text, e, 0, e + 1, Len(LongestIn(paths, p)) + 1, best);
  }

  /** Weighing the suffix `at` itself. */
  lemma Weigh(dict: map<Path, int>, text: Word, e: nat, at: Path, best: Hit)
    requires Root !in dict && e <= |text| && IsSuffix(at, PathOf(text[..e]))
    requires BestAlong(dict, text, e, Len(at) + 1, best)
    ensures BestAlong(dict, text, e, Len(at), Better(dict, at, best))
  {
    WeighsOnlyOne(dict, text, e, at);
    hide Weighed, IsSuffix, PathOf, Ends;
    if best.id != 0 {
      var p, k :| Leads(dict, text, e, Len(at) + 1, p, k) && best == Hit(IdOf(dict, p), Len(p));
      if IdOf(dict, at) != 0 && Len(at) > best.len {
        assert Leads(dict, text, e, Len(at), at, e);
      } else {
        assert Leads(dict, text, e, Len(at), p, k);
      }
    } else if IdOf(dict, at) != 0 && Len(at) > best.len {
      assert Leads(dict, text, e, Len(at), at, e);
    }
  }

  /** Lowering the threshold to `at` adds that one occurrence, which ends no earlier than the others. */
  lemma WeighsOnlyOne(dict: map<Path, int>, text: Word, e: nat, at: Path)
    requires e <= |text| && IsSuffix(at, PathOf(text[..e]))
    ensures forall q, k: nat :: Weighed(dict, text, e, Len(at), q, k) <==>
        Weighed(dict, text, e, Len(at) + 1, q, k) || (q == at && k == e && IdOf(dict, at) != 0)
    ensures forall q, k: nat | Weighed(dict, text, e, Len(at), q, k) :: k <= e
  {
    forall q, k
      ensures Weighed(dict, text, e, Len(at), q, k) <==>
        Weighed(dict, text, e, Len(at) + 1, q, k) || (q == at && k == e && IdOf(dict, at) != 0)
    {
      if k == e && Ends(dict, text, q, e) && Len(q) == Len(at) {
        SuffixesNest(q, at, PathOf(text[..e]));
        SuffixLen(q, at);
      }
    }
  }

  /** No pattern ending here is shorter than `at` and longer than its dictionary link. */
  lemma FollowOut(dict: map<Path, int>, text: Word, e: nat, at: Path, best: Hit)
    requires Root !in dict && e <= |text| && IsSuffix(at, PathOf(text[..e]))
    requires BestAlong(dict, text, e, Len(at), best)
    ensures var l := OutOf(dict, at);
      BestAlong(dict, text, e, if l.To? then Len(l.path) + 1 else 0, best)
  {
    var l := OutOf(dict, at);
    var left := if l.To? then Len(l.path) + 1 else 0;
    forall q, k
      ensures Weighed(dict, text, e, Len(at), q, k) <==> Weighed(dict, text, e, left, q, k)
    {
      if k == e && Ends(dict, text, q, e) && Len(q) < Len(at) {
        SuffixesNest(q, at, PathOf(text[..e]));
        LongestPatternIsLongest(dict, Tail(at));
        if l.To? {
          SuffixLen(q, l.path);
        }
      }
      if l.To? {
        OutIsShorter(dict, at);
      }
    }
    SameWeighed(dict, text, e, Len(at), e, left, best);
  }

  lemma EndsMeaning(dict: map<Path, int>, text: Word, w: Word, e: nat)
    ensures OccursAt(dict, text, w, e) <==> Ends(dict, text, PathOf(w), e)
  {
    if e <= |text| {
      SpellPathOf(w);
      SpellPathOf(text[..e]);
      SuffixMeaning(PathOf(w), PathOf(text[..e]));
      if |w| <= e {
        assert text[..e][e - |w|..] == text[e - |w|..e];
      }
    }
  }

  /** Stopping early at `n` is the same as scanning the text cut at `n`. */
  lemma BestOfPrefix(dict: map<Path, int>, text: Word, n: nat, best: Hit)
    requires n <= |text| && BestAlong(dict, text, n, 0, best)
    ensures BestAlong(dict, text[..n], n, 0, best)
  {
    forall p, k: nat
      ensures Weighed(dict, text, n, 0, p, k) <==> Weighed(dict, text[..n], n, 0, p, k)
    {
      assert k <= n ==> text[..n][..k] == text[..k];
    }
    if best.id != 0 {
      var p, k :| Leads(dict, text, n, 0, p, k) && best == Hit(IdOf(dict, p), Len(p));
      assert Leads(dict, text[..n], n, 0, p, k);
    }
  }

  /** A finished scan holds the answer. */
  lemma FinishedScan(dict: map<Path, int>, text: Word, best: Hit)
    requires BestAlong(dict, text, |text|, 0, best)
    ensures IsAnswer(dict, text, best.id)
  {
    forall w, e ensures OccursAt(dict, text, w, e) <==> Weighed(dict, text, |text|, 0, PathOf(w), e) {
      EndsMeaning(dict, text, w, e);
    }
    if best.id != 0 {
      var p, k :| Leads(dict, text, |text|, 0, p, k) && best == Hit(IdOf(dict, p), Len(p));
      PathOfSpell(p);
      forall v, m | OccursAt(dict, text, v, m)
        ensures |v| < |Spell(p)| || (|v| == |Spell(p)| && k <= m)
      {
        PathOfLen(v);
        SpellLen(p);
      }
      assert IsWinner(dict, text, Spell(p), k);
    }
  }

  // ---- Work done along the dictionary links ----

  /** The patterns that are proper suffixes of `p`. */
  ghost function ShorterPatterns(dict: map<Path, int>, p: Path): set<Path> {
    set q | q in dict && dict[q] != 0 && q != p && IsSuffix(q, p)
  }

  /** Following one dictionary link passes exactly one of them. */
  lemma ShorterPatternsStep(dict: map<Path, int>, p: Path)
    requires Root !in dict
    ensures OutOf(dict, p).NoLink? ==> ShorterPatterns(dict, p) == {}
    ensures OutOf(dict, p).To? ==>
      |ShorterPatterns(dict, p)| == |ShorterPatterns(dict, OutOf(dict, p).path)| + 1
  {
    if p.Root? {
      assert forall q | q in ShorterPatterns(dict, p) :: q == Root;
    } else {
      LongestPatternIsLongest(dict, Tail(p));
      assert forall q | q in ShorterPatterns(dict, p) :: IdOf(dict, q) != 0 && IsSuffix(q, Tail(p));
      if OutOf(dict, p).To? {
        var l := OutOf(dict, p).path;
        OutIsShorter(dict, p);
        forall q | q in ShorterPatterns(dict, l) ensures q in ShorterPatterns(dict, p) && q != l {
          SuffixTransitive(q, l, p);
          SuffixLen(q, l);
        }
        assert ShorterPatterns(dict, p) == ShorterPatterns(dict, l) + {l};
      }
    }
  }

  /** The hit kept after looking at the suffix `at`. */
  ghost function Better(dict: map<Path, int>, at: Path, best: Hit): Hit {
    if IdOf(dict, at) != 0 && Len(at) > best.len then Hit(IdOf(dict, at), Len(at)) else best
  }

  /** Where the threshold stands once the scan has moved on to a dictionary link. */
  ghost function Threshold(l: Link): nat {
    if l.To? then Len(l.path) + 1 else 0
  }

  /** One turn of the chain loop. */
  lemma ChainStep(dict: map<Path, int>, text: Word, e: nat, at: Path, best: Hit)
    requires Root !in dict && e <= |text| && IsSuffix(at, PathOf(text[..e]))
    requires BestAlong(dict, text, e, Len(at) + 1, best)
    ensures var l := OutOf(dict, at);
      && BestAlong(dict, text, e, Threshold(l), Better(dict, at, best))
      && (l.To? ==> l.path in dict && IsSuffix(l.path, PathOf(text[..e])) && Len(l.path) < Len(at))
      && |ShorterPatterns(dict, at)| == if l.To? then |ShorterPatterns(dict, l.path)| + 1 else 0
  {
    Weigh(dict, text, e, at, best);
    FollowOut(dict, text, e, at, Better(dict, at, best));
    ShorterPatternsStep(dict, at);
    if OutOf(dict, at).To? {
      OutIsShorter(dict, at);
      SuffixTransitive(OutOf(dict, at).path, at, PathOf(text[..e]));
    }
  }

  /** One turn of the scan: the state it reaches, and where the chain loop starts from. */
  lemma ScanStep(paths: set<Path>, dict: map<Path, int>, text: Word, i: nat, best: Hit)
    requires Closed(paths) && dict.Keys <= paths && i < |text|
    requires BestAlong(dict, text, i, 0, best)
    ensures var s, s' := LongestIn(paths, PathOf(text[..i])), LongestIn(paths, PathOf(text[..i + 1]));
      && s in paths && s' in paths && s' == LongestIn(paths, Step(s, text[i]))
      && IsSuffix(s', PathOf(text[..i + 1]))
      && BestAlong(dict, text, i + 1, Len(s') + 1, best)
      && ChainWork(paths, dict, text[..i + 1]) == ChainWork(paths, dict, text[..i]) + |ShorterPatterns(dict, s')|
  {
    LongestInIsLongest(paths, PathOf(text[..i]));
    PathOfExtend(text, i);
    LongestInExtend(paths, PathOf(text[..i]), text[i]);
    LongestInIsLongest(paths, PathOf(text[..i + 1]));
    EnterPosition(paths, dict, text, i, best);
    assert text[..i + 1][..i] == text[..i];
  }

  /** The text up to its first NUL, which is what a C string holds. */
  ghost function CString(text: Word): Word {
    if text == [] || text[0] == 0 then [] else [text[0]] + CString(text[1..])
  }

  lemma {:induction false} CStringIs(text: Word, n: nat)
    requires n <= |text| && (forall i | 0 <= i < n :: text[i] != 0)
    requires n == |text| || text[n] == 0
    ensures CString(text) == text[..n]
  {
    if n > 0 {
      CStringIs(text[1..], n - 1);
    }
  }

  /** Chain steps over a whole text: at each position, one per pattern below the state reached. */
  ghost function ChainWork(paths: set<Path>, dict: map<Path, int>, text: Word): nat
    requires Root in paths
  {
    if text == [] then 0
    else ChainWork(paths, dict, text[..|text| - 1])
         + |ShorterPatterns(dict, LongestIn(paths, PathOf(text)))|
  }
}
