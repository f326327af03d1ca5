/**
 * The glob matcher: a recursive method over pattern and path positions, proved against the
 * language of a pattern. The recursion cap is exact: it is met by the tokens of the pattern
 * alone, whatever the path.
 */
module Glob {
  import opened Basics

  const MAX_DEEP := 8

  /** `**` with the slash after it, if any; `*`; `?`; any other character. */
  datatype Token = Deep | Star | Any | Literal(c: char)

  /** How many characters the first token of a pattern takes. */
  function Width(p: string): (n: nat)
    requires p != ""
    ensures 0 < n <= |p|
  {
    if |p| >= 2 && p[0] == '*' && p[1] == '*' then if |p| >= 3 && p[2] == '/' then 3 else 2
    else 1
  }

  function First(p: string): Token
    requires p != ""
  {
    if |p| >= 2 && p[0] == '*' && p[1] == '*' then Deep
    else if p[0] == '*' then Star
    else if p[0] == '?' then Any
    else Literal(p[0])
  }

  function Tokens(p: string): seq<Token> {
    if p == "" then [] else [First(p)] + Tokens(p[Width(p)..])
  }

  function Deeps(ts: seq<Token>): nat {
    if ts == [] then 0 else (if ts[0] == Deep then 1 else 0) + Deeps(ts[1..])
  }

  /** The strings one token stands for. */
  predicate Fits(t: Token, w: string) {
    match t
    case Deep => true
    case Star => '/' !in w
    case Any => |w| == 1
    case Literal(c) => w == [c]
  }

  /** The strings a token sequence stands for. */
  ghost predicate Language(ts: seq<Token>, s: string) {
    if ts == [] then s == ""
    else exists n | 0 <= n <= |s| :: Fits(ts[0], s[..n]) && Language(ts[1..], s[n..])
  }

  /** A string cut into one part for each token, each part fitting its token. */
  ghost predicate IsReading(ts: seq<Token>, s: string, parts: seq<string>) {
    && |parts| == |ts| && Concat(parts) == s
    && forall i | 0 <= i < |ts| :: Fits(ts[i], parts[i])
  }

  lemma {:induction false} LanguageIsReadings(ts: seq<Token>, s: string)
    ensures Language(ts, s) <==> exists parts :: IsReading(ts, s, parts)
  {
    if ts == [] {
      assert Language(ts, s) ==> IsReading(ts, s, []);
    } else {
      if Language(ts, s) {
        var n :| 0 <= n <= |s| && Fits(ts[0], s[..n]) && Language(ts[1..], s[n..]);
        hide Language, Fits;
        LanguageIsReadings(ts[1..], s[n..]);
        var more :| IsReading(ts[1..], s[n..], more);
        AddPart(ts, s, n, more);
      }
      forall parts | IsReading(ts, s, parts) ensures Language(ts, s) {
        DropPart(ts, s, parts);
        LanguageIsReadings(ts[1..], s[|parts[0]|..]);
      }
    }
  }

  lemma AddPart(ts: seq<Token>, s: string, n: nat, more: seq<string>)
    requires ts != [] && n <= |s| && Fits(ts[0], s[..n]) && IsReading(ts[1..], s[n..], more)
    ensures IsReading(ts, s, [s[..n]] + more)
  {
    hide Fits;
    var parts := [s[..n]] + more;
    assert parts[1..] == more && s == s[..n] + s[n..];
    assert forall i | 0 < i < |ts| :: ts[i] == ts[1..][i - 1] && parts[i] == more[i - 1];
  }

  lemma DropPart(ts: seq<Token>, s: string, parts: seq<string>)
    requires ts != [] && IsReading(ts, s, parts)
    ensures var n := |parts[0]|; n <= |s| && Fits(ts[0], s[..n]) && IsReading(ts[1..], s[n..], parts[1..])
  {
    hide Fits;
    var n := |parts[0]|;
    assert s[..n] == parts[0] && s[n..] == Concat(parts[1..]);
  }

  /** What the matcher answers from a pattern position, a path position and a depth. */
  ghost predicate Answer(p: string, s: string, depth: nat) {
    depth + Deeps(Tokens(p)) <= MAX_DEEP && Language(Tokens(p), s)
  }

  // ---- How one token changes the answer ----

  lemma DeepStep(p: string, s: string, depth: nat)
    requires p != "" && First(p) == Deep
    ensures depth >= MAX_DEEP ==> !Answer(p, s, depth)
    ensures Answer(p, s, depth) <==> exists k | 0 <= k <= |s| :: Answer(p[Width(p)..], s[k..], depth + 1)
  {
    var ts := Tokens(p);
    assert ts[1..] == Tokens(p[Width(p)..]);
  }

  lemma StarStep(p: string, s: string, depth: nat)
    requires p != "" && First(p) == Star
    ensures Answer(p, s, depth) <==> exists k | 0 <= k <= |s| && '/' !in s[..k] :: Answer(p[1..], s[k..], depth)
  {
    var ts := Tokens(p);
    assert ts[1..] == Tokens(p[Width(p)..]);
  }

  lemma CharStep(p: string, s: string, depth: nat)
    requires p != "" && p[0] != '*'
    ensures Answer(p, s, depth) <==> s != "" && (p[0] == s[0] || p[0] == '?') && Answer(p[1..], s[1..], depth)
  {
    var ts := Tokens(p);
    assert ts[1..] == Tokens(p[1..]);
    if s != "" {
      assert s[..1] == [s[0]];
    }
    if Language(ts, s) {
      var n :| 0 <= n <= |s| && Fits(ts[0], s[..n]) && Language(ts[1..], s[n..]);
      assert n == |s[..n]| == 1;
    }
  }

  lemma Suffix(s: string, i: nat, k: nat)
    requires i <= |s| && k <= |s| - i
    ensures s[i..][k..] == s[i + k..]
  {
  }

  /** Positions stand for the iterators into pattern and path. */
  method GlobImpl(p: string, s: string, pi0: nat, si0: nat, depth: nat) returns (ok: bool)
    requires pi0 <= |p| && si0 <= |s| && depth <= MAX_DEEP
    ensures ok <==> Answer(p[pi0..], s[si0..], depth)
    decreases |p| - pi0, 1
  {
    hide Answer, Language, Tokens, Deeps;
    var pi, si := pi0, si0;
    while pi < |p|
      invariant pi0 <= pi <= |p| && si0 <= si <= |s|
      invariant Answer(p[pi0..], s[si0..], depth) <==> Answer(p[pi..], s[si..], depth)
    {
      if p[pi] == '*' {
        if pi + 1 < |p| && p[pi + 1] == '*' {
          ok := MatchDeep(p, s, pi, si, depth);
        } else {
          ok := MatchStar(p, s, pi, si, depth);
        }
        return;
      }
      CharStep(p[pi..], s[si..], depth);
      if si == |s| {
        return false;
      }
      if p[pi] != s[si] && p[pi] != '?' {
        return false;
      }
      Suffix(p, pi, 1);
      Suffix(s, si, 1);
      pi, si := pi + 1, si + 1;
    }
    assert p[pi..] == "";
    PatternEnd(s[si..], depth);
    ok := si == |s|;
  }

  /** `**` at a pattern position: the rest is tried at every later path position. */
  method MatchDeep(p: string, s: string, pi0: nat, si0: nat, depth: nat) returns (ok: bool)
    requires pi0 < |p| && si0 <= |s| && depth <= MAX_DEEP && First(p[pi0..]) == Deep
    ensures ok <==> Answer(p[pi0..], s[si0..], depth)
    decreases |p| - pi0, 0
  {
    hide Answer, Language, Tokens, Deeps;
    DeepStep(p[pi0..], s[si0..], depth);
    if depth >= MAX_DEEP {
      return false;
    }
    var pi, si := pi0 + 2, si0;
    if pi < |p| && p[pi] == '/' {
      pi := pi + 1;
    }
    Suffix(p, pi0, Width(p[pi0..]));
    while si < |s|
      invariant si0 <= si <= |s|
      invariant forall k: nat | k < si - si0 :: !Answer(p[pi..], s[si0..][k..], depth + 1)
    {
      ok := GlobImpl(p, s, pi, si, depth + 1);
      Suffix(s, si0, si - si0);
      if ok {
        return;
      }
      si := si + 1;
    }
    ok := GlobImpl(p, s, pi, si, depth + 1);
    Suffix(s, si0, si - si0);
  }

  /** `*` at a pattern position: the rest is tried up to and at the next slash. */
  method MatchStar(p: string, s: string, pi: nat, si0: nat, depth: nat) returns (ok: bool)
    requires pi < |p| && si0 <= |s| && depth <= MAX_DEEP && First(p[pi..]) == Star
    ensures ok <==> Answer(p[pi..], s[si0..], depth)
    decreases |p| - pi, 0
  {
    hide Answer, Language, Tokens, Deeps;
    StarStep(p[pi..], s[si0..], depth);
    Suffix(p, pi, 1);
    var si := si0;
    while si < |s| && s[si] != '/'
      invariant si0 <= si <= |s| && '/' !in s[si0..][..si - si0]
      invariant forall k: nat | k < si - si0 :: !Answer(p[pi + 1..], s[si0..][k..], depth)
    {
      ok := GlobImpl(p, s, pi + 1, si, depth);
      Suffix(s, si0, si - si0);
      if ok {
        return;
      }
      assert s[si0..][..si - si0 + 1] == s[si0..][..si - si0] + [s[si]];
      si := si + 1;
    }
    ok := GlobImpl(p, s, pi + 1, si, depth);
    Suffix(s, si0, si - si0);
    assert forall k: nat | si - si0 < k <= |s| - si0 :: si < |s| && s[si0..][..k][si - si0] == '/';
  }

  lemma PatternEnd(s: string, depth: nat)
    requires depth <= MAX_DEEP
    ensures Answer("", s, depth) <==> s == ""
  {
  }

  /**
   * A pattern matches exactly the strings of its language, provided it has at most eight
   * `**` tokens.
   */
  method GlobMatch(p: string, s: string) returns (ok: bool)
    ensures ok <==> Matches(p, s)
  {
    ok := GlobImpl(p, s, 0, 0, 0);
    assert p[0..] == p && s[0..] == s;
    AnswerAtStart(p, s);
  }

  ghost predicate Matches(p: string, s: string) {
    Deeps(Tokens(p)) <= MAX_DEEP && exists parts :: IsReading(Tokens(p), s, parts)
  }

  lemma AnswerAtStart(p: string, s: string)
    ensures Answer(p, s, 0) <==> Matches(p, s)
  {
    LanguageIsReadings(Tokens(p), s);
  }

  // ---- What the cap costs ----

  /** A string of the language: a character for each token. */
  function Fill(ts: seq<Token>): (s: string)
    ensures |s| == |ts|
    ensures forall i | 0 <= i < |ts| :: s[i] == if ts[i].Literal? then ts[i].c else 'x'
  {
    if ts == [] then "" else [if ts[0].Literal? then ts[0].c else 'x'] + Fill(ts[1..])
  }

  /**
   * The cap loses matches exactly for the patterns with nine or more `**`: such a pattern
   * matches no string at all, though its language is never empty.
   */
  lemma CapLosesMatches(p: string)
    ensures Deeps(Tokens(p)) > MAX_DEEP <==> exists s :: Language(Tokens(p), s) && !Matches(p, s)
    ensures Deeps(Tokens(p)) > MAX_DEEP <==> forall s :: !Matches(p, s)
  {
    var ts := Tokens(p);
    var s := Fill(ts);
    FillIsWord(ts);
    LanguageIsReadings(ts, s);
    forall w | Language(ts, w) && Deeps(ts) <= MAX_DEEP ensures Matches(p, w) {
      LanguageIsReadings(ts, w);
    }
  }

  lemma {:induction false} FillIsWord(ts: seq<Token>)
    ensures Language(ts, Fill(ts))
  {
    if ts != [] {
      FillIsWord(ts[1..]);
      assert Fill(ts)[..1] == [Fill(ts)[0]] && Fill(ts)[1..] == Fill(ts[1..]);
    }
  }

  /** Nine `**` between slashes: the language holds every string, and nothing is matched. */
  const NINE_DEEPS := DeepDirs(8) + "**"

  function DeepDirs(n: nat): string {
    if n == 0 then "" else "**/" + DeepDirs(n - 1)
  }

  lemma NineDeepsLoseEverything(s: string)
    ensures Language(Tokens(NINE_DEEPS), s) && !Matches(NINE_DEEPS, s)
  {
    DeepTokens(8);
    DeepsTakeAll(9, s);
  }

  ghost function Repeated(n: nat): seq<Token> {
    if n == 0 then [] else [Deep] + Repeated(n - 1)
  }

  lemma {:induction false} DeepTokens(n: nat)
    ensures Tokens(DeepDirs(n) + "**") == Repeated(n + 1) && Deeps(Repeated(n + 1)) == n + 1
  {
    var p := DeepDirs(n) + "**";
    if n > 0 {
      DeepTokens(n - 1);
      assert p[3..] == DeepDirs(n - 1) + "**";
    } else {
      assert p == "**";
    }
  }

  lemma {:induction false} DeepsTakeAll(n: nat, s: string)
    requires n > 0
    ensures Language(Repeated(n), s)
  {
    assert Repeated(n)[1..] == Repeated(n - 1) && s[..0] == "" && s[0..] == s;
    if n == 1 {
      assert Fits(Deep, s[..|s|]) && Language([], s[|s|..]);
    } else {
      DeepsTakeAll(n - 1, s);
      assert Fits(Deep, s[..0]) && Language(Repeated(n)[1..], s[0..]);
    }
  }
}
