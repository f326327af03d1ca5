/**
 * The parser accepts nothing outside the grammar: from a success one can recover the
 * concrete syntax that was read. With the converse, acceptance is characterized exactly.
 */
module JsonSoundness {
  import opened Basics
  import opened JsonGrammar
  import opened JsonTheorems

  // ---- What a success says about the text, construct by construct ----

  lemma {:induction false} SkippedSpaces(s: string) returns (ws: string)
    ensures Spaces(ws) && s == ws + SkipSpaces(s)
  {
    ws := "";
    if s != "" && IsSpace(s[0]) {
      var more := SkippedSpaces(s[1..]);
      ws := [s[0]] + more;
      assert s == [s[0]] + s[1..];
    }
  }

  lemma {:induction false} PrefixIsNumeric(s: string)
    ensures forall i | 0 <= i < NumericPrefix(s) :: IsNumeric(s[i])
  {
    if s != "" && IsNumeric(s[0]) {
      PrefixIsNumeric(s[1..]);
      forall i | 0 < i < NumericPrefix(s) ensures IsNumeric(s[i]) {
        assert s[i] == s[1..][i - 1];
      }
    }
  }

  lemma {:induction false} GlyphsOf(h: Host, s: string) returns (gs: seq<Glyph>)
    requires ParseGlyphs(h, s).Ok?
    ensures GoodGlyphs(h, gs)
    ensures s == EmitGlyphs(gs, ParseGlyphs(h, s).rest) && GlyphsText(h, gs) == ParseGlyphs(h, s).value
    decreases |s|
  {
    gs := [];
    var rest := ParseGlyphs(h, s).rest;
    if s[0] == '"' {
      assert s == ['"'] + s[1..];
    } else {
      var g, n := FirstGlyph(h, s);
      var more := GlyphsOf(h, s[n..]);
      gs := [g] + more;
      assert gs[1..] == more;
    }
  }

  lemma FirstGlyph(h: Host, s: string) returns (g: Glyph, n: nat)
    requires ParseGlyphs(h, s).Ok? && s[0] != '"'
    ensures GoodGlyph(h, g) && 0 < n <= |s| && s == EmitGlyph(g, s[n..])
    ensures ParseGlyphs(h, s) == Prepend(GlyphText(h, g), ParseGlyphs(h, s[n..]))
  {
    if s[0] != '\\' {
      g, n := Raw(s[0]), 1;
    } else if s[1] == 'u' {
      g, n := Unicode(s[2..6]), 6;
    } else {
      g, n := Escaped(s[1]), 2;
    }
  }

  lemma WordAhead(s: string, word: string)
    requires StartsWith(s, word)
    ensures s == word + s[|word|..]
  {
  }

  lemma ScalarOf(h: Host, s: string) returns (t: Tree)
    requires s != "" && ParseScalar(h, s).Ok?
    ensures GoodTree(h, t) && s == Emit(t, ParseScalar(h, s).rest) && Depth(t) == 1
    ensures Meaning(h, t) == ParseScalar(h, s).value
  {
    var c := s[0];
    if c == '"' {
      var gs := GlyphsOf(h, s[1..]);
      assert s == ['"'] + s[1..];
      t := TString(gs);
    } else if c == 't' || c == 'f' {
      t := TBool(StartsWith(s, "true"));
      WordAhead(s, if StartsWith(s, "true") then "true" else "false");
    } else if c == 'n' {
      t := TNull;
      WordAhead(s, "null");
    } else {
      var n := NumericPrefix(s);
      PrefixIsNumeric(s);
      t := TNumber(s[..n]);
      assert s == s[..n] + s[n..];
    }
  }

  /** A success as a tree: the white space read first, and the tree of the value. */
  ghost predicate Reads(h: Host, s: string, depth: nat, r: Result<Value>, ws: string, t: Tree) {
    && r.Ok? && Spaces(ws) && GoodTree(h, t)
    && s == ws + Emit(t, r.rest) && r.value == Meaning(h, t) && depth + Depth(t) <= MAX_DEPTH
  }

  lemma {:induction false} TreeOf(h: Host, s: string, depth: nat) returns (ws: string, t: Tree)
    requires ParseValue(h, s, depth).Ok?
    ensures Reads(h, s, depth, ParseValue(h, s, depth), ws, t)
    decreases |s|, 2
  {
    hide Emit, Meaning, Depth, GoodTree, ParseItems, ParsePairs, ParseScalar;
    ws := SkippedSpaces(s);
    var u := SkipSpaces(s);
    SkipTwice(s);
    assert ParseValue(h, u, depth) == ParseValue(h, s, depth);
    if u[0] == '{' {
      t := ObjectOf(h, u, depth);
    } else if u[0] == '[' {
      t := ArrayOf(h, u, depth);
    } else {
      t := ScalarOf(h, u);
    }
  }

  lemma {:induction false} ArrayOf(h: Host, s: string, depth: nat) returns (t: Tree)
    requires s != "" && s[0] == '[' && ParseValue(h, s, depth).Ok?
    ensures Reads(h, s, depth, ParseValue(h, s, depth), "", t)
    decreases |s|, 1
  {
    var r := ParseValue(h, s, depth);
    var gap := SkippedSpaces(s[1..]);
    var u := SkipSpaces(s[1..]);
    assert s == ['['] + s[1..];
    if u != "" && u[0] == ']' {
      t := TArray(gap, []);
      assert u == [']'] + u[1..];
    } else {
      var items := ItemsOf(h, u, depth + 1);
      items := WidenItems(h, gap, items, r.rest);
      t := TArray("", items);
    }
    assert "" + Emit(t, r.rest) == Emit(t, r.rest);
  }

  /** White space before a list joins that of its first element. */
  lemma WidenItems(h: Host, gap: string, items: seq<Item>, rest: string) returns (wide: seq<Item>)
    requires Spaces(gap) && items != [] && GoodItems(h, items)
    ensures wide != [] && GoodItems(h, wide) && EmitItems(wide, rest) == gap + EmitItems(items, rest)
    ensures ItemValues(h, wide) == ItemValues(h, items) && ItemsDepth(wide) == ItemsDepth(items)
  {
    var it := items[0];
    wide := [it.(before := gap + it.before)] + items[1..];
    assert wide[1..] == items[1..];
    var tail := Emit(it.tree, it.after + AfterItem(items, rest));
    assert gap + (it.before + tail) == (gap + it.before) + tail;
  }

  lemma {:induction false} ItemsOf(h: Host, s: string, depth: nat) returns (items: seq<Item>)
    requires ParseItems(h, s, depth).Ok?
    ensures var r := ParseItems(h, s, depth);
      && items != [] && GoodItems(h, items) && s == EmitItems(items, r.rest)
      && r.value == ItemValues(h, items) && depth + ItemsDepth(items) <= MAX_DEPTH
    decreases |s|, 4
  {
    hide Emit, Meaning, Depth, ParseValue, GoodTree;
    var it, e := ItemOf(h, s, depth);
    assert e == [e[0]] + e[1..];
    if e[0] == ',' {
      var more := ItemsOf(h, e[1..], depth);
      items := [it] + more;
      assert items[1..] == more;
    } else {
      items := [it];
      OneItem(h, items);
    }
  }

  lemma {:induction false} ObjectOf(h: Host, s: string, depth: nat) returns (t: Tree)
    requires s != "" && s[0] == '{' && ParseValue(h, s, depth).Ok?
    ensures Reads(h, s, depth, ParseValue(h, s, depth), "", t)
    decreases |s|, 1
  {
    var r := ParseValue(h, s, depth);
    var gap := SkippedSpaces(s[1..]);
    var u := SkipSpaces(s[1..]);
    assert s == ['{'] + s[1..];
    if u != "" && u[0] == '}' {
      t := TObject(gap, []);
      assert u == ['}'] + u[1..];
    } else {
      var pairs := PairsOf(h, u, depth + 1);
      pairs := WidenPairs(h, gap, pairs, r.rest);
      t := TObject("", pairs);
    }
    assert "" + Emit(t, r.rest) == Emit(t, r.rest);
  }

  lemma WidenPairs(h: Host, gap: string, pairs: seq<Pair>, rest: string) returns (wide: seq<Pair>)
    requires Spaces(gap) && pairs != [] && GoodPairs(h, pairs)
    ensures wide != [] && GoodPairs(h, wide) && EmitPairs(wide, rest) == gap + EmitPairs(pairs, rest)
    ensures PairMembers(h, wide) == PairMembers(h, pairs) && PairsDepth(wide) == PairsDepth(pairs)
  {
    var p := pairs[0];
    wide := [p.(margin := gap + p.margin)] + pairs[1..];
    assert wide[1..] == pairs[1..];
    var tail := FromKey(p, AfterPair(pairs, rest));
    assert gap + (p.margin + tail) == (gap + p.margin) + tail;
  }

  /** The key of a member: what is read up to its colon. */
  lemma KeyOf(h: Host, s: string) returns (margin: string, key: seq<Glyph>, gap: string, colon: string)
    requires SkipSpaces(s) != "" && SkipSpaces(s)[0] == '"' && ParseGlyphs(h, SkipSpaces(s)[1..]).Ok?
    ensures Spaces(margin) && GoodGlyphs(h, key) && Spaces(gap)
    ensures s == margin + (['"'] + EmitGlyphs(key, gap + colon))
    ensures GlyphsText(h, key) == ParseGlyphs(h, SkipSpaces(s)[1..]).value
    ensures colon == SkipSpaces(ParseGlyphs(h, SkipSpaces(s)[1..]).rest)
  {
    hide ParseGlyphs, EmitGlyphs, GlyphsText, GoodGlyphs;
    margin := SkippedSpaces(s);
    var u := SkipSpaces(s);
    assert u == ['"'] + u[1..];
    key := GlyphsOf(h, u[1..]);
    gap := SkippedSpaces(ParseGlyphs(h, u[1..]).rest);
    colon := SkipSpaces(ParseGlyphs(h, u[1..]).rest);
  }

  /** A value with white space on both sides, and the text that follows it. */
  lemma {:induction false} ItemOf(h: Host, s: string, depth: nat) returns (it: Item, e: string)
    requires ParseValue(h, s, depth).Ok?
    ensures Spaces(it.before) && GoodTree(h, it.tree) && Spaces(it.after)
    ensures s == it.before + Emit(it.tree, it.after + e) && e == SkipSpaces(ParseValue(h, s, depth).rest)
    ensures ParseValue(h, s, depth).value == Meaning(h, it.tree) && depth + Depth(it.tree) <= MAX_DEPTH
    decreases |s|, 3
  {
    hide Emit, Meaning, Depth, ParseValue, GoodTree;
    var ws, t := TreeOf(h, s, depth);
    var rest := ParseValue(h, s, depth).rest;
    var after := SkippedSpaces(rest);
    it, e := Item(ws, t, after), SkipSpaces(rest);
  }

  lemma {:induction false} PairsOf(h: Host, s: string, depth: nat) returns (pairs: seq<Pair>)
    requires ParsePairs(h, s, depth).Ok?
    ensures var r := ParsePairs(h, s, depth);
      && pairs != [] && GoodPairs(h, pairs) && s == EmitPairs(pairs, r.rest)
      && r.value == PairMembers(h, pairs) && depth + PairsDepth(pairs) <= MAX_DEPTH
    decreases |s|, 4
  {
    hide Emit, Meaning, Depth, ParseValue, GoodTree, Spaces, SkipSpaces;
    hide ParseGlyphs, EmitGlyphs, GlyphsText, GoodGlyphs;
    var margin, key, gap, colon := KeyOf(h, s);
    assert colon == [':'] + colon[1..];
    var it, e := ItemOf(h, colon[1..], depth);
    assert e == [e[0]] + e[1..];
    var p := Pair(margin, key, gap, it);
    if e[0] == ',' {
      var more := PairsOf(h, e[1..], depth);
      pairs := [p] + more;
      assert pairs[1..] == more;
    } else {
      pairs := [p];
      OnePair(h, pairs);
    }
  }

  // ---- Acceptance, exactly ----

  /** A text written by the grammar around one value that nests no deeper than the cap. */
  ghost predicate IsDocument(h: Host, s: string, v: Value, before: string, t: Tree, after: string) {
    && Spaces(before) && GoodTree(h, t) && Spaces(after)
    && s == before + Emit(t, after) && v == Meaning(h, t) && Depth(t) <= MAX_DEPTH
  }

  /**
   * The parser answers `v` exactly when the text is a document that means `v` and nests at
   * most 64 deep; on every other text it reports an error.
   */
  lemma AcceptsExactlyTheDocuments(h: Host, s: string, v: Value)
    ensures ParseText(h, s) == Ok(v, "") <==> exists before, t, after :: IsDocument(h, s, v, before, t, after)
  {
    if ParseText(h, s) == Ok(v, "") {
      var before, t, after := DocumentOf(h, s);
      assert IsDocument(h, s, v, before, t, after);
    }
    forall before, t, after | IsDocument(h, s, v, before, t, after) ensures ParseText(h, s) == Ok(v, "") {
      ParserReadsGrammar(h, before, t, after);
    }
  }

  lemma DocumentOf(h: Host, s: string) returns (before: string, t: Tree, after: string)
    requires ParseText(h, s).Ok?
    ensures IsDocument(h, s, ParseText(h, s).value, before, t, after)
  {
    var u := SkipSpaces(s);
    before := SkippedSpaces(s);
    var rest := ParseValue(h, u, 0).rest;
    after := SkippedSpaces(rest);
    assert rest == after;
    var ws;
    ws, t := TreeOf(h, u, 0);
    assert u == Emit(t, after);
  }
}
