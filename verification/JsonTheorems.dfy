/**
 * The parser inverts printing: it reads back every way of writing a value whose nesting is
 * at most the cap, rejects deeper ones, and accepts nothing else.
 */
module JsonTheorems {
  import opened Basics
  import opened JsonGrammar

  // ---- Scanning over known text ----

  lemma {:induction false} SkipOver(ws: string, s: string)
    requires Spaces(ws) && (s == "" || !IsSpace(s[0]))
    ensures SkipSpaces(ws + s) == s
  {
    if ws == "" {
      assert ws + s == s;
    } else {
      assert (ws + s)[1..] == ws[1..] + s;
      SkipOver(ws[1..], s);
    }
  }

  lemma {:induction false} NumericOver(lexeme: string, rest: string)
    requires forall i | 0 <= i < |lexeme| :: IsNumeric(lexeme[i])
    requires rest == "" || !IsNumeric(rest[0])
    ensures NumericPrefix(lexeme + rest) == |lexeme|
  {
    if lexeme == "" {
      assert lexeme + rest == rest;
    } else {
      assert (lexeme + rest)[1..] == lexeme[1..] + rest;
      NumericOver(lexeme[1..], rest);
    }
  }

  lemma ReadGlyph(h: Host, g: Glyph, rest: string)
    requires GoodGlyph(h, g)
    ensures ParseGlyphs(h, EmitGlyph(g, rest)) == Prepend(GlyphText(h, g), ParseGlyphs(h, rest))
  {
    var s := EmitGlyph(g, rest);
    match g
    case Raw(c) => assert s[1..] == rest;
    case Escaped(l) => assert s[2..] == rest;
    case Unicode(d) => assert s[2..6] == d && s[6..] == rest;
  }

  lemma {:induction false} ReadGlyphs(h: Host, gs: seq<Glyph>, rest: string)
    requires GoodGlyphs(h, gs)
    ensures ParseGlyphs(h, EmitGlyphs(gs, rest)) == Ok(GlyphsText(h, gs), rest)
  {
    if gs == [] {
      assert (['"'] + rest)[1..] == rest;
    } else {
      ReadGlyph(h, gs[0], EmitGlyphs(gs[1..], rest));
      ReadGlyphs(h, gs[1..], rest);
    }
  }

  /** Whatever follows a value in a document cannot be taken for more digits. */
  ghost predicate Stops(rest: string) { rest == "" || !IsNumeric(rest[0]) }

  /** What the parser must answer on the text of a tree at a given depth. */
  ghost predicate Answers(h: Host, r: Result<Value>, t: Tree, depth: nat, rest: string) {
    if depth + Depth(t) <= MAX_DEPTH then r == Ok(Meaning(h, t), rest)
    else r.Err? && r.message == TooDeep
  }

  lemma ReadScalar(h: Host, t: Tree, rest: string)
    requires GoodTree(h, t) && !t.TArray? && !t.TObject? && Stops(rest)
    ensures var s := Emit(t, rest);
      && s != "" && !IsSpace(s[0]) && s[0] != '{' && s[0] != '['
      && ParseScalar(h, s) == Ok(Meaning(h, t), rest)
  {
    var s := Emit(t, rest);
    match t
    case TNull => assert s[..4] == "null" && s[4..] == rest;
    case TBool(b) =>
      if b {
        assert s[..4] == "true" && s[4..] == rest;
      } else {
        assert s[0] == 'f' && s[..4] != "true" && s[..5] == "false" && s[5..] == rest;
      }
    case TNumber(lexeme) =>
      NumericOver(lexeme, rest);
      assert s[..|lexeme|] == lexeme && s[|lexeme|..] == rest;
    case TString(gs) =>
      assert s[1..] == EmitGlyphs(gs, rest);
      ReadGlyphs(h, gs, rest);
  }

  /** The text of a value starts with neither white space nor a closing bracket. */
  lemma EmitStarts(h: Host, t: Tree, rest: string)
    requires GoodTree(h, t)
    ensures var s := Emit(t, rest); s != "" && !IsSpace(s[0]) && s[0] != ']' && s[0] != '}'
  {
  }

  lemma SkipTwice(s: string)
    ensures SkipSpaces(SkipSpaces(s)) == SkipSpaces(s)
  {
  }

  /** White space skipped by the caller makes no difference to the list readers. */
  lemma ItemsAfterSkip(h: Host, s: string, depth: nat)
    ensures depth < MAX_DEPTH ==> ParseItems(h, SkipSpaces(s), depth) == ParseItems(h, s, depth)
    ensures depth >= MAX_DEPTH ==> ParseItems(h, SkipSpaces(s), depth) == Err(TooDeep, |SkipSpaces(s)|)
  {
    SkipTwice(s);
    assert depth < MAX_DEPTH ==> ParseValue(h, SkipSpaces(s), depth) == ParseValue(h, s, depth);
  }

  lemma PairsAfterSkip(h: Host, s: string, depth: nat)
    ensures ParsePairs(h, SkipSpaces(s), depth) == ParsePairs(h, s, depth)
  {
    SkipTwice(s);
  }

  /** Reading a value back: white space, any of its texts, and what follows. */
  lemma {:induction false} ReadValue(h: Host, ws: string, t: Tree, depth: nat, rest: string)
    requires Spaces(ws) && GoodTree(h, t) && Stops(rest)
    ensures Answers(h, ParseValue(h, ws + Emit(t, rest), depth), t, depth, rest)
    decreases t, 1
  {
    var s := Emit(t, rest);
    EmitStarts(h, t, rest);
    SkipOver(ws, s);
    if depth < MAX_DEPTH {
      if t.TArray? {
        ReadArray(h, t, depth, rest);
      } else if t.TObject? {
        ReadObject(h, t, depth, rest);
      } else {
        ReadScalar(h, t, rest);
      }
    }
  }

  lemma {:induction false} ReadArray(h: Host, t: Tree, depth: nat, rest: string)
    requires GoodTree(h, t) && t.TArray? && depth < MAX_DEPTH && Stops(rest)
    ensures var s := Emit(t, rest);
      var u := SkipSpaces(s[1..]);
      && s[0] == '['
      && (t.items == [] ==> u == [']'] + rest)
      && (t.items != [] ==>
          u != "" && u[0] != ']' && AnswersItems(h, ParseItems(h, u, depth + 1), t.items, depth + 1, rest))
    decreases t, 0
  {
    var s := Emit(t, rest);
    if t.items == [] {
      assert s[1..] == t.gap + ([']'] + rest);
      SkipOver(t.gap, [']'] + rest);
    } else {
      assert s[1..] == EmitItems(t.items, rest);
      ItemsStart(h, t.items, rest);
      ItemsAfterSkip(h, s[1..], depth + 1);
      ReadItems(h, t.items, depth + 1, rest);
    }
  }

  ghost function AfterItem(items: seq<Item>, rest: string): string
    requires items != []
  {
    if |items| == 1 then [']'] + rest else [','] + EmitItems(items[1..], rest)
  }

  lemma ItemsStart(h: Host, items: seq<Item>, rest: string)
    requires items != [] && GoodItems(h, items)
    ensures var u := SkipSpaces(EmitItems(items, rest)); u != "" && u[0] != ']'
  {
    EmitStarts(h, items[0].tree, items[0].after + AfterItem(items, rest));
    SkipOver(items[0].before, Emit(items[0].tree, items[0].after + AfterItem(items, rest)));
  }

  ghost predicate AnswersItems(h: Host, r: Result<seq<Value>>, items: seq<Item>, depth: nat, rest: string) {
    if depth + ItemsDepth(items) <= MAX_DEPTH then r == Ok(ItemValues(h, items), rest)
    else r.Err? && r.message == TooDeep
  }

  lemma OneItem(h: Host, items: seq<Item>)
    requires |items| == 1
    ensures ItemValues(h, items) == [Meaning(h, items[0].tree)] && ItemsDepth(items) == Depth(items[0].tree)
  {
    assert items[1..] == [];
    assert ItemValues(h, []) == [] && ItemsDepth([]) == 0;
  }

  lemma {:induction false} ReadItems(h: Host, items: seq<Item>, depth: nat, rest: string)
    requires items != [] && GoodItems(h, items) && Stops(rest)
    ensures AnswersItems(h, ParseItems(h, EmitItems(items, rest), depth), items, depth, rest)
    decreases items, 0
  {
    var it := items[0];
    var next := AfterItem(items, rest);
    AfterStops(it.after, next);
    ReadValue(h, it.before, it.tree, depth, it.after + next);
    SkipOver(it.after, next);
    assert next[1..] == if |items| == 1 then rest else EmitItems(items[1..], rest);
    if |items| > 1 {
      ReadItems(h, items[1..], depth, rest);
    } else {
      OneItem(h, items);
    }
  }

  lemma AfterStops(ws: string, next: string)
    requires Spaces(ws) && next != "" && !IsNumeric(next[0])
    ensures Stops(ws + next)
  {
  }

  lemma {:induction false} ReadObject(h: Host, t: Tree, depth: nat, rest: string)
    requires GoodTree(h, t) && t.TObject? && depth < MAX_DEPTH && Stops(rest)
    ensures var s := Emit(t, rest);
      var u := SkipSpaces(s[1..]);
      && s[0] == '{'
      && (t.pairs == [] ==> u == ['}'] + rest)
      && (t.pairs != [] ==>
          u != "" && u[0] != '}' && AnswersPairs(h, ParsePairs(h, u, depth + 1), t.pairs, depth + 1, rest))
    decreases t, 0
  {
    var s := Emit(t, rest);
    if t.pairs == [] {
      assert s[1..] == t.gap + (['}'] + rest);
      SkipOver(t.gap, ['}'] + rest);
    } else {
      assert s[1..] == EmitPairs(t.pairs, rest);
      PairsStart(h, t.pairs, rest);
      PairsAfterSkip(h, s[1..], depth + 1);
      ReadPairs(h, t.pairs, depth + 1, rest);
    }
  }

  ghost function AfterPair(pairs: seq<Pair>, rest: string): string
    requires pairs != []
  {
    if |pairs| == 1 then ['}'] + rest else [','] + EmitPairs(pairs[1..], rest)
  }

  /** The text of a member from its colon on, and from its key on. */
  ghost function FromColon(p: Pair, next: string): string {
    [':'] + (p.item.before + Emit(p.item.tree, p.item.after + next))
  }

  ghost function FromKey(p: Pair, next: string): string {
    ['"'] + EmitGlyphs(p.key, p.gap + FromColon(p, next))
  }

  lemma PairsStart(h: Host, pairs: seq<Pair>, rest: string)
    requires pairs != [] && GoodPairs(h, pairs)
    ensures SkipSpaces(EmitPairs(pairs, rest)) == FromKey(pairs[0], AfterPair(pairs, rest))
  {
    SkipOver(pairs[0].margin, FromKey(pairs[0], AfterPair(pairs, rest)));
  }

  ghost predicate AnswersPairs(h: Host, r: Result<seq<Member>>, pairs: seq<Pair>, depth: nat, rest: string) {
    if depth + PairsDepth(pairs) <= MAX_DEPTH then r == Ok(PairMembers(h, pairs), rest)
    else r.Err? && r.message == TooDeep
  }

  lemma OnePair(h: Host, pairs: seq<Pair>)
    requires |pairs| == 1
    ensures PairMembers(h, pairs) == [Member(GlyphsText(h, pairs[0].key), Meaning(h, pairs[0].item.tree))]
    ensures PairsDepth(pairs) == Depth(pairs[0].item.tree)
  {
    assert pairs[1..] == [];
    assert PairMembers(h, []) == [] && PairsDepth([]) == 0;
  }

  lemma {:induction false} ReadPairs(h: Host, pairs: seq<Pair>, depth: nat, rest: string)
    requires pairs != [] && GoodPairs(h, pairs) && Stops(rest)
    ensures AnswersPairs(h, ParsePairs(h, EmitPairs(pairs, rest), depth), pairs, depth, rest)
    decreases pairs, 0
  {
    hide Emit, EmitGlyphs, ParseGlyphs, ParseValue, Meaning, Depth, GlyphsText;
    var p := pairs[0];
    var next := AfterPair(pairs, rest);
    PairsStart(h, pairs, rest);
    ReadKey(h, p, next);
    ReadMember(h, p, next, depth);
    assert next[1..] == if |pairs| == 1 then rest else EmitPairs(pairs[1..], rest);
    if |pairs| > 1 {
      ReadPairs(h, pairs[1..], depth, rest);
    } else {
      OnePair(h, pairs);
    }
  }

  lemma ReadKey(h: Host, p: Pair, next: string)
    requires GoodGlyphs(h, p.key) && Spaces(p.gap)
    ensures ParseGlyphs(h, FromKey(p, next)[1..]) == Ok(GlyphsText(h, p.key), p.gap + FromColon(p, next))
    ensures SkipSpaces(p.gap + FromColon(p, next)) == FromColon(p, next)
  {
    assert FromKey(p, next)[1..] == EmitGlyphs(p.key, p.gap + FromColon(p, next));
    ReadGlyphs(h, p.key, p.gap + FromColon(p, next));
    SkipOver(p.gap, FromColon(p, next));
  }

  lemma {:induction false} ReadMember(h: Host, p: Pair, next: string, depth: nat)
    requires Spaces(p.item.before) && GoodTree(h, p.item.tree) && Spaces(p.item.after)
    requires next != "" && !IsNumeric(next[0]) && !IsSpace(next[0])
    ensures Answers(h, ParseValue(h, FromColon(p, next)[1..], depth), p.item.tree, depth, p.item.after + next)
    ensures SkipSpaces(p.item.after + next) == next
    decreases p, 4
  {
    assert FromColon(p, next)[1..] == p.item.before + Emit(p.item.tree, p.item.after + next);
    AfterStops(p.item.after, next);
    ReadValue(h, p.item.before, p.item.tree, depth, p.item.after + next);
    SkipOver(p.item.after, next);
  }

  /**
   * Every document in the grammar, however it is spaced and escaped, is read back as its
   * meaning if its values nest at most 64 deep, and refused for its depth otherwise.
   */
  lemma ParserReadsGrammar(h: Host, before: string, t: Tree, after: string)
    requires Spaces(before) && GoodTree(h, t) && Spaces(after)
    ensures var r := ParseText(h, before + Emit(t, after));
      if Depth(t) <= MAX_DEPTH then r == Ok(Meaning(h, t), "") else r.Err? && r.message == TooDeep
  {
    EmitStarts(h, t, after);
    SkipOver(before, Emit(t, after));
    ReadValue(h, "", t, 0, after);
    assert "" + Emit(t, after) == Emit(t, after);
    SkipOver(after, "");
    assert after + "" == after;
  }
}
