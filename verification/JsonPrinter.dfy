/**
 * A printer for values and the round trip through the parser; the bytes written for a
 * `\u` escape, section 3 of RFC 3629.
 */
module JsonPrinter {
  import opened Basics
  import opened JsonGrammar
  import opened JsonTheorems

  // ---- Escapes ----

  function HexDigit(n: nat): char
    requires n < 16
  {
    "0123456789abcdef"[n]
  }

  function Hex4(code: Basic): string {
    [HexDigit(code / 0x1000), HexDigit(code / 0x100 % 16), HexDigit(code / 16 % 16), HexDigit(code % 16)]
  }

  /** The host reads four hexadecimal digits as their number; nothing is said of other lexemes. */
  ghost predicate ReadsHex(h: Host) { forall code: Basic :: h.hex(Hex4(code)) == Some(code) }

  /** UTF-16 surrogates, which no code point may be. */
  predicate IsSurrogate(code: int) { 0xD800 <= code < 0xE000 }

  /** The code point a well-formed sequence of one to three bytes encodes, sections 3 and 4 of RFC 3629. */
  function Decode(s: string): Option<Code> {
    if |s| == 1 && s[0] as int < 0x80 then Some(s[0] as int)
    else if |s| == 2 && 0xC2 <= s[0] as int < 0xE0 && Continues(s[1]) then
      Some((s[0] as int - 0xC0) * 0x40 + (s[1] as int - 0x80))
    else if |s| == 3 && 0xE0 <= s[0] as int < 0xF0 && Continues(s[1]) && Continues(s[2])
         && (s[0] as int == 0xE0 ==> s[1] as int >= 0xA0) && (s[0] as int == 0xED ==> s[1] as int < 0xA0) then
      Some((s[0] as int - 0xE0) * 0x1000 + (s[1] as int - 0x80) * 0x40 + (s[2] as int - 0x80))
    else None
  }

  predicate Continues(c: char) { 0x80 <= c as int < 0xC0 }

  lemma EncodedIsDecoded(code: Basic)
    requires !IsSurrogate(code)
    ensures Decode(Utf8(code)) == Some(code)
  {
    if code >= 0x800 {
      assert code == code / 0x1000 * 0x1000 + code / 0x40 % 0x40 * 0x40 + code % 0x40;
    }
  }

  lemma DecodedIsEncoded(code: Code, s: string)
    requires Decode(s) == Some(code)
    ensures code < 0x1_0000 && !IsSurrogate(code) && s == Utf8(code)
  {
    if |s| == 3 {
      var a, b, c := s[0] as int - 0xE0, s[1] as int - 0x80, s[2] as int - 0x80;
      assert code == (a * 0x40 + b) * 0x40 + c;
      assert code / 0x40 == a * 0x40 + b && code / 0x1000 == a;
    }
  }

  /** The encoder is exact for the code points of the basic plane and for nothing else: shortest form, bytes only. */
  lemma Utf8IsExact(code: Code, s: string)
    ensures Decode(s) == Some(code) <==> s == Utf8(code) && code < 0x1_0000 && !IsSurrogate(code)
    ensures forall i | 0 <= i < |Utf8(code)| :: Utf8(code)[i] as int < 0x100
  {
    hide Decode;
    if Decode(s) == Some(code) {
      DecodedIsEncoded(code, s);
    }
    if s == Utf8(code) && code < 0x1_0000 && !IsSurrogate(code) {
      EncodedIsDecoded(code);
    }
  }

  /** Surrogates included, no two codes of four digits are written alike. */
  lemma Utf8IsInjective(a: Basic, b: Basic)
    requires Utf8(a) == Utf8(b)
    ensures a == b
  {
    hide Utf8;
    ReadBytes(a);
    ReadBytes(b);
    assert forall i | 0 <= i < |Utf8(a)| :: Utf8(a)[i] == Utf8(b)[i];
  }

  lemma ReadBytes(code: Basic)
    ensures var s := Utf8(code);
      && (|s| == 1 ==> code == s[0] as int)
      && (|s| == 2 ==> code == (s[0] as int - 0xC0) * 0x40 + (s[1] as int - 0x80))
      && (|s| == 3 ==>
           code == (s[0] as int - 0xE0) * 0x1000 + (s[1] as int - 0x80) * 0x40 + (s[2] as int - 0x80))
      && 1 <= |s| <= 3
  {
    if code >= 0x800 {
      assert code == code / 0x1000 * 0x1000 + code / 0x40 % 0x40 * 0x40 + code % 0x40;
    }
  }

  // ---- Printing ----

  /** Escapes what section 7 of RFC 8259 says must be escaped. */
  function Quote(c: char): Glyph {
    if c == '"' || c == '\\' then Escaped(c)
    else if c == '\n' then Escaped('n')
    else if c == '\r' then Escaped('r')
    else if c == '\t' then Escaped('t')
    else if c as int < 0x20 then Unicode(Hex4(c as int))
    else Raw(c)
  }

  function Quoted(text: string): (gs: seq<Glyph>)
    ensures |gs| == |text|
  {
    if text == "" then [] else [Quote(text[0])] + Quoted(text[1..])
  }

  function TreeFor(v: Value): Tree
    decreases v, 1
  {
    match v
    case Null => TNull
    case Bool(b) => TBool(b)
    case Number(lexeme) => TNumber(lexeme)
    case Str(text) => TString(Quoted(text))
    case Arr(items) => TArray("", ItemsFor(items))
    case Obj(members) => TObject("", PairsFor(members))
  }

  function ItemsFor(items: seq<Value>): (r: seq<Item>)
    ensures |r| == |items|
    decreases items, 0
  {
    if items == [] then [] else [Item("", TreeFor(items[0]), "")] + ItemsFor(items[1..])
  }

  function PairsFor(members: seq<Member>): (r: seq<Pair>)
    ensures |r| == |members|
    decreases members, 0
  {
    if members == [] then []
    else
      [Pair("", Quoted(members[0].key), "", Item(" ", TreeFor(members[0].value), ""))] + PairsFor(members[1..])
  }

  function Print(v: Value): string { Emit(TreeFor(v), "") }

  // ---- What can be printed, and how deep it is ----

  /** Every number in the value has a lexeme the host takes. */
  ghost predicate Printable(h: Host, v: Value)
    decreases v
  {
    match v
    case Number(lexeme) => GoodNumber(h, lexeme)
    case Arr(items) => forall i | 0 <= i < |items| :: Printable(h, items[i])
    case Obj(members) => forall i | 0 <= i < |members| :: Printable(h, members[i].value)
    case _ => true
  }

  /** No chain of values, each inside the one before, is longer than `n`. */
  ghost predicate Within(v: Value, n: int)
    decreases v
  {
    1 <= n &&
    match v
    case Arr(items) => forall i | 0 <= i < |items| :: Within(items[i], n - 1)
    case Obj(members) => forall i | 0 <= i < |members| :: Within(members[i].value, n - 1)
    case _ => true
  }

  lemma {:induction false} QuotedReadsBack(h: Host, text: string)
    requires ReadsHex(h)
    ensures GoodGlyphs(h, Quoted(text)) && GlyphsText(h, Quoted(text)) == text
  {
    if text != "" {
      QuotedReadsBack(h, text[1..]);
      var c := text[0];
      if c as int < 0x20 {
        var code: Basic := c as int;
        assert h.hex(Hex4(code)) == Some(code);
      }
      assert GlyphText(h, Quote(c)) == [c];
      assert text == [c] + text[1..];
    }
  }

  lemma {:induction false} TreeForIsRight(h: Host, v: Value, n: int)
    requires ReadsHex(h) && Printable(h, v)
    ensures GoodTree(h, TreeFor(v)) && Meaning(h, TreeFor(v)) == v
    ensures Depth(TreeFor(v)) <= n <==> Within(v, n)
    decreases v, 1
  {
    hide ReadsHex, GoodGlyphs, GlyphsText, GoodNumber, ItemsFor, PairsFor, Quoted;
    match v
    case Str(text) => QuotedReadsBack(h, text);
    case Arr(items) => ItemsForAreRight(h, items, n - 1);
    case Obj(members) => PairsForAreRight(h, members, n - 1);
    case _ =>
  }

  lemma {:induction false} ItemsForAreRight(h: Host, items: seq<Value>, n: int)
    requires ReadsHex(h) && forall i | 0 <= i < |items| :: Printable(h, items[i])
    ensures GoodItems(h, ItemsFor(items)) && ItemValues(h, ItemsFor(items)) == items
    ensures 0 <= n ==> (ItemsDepth(ItemsFor(items)) <= n <==> forall i | 0 <= i < |items| :: Within(items[i], n))
    decreases items, 0
  {
    if items != [] {
      TreeForIsRight(h, items[0], n);
      ItemsForAreRight(h, items[1..], n);
      assert items == [items[0]] + items[1..];
    }
  }

  lemma {:induction false} PairsForAreRight(h: Host, members: seq<Member>, n: int)
    requires ReadsHex(h) && forall i | 0 <= i < |members| :: Printable(h, members[i].value)
    ensures GoodPairs(h, PairsFor(members)) && PairMembers(h, PairsFor(members)) == members
    ensures 0 <= n ==>
        (PairsDepth(PairsFor(members)) <= n <==> forall i | 0 <= i < |members| :: Within(members[i].value, n))
    decreases members, 0
  {
    if members != [] {
      var m := members[0];
      TreeForIsRight(h, m.value, n);
      QuotedReadsBack(h, m.key);
      PairsForAreRight(h, members[1..], n);
      assert members == [m] + members[1..];
    }
  }

  /**
   * Parsing what is printed gives the value back, member order and duplicate keys kept and
   * escapes undone, when no value is nested more than 64 deep; a deeper one is refused as
   * too deep.
   */
  lemma RoundTrip(h: Host, v: Value)
    requires ReadsHex(h) && Printable(h, v)
    ensures Within(v, MAX_DEPTH) ==> ParseText(h, Print(v)) == Ok(v, "")
    ensures !Within(v, MAX_DEPTH) ==> ParseText(h, Print(v)).Err? && ParseText(h, Print(v)).message == TooDeep
  {
    TreeForIsRight(h, v, MAX_DEPTH);
    ParserReadsGrammar(h, "", TreeFor(v), "");
    assert "" + Print(v) == Print(v);
  }

  /** The text of a value decides the value and where it ends, however deep the value is. */
  lemma {:induction false} TextDecides(h: Host, v: Value, w: Value, rest: string, rest': string)
    requires ReadsHex(h) && Printable(h, v) && Printable(h, w) && Stops(rest) && Stops(rest')
    requires Emit(TreeFor(v), rest) == Emit(TreeFor(w), rest')
    ensures v == w && rest == rest'
    decreases v, 1
  {
    hide ReadsHex, ParseScalar;
    TreeForIsRight(h, v, 0);
    TreeForIsRight(h, w, 0);
    if !v.Arr? && !v.Obj? {
      ReadScalar(h, TreeFor(v), rest);
    }
    if !w.Arr? && !w.Obj? {
      ReadScalar(h, TreeFor(w), rest');
    }
    var s := Emit(TreeFor(v), rest);
    if v.Arr? {
      assert s[0] == '[' && w.Arr?;
      ArraysDecide(h, v.items, w.items, rest, rest');
    } else if v.Obj? {
      assert s[0] == '{' && w.Obj?;
      ObjectsDecide(h, v.members, w.members, rest, rest');
    } else {
      assert s[0] != '[' && s[0] != '{' && !w.Arr? && !w.Obj?;
    }
  }

  lemma ArraysDecide(h: Host, vs: seq<Value>, ws: seq<Value>, rest: string, rest': string)
    requires ReadsHex(h) && Printable(h, Arr(vs)) && Printable(h, Arr(ws)) && Stops(rest) && Stops(rest')
    requires Emit(TreeFor(Arr(vs)), rest) == Emit(TreeFor(Arr(ws)), rest')
    ensures vs == ws && rest == rest'
    decreases vs, 1
  {
    var s, s' := Emit(TreeFor(Arr(vs)), rest)[1..], Emit(TreeFor(Arr(ws)), rest')[1..];
    assert s == if vs == [] then [']'] + rest else EmitItems(ItemsFor(vs), rest);
    assert s' == if ws == [] then [']'] + rest' else EmitItems(ItemsFor(ws), rest');
    if vs != [] {
      ItemsStart(h, vs, rest);
    }
    if ws != [] {
      ItemsStart(h, ws, rest');
    }
    if vs == [] {
      assert s[1..] == rest && s'[1..] == rest';
    } else {
      ItemsDecide(h, vs, ws, rest, rest');
    }
  }

  lemma ItemsStart(h: Host, vs: seq<Value>, rest: string)
    requires vs != [] && ReadsHex(h) && Printable(h, vs[0])
    ensures EmitItems(ItemsFor(vs), rest) == Emit(TreeFor(vs[0]), NextItem(vs, rest))
    ensures EmitItems(ItemsFor(vs), rest) != "" && EmitItems(ItemsFor(vs), rest)[0] != ']'
  {
    TreeForIsRight(h, vs[0], 0);
    EmitStarts(h, TreeFor(vs[0]), NextItem(vs, rest));
    var items := ItemsFor(vs);
    assert items[1..] == ItemsFor(vs[1..]) && items[0] == Item("", TreeFor(vs[0]), "");
    assert "" + NextItem(vs, rest) == NextItem(vs, rest);
  }

  function NextItem(vs: seq<Value>, rest: string): string
    requires vs != []
  {
    if |vs| == 1 then [']'] + rest else [','] + EmitItems(ItemsFor(vs[1..]), rest)
  }

  lemma {:induction false} ItemsDecide(h: Host, vs: seq<Value>, ws: seq<Value>, rest: string, rest': string)
    requires vs != [] && ws != [] && ReadsHex(h) && Stops(rest) && Stops(rest')
    requires (forall v | v in vs :: Printable(h, v)) && forall w | w in ws :: Printable(h, w)
    requires EmitItems(ItemsFor(vs), rest) == EmitItems(ItemsFor(ws), rest')
    ensures vs == ws && rest == rest'
    decreases vs, 0
  {
    hide ReadsHex, Emit, EmitItems;
    ItemsStart(h, vs, rest);
    ItemsStart(h, ws, rest');
    TextDecides(h, vs[0], ws[0], NextItem(vs, rest), NextItem(ws, rest'));
    var next, next' := NextItem(vs, rest), NextItem(ws, rest');
    assert vs == [vs[0]] + vs[1..] && ws == [ws[0]] + ws[1..];
    if |vs| == 1 {
      assert next[0] == ']' && next[1..] == rest && next'[1..] == rest';
    } else {
      assert next[0] == ',' && next[1..] == EmitItems(ItemsFor(vs[1..]), rest);
      assert next'[1..] == EmitItems(ItemsFor(ws[1..]), rest');
      ItemsDecide(h, vs[1..], ws[1..], rest, rest');
    }
  }

  lemma ObjectsDecide(h: Host, vs: seq<Member>, ws: seq<Member>, rest: string, rest': string)
    requires ReadsHex(h) && Printable(h, Obj(vs)) && Printable(h, Obj(ws)) && Stops(rest) && Stops(rest')
    requires Emit(TreeFor(Obj(vs)), rest) == Emit(TreeFor(Obj(ws)), rest')
    ensures vs == ws && rest == rest'
    decreases vs, 1
  {
    var s, s' := Emit(TreeFor(Obj(vs)), rest)[1..], Emit(TreeFor(Obj(ws)), rest')[1..];
    assert s == if vs == [] then ['}'] + rest else EmitPairs(PairsFor(vs), rest);
    assert s' == if ws == [] then ['}'] + rest' else EmitPairs(PairsFor(ws), rest');
    if vs != [] {
      PairsStart(vs, rest);
    }
    if ws != [] {
      PairsStart(ws, rest');
    }
    hide EmitPairs, PairsFor;
    if vs == [] {
      assert s[1..] == rest && s'[1..] == rest';
    } else {
      assert s[0] == '"' && ws != [];
      assert forall v | v in vs :: Printable(h, v.value);
      assert forall w | w in ws :: Printable(h, w.value);
      PairsDecide(h, vs, ws, rest, rest');
    }
  }

  function NextPair(vs: seq<Member>, rest: string): string
    requires vs != []
  {
    if |vs| == 1 then ['}'] + rest else [','] + EmitPairs(PairsFor(vs[1..]), rest)
  }

  lemma PairsStart(vs: seq<Member>, rest: string)
    requires vs != []
    ensures EmitPairs(PairsFor(vs), rest) ==
      ['"'] + EmitGlyphs(Quoted(vs[0].key), [':'] + ([' '] + Emit(TreeFor(vs[0].value), NextPair(vs, rest))))
  {
    var pairs := PairsFor(vs);
    assert pairs[1..] == PairsFor(vs[1..]);
    assert pairs[0] == Pair("", Quoted(vs[0].key), "", Item(" ", TreeFor(vs[0].value), ""));
    assert "" + NextPair(vs, rest) == NextPair(vs, rest);
    var value := [':'] + (" " + Emit(TreeFor(vs[0].value), NextPair(vs, rest)));
    assert "" + value == value;
  }

  lemma {:induction false} PairsDecide(h: Host, vs: seq<Member>, ws: seq<Member>, rest: string, rest': string)
    requires vs != [] && ws != [] && ReadsHex(h) && Stops(rest) && Stops(rest')
    requires (forall v | v in vs :: Printable(h, v.value)) && forall w | w in ws :: Printable(h, w.value)
    requires EmitPairs(PairsFor(vs), rest) == EmitPairs(PairsFor(ws), rest')
    ensures vs == ws && rest == rest'
    decreases vs, 0
  {
    hide ReadsHex, Emit, EmitPairs, EmitGlyphs, Quoted;
    PairsStart(vs, rest);
    PairsStart(ws, rest');
    var next, next' := NextPair(vs, rest), NextPair(ws, rest');
    var value := [':'] + ([' '] + Emit(TreeFor(vs[0].value), next));
    var value' := [':'] + ([' '] + Emit(TreeFor(ws[0].value), next'));
    var s := EmitPairs(PairsFor(vs), rest);
    assert s[1..] == EmitGlyphs(Quoted(vs[0].key), value) == EmitGlyphs(Quoted(ws[0].key), value');
    QuotedDecides(h, vs[0].key, ws[0].key, value, value');
    assert value[1..][1..] == Emit(TreeFor(vs[0].value), next);
    assert value'[1..][1..] == Emit(TreeFor(ws[0].value), next');
    TextDecides(h, vs[0].value, ws[0].value, next, next');
    assert vs == [vs[0]] + vs[1..] && ws == [ws[0]] + ws[1..];
    if |vs| == 1 {
      assert next[0] == '}' && next[1..] == rest && next'[1..] == rest';
    } else {
      assert next[0] == ',' && next[1..] == EmitPairs(PairsFor(vs[1..]), rest);
      assert next'[1..] == EmitPairs(PairsFor(ws[1..]), rest');
      PairsDecide(h, vs[1..], ws[1..], rest, rest');
    }
  }

  lemma QuotedDecides(h: Host, a: string, b: string, rest: string, rest': string)
    requires ReadsHex(h) && EmitGlyphs(Quoted(a), rest) == EmitGlyphs(Quoted(b), rest')
    ensures a == b && rest == rest'
  {
    hide ReadsHex, EmitGlyphs, Quoted, ParseGlyphs;
    QuotedReadsBack(h, a);
    QuotedReadsBack(h, b);
    ReadGlyphs(h, Quoted(a), rest);
    ReadGlyphs(h, Quoted(b), rest');
  }

  /** Two values that print alike are the same value, even if they are nested too deep to be read back. */
  lemma PrintIsInjective(h: Host, v: Value, w: Value)
    requires ReadsHex(h) && Printable(h, v) && Printable(h, w) && Print(v) == Print(w)
    ensures v == w
  {
    TextDecides(h, v, w, "", "");
  }
}
