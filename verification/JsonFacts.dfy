/**
 * What the parser does with particular characters, told by their codes: white space, letters
 * after a backslash, words, digits, separators, and the nesting cap.
 */
module JsonFacts {
  import opened Basics
  import opened JsonGrammar
  import opened JsonTheorems

  /** Tabs, line feeds, carriage returns and spaces, as codes. */
  predicate BlankCode(c: int) { c == 9 || c == 10 || c == 13 || c == 32 }

  predicate Blank(s: string) { forall i | 0 <= i < |s| :: BlankCode(s[i] as int) }

  lemma BlankIsSpaces(s: string)
    requires Blank(s)
    ensures Spaces(s)
  {
  }

  lemma BlankFollows(s: string, rest: string)
    requires Blank(s) && Stops(rest)
    ensures Stops(s + rest)
  {
  }

  // ---- White space around brackets and words ----

  lemma Document(h: Host, a: string, t: Tree, b: string)
    requires Blank(a) && Blank(b) && GoodTree(h, t) && Depth(t) <= MAX_DEPTH
    ensures ParseText(h, a + Emit(t, b)) == Ok(Meaning(h, t), "")
  {
    ParserReadsGrammar(h, a, t, b);
  }

  lemma EmptyArray(h: Host, a: string, b: string, c: string)
    requires Blank(a) && Blank(b) && Blank(c)
    ensures ParseText(h, a + "[" + b + "]" + c) == Ok(Arr([]), "")
  {
    Document(h, a, TArray(b, []), c);
    assert a + "[" + b + "]" + c == a + Emit(TArray(b, []), c);
  }

  lemma EmptyObject(h: Host, a: string, b: string, c: string)
    requires Blank(a) && Blank(b) && Blank(c)
    ensures ParseText(h, a + "{" + b + "}" + c) == Ok(Obj([]), "")
  {
    Document(h, a, TObject(b, []), c);
    assert a + "{" + b + "}" + c == a + Emit(TObject(b, []), c);
  }

  lemma Words(h: Host, a: string, b: string)
    requires Blank(a) && Blank(b)
    ensures ParseText(h, a + "null" + b) == Ok(Null, "")
    ensures ParseText(h, a + "true" + b) == Ok(Bool(true), "")
    ensures ParseText(h, a + "false" + b) == Ok(Bool(false), "")
  {
    hide ParseText;
    Document(h, a, TNull, b);
    Document(h, a, TBool(true), b);
    Document(h, a, TBool(false), b);
    assert a + "null" + b == a + ("null" + b) && a + "true" + b == a + ("true" + b);
    assert a + "false" + b == a + ("false" + b);
  }

  /** A lexeme of digits, signs, points and exponent letters that begins with a minus or a digit. */
  predicate Lexeme(s: string) {
    && s != "" && (s[0] as int == 45 || 48 <= s[0] as int <= 57)
    && forall i | 0 <= i < |s| :: NumberCode(s[i] as int)
  }

  predicate NumberCode(c: int) { c == 43 || c == 45 || c == 46 || 48 <= c <= 57 || c == 69 || c == 101 }

  /** It is taken whole, up to the next other character, and refused if the host does not take all of it. */
  lemma Numbers(h: Host, lexeme: string, rest: string)
    requires Lexeme(lexeme) && (rest == "" || !NumberCode(rest[0] as int))
    ensures ParseValue(h, lexeme + rest, 0) ==
      if h.takesNumber(lexeme) then Ok(Number(lexeme), rest) else Err(BadNumber(lexeme), |rest|)
  {
    LexemeIsNumeric(lexeme, rest);
    NumericOver(lexeme, rest);
    var s := lexeme + rest;
    assert s[..|lexeme|] == lexeme && s[|lexeme|..] == rest && s[0] == lexeme[0];
    hide *;
    NumberIsScalar(h, s);
    NumberRead(h, s, |lexeme|);
  }

  lemma NumberIsScalar(h: Host, s: string)
    requires s != "" && (s[0] == '-' || IsDigit(s[0]))
    ensures ParseValue(h, s, 0) == ParseScalar(h, s)
  {
    hide ParseScalar, ParseItems, ParsePairs;
    assert SkipSpaces(s) == s;
  }

  lemma NumberRead(h: Host, s: string, n: nat)
    requires s != "" && (s[0] == '-' || IsDigit(s[0])) && n <= |s| && NumericPrefix(s) == n
    ensures ParseScalar(h, s) ==
      if h.takesNumber(s[..n]) then Ok(Number(s[..n]), s[n..]) else Err(BadNumber(s[..n]), |s| - n)
  {
    hide NumericPrefix, ParseGlyphs;
  }

  lemma LexemeIsNumeric(lexeme: string, rest: string)
    requires Lexeme(lexeme) && (rest == "" || !NumberCode(rest[0] as int))
    ensures (forall i | 0 <= i < |lexeme| :: IsNumeric(lexeme[i])) && Stops(rest)
    ensures lexeme != "" && (lexeme[0] == '-' || IsDigit(lexeme[0]))
  {
  }

  /** Codes of the characters a value can begin with, and of those that are skipped before it. */
  predicate MayBegin(c: int) {
    || BlankCode(c)
    || c == 34 || c == 45 || 48 <= c <= 57 || c == 91 || c == 102 || c == 110 || c == 116 || c == 123
  }

  lemma NoValueBegins(h: Host, c: char, rest: string)
    requires !MayBegin(c as int)
    ensures ParseText(h, [c] + rest) == Err(UnexpectedCharacter(c), |rest| + 1)
  {
    assert SkipSpaces([c] + rest) == [c] + rest;
  }

  /** Other words that begin like the three are refused where they begin. */
  lemma OtherWords(h: Host, s: string)
    requires s != ""
    ensures s[0] as int == 110 && !("null" <= s) ==> ParseText(h, s) == Err(BadNull, |s|)
    ensures s[0] as int == 116 && !("true" <= s) ==> ParseText(h, s) == Err(BadBool, |s|)
    ensures s[0] as int == 102 && !("false" <= s) ==> ParseText(h, s) == Err(BadBool, |s|)
  {
    if s[0] as int == 110 || s[0] as int == 116 || s[0] as int == 102 {
      assert SkipSpaces(s) == s;
      assert s[0] == 't' ==> !StartsWith(s, "false") by {
        assert "false"[0] == 'f';
      }
      assert s[0] == 'f' ==> !StartsWith(s, "true") by {
        assert "true"[0] == 't';
      }
    }
  }

  // ---- Strings ----

  /** What a string holds is decided from its opening quote on. */
  lemma Strings(h: Host, a: string, body: string, text: string, c: string)
    requires Blank(a) && Blank(c) && ParseGlyphs(h, body) == Ok(text, c)
    ensures ParseText(h, a + "\"" + body) == Ok(Str(text), "")
  {
    hide ParseGlyphs;
    var s := "\"" + body;
    SkipOver(a, s);
    SkipOver(c, "");
    assert a + "\"" + body == a + s && s[1..] == body && c + "" == c;
    assert SkipSpaces(s) == s;
  }

  /** The byte for a letter after a backslash, both as codes: quote, backslash, slash, b, f, n, r, t. */
  function EscapeCode(letter: int): Option<int> {
    if letter == 34 then Some(34)
    else if letter == 92 then Some(92)
    else if letter == 47 then Some(47)
    else if letter == 98 then Some(8)
    else if letter == 102 then Some(12)
    else if letter == 110 then Some(10)
    else if letter == 114 then Some(13)
    else if letter == 116 then Some(9)
    else None
  }

  lemma Escapes(h: Host, letter: char, rest: string)
    requires letter as int != 117
    ensures ParseGlyphs(h, "\\" + [letter] + rest) ==
      match EscapeCode(letter as int)
      case Some(b) => Prepend([b as char], ParseGlyphs(h, rest))
      case None => Err(BadEscape(letter), |rest|)
  {
    var s := "\\" + [letter] + rest;
    assert s[2..] == rest;
  }

  lemma OtherGlyphs(h: Host, c: char, rest: string)
    ensures c as int == 34 ==> ParseGlyphs(h, [c] + rest) == Ok("", rest)
    ensures c as int != 34 && c as int != 92 ==> ParseGlyphs(h, [c] + rest) == Prepend([c], ParseGlyphs(h, rest))
    ensures ParseGlyphs(h, "") == Err(UnterminatedString, 0) && ParseGlyphs(h, "\\") == Err(UnterminatedEscape, 0)
  {
    assert ([c] + rest)[1..] == rest;
  }

  lemma UnicodeGlyphs(h: Host, digits: string, rest: string)
    ensures |digits| < 4 ==> ParseGlyphs(h, "\\u" + digits) == Err(UnterminatedUnicode, 0)
    ensures |digits| == 4 && h.hex(digits) == None ==>
      ParseGlyphs(h, "\\u" + (digits + rest)) == Err(BadUnicode(digits), |rest|)
    ensures |digits| == 4 && h.hex(digits).Some? ==>
      ParseGlyphs(h, "\\u" + (digits + rest)) == Prepend(Utf8(h.hex(digits).value), ParseGlyphs(h, rest))
  {
    var s := "\\u" + (digits + rest);
    assert s[0] == '\\' && s[1] == 'u' && ("\\u" + digits)[1] == 'u';
    assert |digits| == 4 ==> s[2..6] == digits && s[6..] == rest;
  }

  // ---- Separators ----

  lemma TwoItems(h: Host, x: Item, y: Item, rest: string)
    ensures var t := TArray("", [x, y]);
      && Emit(t, rest) ==
         "[" + (x.before + Emit(x.tree, x.after + ("," + (y.before + Emit(y.tree, y.after + ("]" + rest))))))
      && Meaning(h, t) == Arr([Meaning(h, x.tree), Meaning(h, y.tree)])
      && Depth(t) == 1 + Max(Depth(x.tree), Depth(y.tree))
      && (GoodTree(h, t) <==>
          && Spaces(x.before) && GoodTree(h, x.tree) && Spaces(x.after)
          && Spaces(y.before) && GoodTree(h, y.tree) && Spaces(y.after))
  {
    hide GoodTree, Meaning, Depth, Emit, Spaces;
    var items := [x, y];
    assert items[1..] == [y] && [y][1..] == [];
    TwoItemsText(x, y, rest);
    TwoItemsMeaning(h, x, y);
  }

  lemma TwoItemsText(x: Item, y: Item, rest: string)
    ensures Emit(TArray("", [x, y]), rest) ==
      "[" + (x.before + Emit(x.tree, x.after + ("," + (y.before + Emit(y.tree, y.after + ("]" + rest))))))
  {
    assert [x, y][1..] == [y];
    assert EmitItems([y], rest) == y.before + Emit(y.tree, y.after + ("]" + rest));
    assert EmitItems([x, y], rest) == x.before + Emit(x.tree, x.after + ("," + EmitItems([y], rest)));
  }

  lemma TwoItemsMeaning(h: Host, x: Item, y: Item)
    ensures var t := TArray("", [x, y]);
      && Meaning(h, t) == Arr([Meaning(h, x.tree), Meaning(h, y.tree)])
      && Depth(t) == 1 + Max(Depth(x.tree), Depth(y.tree))
      && (GoodTree(h, t) <==>
          && Spaces(x.before) && GoodTree(h, x.tree) && Spaces(x.after)
          && Spaces(y.before) && GoodTree(h, y.tree) && Spaces(y.after))
  {
    var items := [x, y];
    assert items[1..] == [y] && [y][1..] == [];
    assert ItemValues(h, items) == [Meaning(h, x.tree)] + ItemValues(h, [y]);
    assert ItemValues(h, [y]) == [Meaning(h, y.tree)] + ItemValues(h, []);
    assert ItemsDepth([y]) == Max(Depth(y.tree), ItemsDepth([])) && ItemsDepth([]) == 0;
    assert GoodItems(h, []) && (GoodItems(h, [y]) <==> Spaces(y.before) && GoodTree(h, y.tree) && Spaces(y.after));
  }

  /** Two elements, with any white space. */
  lemma TwoElements(h: Host, a: string, b: string, c: string, d: string, e: string, f: string)
    requires Blank(a) && Blank(b) && Blank(c) && Blank(d) && Blank(e) && Blank(f)
    ensures ParseText(h, a + ("[" + (b + ("true" + (c + ("," + (d + ("null" + (e + ("]" + f))))))))))
      == Ok(Arr([Bool(true), Null]), "")
  {
    var x, y := Item(b, TBool(true), c), Item(d, TNull, e);
    var t := TArray("", [x, y]);
    TwoItems(h, x, y, f);
    assert Depth(t) == 2;
    Document(h, a, t, f);
    hide *;
    ArrayText(a, b, c, d, e, f, x, y, t);
  }

  lemma ArrayText(a: string, b: string, c: string, d: string, e: string, f: string, x: Item, y: Item, t: Tree)
    requires x == Item(b, TBool(true), c) && y == Item(d, TNull, e) && t == TArray("", [x, y])
    ensures a + ("[" + (b + ("true" + (c + ("," + (d + ("null" + (e + ("]" + f))))))))) == a + Emit(t, f)
  {
    TwoItemsText(x, y, f);
    assert Emit(y.tree, e + ("]" + f)) == "null" + (e + ("]" + f));
    var last := d + ("null" + (e + ("]" + f)));
    assert Emit(x.tree, c + ("," + last)) == "true" + (c + ("," + last));
  }

  lemma TwoPairsText(x: Pair, y: Pair, rest: string)
    ensures Emit(TObject("", [x, y]), rest) ==
      "{" + (x.margin + ("\"" + EmitGlyphs(x.key, x.gap + (":" + (x.item.before + Emit(x.item.tree, x.item.after + (","
      + (y.margin + ("\"" + EmitGlyphs(y.key, y.gap + (":" + (y.item.before + Emit(y.item.tree, y.item.after + ("}"
      + rest))))))))))))))
  {
    assert [x, y][1..] == [y];
    assert EmitPairs([y], rest) == y.margin + ("\"" + EmitGlyphs(y.key, y.gap + (":" + (y.item.before
      + Emit(y.item.tree, y.item.after + ("}" + rest))))));
    assert EmitPairs([x, y], rest) == x.margin + ("\"" + EmitGlyphs(x.key, x.gap + (":" + (x.item.before
      + Emit(x.item.tree, x.item.after + ("," + EmitPairs([y], rest)))))));
  }

  lemma TwoPairsMeaning(h: Host, x: Pair, y: Pair)
    ensures var t := TObject("", [x, y]);
      && Meaning(h, t) == Obj([Member(GlyphsText(h, x.key), Meaning(h, x.item.tree)),
                               Member(GlyphsText(h, y.key), Meaning(h, y.item.tree))])
      && Depth(t) == 1 + Max(Depth(x.item.tree), Depth(y.item.tree))
      && (GoodPair(h, x) && GoodPair(h, y) ==> GoodTree(h, t))
  {
    var pairs := [x, y];
    assert pairs[1..] == [y] && [y][1..] == [];
    assert PairMembers(h, pairs) == [Member(GlyphsText(h, x.key), Meaning(h, x.item.tree))] + PairMembers(h, [y]);
    assert PairMembers(h, [y]) == [Member(GlyphsText(h, y.key), Meaning(h, y.item.tree))] + PairMembers(h, []);
    assert PairsDepth([y]) == Max(Depth(y.item.tree), PairsDepth([])) && PairsDepth([]) == 0;
    assert GoodPairs(h, []) && (GoodPair(h, y) ==> GoodPairs(h, [y]));
  }

  ghost predicate GoodPair(h: Host, p: Pair) {
    && Spaces(p.margin) && GoodGlyphs(h, p.key) && Spaces(p.gap)
    && Spaces(p.item.before) && GoodTree(h, p.item.tree) && Spaces(p.item.after)
  }

  /** Two members under one key, with any white space: both are kept, in order. */
  lemma TwoMembers(h: Host, b: string, c: string, d: string, e: string, f: string, g: string, i: string, j: string)
    requires Blank(b) && Blank(c) && Blank(d) && Blank(e) && Blank(f) && Blank(g) && Blank(i) && Blank(j)
    ensures ParseText(h, "{" + (b + ("\"x\"" + (c + (":" + (d + ("true" + (e + (","
              + (f + ("\"x\"" + (g + (":" + (i + ("null" + (j + "}"))))))))))))))))
      == Ok(Obj([Member("x", Bool(true)), Member("x", Null)]), "")
  {
    var x, y := Pair(b, [Raw('x')], c, Item(d, TBool(true), e)), Pair(f, [Raw('x')], g, Item(i, TNull, j));
    var t := TObject("", [x, y]);
    TwoPairsMeaning(h, x, y);
    KeyX(h);
    assert GoodPair(h, x) && GoodPair(h, y) && Depth(t) == 2;
    Document(h, "", t, "");
    hide *;
    ObjectText(b, c, d, e, f, g, i, j, x, y, t);
  }

  lemma KeyX(h: Host)
    ensures GlyphsText(h, [Raw('x')]) == "x"
    ensures forall rest :: "\"" + EmitGlyphs([Raw('x')], rest) == "\"x\"" + rest
  {
    assert [Raw('x')][1..] == [];
    forall rest ensures "\"" + EmitGlyphs([Raw('x')], rest) == "\"x\"" + rest {
      assert EmitGlyphs([], rest) == ['"'] + rest;
    }
  }

  lemma ObjectText(b: string, c: string, d: string, e: string, f: string, g: string, i: string, j: string,
                   x: Pair, y: Pair, t: Tree)
    requires x == Pair(b, [Raw('x')], c, Item(d, TBool(true), e)) && y == Pair(f, [Raw('x')], g, Item(i, TNull, j))
    requires t == TObject("", [x, y])
    ensures "" + Emit(t, "") == "{" + (b + ("\"x\"" + (c + (":" + (d + ("true" + (e + (","
              + (f + ("\"x\"" + (g + (":" + (i + ("null" + (j + "}")))))))))))))))
  {
    TwoPairsText(x, y, "");
    assert "}" + "" == "}" && "" + Emit(t, "") == Emit(t, "");
    ValueText(y, TNull, "null", j + "}");
    hide Emit, EmitGlyphs;
    var last := f + ("\"x\"" + (g + (":" + (i + ("null" + (j + "}"))))));
    ValueText(x, TBool(true), "true", e + ("," + last));
  }

  lemma ValueText(p: Pair, v: Tree, word: string, next: string)
    requires p.key == [Raw('x')] && p.item.tree == v
    requires if v == TNull then word == "null" else v == TBool(true) && word == "true"
    ensures "\"" + EmitGlyphs(p.key, p.gap + (":" + (p.item.before + Emit(v, next)))) ==
      "\"x\"" + (p.gap + (":" + (p.item.before + (word + next))))
  {
    KeyX(Host((s: string) => true, (s: string) => None));
  }

  /** What else stands where a separator, a key or the end must be is refused there. */
  lemma WrongSeparators(h: Host, c: char, rest: string)
    requires !BlankCode(c as int)
    ensures ParseText(h, "null" + ([c] + rest)) == Err(TrailingCharacters, |rest| + 1)
    ensures c as int != 44 && c as int != 93 ==>
        ParseText(h, "[null" + ([c] + rest)) == Err(ExpectedCommaOrBracket, |rest| + 1)
    ensures c as int != 34 && c as int != 125 ==> ParseText(h, "{" + ([c] + rest)) == Err(ExpectedKey, |rest| + 1)
  {
    var s := [c] + rest;
    assert SkipSpaces(s) == s;
    AfterNull(h, s, 0);
    AfterNull(h, s, 1);
    assert SkipSpaces("null" + s) == "null" + s;
    var list, record := "[null" + s, "{" + s;
    assert list[1..] == "null" + s && SkipSpaces(list) == list && record[1..] == s && SkipSpaces(record) == record;
    if c as int != 44 && c as int != 93 {
      assert ParseItems(h, "null" + s, 1) == Err(ExpectedCommaOrBracket, |rest| + 1);
    }
    if c as int != 34 && c as int != 125 {
      assert ParsePairs(h, s, 1) == Err(ExpectedKey, |rest| + 1);
    }
  }

  lemma AfterNull(h: Host, s: string, depth: nat)
    requires depth < 64
    ensures ParseValue(h, "null" + s, depth) == Ok(Null, s)
  {
    var t := "null" + s;
    assert t[..4] == "null" && t[4..] == s && SkipSpaces(t) == t;
  }

  // In an object: after the key, after the value, and after a comma.
  lemma WrongAfterKey(h: Host, c: char, rest: string)
    requires !BlankCode(c as int) && c as int != 58
    ensures ParseText(h, "{\"x\"" + ([c] + rest)) == Err(ExpectedColon, |rest| + 1)
  {
    var s := [c] + rest;
    MemberStarts(h, s);
    KeyWithoutColon(h, s);
  }

  lemma WrongAfterMember(h: Host, c: char, rest: string)
    requires !BlankCode(c as int) && c as int != 44 && c as int != 125
    ensures ParseText(h, "{\"x\":null" + ([c] + rest)) == Err(ExpectedCommaOrBrace, |rest| + 1)
  {
    hide ParseText, ParsePairs;
    var s := [c] + rest;
    MemberStarts(h, ":" + ("null" + s));
    MemberEnds(h, s);
    assert "{\"x\"" + (":" + ("null" + s)) == "{\"x\":null" + s;
  }

  lemma WrongAfterComma(h: Host, c: char, rest: string)
    requires !BlankCode(c as int) && c as int != 34
    ensures ParseText(h, "{\"x\":null," + ([c] + rest)) == Err(ExpectedKey, |rest| + 1)
  {
    var s := [c] + rest;
    assert SkipSpaces(s) == s && ParsePairs(h, s, 1) == Err(ExpectedKey, |rest| + 1);
    hide ParseText, ParsePairs;
    MemberStarts(h, ":" + ("null" + ("," + s)));
    MemberEnds(h, "," + s);
    assert ("," + s)[1..] == s && "{\"x\"" + (":" + ("null" + ("," + s))) == "{\"x\":null," + s;
  }

  /** The reader of a document that begins with a brace and the key x. */
  lemma MemberStarts(h: Host, s: string)
    ensures ParseText(h, "{\"x\"" + s) ==
      match ParsePairs(h, "\"x\"" + s, 1)
      case Ok(ms, rest) =>
        (var e := SkipSpaces(rest); if e != "" then Err(TrailingCharacters, |e|) else Ok(Obj(ms), ""))
      case Err(m, n) => Err(m, n)
  {
    var t := "{\"x\"" + s;
    assert t[1..] == "\"x\"" + s && SkipSpaces(t) == t && SkipSpaces(t[1..]) == t[1..];
    hide ParsePairs, ParseItems;
    assert ParseValue(h, t, 0) ==
      match ParsePairs(h, t[1..], 1)
      case Ok(ms, rest) => Ok(Obj(ms), rest)
      case Err(m, n) => Err(m, n);
  }

  lemma KeyWithoutColon(h: Host, s: string)
    requires s != "" && !IsSpace(s[0]) && s[0] != ':'
    ensures ParsePairs(h, "\"x\"" + s, 1) == Err(ExpectedColon, |s|)
  {
    ReadX(h, s);
    var t := "\"x\"" + s;
    assert SkipSpaces(t) == t && SkipSpaces(s) == s;
    hide ParseGlyphs;
  }

  lemma ReadX(h: Host, s: string)
    ensures ParseGlyphs(h, ("\"x\"" + s)[1..]) == Ok("x", s)
  {
    var t := ("\"x\"" + s)[1..];
    assert t[1..][1..] == s && t[0] == 'x' && t[1..][0] == '"';
    assert ParseGlyphs(h, t[1..]) == Ok("", s) && ['x'] + "" == "x";
  }

  lemma MemberEnds(h: Host, s: string)
    requires s != "" && !IsSpace(s[0])
    ensures ParsePairs(h, "\"x\"" + (":" + ("null" + s)), 1) ==
      if s[0] == ',' then
        match ParsePairs(h, s[1..], 1)
        case Ok(ms, rest) => Ok([Member("x", Null)] + ms, rest)
        case Err(m, n) => Err(m, n)
      else if s[0] == '}' then Ok([Member("x", Null)], s[1..])
      else Err(ExpectedCommaOrBrace, |s|)
  {
    var u := ":" + ("null" + s);
    var t := "\"x\"" + u;
    ReadX(h, u);
    AfterNull(h, s, 1);
    assert u[1..] == "null" + s && SkipSpaces(u) == u && SkipSpaces(t) == t && SkipSpaces(s) == s;
    hide ParseValue, ParseGlyphs;
  }

  // ---- Nesting ----

  /** A text with `n` of one character before it. */
  function Put(c: char, n: nat, s: string): string { if n == 0 then s else [c] + Put(c, n - 1, s) }

  function Nested(n: nat): Tree
    requires n > 0
  {
    if n == 1 then TArray("", []) else TArray("", [Item("", Nested(n - 1), "")])
  }

  ghost function NestedValue(n: nat): Value
    requires n > 0
  {
    if n == 1 then Arr([]) else Arr([NestedValue(n - 1)])
  }

  /** So many arrays inside one another are read exactly up to sixty-four. */
  lemma SixtyFourDeep(h: Host, n: nat)
    requires n > 0
    ensures var s := Put('[', n, Put(']', n, ""));
      if n <= 64 then ParseText(h, s) == Ok(NestedValue(n), "")
      else ParseText(h, s).Err? && ParseText(h, s).message == TooDeep
  {
    hide ParseText;
    NestedText(n, "");
    NestedMeaning(h, n);
    ParserReadsGrammar(h, "", Nested(n), "");
    assert "" + Emit(Nested(n), "") == Emit(Nested(n), "");
  }

  lemma {:induction false} NestedText(n: nat, rest: string)
    requires n > 0
    ensures Emit(Nested(n), rest) == Put('[', n, Put(']', n, rest))
  {
    if n == 1 {
      assert "" + ([']'] + rest) == [']'] + rest;
    } else {
      var items := [Item("", Nested(n - 1), "")];
      var close := [']'] + rest;
      NestedText(n - 1, close);
      LastClose(n - 1, rest);
      assert "" + close == close && "" + Emit(Nested(n - 1), close) == Emit(Nested(n - 1), close);
    }
  }

  lemma {:induction false} NestedMeaning(h: Host, n: nat)
    requires n > 0
    ensures GoodTree(h, Nested(n)) && Depth(Nested(n)) == n && Meaning(h, Nested(n)) == NestedValue(n)
  {
    if n > 1 {
      var items := [Item("", Nested(n - 1), "")];
      assert items[1..] == [];
      NestedMeaning(h, n - 1);
      assert ItemValues(h, items[1..]) == [] && ItemsDepth(items[1..]) == 0;
    }
  }

  lemma {:induction false} LastClose(n: nat, rest: string)
    ensures Put(']', n, [']'] + rest) == Put(']', n + 1, rest)
  {
    if n > 0 {
      LastClose(n - 1, rest);
    }
  }

  // ---- What is missing, and where ----

  lemma Unfinished(h: Host, a: string)
    requires Blank(a)
    ensures ParseText(h, a) == Err(UnexpectedEnd, 0)
    ensures ParseText(h, "[" + a) == Err(UnexpectedEnd, 0)
    ensures ParseText(h, "{" + a) == Err(ExpectedKey, 0)
  {
    SkipOver(a, "");
    assert a + "" == a && ("[" + a)[1..] == a && ("{" + a)[1..] == a;
    assert SkipSpaces("[" + a) == "[" + a && SkipSpaces("{" + a) == "{" + a;
    assert ParseValue(h, "", 1) == Err(UnexpectedEnd, 0);
    assert ParseItems(h, "", 1) == Err(UnexpectedEnd, 0) && ParsePairs(h, "", 1) == Err(ExpectedKey, 0);
    assert ParseValue(h, "[" + a, 0) == Err(UnexpectedEnd, 0);
    assert ParseValue(h, "{" + a, 0) == Err(ExpectedKey, 0);
  }
}
