/**
 * JSON texts as the rule loader accepts them: concrete syntax with every choice of white
 * space and escapes (sections 2 to 7 of RFC 8259, plus raw control characters in strings),
 * what a text means, and a parser as a function on the text still to be read.
 */
module JsonGrammar {
  import opened Basics

  /** A byte string; characters stand for bytes. Object members keep order and duplicates. */
  datatype Value =
    | Null | Bool(flag: bool) | Number(lexeme: string) | Str(text: string)
    | Arr(items: seq<Value>) | Obj(members: seq<Member>)

  datatype Member = Member(key: string, value: Value)

  /** What an unsigned 32-bit integer holds; four hexadecimal digits give one of the basic plane. */
  type Code = n: int | 0 <= n < 0x1_0000_0000
  type Basic = n: int | 0 <= n < 0x1_0000

  /** The library conversions the parser calls: does `stod` take all of a lexeme, what does `stoul` read. */
  datatype Host = Host(takesNumber: string -> bool, hex: string -> Option<Code>)

  const MAX_DEPTH := 64

  // ---- Characters ----

  predicate IsSpace(c: char) { c == ' ' || c == '\t' || c == '\n' || c == '\r' }

  predicate IsDigit(c: char) { '0' <= c <= '9' }

  predicate IsNumeric(c: char) {
    IsDigit(c) || c == '.' || c == 'e' || c == 'E' || c == '+' || c == '-'
  }

  ghost predicate Spaces(s: string) { forall i | 0 <= i < |s| :: IsSpace(s[i]) }

  /** The bytes written for a code; the first of three keeps only what fits into it. */
  function Utf8(code: Code): string {
    if code < 0x80 then [code as char]
    else if code < 0x800 then [(0xC0 + code / 0x40) as char, (0x80 + code % 0x40) as char]
    else [(0xE0 + code / 0x1000 % 0x20) as char, (0x80 + code / 0x40 % 0x40) as char, (0x80 + code % 0x40) as char]
  }

  /** What the letter after a backslash stands for. */
  function Unescape(c: char): Option<char> {
    if c == '"' || c == '\\' || c == '/' then Some(c)
    else if c == 'b' then Some(8 as char)
    else if c == 'f' then Some(12 as char)
    else if c == 'n' then Some('\n')
    else if c == 'r' then Some('\r')
    else if c == 't' then Some('\t')
    else None
  }

  // ---- Concrete syntax ----

  datatype Glyph = Raw(c: char) | Escaped(letter: char) | Unicode(digits: string)

  datatype Tree =
    | TNull | TBool(flag: bool) | TNumber(lexeme: string) | TString(glyphs: seq<Glyph>)
    | TArray(gap: string, items: seq<Item>) | TObject(gap: string, pairs: seq<Pair>)

  /** An element with the white space around it. */
  datatype Item = Item(before: string, tree: Tree, after: string)

  /** A member: white space, key, white space, colon, element. */
  datatype Pair = Pair(margin: string, key: seq<Glyph>, gap: string, item: Item)

  ghost predicate GoodGlyph(h: Host, g: Glyph) {
    match g
    case Raw(c) => c != '"' && c != '\\'
    case Escaped(l) => Unescape(l).Some?
    case Unicode(d) => |d| == 4 && h.hex(d).Some?
  }

  ghost predicate GoodGlyphs(h: Host, gs: seq<Glyph>) { forall i | 0 <= i < |gs| :: GoodGlyph(h, gs[i]) }

  ghost predicate GoodNumber(h: Host, lexeme: string) {
    && lexeme != "" && (lexeme[0] == '-' || IsDigit(lexeme[0]))
    && (forall i | 0 <= i < |lexeme| :: IsNumeric(lexeme[i]))
    && h.takesNumber(lexeme)
  }

  ghost predicate GoodTree(h: Host, t: Tree)
    decreases t, 1
  {
    match t
    case TNull => true
    case TBool(_) => true
    case TNumber(lexeme) => GoodNumber(h, lexeme)
    case TString(gs) => GoodGlyphs(h, gs)
    case TArray(gap, items) => Spaces(gap) && GoodItems(h, items)
    case TObject(gap, pairs) => Spaces(gap) && GoodPairs(h, pairs)
  }

  ghost predicate GoodItems(h: Host, items: seq<Item>)
    decreases items, 0
  {
    items == [] ||
    (&& Spaces(items[0].before) && GoodTree(h, items[0].tree) && Spaces(items[0].after)
     && GoodItems(h, items[1..]))
  }

  ghost predicate GoodPairs(h: Host, pairs: seq<Pair>)
    decreases pairs, 0
  {
    pairs == [] ||
    (&& Spaces(pairs[0].margin) && GoodGlyphs(h, pairs[0].key) && Spaces(pairs[0].gap)
     && Spaces(pairs[0].item.before) && GoodTree(h, pairs[0].item.tree) && Spaces(pairs[0].item.after)
     && GoodPairs(h, pairs[1..]))
  }

  // ---- The text of a tree, followed by whatever comes next ----

  function EmitGlyph(g: Glyph, rest: string): string {
    match g
    case Raw(c) => [c] + rest
    case Escaped(l) => ['\\', l] + rest
    case Unicode(d) => ['\\', 'u'] + (d + rest)
  }

  function EmitGlyphs(gs: seq<Glyph>, rest: string): string {
    if gs == [] then ['"'] + rest else EmitGlyph(gs[0], EmitGlyphs(gs[1..], rest))
  }

  function Emit(t: Tree, rest: string): string
    decreases t, 1
  {
    match t
    case TNull => "null" + rest
    case TBool(b) => (if b then "true" else "false") + rest
    case TNumber(lexeme) => lexeme + rest
    case TString(gs) => ['"'] + EmitGlyphs(gs, rest)
    case TArray(gap, items) => ['['] + if items == [] then gap + ([']'] + rest) else EmitItems(items, rest)
    case TObject(gap, pairs) => ['{'] + if pairs == [] then gap + (['}'] + rest) else EmitPairs(pairs, rest)
  }

  function EmitItems(items: seq<Item>, rest: string): string
    requires items != []
    decreases items, 0
  {
    var next := if |items| == 1 then [']'] + rest else [','] + EmitItems(items[1..], rest);
    items[0].before + Emit(items[0].tree, items[0].after + next)
  }

  function EmitPairs(pairs: seq<Pair>, rest: string): string
    requires pairs != []
    decreases pairs, 0
  {
    var p := pairs[0];
    var next := if |pairs| == 1 then ['}'] + rest else [','] + EmitPairs(pairs[1..], rest);
    p.margin + (['"'] + EmitGlyphs(p.key, p.gap + ([':'] + (p.item.before + Emit(p.item.tree, p.item.after + next)))))
  }

  // ---- Meaning ----

  ghost function GlyphText(h: Host, g: Glyph): string {
    match g
    case Raw(c) => [c]
    case Escaped(l) => if Unescape(l).Some? then [Unescape(l).value] else ""
    case Unicode(d) => if h.hex(d).Some? then Utf8(h.hex(d).value) else ""
  }

  ghost function GlyphsText(h: Host, gs: seq<Glyph>): string {
    if gs == [] then "" else GlyphText(h, gs[0]) + GlyphsText(h, gs[1..])
  }

  ghost function Meaning(h: Host, t: Tree): Value
    decreases t, 1
  {
    match t
    case TNull => Null
    case TBool(b) => Bool(b)
    case TNumber(lexeme) => Number(lexeme)
    case TString(gs) => Str(GlyphsText(h, gs))
    case TArray(_, items) => Arr(ItemValues(h, items))
    case TObject(_, pairs) => Obj(PairMembers(h, pairs))
  }

  ghost function ItemValues(h: Host, items: seq<Item>): seq<Value>
    decreases items, 0
  {
    if items == [] then [] else [Meaning(h, items[0].tree)] + ItemValues(h, items[1..])
  }

  ghost function PairMembers(h: Host, pairs: seq<Pair>): seq<Member>
    decreases pairs, 0
  {
    if pairs == [] then []
    else
      [Member(GlyphsText(h, pairs[0].key), Meaning(h, pairs[0].item.tree))] + PairMembers(h, pairs[1..])
  }

  /** How deep values nest, a scalar counting one. */
  ghost function Depth(t: Tree): nat
    decreases t, 1
  {
    match t
    case TArray(_, items) => 1 + ItemsDepth(items)
    case TObject(_, pairs) => 1 + PairsDepth(pairs)
    case _ => 1
  }

  ghost function ItemsDepth(items: seq<Item>): nat
    decreases items, 0
  {
    if items == [] then 0 else Max(Depth(items[0].tree), ItemsDepth(items[1..]))
  }

  ghost function PairsDepth(pairs: seq<Pair>): nat
    decreases pairs, 0
  {
    if pairs == [] then 0 else Max(Depth(pairs[0].item.tree), PairsDepth(pairs[1..]))
  }

  // ---- The parser as a function ----

  datatype Message =
    | UnexpectedEnd | TrailingCharacters | TooDeep | UnexpectedCharacter(c: char)
    | ExpectedKey | ExpectedColon | ExpectedCommaOrBrace | ExpectedCommaOrBracket
    | UnterminatedEscape | UnterminatedUnicode | BadUnicode(digits: string) | BadEscape(c: char)
    | UnterminatedString | BadNumber(lexeme: string) | BadBool | BadNull

  /** The rest of the text after a success; the length of what was unread at a failure. */
  datatype Result<T> = Ok(value: T, rest: string) | Err(message: Message, unread: nat)

  function SkipSpaces(s: string): (t: string)
    ensures |t| <= |s| && (t == "" || !IsSpace(t[0]))
  {
    if s != "" && IsSpace(s[0]) then SkipSpaces(s[1..]) else s
  }

  function NumericPrefix(s: string): (n: nat)
    ensures n <= |s|
  {
    if s != "" && IsNumeric(s[0]) then 1 + NumericPrefix(s[1..]) else 0
  }

  /** From just after the opening quote. */
  function ParseGlyphs(h: Host, s: string): (r: Result<string>)
    ensures r.Ok? ==> |r.rest| < |s|
    ensures r.Err? ==> r.unread <= |s|
    decreases |s|
  {
    if s == "" then Err(UnterminatedString, 0)
    else if s[0] == '"' then Ok("", s[1..])
    else if s[0] != '\\' then Prepend([s[0]], ParseGlyphs(h, s[1..]))
    else if |s| == 1 then Err(UnterminatedEscape, 0)
    else if s[1] == 'u' then
      if |s| < 6 then Err(UnterminatedUnicode, 0)
      else if h.hex(s[2..6]).None? then Err(BadUnicode(s[2..6]), |s| - 6)
      else Prepend(Utf8(h.hex(s[2..6]).value), ParseGlyphs(h, s[6..]))
    else if Unescape(s[1]).None? then Err(BadEscape(s[1]), |s| - 2)
    else Prepend([Unescape(s[1]).value], ParseGlyphs(h, s[2..]))
  }

  /** A result with something already collected in front of it. */
  function Prepend<T>(front: seq<T>, r: Result<seq<T>>): Result<seq<T>> {
    match r
    case Ok(v, rest) => Ok(front + v, rest)
    case Err(m, u) => Err(m, u)
  }

  predicate StartsWith(s: string, word: string) {
    |word| <= |s| && s[..|word|] == word
  }

  function ParseScalar(h: Host, s: string): (r: Result<Value>)
    requires s != ""
    ensures r.Ok? ==> |r.rest| < |s|
    ensures r.Err? ==> r.unread <= |s|
  {
    var c := s[0];
    if c == '"' then
      (match ParseGlyphs(h, s[1..])
       case Ok(text, rest) => Ok(Str(text), rest)
       case Err(m, u) => Err(m, u))
    else if c == 't' || c == 'f' then
      if StartsWith(s, "true") then Ok(Bool(true), s[4..])
      else if StartsWith(s, "false") then Ok(Bool(false), s[5..])
      else Err(BadBool, |s|)
    else if c == 'n' then
      if StartsWith(s, "null") then Ok(Null, s[4..]) else Err(BadNull, |s|)
    else if c == '-' || IsDigit(c) then
      var n := NumericPrefix(s);
      if h.takesNumber(s[..n]) then Ok(Number(s[..n]), s[n..]) else Err(BadNumber(s[..n]), |s| - n)
    else Err(UnexpectedCharacter(c), |s|)
  }

  /** `depth` counts the values already open around this one. */
  function ParseValue(h: Host, s: string, depth: nat): (r: Result<Value>)
    ensures r.Ok? ==> |r.rest| < |s|
    ensures r.Err? ==> r.unread <= |s|
    decreases |s|, 2
  {
    if depth + 1 > MAX_DEPTH then Err(TooDeep, |s|)
    else
      var t := SkipSpaces(s);
      if t == "" then Err(UnexpectedEnd, 0)
      else if t[0] == '{' then
        var u := SkipSpaces(t[1..]);
        if u != "" && u[0] == '}' then Ok(Obj([]), u[1..])
        else
          (match ParsePairs(h, u, depth + 1)
           case Ok(ms, rest) => Ok(Obj(ms), rest)
           case Err(m, n) => Err(m, n))
      else if t[0] == '[' then
        var u := SkipSpaces(t[1..]);
        if u != "" && u[0] == ']' then Ok(Arr([]), u[1..])
        else
          (match ParseItems(h, u, depth + 1)
           case Ok(vs, rest) => Ok(Arr(vs), rest)
           case Err(m, n) => Err(m, n))
      else ParseScalar(h, t)
  }

  /** Elements up to and including the closing bracket. */
  function ParseItems(h: Host, s: string, depth: nat): (r: Result<seq<Value>>)
    ensures r.Ok? ==> |r.rest| < |s|
    ensures r.Err? ==> r.unread <= |s|
    decreases |s|, 3
  {
    match ParseValue(h, s, depth)
    case Err(m, n) => Err(m, n)
    case Ok(v, rest) =>
      var t := SkipSpaces(rest);
      if t != "" && t[0] == ',' then
        (match ParseItems(h, t[1..], depth)
         case Ok(vs, rest') => Ok([v] + vs, rest')
         case Err(m, n) => Err(m, n))
      else if t != "" && t[0] == ']' then Ok([v], t[1..])
      else Err(ExpectedCommaOrBracket, |t|)
  }

  /** Members up to and including the closing brace. */
  function ParsePairs(h: Host, s: string, depth: nat): (r: Result<seq<Member>>)
    ensures r.Ok? ==> |r.rest| < |s|
    ensures r.Err? ==> r.unread <= |s|
    decreases |s|, 3
  {
    var u := SkipSpaces(s);
    if u == "" || u[0] != '"' then Err(ExpectedKey, |u|)
    else
      match ParseGlyphs(h, u[1..])
      case Err(m, n) => Err(m, n)
      case Ok(key, rest) =>
        var t := SkipSpaces(rest);
        if t == "" || t[0] != ':' then Err(ExpectedColon, |t|)
        else
          match ParseValue(h, t[1..], depth)
          case Err(m, n) => Err(m, n)
          case Ok(v, rest') =>
            var e := SkipSpaces(rest');
            if e != "" && e[0] == ',' then
              (match ParsePairs(h, e[1..], depth)
               case Ok(ms, rest'') => Ok([Member(key, v)] + ms, rest'')
               case Err(m, n) => Err(m, n))
            else if e != "" && e[0] == '}' then Ok([Member(key, v)], e[1..])
            else Err(ExpectedCommaOrBrace, |e|)
  }

  /** A whole document. */
  function ParseText(h: Host, s: string): Result<Value> {
    var t := SkipSpaces(s);
    if t == "" then Err(UnexpectedEnd, 0)
    else
      match ParseValue(h, t, 0)
      case Err(m, n) => Err(m, n)
      case Ok(v, rest) =>
        var e := SkipSpaces(rest);
        if e != "" then Err(TrailingCharacters, |e|) else Ok(v, "")
  }
}
