/**
 * The parser as the rule loader runs it: a cursor, a nesting counter and an error that
 * keeps its first value. Every method is proved to answer what the function on the unread
 * text answers, to move the cursor exactly past what was read, and to restore the counter.
 */
module JsonParser {
  import opened Basics
  import opened JsonGrammar

  /** The first thing that went wrong, and the offset the cursor had then. */
  datatype Failure = Failure(message: Message, offset: nat)

  /** The state a call must leave, given the answer on the text unread before it. */
  ghost predicate Follows<T>(r: Result<T>, src: string, ok: bool, value: T, pos: nat,
                             before: Option<Failure>, after: Option<Failure>) {
    && pos <= |src| && ok == r.Ok?
    && (r.Ok? ==> value == r.value && src[pos..] == r.rest && after == before)
    && (r.Err? ==> pos == |src| - r.unread && after == First(before, Failure(r.message, pos)))
  }

  /** An error already set is kept. */
  function First(error: Option<Failure>, f: Failure): Option<Failure> {
    if error.Some? then error else Some(f)
  }

  /** The part of reading a member that ends with its colon. */
  ghost function KeyAnswer(h: Host, s: string): (r: Result<string>)
    ensures r.Ok? ==> |r.rest| < |s|
  {
    var u := SkipSpaces(s);
    if u == "" || u[0] != '"' then Err(ExpectedKey, |u|)
    else
      match ParseGlyphs(h, u[1..])
      case Err(m, n) => Err(m, n)
      case Ok(key, rest) =>
        var t := SkipSpaces(rest);
        if t == "" || t[0] != ':' then Err(ExpectedColon, |t|) else Ok(key, t[1..])
  }

  lemma TakeOne(src: string, pos: nat)
    requires pos < |src|
    ensures src[pos..][0] == src[pos] && src[pos..][1..] == src[pos + 1..]
  {
  }

  /** What follows in a string, unless it is an escape. */
  lemma GlyphsAhead(h: Host, s: string)
    ensures s == "" ==> ParseGlyphs(h, s) == Err(UnterminatedString, 0)
    ensures s != "" && s[0] == '"' ==> ParseGlyphs(h, s) == Ok("", s[1..])
    ensures s != "" && s[0] != '"' && s[0] != '\\' ==> ParseGlyphs(h, s) == Prepend([s[0]], ParseGlyphs(h, s[1..]))
  {
  }

  lemma EscapeAhead(src: string, pos: nat)
    requires pos <= |src|
    ensures pos + 6 <= |src| ==> src[pos..][2..6] == src[pos + 2..pos + 6] && src[pos..][6..] == src[pos + 6..]
  {
  }

  lemma NumberAhead(h: Host, src: string, start: nat, pos: nat)
    requires start < pos <= |src| && (src[start] == '-' || IsDigit(src[start]))
    requires NumericPrefix(src[start..]) == pos - start
    ensures ParseScalar(h, src[start..]) ==
      (var num := src[start..pos];
       if h.takesNumber(num) then Ok(Number(num), src[pos..]) else Err(BadNumber(num), |src| - pos))
  {
    var s := src[start..];
    assert s[..pos - start] == src[start..pos] && s[pos - start..] == src[pos..];
  }

  lemma PrependNothing<T>(r: Result<seq<T>>)
    ensures Prepend([], r) == r
  {
    if r.Ok? {
      assert [] + r.value == r.value;
    }
  }

  lemma PrependTwice<T>(a: seq<T>, b: seq<T>, r: Result<seq<T>>)
    ensures Prepend(a, Prepend(b, r)) == Prepend(a + b, r)
  {
    if r.Ok? {
      assert a + (b + r.value) == (a + b) + r.value;
    }
  }

  class Parser {
    const src: string
    const host: Host
    var pos: nat
    var error: Option<Failure>
    var depth: int

    ghost predicate Valid()
      reads this
    {
      pos <= |src| && 0 <= depth
    }

    constructor (src: string, host: Host)
      ensures Valid() && this.src == src && this.host == host && pos == 0 && depth == 0 && error == None
    {
      this.src, this.host, pos, depth, error := src, host, 0, 0, None;
    }

    function Unread(): string
      requires Valid()
      reads this
    {
      src[pos..]
    }

    predicate Peek(c: char)
      requires Valid()
      reads this
    {
      pos < |src| && src[pos] == c
    }

    method Fail(m: Message)
      requires Valid()
      modifies `error
      ensures error == First(old(error), Failure(m, pos))
      ensures error == if old(error) == None then Some(Failure(m, pos)) else old(error)
    {
      if error == None {
        error := Some(Failure(m, pos));
      }
    }

    method SkipWhitespace()
      requires Valid()
      modifies `pos
      ensures Valid() && old(pos) <= pos && Unread() == SkipSpaces(old(Unread()))
      ensures forall i | old(pos) <= i < pos :: src[i] == ' ' || src[i] == '\t' || src[i] == '\n' || src[i] == '\r'
      ensures pos < |src| ==> src[pos] != ' ' && src[pos] != '\t' && src[pos] != '\n' && src[pos] != '\r'
    {
      while pos < |src| && IsSpace(src[pos])
        invariant old(pos) <= pos <= |src| && SkipSpaces(Unread()) == SkipSpaces(old(Unread()))
        invariant forall i | old(pos) <= i < pos :: IsSpace(src[i])
      {
        TakeOne(src, pos);
        pos := pos + 1;
      }
    }

    /** A whole document; on success everything has been read. */
    method Parse() returns (ok: bool, out: Value)
      requires Valid() && depth == 0
      modifies this
      ensures Valid() && old(pos) <= pos && depth == 0
      ensures Follows(ParseText(host, old(Unread())), src, ok, out, pos, old(error), error)
    {
      out := Null;
      SkipWhitespace();
      if pos == |src| {
        Fail(UnexpectedEnd);
        return false, out;
      }
      ok, out := ParseValue();
      if !ok {
        return;
      }
      SkipWhitespace();
      if pos < |src| {
        Fail(TrailingCharacters);
        ok := false;
      }
    }

    method ParseValue() returns (ok: bool, out: Value)
      requires Valid()
      modifies this
      ensures Valid() && old(pos) <= pos && depth == old(depth)
      ensures Follows(JsonGrammar.ParseValue(host, old(Unread()), old(depth)), src, ok, out, pos, old(error), error)
      decreases |src| - pos, 3
    {
      depth := depth + 1;
      ok, out := ParseGuarded();
      depth := depth - 1;
    }

    /** The body of the call while its depth is counted. */
    method ParseGuarded() returns (ok: bool, out: Value)
      requires Valid() && depth >= 1
      modifies this
      ensures Valid() && old(pos) <= pos && depth == old(depth)
      ensures Follows(JsonGrammar.ParseValue(host, old(Unread()), old(depth) - 1), src, ok, out, pos, old(error), error)
      decreases |src| - pos, 2
    {
      out := Null;
      if depth > MAX_DEPTH {
        Fail(TooDeep);
        return false, out;
      }
      SkipWhitespace();
      if pos == |src| {
        Fail(UnexpectedEnd);
        return false, out;
      }
      if Peek('{') {
        ok, out := ParseObject();
      } else if Peek('[') {
        ok, out := ParseArray();
      } else {
        ok, out := ParseLeaf();
      }
    }

    /** What an opening brace or bracket leads to, from the functions' point of view. */
    ghost function FromBrace(s: string, d: nat): Result<Value>
      requires s != ""
    {
      var u := SkipSpaces(s[1..]);
      if u != "" && u[0] == '}' then Ok(Obj([]), u[1..])
      else
        match ParsePairs(host, u, d)
        case Ok(ms, rest) => Ok(Obj(ms), rest)
        case Err(m, n) => Err(m, n)
    }

    ghost function FromBracket(s: string, d: nat): Result<Value>
      requires s != ""
    {
      var u := SkipSpaces(s[1..]);
      if u != "" && u[0] == ']' then Ok(Arr([]), u[1..])
      else
        match ParseItems(host, u, d)
        case Ok(vs, rest) => Ok(Arr(vs), rest)
        case Err(m, n) => Err(m, n)
    }

    method ParseObject() returns (ok: bool, out: Value)
      requires Valid() && Peek('{')
      modifies this
      ensures Valid() && old(pos) <= pos && depth == old(depth)
      ensures Follows(FromBrace(old(Unread()), old(depth)), src, ok, out, pos, old(error), error)
      decreases |src| - pos, 1
    {
      hide JsonGrammar.ParseValue, ParseGlyphs;
      out := Obj([]);
      TakeOne(src, pos);
      pos := pos + 1;
      SkipWhitespace();
      if Peek('}') {
        TakeOne(src, pos);
        pos := pos + 1;
        return true, out;
      }
      ghost var start := Unread();
      var members: seq<Member> := [];
      PrependNothing(ParsePairs(host, start, depth));
      while true
        invariant Valid() && old(pos) < pos && depth == old(depth) && error == old(error)
        invariant ParsePairs(host, start, depth) == Prepend(members, ParsePairs(host, Unread(), depth))
        decreases |src| - pos
      {
        var member, more;
        ok, more, member := ParseMember();
        if !ok {
          return;
        }
        PrependTwice(members, [member], ParsePairs(host, Unread(), depth));
        members := members + [member];
        if !more {
          return true, Obj(members);
        }
      }
    }

    /** One member and the comma or brace after it: the body of the loop over members. */
    method ParseMember() returns (ok: bool, more: bool, member: Member)
      requires Valid()
      modifies this
      ensures Valid() && old(pos) <= pos && depth == old(depth)
      ensures var r := ParsePairs(host, old(Unread()), old(depth));
        if !ok then r.Err? && pos == |src| - r.unread && error == First(old(error), Failure(r.message, pos))
        else
          && old(pos) < pos && error == old(error)
          && r == if more then Prepend([member], ParsePairs(host, Unread(), depth)) else Ok([member], Unread())
      decreases |src| - pos, 4
    {
      hide JsonGrammar.ParseValue, ParseGlyphs, SkipSpaces;
      member, more := Member("", Null), false;
      var key, value;
      ok, key := ParseKey();
      if !ok {
        return;
      }
      ok, value := ParseValue();
      if !ok {
        return;
      }
      member := Member(key, value);
      SkipWhitespace();
      more := Peek(',');
      if more || Peek('}') {
        TakeOne(src, pos);
        pos := pos + 1;
        return;
      }
      Fail(ExpectedCommaOrBrace);
      ok := false;
    }

    /** A key and the colon after it. */
    method ParseKey() returns (ok: bool, key: string)
      requires Valid()
      modifies `pos, `error
      ensures Valid() && old(pos) <= pos
      ensures Follows(KeyAnswer(host, old(Unread())), src, ok, key, pos, old(error), error)
    {
      hide ParseGlyphs, SkipSpaces;
      key := "";
      SkipWhitespace();
      if !Peek('"') {
        Fail(ExpectedKey);
        return false, key;
      }
      ok, key := ParseString();
      if !ok {
        return;
      }
      SkipWhitespace();
      if !Peek(':') {
        Fail(ExpectedColon);
        return false, key;
      }
      TakeOne(src, pos);
      pos := pos + 1;
    }

    method ParseArray() returns (ok: bool, out: Value)
      requires Valid() && Peek('[')
      modifies this
      ensures Valid() && old(pos) <= pos && depth == old(depth)
      ensures Follows(FromBracket(old(Unread()), old(depth)), src, ok, out, pos, old(error), error)
      decreases |src| - pos, 1
    {
      hide JsonGrammar.ParseValue;
      out := Arr([]);
      TakeOne(src, pos);
      pos := pos + 1;
      SkipWhitespace();
      if Peek(']') {
        TakeOne(src, pos);
        pos := pos + 1;
        return true, out;
      }
      ghost var start := Unread();
      var items: seq<Value> := [];
      PrependNothing(ParseItems(host, start, depth));
      while true
        invariant Valid() && old(pos) < pos && depth == old(depth) && error == old(error)
        invariant ParseItems(host, start, depth) == Prepend(items, ParseItems(host, Unread(), depth))
        decreases |src| - pos
      {
        var item, more;
        ok, more, item := ParseElement();
        if !ok {
          return;
        }
        PrependTwice(items, [item], ParseItems(host, Unread(), depth));
        items := items + [item];
        if !more {
          return true, Arr(items);
        }
      }
    }

    /** One element and the comma or bracket after it: the body of the loop over elements. */
    method ParseElement() returns (ok: bool, more: bool, item: Value)
      requires Valid()
      modifies this
      ensures Valid() && old(pos) <= pos && depth == old(depth)
      ensures var r := ParseItems(host, old(Unread()), old(depth));
        if !ok then r.Err? && pos == |src| - r.unread && error == First(old(error), Failure(r.message, pos))
        else
          && old(pos) < pos && error == old(error)
          && r == if more then Prepend([item], ParseItems(host, Unread(), depth)) else Ok([item], Unread())
      decreases |src| - pos, 4
    {
      hide JsonGrammar.ParseValue;
      more := false;
      ok, item := ParseValue();
      if !ok {
        return;
      }
      SkipWhitespace();
      more := Peek(',');
      if more || Peek(']') {
        TakeOne(src, pos);
        pos := pos + 1;
        return;
      }
      Fail(ExpectedCommaOrBracket);
      ok := false;
    }

    /** Strings, literals and numbers. */
    method ParseLeaf() returns (ok: bool, out: Value)
      requires Valid() && pos < |src| && !Peek('{') && !Peek('[')
      modifies this
      ensures Valid() && old(pos) <= pos && depth == old(depth)
      ensures Follows(ParseScalar(host, old(Unread())), src, ok, out, pos, old(error), error)
    {
      var c := src[pos];
      if c == '"' {
        var text;
        ok, text := ParseString();
        out := Str(text);
      } else if c == 't' || c == 'f' {
        ok, out := ParseBool();
      } else if c == 'n' {
        ok, out := ParseNull();
      } else if c == '-' || IsDigit(c) {
        ok, out := ParseNumber();
      } else {
        Fail(UnexpectedCharacter(c));
        ok, out := false, Null;
      }
    }

    method ParseString() returns (ok: bool, text: string)
      requires Valid() && Peek('"')
      modifies `pos, `error
      ensures Valid() && old(pos) < pos
      ensures Follows(ParseGlyphs(host, old(Unread())[1..]), src, ok, text, pos, old(error), error)
    {
      hide ParseGlyphs;
      TakeOne(src, pos);
      pos := pos + 1;
      text := "";
      ghost var start := Unread();
      PrependNothing(ParseGlyphs(host, start));
      while pos < |src|
        invariant old(pos) < pos <= |src| && error == old(error)
        invariant ParseGlyphs(host, start) == Prepend(text, ParseGlyphs(host, Unread()))
      {
        var c := src[pos];
        TakeOne(src, pos);
        GlyphsAhead(host, Unread());
        if c == '"' {
          pos := pos + 1;
          assert text + "" == text;
          return true, text;
        }
        if c == '\\' {
          var bytes;
          ok, bytes := ParseEscape();
          if !ok {
            return;
          }
          PrependTwice(text, bytes, ParseGlyphs(host, Unread()));
          text := text + bytes;
        } else {
          PrependTwice(text, [c], ParseGlyphs(host, Unread()[1..]));
          text := text + [c];
          pos := pos + 1;
        }
      }
      GlyphsAhead(host, Unread());
      Fail(UnterminatedString);
      ok := false;
    }

    /** An escape: the bytes it stands for. */
    method ParseEscape() returns (ok: bool, bytes: string)
      requires Valid() && Peek('\\')
      modifies `pos, `error
      ensures Valid() && old(pos) < pos
      ensures var r := ParseGlyphs(host, old(Unread()));
        if ok then error == old(error) && r == Prepend(bytes, ParseGlyphs(host, Unread()))
        else r.Err? && pos == |src| - r.unread && error == First(old(error), Failure(r.message, pos))
    {
      bytes := "";
      pos := pos + 1;
      if pos == |src| {
        Fail(UnterminatedEscape);
        return false, bytes;
      }
      var esc := src[pos];
      pos := pos + 1;
      if esc == 'u' {
        ok, bytes := ParseUnicode();
        EscapeAhead(src, old(pos));
      } else if Unescape(esc).Some? {
        ok, bytes := true, [Unescape(esc).value];
        TakeOne(src, old(pos));
        TakeOne(src, old(pos) + 1);
      } else {
        Fail(BadEscape(esc));
        ok := false;
      }
    }

    /** The four digits after `\u`, and the bytes of the code point they name. */
    method ParseUnicode() returns (ok: bool, bytes: string)
      requires Valid()
      modifies `pos, `error
      ensures Valid() && old(pos) <= pos
      ensures |src| - old(pos) < 4 ==>
          !ok && pos == |src| && error == First(old(error), Failure(UnterminatedUnicode, pos))
      ensures |src| - old(pos) >= 4 ==> pos == old(pos) + 4
      ensures |src| - old(pos) >= 4 ==> var code := host.hex(src[old(pos)..pos]);
          && ok == code.Some?
          && (ok ==> bytes == Utf8(code.value) && error == old(error))
          && (!ok ==> error == First(old(error), Failure(BadUnicode(src[old(pos)..pos]), pos)))
    {
      bytes := "";
      var digits := "";
      for i := 0 to 4
        invariant pos == old(pos) + i <= |src| && digits == src[old(pos)..pos] && error == old(error)
      {
        if pos == |src| {
          Fail(UnterminatedUnicode);
          return false, bytes;
        }
        digits := digits + [src[pos]];
        pos := pos + 1;
      }
      var code := host.hex(digits);
      if code == None {
        Fail(BadUnicode(digits));
        return false, bytes;
      }
      return true, Utf8(code.value);
    }

    method ParseNumber() returns (ok: bool, out: Value)
      requires Valid() && pos < |src| && (src[pos] == '-' || IsDigit(src[pos]))
      modifies `pos, `error
      ensures Valid() && old(pos) <= pos
      ensures Follows(ParseScalar(host, old(Unread())), src, ok, out, pos, old(error), error)
    {
      var start := pos;
      if Peek('-') {
        pos := pos + 1;
        TakeOne(src, start);
      }
      while pos < |src| && IsNumeric(src[pos])
        invariant start <= pos <= |src| && error == old(error)
        invariant NumericPrefix(old(Unread())) == pos - start + NumericPrefix(Unread())
      {
        TakeOne(src, pos);
        pos := pos + 1;
      }
      assert NumericPrefix(Unread()) == 0;
      var num := src[start..pos];
      NumberAhead(host, src, start, pos);
      out := Number(num);
      ok := host.takesNumber(num);
      if !ok {
        Fail(BadNumber(num));
      }
    }

    method ParseBool() returns (ok: bool, out: Value)
      requires Valid() && (Peek('t') || Peek('f'))
      modifies `pos, `error
      ensures Valid() && old(pos) <= pos
      ensures Follows(ParseScalar(host, old(Unread())), src, ok, out, pos, old(error), error)
    {
      ok, out := true, Bool(true);
      if StartsWith(src[pos..], "true") {
        pos := pos + 4;
      } else if StartsWith(src[pos..], "false") {
        pos := pos + 5;
        out := Bool(false);
      } else {
        Fail(BadBool);
        ok := false;
      }
    }

    method ParseNull() returns (ok: bool, out: Value)
      requires Valid() && Peek('n')
      modifies `pos, `error
      ensures Valid() && old(pos) <= pos
      ensures Follows(ParseScalar(host, old(Unread())), src, ok, out, pos, old(error), error)
    {
      ok, out := StartsWith(src[pos..], "null"), Null;
      if ok {
        pos := pos + 4;
      } else {
        Fail(BadNull);
      }
    }
  }
}
