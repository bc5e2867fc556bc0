/** JSON string literals: how the engine writes them and how its two passes read them. */
module StringLiteral {
  import opened Text
  import opened Utf8

  // ----- Writing -----

  function HexDigit(d: nat): char
    requires d < 16
  {
    (if d < 10 then d + 48 else d + 87) as char
  }

  /** The letter of a two-character escape, for the control characters that have one. */
  function ShortEscape(c: char): Option<char> {
    if c == '"' || c == '\\' then Some(c)
    else if c == '\U{8}' then Some('b')
    else if c == '\U{c}' then Some('f')
    else if c == '\n' then Some('n')
    else if c == '\r' then Some('r')
    else if c == '\t' then Some('t')
    else None
  }

  /** What print_string_ptr writes for one character. */
  function EscapeChar(c: char): (r: string)
    ensures r != ""
    ensures c != '\0' ==> NulFree(r)
  {
    if ShortEscape(c).Some? then ['\\', ShortEscape(c).value]
    else if c < ' ' then "\\u00" + [HexDigit(c as int / 16), HexDigit(c as int % 16)]
    else [c]
  }

  function Escape(s: string): (r: string)
    ensures NulFree(s) ==> NulFree(r)
  {
    if s == "" then "" else EscapeChar(s[0]) + Escape(s[1..])
  }

  function Quote(s: string): (r: string)
    ensures |r| >= 2 && r[0] == '"'
    ensures NulFree(s) ==> NulFree(r)
  {
    "\"" + Escape(s) + "\""
  }

  // ----- Reading -----

  /** First pass: from behind the opening quote, the distance to the closing one.  A backslash hides
      whatever follows it. */
  function BodyLength(t: string): (r: Option<nat>)
    ensures r.Some? ==> r.value < |t| && t[r.value] == '"'
  {
    if t == "" then None
    else if t[0] == '"' then Some(0)
    else
      var step := if t[0] == '\\' then 2 else 1;
      if |t| < step then None
      else
        var rest := BodyLength(t[step..]);
        if rest.None? then None else Some(step + rest.value)
  }

  function Unshort(e: char): Option<char> {
    if e == '"' || e == '\\' || e == '/' then Some(e)
    else if e == 'b' then Some('\U{8}')
    else if e == 'f' then Some('\U{c}')
    else if e == 'n' then Some('\n')
    else if e == 'r' then Some('\r')
    else if e == 't' then Some('\t')
    else None
  }

  /** Second pass over what is left of the body.  A backslash that ends the body (the two passes can
      disagree about pairing) takes the closing quote as its partner. */
  function Unescape(t: string): Option<string>
    decreases |t|
  {
    if t == "" then Some("")
    else if t[0] != '\\' then Prepend(t[..1], Unescape(t[1..]))
    else
      var e := if |t| > 1 then t[1] else '"';
      if e == 'u' then
        var u := Utf16Literal(t);
        if u.Utf16Fail? then None else Prepend(u.bytes, Unescape(t[u.consumed..]))
      else if Unshort(e).None? then None
      else Prepend([Unshort(e).value], Unescape(if |t| > 1 then t[2..] else ""))
  }

  function Prepend(s: string, r: Option<string>): Option<string> {
    if r.None? then None else Some(s + r.value)
  }

  /** parse_string: the characters between the quotes, unescaped and read back as a C string, and the
      text after the closing quote. */
  function ReadString(t: string): (r: Option<(string, string)>)
    ensures r.Some? ==> |r.value.1| + 2 <= |t|
    ensures r.Some? ==> NulFree(r.value.0)
  {
    if t == "" || t[0] != '"' then None
    else
      var body := BodyLength(t[1..]);
      if body.None? then None
      else
        var text := Unescape(t[1..][..body.value]);
        if text.None? then None else Some((CString(text.value), t[body.value + 2..]))
  }

  // ----- The reference: section 7 of RFC 8259 -----

  /** A unit of a string literal: an unescaped character, a two-character escape, a \u escape, or a
      surrogate pair written as two \u escapes. */
  datatype Unit =
    | Plain(c: char)
    | Short(letter: char)
    | Code(h: string)
    | Pair(hi: string, lo: string)
  {
    predicate Valid() {
      match this
      case Plain(c) => c != '"' && c != '\\'
      case Short(l) => Unshort(l).Some?
      case Code(h) => IsHex4(h) && IsScalar(Hex4(h))
      case Pair(hi, lo) => IsHex4(hi) && IsHex4(lo) && IsHighSurrogate(Hex4(hi)) && IsLowSurrogate(Hex4(lo))
    }

    function Spelling(): (s: string)
      requires Valid()
      ensures s != ""
    {
      match this
      case Plain(c) => [c]
      case Short(l) => ['\\', l]
      case Code(h) => "\\u" + h
      case Pair(hi, lo) => "\\u" + hi + "\\u" + lo
    }

    /** The bytes the unit stands for. */
    function Meaning(): string
      requires Valid()
    {
      match this
      case Plain(c) => [c]
      case Short(l) => [Unshort(l).value]
      case Code(h) => EncodeUtf8(Hex4(h))
      case Pair(hi, lo) => EncodeUtf8(FromSurrogates(Hex4(hi), Hex4(lo)))
    }
  }

  predicate AllValid(us: seq<Unit>) {
    forall i :: 0 <= i < |us| ==> us[i].Valid()
  }

  function Spell(us: seq<Unit>): string
    requires AllValid(us)
  {
    if us == [] then "" else us[0].Spelling() + Spell(us[1..])
  }

  function Denote(us: seq<Unit>): string
    requires AllValid(us)
  {
    if us == [] then "" else us[0].Meaning() + Denote(us[1..])
  }

  lemma PlainStep(c: char, t: string)
    requires c != '"' && c != '\\'
    ensures BodyLength([c] + t) == if BodyLength(t).None? then None else Some(1 + BodyLength(t).value)
  {
    assert ([c] + t)[1..] == t;
  }

  lemma HexIsPlain(h: string, t: string)
    requires IsHex4(h)
    ensures BodyLength(h + t) == if BodyLength(t).None? then None else Some(4 + BodyLength(t).value)
  {
    hide BodyLength;
    var t3 := [h[3]] + t;
    var t2 := [h[2]] + t3;
    var t1 := [h[1]] + t2;
    assert h + t == [h[0]] + t1;
    PlainStep(h[3], t);
    PlainStep(h[2], t3);
    PlainStep(h[1], t2);
    PlainStep(h[0], t1);
  }

  lemma EscapeIsPair(e: char, t: string)
    ensures BodyLength(['\\', e] + t) == if BodyLength(t).None? then None else Some(2 + BodyLength(t).value)
  {
    assert (['\\', e] + t)[2..] == t;
  }

  lemma CodeBodyLength(h: string, t: string)
    requires IsHex4(h)
    ensures |h| == 4
    ensures BodyLength("\\u" + (h + t)) == if BodyLength(t).None? then None else Some(6 + BodyLength(t).value)
  {
    EscapeIsPair('u', h + t);
    HexIsPlain(h, t);
  }

  lemma PairBodyLength(hi: string, lo: string, t: string)
    requires IsHex4(hi) && IsHex4(lo)
    ensures |hi| == |lo| == 4
    ensures BodyLength("\\u" + hi + "\\u" + lo + t)
         == if BodyLength(t).None? then None else Some(12 + BodyLength(t).value)
  {
    hide BodyLength;
    var t1 := "\\u" + (lo + t);
    assert "\\u" + hi + "\\u" + lo + t == "\\u" + (hi + t1);
    CodeBodyLength(lo, t);
    CodeBodyLength(hi, t1);
  }

  lemma UnitBodyLength(u: Unit, t: string)
    requires u.Valid()
    ensures BodyLength(u.Spelling() + t)
         == if BodyLength(t).None? then None else Some(|u.Spelling()| + BodyLength(t).value)
  {
    hide BodyLength, IsHex4, Hex4, Unshort;
    match u
    case Plain(c) =>
      PlainStep(c, t);
    case Short(l) =>
      EscapeIsPair(l, t);
    case Code(h) =>
      assert u.Spelling() + t == "\\u" + (h + t);
      CodeBodyLength(h, t);
    case Pair(hi, lo) =>
      PairBodyLength(hi, lo, t);
  }

  lemma PlainUnescape(c: char, t: string)
    requires c != '\\'
    ensures Unescape([c] + t) == Prepend([c], Unescape(t))
  {
    assert ([c] + t)[..1] == [c] && ([c] + t)[1..] == t;
  }

  lemma ShortUnescape(l: char, t: string)
    requires Unshort(l).Some?
    ensures Unescape(['\\', l] + t) == Prepend([Unshort(l).value], Unescape(t))
  {
    assert (['\\', l] + t)[2..] == t;
  }

  lemma CodeUnescape(h: string, t: string)
    requires IsHex4(h) && IsScalar(Hex4(h))
    ensures Unescape("\\u" + h + t) == Prepend(EncodeUtf8(Hex4(h)), Unescape(t))
  {
    hide Hex4, EncodeUtf8;
    var s := "\\u" + h + t;
    assert s[2..6] == h && s[6..] == t;
  }

  lemma PairUnescape(hi: string, lo: string, t: string)
    requires IsHex4(hi) && IsHex4(lo) && IsHighSurrogate(Hex4(hi)) && IsLowSurrogate(Hex4(lo))
    ensures Unescape("\\u" + hi + "\\u" + lo + t)
         == Prepend(EncodeUtf8(FromSurrogates(Hex4(hi), Hex4(lo))), Unescape(t))
  {
    hide Hex4, EncodeUtf8;
    var s := "\\u" + hi + "\\u" + lo + t;
    assert s[2..6] == hi && s[8..12] == lo && s[12..] == t;
  }

  lemma UnitUnescape(u: Unit, t: string)
    requires u.Valid()
    ensures Unescape(u.Spelling() + t) == Prepend(u.Meaning(), Unescape(t))
  {
    hide Unescape, IsHex4, Hex4, EncodeUtf8, FromSurrogates;
    match u
    case Plain(c) =>
      PlainUnescape(c, t);
    case Short(l) =>
      ShortUnescape(l, t);
    case Code(h) =>
      CodeUnescape(h, t);
    case Pair(hi, lo) =>
      PairUnescape(hi, lo, t);
  }

  lemma EmptyBody(rest: string)
    ensures BodyLength("\"" + rest) == Some(0)
  {
  }

  lemma {:induction false} SpellBodyLength(us: seq<Unit>, rest: string)
    requires AllValid(us)
    ensures BodyLength(Spell(us) + "\"" + rest) == Some(|Spell(us)|)
  {
    hide BodyLength, Unit.Spelling, Unit.Valid;
    if us == [] {
      assert Spell(us) + "\"" + rest == "\"" + rest;
      EmptyBody(rest);
    } else {
      SpellBodyLength(us[1..], rest);
      UnitBodyLength(us[0], Spell(us[1..]) + "\"" + rest);
      assert Spell(us) + "\"" + rest == us[0].Spelling() + (Spell(us[1..]) + "\"" + rest);
    }
  }

  lemma {:induction false} SpellUnescape(us: seq<Unit>)
    requires AllValid(us)
    ensures Unescape(Spell(us)) == Some(Denote(us))
  {
    if us != [] {
      SpellUnescape(us[1..]);
      UnitUnescape(us[0], Spell(us[1..]));
    }
  }

  /** Every literal of section 7 of RFC 8259 is read as what it denotes (cut at an escaped NUL, where
      the C string ends), and reading stops right behind its closing quote. */
  lemma ReadStringMeaning(us: seq<Unit>, rest: string)
    requires AllValid(us)
    ensures ReadString("\"" + Spell(us) + "\"" + rest) == Some((CString(Denote(us)), rest))
  {
    SpellBodyLength(us, rest);
    SpellUnescape(us);
    ReadBody(Spell(us), rest);
  }

  lemma ReadBody(body: string, rest: string)
    requires BodyLength(body + "\"" + rest) == Some(|body|)
    ensures ReadString("\"" + body + "\"" + rest)
         == if Unescape(body).None? then None else Some((CString(Unescape(body).value), rest))
  {
    hide BodyLength, Unescape, CString;
    var t := "\"" + body + "\"" + rest;
    assert t[1..] == body + "\"" + rest;
    assert t[1..][..|body|] == body;
    assert t[|body| + 2..] == rest;
  }

  // ----- What the engine writes, it reads -----

  /** The unit print_string_ptr picks for a character. */
  function UnitOf(c: char): (u: Unit)
    ensures u.Valid()
    ensures u.Spelling() == EscapeChar(c)
    ensures u.Meaning() == [c]
  {
    if ShortEscape(c).Some? then Short(ShortEscape(c).value)
    else if c < ' ' then
      var h := "00" + [HexDigit(c as int / 16), HexDigit(c as int % 16)];
      ControlHex(c);
      assert "\\u" + h == EscapeChar(c);
      Code(h)
    else Plain(c)
  }

  lemma ControlHex(c: char)
    requires c < ' '
    ensures var h := "00" + [HexDigit(c as int / 16), HexDigit(c as int % 16)];
            IsHex4(h) && Hex4(h) == c as int && EncodeUtf8(c as int) == [c]
  {
    var v := c as int;
    assert 0 <= v / 16 < 2;
    assert EncodeUtf8(v) == [(v % 0x100) as char];
  }

  function UnitsOf(s: string): (us: seq<Unit>)
    ensures AllValid(us)
    ensures Spell(us) == Escape(s) && Denote(us) == s
  {
    if s == "" then []
    else
      var us := [UnitOf(s[0])] + UnitsOf(s[1..]);
      assert us[1..] == UnitsOf(s[1..]);
      us
  }

  /** Writing a C string and reading it back gives the same string. */
  lemma ReadQuote(s: string, rest: string)
    requires NulFree(s)
    ensures ReadString(Quote(s) + rest) == Some((s, rest))
  {
    ReadStringMeaning(UnitsOf(s), rest);
  }

  lemma SurrogateFails(h: string, rest: string)
    requires IsHex4(h) && !IsScalar(Hex4(h))
    requires IsHighSurrogate(Hex4(h)) ==> !("\\u" <= rest && |rest| >= 6 && IsLowSurrogate(Hex4(rest[2..6])))
    ensures Unescape("\\u" + h + rest) == None
  {
    hide Hex4, EncodeUtf8, DecodeUtf8, FromSurrogates;
    Utf16LiteralMeaning(h, rest);
  }

  /** A literal with a surrogate out of place is refused as a whole: no part of it is kept. */
  lemma LoneSurrogateRefused(us: seq<Unit>, h: string, rest: string)
    requires AllValid(us) && IsHex4(h) && !IsScalar(Hex4(h))
    requires IsHighSurrogate(Hex4(h)) ==> !("\\u" <= rest && |rest| >= 6 && IsLowSurrogate(Hex4(rest[2..6])))
    ensures Unescape(Spell(us) + "\\u" + h + rest) == None
    decreases |us|
  {
    hide Unescape, Unit.Spelling, Unit.Valid, Unit.Meaning, Hex4, IsHex4;
    if us == [] {
      SurrogateFails(h, rest);
      assert Spell(us) + "\\u" + h + rest == "\\u" + h + rest;
    } else {
      LoneSurrogateRefused(us[1..], h, rest);
      UnitUnescape(us[0], Spell(us[1..]) + "\\u" + h + rest);
      assert Spell(us) + "\\u" + h + rest == us[0].Spelling() + (Spell(us[1..]) + "\\u" + h + rest);
    }
  }

  /** The escapes of section 7 of RFC 8259, as they are written and as they are read. */
  lemma EscapeTable(c: char)
    ensures EscapeChar(c)
         == if c == '"' then "\\\"" else if c == '\\' then "\\\\"
            else if c == 8 as char then "\\b" else if c == 12 as char then "\\f"
            else if c == 10 as char then "\\n" else if c == 13 as char then "\\r"
            else if c == 9 as char then "\\t"
            else if c < ' ' then "\\u00" + ["0123456789abcdef"[c as int / 16], "0123456789abcdef"[c as int % 16]]
            else [c]
    ensures Unshort('"') == Some('"') && Unshort('\\') == Some('\\') && Unshort('/') == Some('/')
    ensures Unshort('b') == Some(8 as char) && Unshort('f') == Some(12 as char) && Unshort('n') == Some(10 as char)
    ensures Unshort('r') == Some(13 as char) && Unshort('t') == Some(9 as char)
    ensures c !in "\"\\/bfnrt" ==> Unshort(c) == None
  {
    if c < ' ' {
      HexTable(c as int / 16);
      HexTable(c as int % 16);
    }
  }

  lemma HexTable(d: nat)
    requires d < 16
    ensures HexDigit(d) == "0123456789abcdef"[d]
  {
  }
}
