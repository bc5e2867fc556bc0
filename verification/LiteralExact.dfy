/** Exactly which string literals parse_string accepts, beyond those of section 7 of RFC 8259. */
module LiteralExact {
  import opened Text
  import opened Utf8
  import opened StringLiteral

  /** What the second pass reads in one round: a unit of RFC 8259; a quotation mark that the first pass took
      for escaped; a \u escape whose four characters are not all hexadecimal, which stands for a NUL; or a
      backslash that ends the body, which takes the closing quote for its partner. */
  datatype Piece = Regular(u: Unit) | Mark | Malformed(x: string) | Dangling
  {
    predicate Readable() {
      match this
      case Regular(u) => u.Valid()
      case Malformed(x) => |x| == 4 && !IsHex4(x)
      case _ => true
    }

    function Spelling(): (s: string)
      requires Readable()
      ensures s != ""
    {
      match this
      case Regular(u) => u.Spelling()
      case Mark => "\""
      case Malformed(x) => "\\u" + x
      case Dangling => "\\"
    }

    function Meaning(): string
      requires Readable()
    {
      match this
      case Regular(u) => u.Meaning()
      case Mark => "\""
      case Malformed(x) => "\0"
      case Dangling => "\""
    }
  }

  /** Only the last piece can be a backslash without a partner. */
  predicate AllReadable(ps: seq<Piece>) {
    ps != [] ==> ps[0].Readable() && (ps[0].Dangling? ==> |ps| == 1) && AllReadable(ps[1..])
  }

  function Spelled(ps: seq<Piece>): string
    requires AllReadable(ps)
  {
    if ps == [] then "" else ps[0].Spelling() + Spelled(ps[1..])
  }

  function Denoted(ps: seq<Piece>): string
    requires AllReadable(ps)
  {
    if ps == [] then "" else ps[0].Meaning() + Denoted(ps[1..])
  }

  // ----- The second pass -----

  lemma NulBytes()
    ensures EncodeUtf8(0) == "\0"
  {
    assert EncodeUtf8(0) == [(0 % 0x100) as char];
  }

  lemma MalformedUnescape(x: string, t: string)
    requires |x| == 4 && !IsHex4(x)
    ensures Unescape("\\u" + x + t) == Prepend("\0", Unescape(t))
  {
    hide EncodeUtf8;
    NulBytes();
    var s := "\\u" + x + t;
    assert s[2..6] == x && s[6..] == t;
  }

  lemma PieceUnescape(p: Piece, t: string)
    requires p.Readable() && (p.Dangling? ==> t == "")
    ensures Unescape(p.Spelling() + t) == Prepend(p.Meaning(), Unescape(t))
  {
    match p
    case Regular(u) => UnitUnescape(u, t);
    case Mark => assert ("\"" + t)[..1] == "\"" && ("\"" + t)[1..] == t;
    case Malformed(x) => MalformedUnescape(x, t);
    case Dangling => assert "\\" + t == "\\";
  }

  lemma {:induction false} SpelledUnescape(ps: seq<Piece>)
    requires AllReadable(ps)
    ensures Unescape(Spelled(ps)) == Some(Denoted(ps))
    decreases |ps|
  {
    hide Unescape, Piece.Readable, Piece.Spelling, Piece.Meaning;
    if ps == [] {
      UnescapeNothing();
    } else {
      SpelledUnescape(ps[1..]);
      PieceUnescape(ps[0], Spelled(ps[1..]));
    }
  }

  lemma UnescapeNothing()
    ensures Unescape("") == Some("")
  {
  }

  /** The piece that the text begins with, and the text behind it. */
  lemma FirstPiece(t: string) returns (p: Piece, rest: string)
    requires t != "" && Unescape(t).Some?
    ensures p.Readable() && t == p.Spelling() + rest && (p.Dangling? ==> rest == "") && Unescape(rest).Some?
  {
    if t[0] != '\\' {
      p, rest := if t[0] == '"' then Mark else Regular(Plain(t[0])), t[1..];
    } else if |t| == 1 {
      p, rest := Dangling, "";
    } else if t[1] != 'u' {
      p, rest := Regular(Short(t[1])), t[2..];
    } else {
      p, rest := FirstEscape(t);
    }
  }

  lemma FirstEscape(t: string) returns (p: Piece, rest: string)
    requires |t| > 1 && t[0] == '\\' && t[1] == 'u' && Unescape(t).Some?
    ensures p.Readable() && t == p.Spelling() + rest && !p.Dangling? && Unescape(rest).Some?
  {
    hide EncodeUtf8;
    var h := t[2..6];
    if !IsHex4(h) {
      p, rest := Malformed(h), t[6..];
    } else if IsScalar(Hex4(h)) {
      p, rest := Regular(Code(h)), t[6..];
    } else {
      p, rest := Regular(Pair(h, t[8..12])), t[12..];
      LowIsHex(t[8..12]);
    }
  }

  lemma LowIsHex(h: string)
    requires |h| == 4 && IsLowSurrogate(Hex4(h))
    ensures IsHex4(h)
  {
  }

  lemma {:induction false} PiecesOf(t: string) returns (ps: seq<Piece>)
    requires Unescape(t).Some?
    ensures AllReadable(ps) && Spelled(ps) == t
    decreases |t|
  {
    hide Unescape, Piece.Readable, Piece.Spelling;
    if t == "" {
      ps := [];
    } else {
      var p, rest := FirstPiece(t);
      var others := PiecesOf(rest);
      ps := [p] + others;
      assert ps[1..] == others;
      if p.Dangling? && others != [] { NothingSpelled(others); }
    }
  }

  lemma NothingSpelled(ps: seq<Piece>)
    requires AllReadable(ps) && ps != []
    ensures Spelled(ps) != ""
  {
  }

  // ----- The first pass -----

  /** Every backslash has a partner, and no quotation mark is without one. */
  predicate Paired(body: string)
    decreases |body|
  {
    body == "" ||
      if body[0] == '\\' then |body| >= 2 && Paired(body[2..]) else body[0] != '"' && Paired(body[1..])
  }

  lemma {:induction false} BodyLengthIs(body: string, rest: string)
    requires Paired(body)
    ensures BodyLength(body + "\"" + rest) == Some(|body|)
    decreases |body|
  {
    var t := body + "\"" + rest;
    if body != "" {
      var step := if body[0] == '\\' then 2 else 1;
      assert t[step..] == body[step..] + "\"" + rest;
      BodyLengthIs(body[step..], rest);
    }
  }

  lemma {:induction false} BodyIsPaired(t: string)
    requires BodyLength(t).Some?
    ensures Paired(t[..BodyLength(t).value])
    decreases |t|
  {
    var n := BodyLength(t).value;
    if t[0] != '"' {
      var step := if t[0] == '\\' then 2 else 1;
      BodyIsPaired(t[step..]);
      assert t[..n][step..] == t[step..][..n - step];
    }
  }

  // ----- Both passes -----

  /** s begins with a literal that is spelled from these pieces and goes on with `rest`. */
  predicate IsLiteral(s: string, ps: seq<Piece>, rest: string) {
    AllReadable(ps) && Paired(Spelled(ps)) && s == "\"" + Spelled(ps) + "\"" + rest
  }

  /** A text is accepted exactly when it begins with such a literal, and then it is read as what the pieces
      denote, up to the first NUL. */
  lemma LiteralsExactly(s: string, text: string, rest: string)
    ensures ReadString(s) == Some((text, rest))
            <==> exists ps :: IsLiteral(s, ps, rest) && text == CString(Denoted(ps))
  {
    hide Unescape, BodyLength, Spelled, Denoted, AllReadable, Paired, CString;
    if ps :| IsLiteral(s, ps, rest) && text == CString(Denoted(ps)) {
      BodyLengthIs(Spelled(ps), rest);
      SpelledUnescape(ps);
      ReadBody(Spelled(ps), rest);
    }
    if ReadString(s) == Some((text, rest)) {
      var n := BodyLength(s[1..]).value;
      var body := s[1..][..n];
      BodyIsPaired(s[1..]);
      var ps := PiecesOf(body);
      SpelledUnescape(ps);
      assert s == "\"" + body + "\"" + rest;
      assert IsLiteral(s, ps, rest);
    }
  }
}
