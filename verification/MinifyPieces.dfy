/** What cJSON_Minify drops and what it keeps, for every text. */
module MinifyPieces {
  import opened Minify

  /** What a text is made of; a comment or a string that is not ended takes the rest of the text. */
  datatype Piece =
    | Blank(c: char)
    | Plain(c: char)
    | Slash
    | Line(text: string, ended: bool)
    | Block(text: string, ended: bool)
    | Quoted(text: string, ended: bool)
  {
    function Spelling(): (s: string)
      ensures s != ""
    {
      match this
      case Blank(c) => [c]
      case Plain(c) => [c]
      case Slash => "/"
      case Line(x, ended) => "//" + (x + if ended then "\n" else "")
      case Block(x, ended) => "/*" + (x + if ended then "*/" else "")
      case Quoted(x, ended) => "\"" + (x + if ended then "\"" else "")
    }

    /** The piece can stand in front of this text. */
    predicate Fits(behind: string) {
      match this
      case Blank(c) => c in [' ', '\t', '\r', '\n']
      case Plain(c) => c !in [' ', '\t', '\r', '\n', '/', '"']
      case Slash => behind == "" || behind[0] !in ['/', '*']
      case Line(x, ended) => '\n' !in x && (ended || behind == "")
      case Block(x, ended) => NoEnd(x) && (ended || behind == "")
      case Quoted(x, ended) => AllEscaped(x) && (if ended then !EndsInBackslash(x) else behind == "")
    }

    function Left(): string {
      if Plain? || Quoted? then Spelling() else ""
    }
  }

  /** No end of a comment stands in the text. */
  predicate NoEnd(x: string) {
    forall i :: 0 <= i < |x| - 1 ==> !(x[i] == '*' && x[i + 1] == '/')
  }

  /** A backslash stands in front of every quotation mark. */
  predicate AllEscaped(x: string) {
    forall i :: 0 <= i < |x| && x[i] == '"' ==> i > 0 && x[i - 1] == '\\'
  }

  function Spelled(ps: seq<Piece>): string {
    if ps == [] then "" else ps[0].Spelling() + Spelled(ps[1..])
  }

  predicate Fitting(ps: seq<Piece>) {
    ps != [] ==> ps[0].Fits(Spelled(ps[1..])) && Fitting(ps[1..])
  }

  function LeftOver(ps: seq<Piece>): string {
    if ps == [] then "" else ps[0].Left() + LeftOver(ps[1..])
  }

  // ----- One turn of the loop -----

  lemma {:induction false} LineTaken(x: string, ended: bool, rest: string)
    requires '\n' !in x && (ended || rest == "")
    ensures LineComment(x + ((if ended then "\n" else "") + rest)) == |x| + if ended then 1 else 0
    decreases |x|
  {
    var tail := (if ended then "\n" else "") + rest;
    if x == "" {
      assert x + tail == tail;
    } else {
      LineTaken(x[1..], ended, rest);
      assert (x + tail)[1..] == x[1..] + tail && (x + tail)[0] == x[0];
    }
  }

  lemma {:induction false} BlockTaken(x: string, ended: bool, rest: string)
    requires NoEnd(x) && (ended || rest == "")
    ensures BlockComment(x + ((if ended then "*/" else "") + rest)) == |x| + if ended then 2 else 0
    decreases |x|
  {
    var tail := (if ended then "*/" else "") + rest;
    if x == "" {
      assert x + tail == tail;
    } else {
      assert NoEnd(x[1..]) by { assert forall i :: 0 <= i < |x| - 1 ==> x[1..][i] == x[i + 1]; }
      BlockTaken(x[1..], ended, rest);
      var t := x + tail;
      assert t[1..] == x[1..] + tail && t[0] == x[0];
      assert !("*/" <= t) by {
        if |x| > 1 { assert t[1] == x[1]; }
      }
    }
  }

  lemma {:induction false} QuotedTaken(x: string, ended: bool, rest: string)
    requires AllEscaped(x) && (if ended then !EndsInBackslash(x) else rest == "")
    ensures Body(x + ((if ended then "\"" else "") + rest)) == |x| + if ended then 1 else 0
    decreases |x|
  {
    var tail := (if ended then "\"" else "") + rest;
    if x == "" {
      assert x + tail == tail;
    } else {
      var t := x + tail;
      var n := if x[0] == '\\' && |x| > 1 && x[1] == '"' then 2 else 1;
      assert t[0] == x[0] && (|x| > 1 ==> t[1] == x[1]);
      assert AllEscaped(x[n..]) by {
        forall i | 0 <= i < |x[n..]| && x[n..][i] == '"' ensures i > 0 && x[n..][i - 1] == '\\' {
          assert x[i + n] == '"' && x[i + n - 1] == '\\';
        }
      }
      QuotedTaken(x[n..], ended, rest);
      assert t[n..] == x[n..] + tail;
    }
  }

  lemma OneTurn(u: string)
    ensures Taken("//" + u) == 2 + LineComment(u)
    ensures Taken("/*" + u) == 2 + BlockComment(u)
    ensures Taken("\"" + u) == 1 + Body(u)
  {
    hide LineComment, BlockComment, Body;
    var line, block, quoted := "//" + u, "/*" + u, "\"" + u;
    assert line[2..] == u && "//" <= line;
    assert block[2..] == u && "/*" <= block && block[1] == '*';
    assert quoted[1..] == u && quoted[0] == '"';
  }

  lemma CharTaken(c: char, rest: string)
    requires c != '"' && (c == '/' ==> rest == "" || rest[0] !in ['/', '*'])
    ensures Taken([c] + rest) == 1
  {
    hide LineComment, BlockComment, Body;
    var t := [c] + rest;
    assert t[0] == c && (rest != "" ==> t[1] == rest[0]);
  }

  lemma PieceTaken(p: Piece, rest: string)
    requires p.Fits(rest)
    ensures Taken(p.Spelling() + rest) == |p.Spelling()|
  {
    match p
    case Line(x, ended) => CommentTaken("//", x, "\n", ended, rest);
    case Block(x, ended) => CommentTaken("/*", x, "*/", ended, rest);
    case Quoted(x, ended) => CommentTaken("\"", x, "\"", ended, rest);
    case Blank(c) => CharTaken(c, rest);
    case Plain(c) => CharTaken(c, rest);
    case Slash => CharTaken('/', rest);
  }

  /** The pieces that are opened and ended. */
  lemma CommentTaken(open: string, x: string, end: string, ended: bool, rest: string)
    requires (open, end) in [("//", "\n"), ("/*", "*/"), ("\"", "\"")]
    requires open == "//" ==> Line(x, ended).Fits(rest)
    requires open == "/*" ==> Block(x, ended).Fits(rest)
    requires open == "\"" ==> Quoted(x, ended).Fits(rest)
    ensures var s := open + (x + if ended then end else ""); Taken(s + rest) == |s|
  {
    var close := if ended then end else "";
    assert open + (x + close) + rest == open + (x + (close + rest));
    OneTurn(x + (close + rest));
    if open == "//" { LineTaken(x, ended, rest); }
    else if open == "/*" { BlockTaken(x, ended, rest); }
    else { QuotedTaken(x, ended, rest); }
    hide Taken, LineComment, BlockComment, Body, NoEnd, AllEscaped;
  }

  lemma LeftIs(p: Piece, rest: string)
    requires p.Fits(rest)
    ensures p.Left() == if IsBlank(p.Spelling()[0]) || p.Spelling()[0] == '/' then "" else p.Spelling()
  {
  }

  // ----- Every text is made of pieces -----

  lemma {:induction false} LineFound(t: string) returns (x: string, ended: bool)
    ensures '\n' !in x && (if ended then x + "\n" <= t else x == t)
    decreases |t|
  {
    if t == "" {
      x, ended := "", false;
    } else if t[0] == '\n' {
      x, ended := "", true;
    } else {
      x, ended := LineFound(t[1..]);
      assert ended ==> [t[0]] + (x + "\n") <= t by {
        if ended { assert t == [t[0]] + t[1..]; }
      }
      x := [t[0]] + x;
    }
  }

  lemma {:induction false} BlockFound(t: string) returns (x: string, ended: bool)
    ensures NoEnd(x) && (if ended then x + "*/" <= t else x == t)
    decreases |t|
  {
    if t == "" {
      x, ended := "", false;
    } else if "*/" <= t {
      x, ended := "", true;
    } else {
      x, ended := BlockFound(t[1..]);
      assert t == [t[0]] + t[1..] && (x != "" ==> x[0] == t[1]);
      x := [t[0]] + x;
    }
  }

  lemma {:induction false} QuotedFound(t: string) returns (x: string, ended: bool)
    ensures AllEscaped(x)
    ensures if ended then !EndsInBackslash(x) && x + "\"" <= t else x == t
    decreases |t|
  {
    if t == "" {
      x, ended := "", false;
    } else if t[0] == '"' {
      x, ended := "", true;
    } else {
      var n := if t[0] == '\\' && |t| > 1 && t[1] == '"' then 2 else 1;
      var y;
      y, ended := QuotedFound(t[n..]);
      x := t[..n] + y;
      assert t == t[..n] + t[n..];
      assert EndsInBackslash(x) ==> !ended by {
        if y == "" && ended { assert t[n] == '"'; }
      }
      assert AllEscaped(x) by {
        forall i | 0 <= i < |x| && x[i] == '"' ensures i > 0 && x[i - 1] == '\\' {
          if i >= n { assert y[i - n] == '"' && y[i - n - 1] == x[i - 1]; }
        }
      }
    }
  }

  lemma Opens(open: string, inner: string, t: string)
    requires open <= t && inner <= t[|open|..]
    ensures open + inner <= t
  {
    assert t == open + t[|open|..];
  }

  lemma CommentPiece(t: string) returns (p: Piece, rest: string)
    requires "//" <= t || "/*" <= t
    ensures t == p.Spelling() + rest && p.Fits(rest)
  {
    hide NoEnd;
    var x, ended;
    if "//" <= t {
      x, ended := LineFound(t[2..]);
      Opens("//", x + if ended then "\n" else "", t);
      p := Line(x, ended);
    } else {
      x, ended := BlockFound(t[2..]);
      Opens("/*", x + if ended then "*/" else "", t);
      p := Block(x, ended);
    }
    rest := t[|p.Spelling()|..];
  }

  lemma QuotedPiece(t: string) returns (p: Piece, rest: string)
    requires t != "" && t[0] == '"'
    ensures t == p.Spelling() + rest && p.Fits(rest)
  {
    hide AllEscaped, EndsInBackslash;
    var x, ended := QuotedFound(t[1..]);
    Opens("\"", x + if ended then "\"" else "", t);
    p := Quoted(x, ended);
    rest := t[|p.Spelling()|..];
  }

  lemma FirstPiece(t: string) returns (p: Piece, rest: string)
    requires t != ""
    ensures t == p.Spelling() + rest && p.Fits(rest)
  {
    hide NoEnd, AllEscaped, EndsInBackslash;
    if "//" <= t || "/*" <= t {
      p, rest := CommentPiece(t);
    } else if t[0] == '"' {
      p, rest := QuotedPiece(t);
    } else {
      p := if t[0] == '/' then Slash else if t[0] in [' ', '\t', '\r', '\n'] then Blank(t[0]) else Plain(t[0]);
      rest := t[1..];
      assert t == [t[0]] + rest;
    }
  }

  lemma {:induction false} MadeOfPieces(t: string) returns (ps: seq<Piece>)
    ensures Fitting(ps) && Spelled(ps) == t
    decreases |t|
  {
    if t == "" {
      ps := [];
    } else {
      var p, rest := FirstPiece(t);
      var others := MadeOfPieces(rest);
      ps := [p] + others;
      assert ps[1..] == others;
    }
  }

  // ----- The law -----

  lemma {:induction false} PiecesMinify(ps: seq<Piece>)
    requires Fitting(ps)
    ensures Minified(Spelled(ps)) == LeftOver(ps)
    decreases |ps|
  {
    hide Minified, Taken, Piece.Fits, Piece.Spelling, Piece.Left, IsBlank;
    if ps != [] {
      PiecesMinify(ps[1..]);
      PieceTaken(ps[0], Spelled(ps[1..]));
      LeftIs(ps[0], Spelled(ps[1..]));
      MinifyHead(ps[0].Spelling(), Spelled(ps[1..]));
    } else {
      MinifyNothing();
    }
  }

  /** For every text: the pieces that it is made of, and that minifying leaves exactly its plain characters
      and its strings. */
  lemma MinifiesExactly(t: string) returns (ps: seq<Piece>)
    ensures Fitting(ps) && Spelled(ps) == t && Minified(t) == LeftOver(ps)
  {
    ps := MadeOfPieces(t);
    PiecesMinify(ps);
  }
}
