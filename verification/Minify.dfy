/** cJSON_Minify: dropping white space and comments from a JSON text, in place. */
module Minify {
  import opened Text
  import opened Number
  import opened StringLiteral
  import opened Json
  import opened RoundTrip

  predicate IsBlank(c: char) {
    c == ' ' || c == '\t' || c == '\r' || c == '\n'
  }

  /** A character that is copied by itself. */
  predicate IsPlain(c: char) {
    !IsBlank(c) && c != '/' && c != '"'
  }

  /** skip_oneline_comment, from behind the two slashes: how far it goes. */
  function LineComment(t: string): (n: nat)
    ensures n <= |t|
  {
    if t == "" then 0 else if t[0] == '\n' then 1 else 1 + LineComment(t[1..])
  }

  /** skip_multiline_comment, from behind the opening. */
  function BlockComment(t: string): (n: nat)
    ensures n <= |t|
  {
    if t == "" then 0 else if "*/" <= t then 2 else 1 + BlockComment(t[1..])
  }

  /** minify_string, from behind the opening quote: how far it copies.  It takes any backslash in front
      of a quote for an escape, also one that is itself escaped. */
  function Body(t: string): (n: nat)
    ensures n <= |t|
  {
    if t == "" then 0
    else if t[0] == '"' then 1
    else if t[0] == '\\' && |t| > 1 && t[1] == '"' then 2 + Body(t[2..])
    else 1 + Body(t[1..])
  }

  predicate Closes(t: string) {
    if t == "" then false
    else if t[0] == '"' then true
    else if t[0] == '\\' && |t| > 1 && t[1] == '"' then Closes(t[2..])
    else Closes(t[1..])
  }

  /** How much one turn of the loop reads. */
  function Taken(t: string): (n: nat)
    requires t != ""
    ensures 1 <= n <= |t|
  {
    if "//" <= t then 2 + LineComment(t[2..])
    else if "/*" <= t then 2 + BlockComment(t[2..])
    else if t[0] == '"' then 1 + Body(t[1..])
    else 1
  }

  /** The text without white space and comments. */
  function Minified(t: string): (r: string)
    ensures |r| <= |t|
    decreases |t|
  {
    if t == "" then ""
    else
      var n := Taken(t);
      (if IsBlank(t[0]) || t[0] == '/' then "" else t[..n]) + Minified(t[n..])
  }

  // ----- Idempotence -----

  lemma {:induction false} BodyStable(t: string, more: string)
    requires Closes(t)
    ensures Body(t[..Body(t)] + more) == Body(t)
    decreases |t|
  {
    var s := t[..Body(t)] + more;
    if t[0] != '"' {
      var step := if t[0] == '\\' && |t| > 1 && t[1] == '"' then 2 else 1;
      BodyStable(t[step..], more);
      ClosesHere(t[step..]);
      assert s[step..] == t[step..][..Body(t[step..])] + more;
    }
  }

  lemma ClosesHere(t: string)
    requires Closes(t)
    ensures t != "" && 1 <= Body(t) && (t[0] != '"' ==> Body(t) >= 2)
  {
  }

  lemma {:induction false} OpenBody(t: string)
    requires !Closes(t)
    ensures Body(t) == |t|
    decreases |t|
  {
    if t != "" {
      OpenBody(t[if t[0] == '\\' && |t| > 1 && t[1] == '"' then 2 else 1..]);
    }
  }

  /** One turn of the loop. */
  lemma MinifyHead(head: string, more: string)
    requires head != "" && Taken(head + more) == |head|
    ensures Minified(head + more)
         == if IsBlank(head[0]) || head[0] == '/' then Minified(more) else head + Minified(more)
  {
    var t := head + more;
    assert t[..|head|] == head && t[|head|..] == more && t[0] == head[0];
    assert "" + Minified(more) == Minified(more);
  }

  lemma MinifyPlainChar(c: char, t: string)
    requires IsPlain(c)
    ensures Minified([c] + t) == [c] + Minified(t)
  {
    hide Minified;
    assert ([c] + t)[0] == c;
    MinifyHead([c], t);
  }

  /** A string that is copied is copied again. */
  lemma MinifyString(t: string, more: string)
    requires t != "" && t[0] == '"' && (Closes(t[1..]) || more == "")
    ensures var s := t[..1 + Body(t[1..])]; Minified(s + more) == s + Minified(more)
  {
    hide Minified;
    var n := 1 + Body(t[1..]);
    var s := t[..n];
    assert (s + more)[1..] == t[1..][..n - 1] + more && (s + more)[0] == '"';
    if Closes(t[1..]) {
      BodyStable(t[1..], more);
    } else {
      OpenBody(t[1..]);
      assert s == t && s + more == t;
    }
    MinifyHead(s, more);
  }

  /** Minifying twice is minifying once. */
  lemma {:induction false} MinifyTwice(t: string)
    ensures Minified(Minified(t)) == Minified(t)
    decreases |t|
  {
    if t != "" {
      var n := Taken(t);
      MinifyTwice(t[n..]);
      var rest := Minified(t[n..]);
      assert t[..n] + t[n..] == t;
      MinifyHead(t[..n], t[n..]);
      hide Minified;
      if t[0] == '"' {
        if !Closes(t[1..]) { OpenBody(t[1..]); MinifyNothing(); }
        MinifyString(t, rest);
      } else if IsPlain(t[0]) {
        assert t[..1] == [t[0]];
        MinifyPlainChar(t[0], rest);
      }
    } else {
      MinifyNothing();
    }
  }

  lemma {:induction false} MinifiedNulFree(t: string)
    requires NulFree(t)
    ensures NulFree(Minified(t))
    decreases |t|
  {
    if t != "" { MinifiedNulFree(t[Taken(t)..]); }
  }

  lemma MinifyNothing()
    ensures Minified("") == ""
  {
  }

  // ----- Minifying what the printer writes -----

  lemma {:induction false} MinifyPlain(w: string, t: string)
    requires forall i :: 0 <= i < |w| ==> IsPlain(w[i])
    ensures Minified(w + t) == w + Minified(t)
    decreases |w|
  {
    hide Minified;
    if w == "" {
      assert w + t == t && w + Minified(t) == Minified(t);
    } else {
      var c, v := w[0], w[1..];
      assert w == [c] + v;
      MinifyPlain(v, t);
      Assoc([c], v, t);
      MinifyPlainChar(c, v + t);
      Assoc([c], v, Minified(t));
    }
  }

  lemma {:induction false} MinifyBlank(w: string, t: string)
    requires forall i :: 0 <= i < |w| ==> IsBlank(w[i])
    ensures Minified(w + t) == Minified(t)
    decreases |w|
  {
    hide Minified;
    if w == "" {
      assert w + t == t;
    } else {
      var c, v := w[0], w[1..];
      assert w == [c] + v;
      MinifyBlank(v, t);
      Assoc([c], v, t);
      assert ([c] + (v + t))[0] == c;
      MinifyHead([c], v + t);
    }
  }

  predicate EndsInBackslash(s: string) {
    s != "" && s[|s| - 1] == '\\'
  }

  /** The first character of an escaped text is never a quote. */
  lemma EscapeStart(s: string)
    ensures s != "" ==> Escape(s) != "" && Escape(s)[0] != '"'
  {
  }

  lemma {:induction false} BodyOfEscape(s: string, t: string)
    requires !EndsInBackslash(s)
    ensures Body(Escape(s) + ("\"" + t)) == |Escape(s)| + 1
    decreases |s|
  {
    var tail := "\"" + t;
    if s != "" {
      BodyOfEscape(s[1..], t);
      var rest := Escape(s[1..]) + tail;
      var e := EscapeChar(s[0]);
      assert Escape(s) + tail == e + rest;
      EscapeStart(s[1..]);
      assert s[0] == '\\' ==> rest[0] != '"';
      BodyOfChar(s[0], rest);
    } else {
      assert Escape(s) + tail == tail;
    }
  }

  lemma BodyStep(c: char, t: string)
    requires c != '"' && !(c == '\\' && t != "" && t[0] == '"')
    ensures Body([c] + t) == 1 + Body(t)
  {
    assert ([c] + t)[0] == c && ([c] + t)[1..] == t;
  }

  lemma {:induction false} BodyOfPlain(w: string, t: string)
    requires forall i :: 0 <= i < |w| ==> w[i] != '"' && w[i] != '\\'
    ensures Body(w + t) == |w| + Body(t)
    decreases |w|
  {
    hide Body;
    if w == "" {
      assert w + t == t;
    } else {
      BodyOfPlain(w[1..], t);
      assert w + t == [w[0]] + (w[1..] + t);
      BodyStep(w[0], w[1..] + t);
    }
  }

  lemma BodyOfChar(c: char, rest: string)
    requires c == '\\' ==> rest != "" && rest[0] != '"'
    ensures Body(EscapeChar(c) + rest) == |EscapeChar(c)| + Body(rest)
  {
    var e := EscapeChar(c);
    if c == '"' {
      assert (e + rest)[2..] == rest && (e + rest)[0] == '\\' && (e + rest)[1] == '"';
    } else {
      hide Body;
      var w := e[1..];
      if |e| == 1 {
        BodyStep(c, rest);
      } else {
        assert e + rest == ['\\'] + (w + rest);
        if c == '\\' {
          assert w == "\\";
          BodyStep('\\', rest);
        } else {
          BodyOfPlain(w, rest);
        }
        BodyStep('\\', w + rest);
      }
    }
  }

  lemma MinifyQuote(s: string, t: string)
    requires !EndsInBackslash(s)
    ensures Minified(Quote(s) + t) == Quote(s) + Minified(t)
  {
    hide Minified;
    var all := Quote(s) + t;
    BodyOfEscape(s, t);
    assert all[1..] == Escape(s) + ("\"" + t) && all[0] == '"';
    hide Body, Escape;
    MinifyHead(Quote(s), t);
  }

  /** No string and no key in the tree ends in a backslash. */
  ghost predicate NoTrailingBackslash(v: Json) {
    match v
    case Str(s) => !EndsInBackslash(s)
    case Arr(items) => forall i :: 0 <= i < |items| ==> NoTrailingBackslash(items[i])
    case Obj(members) =>
      forall i :: 0 <= i < |members| ==> !EndsInBackslash(members[i].key) && NoTrailingBackslash(members[i].value)
    case _ => true
  }

  ghost predicate ItemsFine(items: seq<Json>) {
    forall i :: 0 <= i < |items| ==> NoTrailingBackslash(items[i])
  }

  ghost predicate MembersFine(members: seq<Member>) {
    forall i :: 0 <= i < |members| ==> !EndsInBackslash(members[i].key) && NoTrailingBackslash(members[i].value)
  }

  lemma {:induction false} MinifyRender(v: Json, d: nat, tail: string)
    requires NoTrailingBackslash(v)
    ensures Minified(Render(v, true, d, tail)) == Render(v, false, d, Minified(tail))
    decreases v, 1
  {
    hide Minified;
    match v
    case Null => MinifyPlain("null", tail);
    case Bool(b) => MinifyPlain(if b then "true" else "false", tail);
    case Num(n) => MinifyPlain(Decimal(Saturate(n)), tail);
    case Str(s) => MinifyQuote(s, tail);
    case Arr(items) =>
      MinifyItems(items, d + 1, "]" + tail);
      MinifyPlainChar(']', tail);
      MinifyPlainChar('[', RenderItems(items, true, d + 1, "]" + tail));
    case Obj(members) =>
      MinifyObject(members, d, tail);
  }

  lemma {:induction false} MinifyObject(members: seq<Member>, d: nat, tail: string)
    requires MembersFine(members)
    ensures Minified(Render(Obj(members), true, d, tail)) == Render(Obj(members), false, d, Minified(tail))
    decreases members, 1
  {
    hide Minified;
    var close := Indent(true, d) + ("}" + tail);
    MinifyMembers(members, d + 1, close);
    MinifyBlank(Indent(true, d), "}" + tail);
    MinifyPlainChar('}', tail);
    var inner := RenderMembers(members, true, d + 1, close);
    MinifyBlank("\n", inner);
    MinifyPlainChar('{', "\n" + inner);
    assert Indent(false, d) + ("}" + Minified(tail)) == "}" + Minified(tail);
    assert Newline(false) + Minified(inner) == Minified(inner);
  }

  lemma {:induction false} MinifyItems(items: seq<Json>, d: nat, tail: string)
    requires ItemsFine(items)
    ensures Minified(RenderItems(items, true, d, tail)) == RenderItems(items, false, d, Minified(tail))
    decreases items, 0
  {
    hide Minified;
    if items != [] {
      MinifyItems(items[1..], d, tail);
      var others := RenderItems(items[1..], true, d, tail);
      MinifyBlank(" ", others);
      MinifyPlainChar(',', " " + others);
      assert Space(false) + Minified(others) == Minified(others);
      MinifyRender(items[0], d, if |items| == 1 then others else "," + (" " + others));
    }
  }

  lemma {:induction false} MinifyMembers(members: seq<Member>, d: nat, tail: string)
    requires MembersFine(members)
    ensures Minified(RenderMembers(members, true, d, tail)) == RenderMembers(members, false, d, Minified(tail))
    decreases members, 0
  {
    hide Minified, RenderMember;
    if members != [] {
      MinifyMembers(members[1..], d, tail);
      var others := RenderMembers(members[1..], true, d, tail);
      MinifyBlank("\n", others);
      MinifyPlainChar(',', "\n" + others);
      assert Newline(false) + Minified(others) == Minified(others);
      var rest := if |members| == 1 then "\n" + others else "," + ("\n" + others);
      MinifyMember(members[0], d, rest);
      MinifyBlank(Indent(true, d), RenderMember(members[0], true, d, rest));
      var first := RenderMember(members[0], false, d, Minified(rest));
      assert Indent(false, d) + first == first;
    }
  }

  lemma {:induction false} MinifyMember(member: Member, d: nat, tail: string)
    requires !EndsInBackslash(member.key) && NoTrailingBackslash(member.value)
    ensures Minified(RenderMember(member, true, d, tail)) == RenderMember(member, false, d, Minified(tail))
    decreases member, 0
  {
    hide Minified, Render;
    MinifyRender(member.value, d, tail);
    var value := Render(member.value, true, d, tail);
    MinifyBlank("\t", value);
    MinifyPlainChar(':', "\t" + value);
    MinifyQuote(member.key, ":" + ("\t" + value));
    assert Tab(false) + Minified(value) == Minified(value);
  }

  /** Minifying formatted output gives exactly the unformatted output, and so keeps its meaning, for every
      tree in which no string and no key ends in a backslash. */
  lemma MinifyPrinted(v: Json)
    requires NoTrailingBackslash(v)
    ensures Minified(Printed(v, true)) == Printed(v, false)
    ensures Printable(v) && Nesting(v) <= NESTING_LIMIT ==> ParseText(Minified(Printed(v, true))) == Some(v)
  {
    hide Minified, ParseText, Render;
    MinifyRender(v, 0, "");
    MinifyNothing();
    if Printable(v) { PrintThenParse(v, false); }
  }
}
