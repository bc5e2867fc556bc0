/** Exactly when minifying formatted output gives the unformatted output. */
module MinifyExact {
  import opened Text
  import opened StringLiteral
  import opened Json
  import opened Minify

  /** The only string that ends in a backslash is the very last thing in the text, with nothing but
      closing brackets behind it. */
  ghost predicate EndsOpen(v: Json) {
    match v
    case Str(s) => EndsInBackslash(s)
    case Arr(items) => items != [] && ItemsFine(items[..|items| - 1]) && EndsOpen(items[|items| - 1])
    case _ => false
  }

  /** The texts differ at some position. */
  ghost predicate Diverge(a: string, b: string) {
    exists i :: 0 <= i < |a| && i < |b| && a[i] != b[i]
  }

  lemma DivergeBehind(p: string, a: string, b: string)
    requires Diverge(a, b)
    ensures Diverge(p + a, p + b)
  {
    var i :| 0 <= i < |a| && i < |b| && a[i] != b[i];
    assert (p + a)[|p| + i] != (p + b)[|p| + i];
  }

  lemma DivergeBehindValue(v: Json, d: nat, a: string, b: string)
    requires Diverge(a, b)
    ensures Diverge(Render(v, false, d, a), Render(v, false, d, b))
  {
    RenderTail(v, false, d, a);
    RenderTail(v, false, d, b);
    DivergeBehind(Render(v, false, d, ""), a, b);
  }

  // ----- A string whose closing quote is missed -----

  lemma {:induction false} BodyMissesQuote(s: string, z: string)
    requires EndsInBackslash(s)
    ensures Body(Escape(s) + ("\"" + z)) == |Escape(s)| + 1 + Body(z)
    decreases |s|
  {
    hide Body;
    var rest := Escape(s[1..]) + ("\"" + z);
    if |s| > 1 {
      assert Escape(s) + ("\"" + z) == EscapeChar(s[0]) + rest;
      BodyMissesQuote(s[1..], z);
      EscapeStart(s[1..]);
      BodyOfChar(s[0], rest);
    } else {
      LoneBackslash(z);
      assert s == "\\" && Escape(s) == "\\\\";
    }
  }

  lemma LoneBackslash(z: string)
    ensures Body("\\\\" + ("\"" + z)) == 3 + Body(z)
  {
    var two := "\\" + ("\"" + z);
    assert two[2..] == z && two[0] == '\\' && two[1] == '"';
    assert "\\\\" + ("\"" + z) == ['\\'] + two;
    BodyStep('\\', two);
  }

  predicate Unquoted(w: string) {
    forall i :: 0 <= i < |w| ==> w[i] != '"' && w[i] != '\\'
  }

  lemma TakesMissedQuote(s: string, w: string, rest: string)
    requires EndsInBackslash(s) && Unquoted(w)
    ensures Taken(Quote(s) + (w + rest)) == |Quote(s)| + |w| + Body(rest)
  {
    hide Body, Escape, Quote, Taken;
    BodyMissesQuote(s, w + rest);
    BodyOfPlain(w, rest);
    QuoteOpens(s, w + rest);
  }

  lemma QuoteOpens(s: string, z: string)
    ensures (Quote(s) + z)[1..] == Escape(s) + ("\"" + z) && (Quote(s) + z)[0] == '"' && |Quote(s)| == |Escape(s)| + 2
    ensures Taken(Quote(s) + z) == 1 + Body(Escape(s) + ("\"" + z))
  {
    hide Body, Escape;
    assert (Quote(s) + z)[1..] == Escape(s) + ("\"" + z);
  }

  /** Behind such a string, text without quotes and backslashes is copied as it is. */
  lemma MinifyOpenString(s: string, w: string, rest: string) returns (y: string)
    requires EndsInBackslash(s) && Unquoted(w)
    ensures Minified(Quote(s) + (w + rest)) == Quote(s) + (w + y)
    ensures rest == "" ==> y == ""
  {
    TakesMissedQuote(s, w, rest);
    MinifyNothing();
    hide Minified, Quote, Taken, Body;
    var n := Body(rest);
    assert rest[..n] + rest[n..] == rest;
    Regroup(Quote(s), w, rest[..n], rest[n..]);
    MinifyHead(Quote(s) + (w + rest[..n]), rest[n..]);
    y := rest[..n] + Minified(rest[n..]);
    Regroup(Quote(s), w, rest[..n], Minified(rest[n..]));
  }

  lemma Regroup(a: string, b: string, c: string, d: string)
    ensures a + (b + c) + d == a + (b + (c + d))
  {
    Assoc(a, b + c, d);
    Assoc(b, c, d);
  }

  lemma {:induction false} MinifyOpen(v: Json, d: nat, w: string, rest: string) returns (y: string)
    requires EndsOpen(v) && Unquoted(w)
    ensures Minified(Render(v, true, d, w + rest)) == Render(v, false, d, w + y)
    ensures rest == "" ==> y == ""
    decreases v, 1
  {
    hide Minified;
    if v.Str? {
      y := MinifyOpenString(v.s, w, rest);
    } else {
      assert "]" + (w + rest) == "]" + w + rest;
      y := MinifyOpenItems(v.items, d + 1, "]" + w, rest);
      assert "]" + (w + y) == "]" + w + y;
      MinifyPlainChar('[', RenderItems(v.items, true, d + 1, "]" + (w + rest)));
    }
  }

  lemma {:induction false} MinifyOpenItems(items: seq<Json>, d: nat, w: string, rest: string) returns (y: string)
    requires items != [] && ItemsFine(items[..|items| - 1]) && EndsOpen(items[|items| - 1]) && Unquoted(w)
    ensures Minified(RenderItems(items, true, d, w + rest)) == RenderItems(items, false, d, w + y)
    ensures rest == "" ==> y == ""
    decreases items, 0
  {
    hide Minified;
    if |items| == 1 {
      y := MinifyOpen(items[0], d, w, rest);
    } else {
      var later := items[1..];
      assert later[..|later| - 1] == items[..|items| - 1][1..];
      assert items[0] == items[..|items| - 1][0];
      y := MinifyOpenItems(later, d, w, rest);
      var others := RenderItems(later, true, d, w + rest);
      MinifyBlank(" ", others);
      MinifyPlainChar(',', " " + others);
      assert Space(false) + Minified(others) == Minified(others);
      MinifyRender(items[0], d, "," + (" " + others));
    }
  }

  // ----- Anywhere else it shows -----

  lemma {:induction false} Misread(v: Json, d: nat, tail: string, other: string)
    requires !NoTrailingBackslash(v) && !EndsOpen(v)
    ensures Diverge(Minified(Render(v, true, d, tail)), Render(v, false, d, other))
    decreases v, 1
  {
    hide Minified, Diverge;
    if v.Arr? {
      MisreadItems(v.items, d + 1, "]" + tail, "]" + other);
      var inner := RenderItems(v.items, true, d + 1, "]" + tail);
      MinifyPlainChar('[', inner);
      DivergeBehind("[", Minified(inner), RenderItems(v.items, false, d + 1, "]" + other));
    } else {
      MisreadObject(v.members, d, tail, other);
    }
  }

  lemma {:induction false} MisreadObject(members: seq<Member>, d: nat, tail: string, other: string)
    requires !MembersFine(members)
    ensures Diverge(Minified(Render(Obj(members), true, d, tail)), Render(Obj(members), false, d, other))
    decreases members, 1
  {
    hide Minified, Diverge;
    var close, close' := Indent(true, d) + ("}" + tail), Indent(false, d) + ("}" + other);
    assert close' == "}" + other;
    MisreadMembers(members, d + 1, close, close');
    var inner, inner' := RenderMembers(members, true, d + 1, close), RenderMembers(members, false, d + 1, close');
    MinifyBlank("\n", inner);
    MinifyPlainChar('{', "\n" + inner);
    assert Newline(false) + inner' == inner';
    DivergeBehind("{", Minified(inner), inner');
  }

  lemma {:induction false} MisreadItems(items: seq<Json>, d: nat, tail: string, other: string)
    requires !ItemsFine(items) && !EndsOpen(Arr(items))
    ensures Diverge(Minified(RenderItems(items, true, d, tail)), RenderItems(items, false, d, other))
    decreases items, 0
  {
    hide Minified, Diverge;
    var first, later := items[0], items[1..];
    var others, others' := RenderItems(later, true, d, tail), RenderItems(later, false, d, other);
    assert Space(false) + others' == others';
    if NoTrailingBackslash(first) {
      LaterItems(items);
      MisreadItems(later, d, tail, other);
      MinifyBlank(" ", others);
      MinifyPlainChar(',', " " + others);
      MinifyRender(first, d, "," + (" " + others));
      DivergeBehind(",", Minified(others), others');
      DivergeBehindValue(first, d, "," + Minified(others), "," + others');
    } else if EndsOpen(first) {
      assert ItemsFine(items[..0]);
      assert ", " + others == "," + (" " + others);
      var y := MinifyOpen(first, d, ", ", others);
      BlankShows(", " + y, 1, "," + others');
      DivergeBehindValue(first, d, ", " + y, "," + others');
    } else {
      Misread(first, d, if |items| == 1 then others else "," + (" " + others),
              if |items| == 1 then others' else "," + others');
    }
  }

  lemma LaterItems(items: seq<Json>)
    requires items != [] && NoTrailingBackslash(items[0]) && !ItemsFine(items) && !EndsOpen(Arr(items))
    ensures |items| > 1 && !ItemsFine(items[1..]) && !EndsOpen(Arr(items[1..]))
  {
    var later := items[1..];
    assert ItemsFine(items[..0]);
    assert forall i :: 1 <= i < |items| ==> items[i] == later[i - 1];
    assert items[..|items| - 1] == [items[0]] + later[..|later| - 1];
  }

  /** A blank where the other text has none. */
  lemma BlankShows(a: string, i: nat, b: string)
    requires i < |a| && IsBlank(a[i]) && i < |b| && b[i] > ' '
    ensures Diverge(a, b)
  {
    assert a[i] != b[i];
  }

  lemma {:induction false} MisreadMembers(members: seq<Member>, d: nat, tail: string, other: string)
    requires !MembersFine(members) && other != "" && other[0] > ' '
    ensures Diverge(Minified(RenderMembers(members, true, d, tail)), RenderMembers(members, false, d, other))
    decreases members, 0
  {
    hide Minified, Diverge, RenderMember;
    var m, later := members[0], members[1..];
    var others, others' := RenderMembers(later, true, d, tail), RenderMembers(later, false, d, other);
    assert Newline(false) + others' == others';
    if EndsInBackslash(m.key) || !NoTrailingBackslash(m.value) {
      MisreadFirst(m, d, others, others', |members| == 1);
    } else {
      assert |members| > 1 && !MembersFine(later);
      MisreadMembers(later, d, tail, other);
      MisreadLater(m, d, others, others');
    }
  }

  /** A member in front of the misread one. */
  lemma {:induction false} MisreadLater(m: Member, d: nat, others: string, others': string)
    requires !EndsInBackslash(m.key) && NoTrailingBackslash(m.value) && Diverge(Minified(others), others')
    ensures Diverge(Minified(Indent(true, d) + RenderMember(m, true, d, "," + ("\n" + others))),
                    Indent(false, d) + RenderMember(m, false, d, "," + others'))
    decreases m, 2
  {
    hide Minified, Diverge, RenderMember;
    var text := RenderMember(m, true, d, "," + ("\n" + others));
    MinifyBlank(Indent(true, d), text);
    MinifyBlank("\n", others);
    MinifyPlainChar(',', "\n" + others);
    MinifyMember(m, d, "," + ("\n" + others));
    DivergeBehind(",", Minified(others), others');
    DivergeBehindMember(m, d, "," + Minified(others), "," + others');
    DivergeBehind(Indent(false, d), Minified(text), RenderMember(m, false, d, "," + others'));
    assert Indent(false, d) + Minified(text) == Minified(text);
  }

  lemma {:induction false} MisreadFirst(m: Member, d: nat, others: string, others': string, only: bool)
    requires EndsInBackslash(m.key) || !NoTrailingBackslash(m.value)
    requires others' != "" && others'[0] > ' '
    ensures var rest := if only then "\n" + others else "," + ("\n" + others);
            var rest' := if only then others' else "," + others';
            Diverge(Minified(Indent(true, d) + RenderMember(m, true, d, rest)),
                    Indent(false, d) + RenderMember(m, false, d, rest'))
    decreases m, 2
  {
    hide Minified, Diverge, RenderMember;
    var rest := if only then "\n" + others else "," + ("\n" + others);
    var rest' := if only then others' else "," + others';
    var i := if only then 0 else 1;
    assert rest[i] == '\n' && Unquoted(rest[..i + 1]) && rest'[i] > ' ';
    MisreadMember(m, d, rest, rest', i);
    var text := RenderMember(m, true, d, rest);
    MinifyBlank(Indent(true, d), text);
    assert Indent(false, d) + RenderMember(m, false, d, rest') == RenderMember(m, false, d, rest');
  }

  lemma DivergeBehindMember(m: Member, d: nat, a: string, b: string)
    requires Diverge(a, b)
    ensures Diverge(RenderMember(m, false, d, a), RenderMember(m, false, d, b))
  {
    hide Diverge;
    DivergeBehindValue(m.value, d, a, b);
    var x, y := Render(m.value, false, d, a), Render(m.value, false, d, b);
    DivergeBehind(Tab(false), x, y);
    DivergeBehind(":", Tab(false) + x, Tab(false) + y);
    DivergeBehind(Quote(m.key), ":" + (Tab(false) + x), ":" + (Tab(false) + y));
  }

  /** The first blank behind a member, or behind its key, is kept. */
  lemma {:induction false} MisreadMember(m: Member, d: nat, rest: string, rest': string, i: nat)
    requires EndsInBackslash(m.key) || !NoTrailingBackslash(m.value)
    requires i < |rest| && IsBlank(rest[i]) && Unquoted(rest[..i + 1]) && i < |rest'| && rest'[i] > ' '
    ensures Diverge(Minified(RenderMember(m, true, d, rest)), RenderMember(m, false, d, rest'))
    decreases m, 0
  {
    hide Minified, Diverge, Render;
    var value, value' := Render(m.value, true, d, rest), Render(m.value, false, d, rest');
    assert Tab(false) + value' == value';
    if EndsInBackslash(m.key) {
      assert ":" + ("\t" + value) == ":\t" + value;
      var y := MinifyOpenString(m.key, ":\t", value);
      BlankShows(":\t" + y, 1, ":" + value');
      DivergeBehind(Quote(m.key), ":\t" + y, ":" + value');
    } else {
      MinifyBlank("\t", value);
      MinifyPlainChar(':', "\t" + value);
      MinifyQuote(m.key, ":" + ("\t" + value));
      if EndsOpen(m.value) {
        var w := rest[..i + 1];
        assert w + rest[i + 1..] == rest;
        var y := MinifyOpen(m.value, d, w, rest[i + 1..]);
        BlankShows(w + y, i, rest');
        DivergeBehindValue(m.value, d, w + y, rest');
      } else {
        Misread(m.value, d, rest, rest');
      }
      DivergeBehind(":", Minified(value), value');
      DivergeBehind(Quote(m.key), ":" + Minified(value), ":" + value');
    }
  }

  // ----- The exact condition -----

  /** Minifying formatted output gives the unformatted output if and only if no string and no key ends in
      a backslash, or the one string that does is the last thing in the text. */
  lemma MinifyPrintedExactly(v: Json)
    ensures Minified(Printed(v, true)) == Printed(v, false) <==> NoTrailingBackslash(v) || EndsOpen(v)
  {
    hide Minified, Render;
    if NoTrailingBackslash(v) {
      MinifyPrinted(v);
    } else if EndsOpen(v) {
      assert "" + "" == "";
      var y := MinifyOpen(v, 0, "", "");
    } else {
      Misread(v, 0, "", "");
    }
  }
}
