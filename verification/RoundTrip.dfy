/** Printing and then parsing gives the value back, exactly when it is not nested too deeply. */
module RoundTrip {
  import opened Text
  import opened Number
  import opened StringLiteral
  import opened Json

  predicate AllWhite(w: string) {
    forall i :: 0 <= i < |w| ==> IsWhite(w[i])
  }

  lemma SkipWhitePrefix(w: string, t: string)
    requires AllWhite(w) && t != "" && !IsWhite(t[0])
    ensures SkipWhite(w + t) == t
  {
    SpanLengthIs(w + t, IsWhite, |w|);
    assert (w + t)[|w|..] == t;
  }

  lemma SkipNothing(t: string)
    requires t != "" && !IsWhite(t[0])
    ensures SkipWhite(t) == t
  {
    SkipWhitePrefix("", t);
    assert "" + t == t;
  }

  /** What may follow a value for a number in it to end where it should. */
  predicate EndsNumber(rest: string) {
    rest != "" && !IsNumberChar(rest[0])
  }

  function Expected<T>(v: T, nesting: nat, depth: int, rest: string): Parse<T> {
    if depth + nesting <= NESTING_LIMIT then Found(v, rest) else Fail
  }

  // ----- Single steps of the parser -----

  lemma StepNumber(n: int, depth: int, rest: string)
    requires InIntRange(n) && EndsNumber(rest)
    ensures ParseValue(Decimal(n) + rest, depth) == Found(Num(n as real), rest)
  {
    var t := Decimal(n) + rest;
    SpanLengthIs(t, IsNumberChar, |Decimal(n)|);
    assert t[..|Decimal(n)|] == Decimal(n);
    assert t[|Decimal(n)|..] == rest;
    StrtodDecimal(n);
    assert t[0] == Decimal(n)[0];
  }

  lemma StepWord(v: Json, word: string, depth: int, rest: string)
    requires (v, word) in {(Null, "null"), (Bool(false), "false"), (Bool(true), "true")}
    ensures ParseValue(word + rest, depth) == Found(v, rest)
  {
    assert (word + rest)[|word|..] == rest;
    assert (word + rest)[0] == word[0];
  }

  lemma StepString(s: string, depth: int, rest: string)
    requires NulFree(s)
    ensures ParseValue(Quote(s) + rest, depth) == Found(Str(s), rest)
  {
    ReadQuote(s, rest);
  }

  lemma NoWord(t: string)
    requires t != "" && t[0] != 'n' && t[0] != 'f' && t[0] != 't'
    ensures !("null" <= t) && !("false" <= t) && !("true" <= t)
  {
    assert "null"[0] == 'n' && "false"[0] == 'f' && "true"[0] == 't';
  }

  lemma StepArray(s: string, depth: int)
    ensures ParseValue("[" + s, depth)
         == var u := SkipWhite(s);
            if depth >= NESTING_LIMIT || u == "" then Fail
            else if u[0] == ']' then Found(Arr([]), u[1..])
            else
              var items := ParseItems(u, depth + 1);
              if items.Fail? then Fail else Found(Arr(items.value), items.rest)
  {
    hide SkipWhite, ParseItems, ParseObject, ParseNumber, ReadString;
    NoWord("[" + s);
    assert ("[" + s)[1..] == s;
  }

  lemma StepObject(s: string, depth: int)
    ensures ParseValue("{" + s, depth)
         == var u := SkipWhite(s);
            if depth >= NESTING_LIMIT || u == "" then Fail
            else if u[0] == '}' then Found(Obj([]), u[1..])
            else
              var members := ParseMembers(u, depth + 1);
              if members.Fail? then Fail else Found(Obj(members.value), members.rest)
  {
    hide SkipWhite, ParseMembers, ParseArray, ParseNumber, ReadString;
    NoWord("{" + s);
    assert ("{" + s)[1..] == s;
  }

  lemma StepKey(w: string, key: string, gap: string, u: string)
    requires AllWhite(w) && NulFree(key)
    ensures ParseKey(w + (Quote(key) + (":" + (gap + u)))) == Found(key, gap + u)
  {
    var colon := ":" + (gap + u);
    SkipWhitePrefix(w, Quote(key) + colon);
    ReadQuote(key, colon);
    SkipNothing(colon);
    assert colon[1..] == gap + u;
  }

  lemma StepItem(w: string, t: string, depth: int, more: bool, u: string)
    requires AllWhite(w) && t != "" && !IsWhite(t[0])
    requires var first := ParseValue(t, depth);
             first.Found? ==> first.rest == (if more then "," else "]") + u
    ensures ParseItems(w + t, depth)
         == var first := ParseValue(t, depth);
            if first.Fail? then Fail
            else if !more then Found([first.value], u)
            else
              var others := ParseItems(u, depth);
              if others.Fail? then Fail else Found([first.value] + others.value, others.rest)
  {
    SkipWhitePrefix(w, t);
    var first := ParseValue(t, depth);
    if first.Found? {
      SkipNothing(first.rest);
      assert first.rest[1..] == u;
    }
  }

  // ----- The round trip -----

  /** The round trip inside any context: behind the printed value the text goes on with `rest`, and
      `depth` containers are open around it. */
  lemma {:induction false} ParseRendered(v: Json, fmt: bool, d: nat, depth: int, rest: string)
    requires Printable(v) && depth <= NESTING_LIMIT && EndsNumber(rest)
    ensures ParseValue(Render(v, fmt, d, rest), depth) == Expected(v, Nesting(v), depth, rest)
    decreases v, 1
  {
    match v
    case Null => StepWord(v, "null", depth, rest);
    case Bool(b) => StepWord(v, if b then "true" else "false", depth, rest);
    case Num(x) => StepNumber(Saturate(x), depth, rest);
    case Str(s) => StepString(s, depth, rest);
    case Arr(items) => ParseRenderedArray(items, fmt, d, depth, rest);
    case Obj(members) => ParseRenderedObject(members, fmt, d, depth, rest);
  }

  lemma {:induction false} ParseRenderedArray(items: seq<Json>, fmt: bool, d: nat, depth: int, rest: string)
    requires AllPrintable(items) && depth <= NESTING_LIMIT
    ensures ParseValue(Render(Arr(items), fmt, d, rest), depth)
         == Expected(Arr(items), Nesting(Arr(items)), depth, rest)
    decreases items, 2
  {
    hide ParseValue, ParseItems;
    var inner := RenderItems(items, fmt, d + 1, "]" + rest);
    StepArray(inner, depth);
    if items != [] && depth < NESTING_LIMIT {
      assert "" + inner == inner;
      ParseRenderedItems(items, fmt, d + 1, depth + 1, "", rest);
    }
  }

  /** What is expected of a list, one element at a time. */
  lemma ExpectedItems(items: seq<Json>, depth: int, rest: string)
    requires items != []
    ensures Expected(items, ItemsNesting(items), depth, rest)
         == if depth + Nesting(items[0]) > NESTING_LIMIT then Fail
            else if |items| == 1 then Expected([items[0]], 0, depth, rest)
            else
              var others := Expected(items[1..], ItemsNesting(items[1..]), depth, rest);
              if others.Fail? then Fail else Found([items[0]] + others.value, others.rest)
  {
    hide Nesting;
    if |items| == 1 {
      assert items == [items[0]] && items[1..] == [];
    } else {
      assert items == [items[0]] + items[1..];
    }
  }

  lemma {:induction false} ParseRenderedItems(items: seq<Json>, fmt: bool, d: nat, depth: int, w: string, rest: string)
    requires items != [] && AllPrintable(items) && depth <= NESTING_LIMIT && AllWhite(w)
    ensures ParseItems(w + RenderItems(items, fmt, d, "]" + rest), depth)
         == Expected(items, ItemsNesting(items), depth, rest)
    decreases items, 1
  {
    hide ParseValue, ParseItems, Render, Nesting, ItemsNesting, Printable;
    var others := RenderItems(items[1..], fmt, d, "]" + rest);
    var more := |items| > 1;
    var u := if more then Space(fmt) + others else rest;
    var after := if more then "," + u else "]" + u;
    ExpectedItems(items, depth, rest);
    ParseRendered(items[0], fmt, d, depth, after);
    StepItem(w, Render(items[0], fmt, d, after), depth, more, u);
    if more {
      ParseRenderedItems(items[1..], fmt, d, depth, Space(fmt), rest);
    } else {
      assert items[1..] == [];
    }
  }

  /** What stands behind the first member. */
  function AfterMember(members: seq<Member>, fmt: bool, d: nat, tail: string): string
    requires members != []
  {
    var others := Newline(fmt) + RenderMembers(members[1..], fmt, d, tail);
    if |members| == 1 then others else "," + others
  }

  lemma {:induction false} ParseRenderedObject(members: seq<Member>, fmt: bool, d: nat, depth: int, rest: string)
    requires MembersPrintable(members) && depth <= NESTING_LIMIT
    ensures ParseValue(Render(Obj(members), fmt, d, rest), depth)
         == Expected(Obj(members), Nesting(Obj(members)), depth, rest)
    decreases members, 2
  {
    hide ParseValue, ParseMembers, SkipWhite, RenderMember;
    var tail := Indent(fmt, d) + ("}" + rest);
    if members == [] {
      var w := Newline(fmt) + Indent(fmt, d);
      Assoc(Newline(fmt), Indent(fmt, d), "}" + rest);
      SkipWhitePrefix(w, "}" + rest);
      StepObject(w + ("}" + rest), depth);
    } else {
      var w := Newline(fmt) + Indent(fmt, d + 1);
      var after := AfterMember(members, fmt, d + 1, tail);
      var u := RenderMember(members[0], fmt, d + 1, after);
      Assoc(Newline(fmt), Indent(fmt, d + 1), u);
      SkipWhitePrefix(w, u);
      StepObject(w + u, depth);
      if depth < NESTING_LIMIT {
        assert "" + u == u;
        ParseRenderedMembers(members, fmt, d + 1, depth + 1, "", Indent(fmt, d), rest);
      }
    }
  }

  /** After a member comes white space and then either a comma or the closing brace. */
  lemma StepMember(t: string, key: string, gap: string, value: string, depth: int, w: string, u: string)
    requires ParseKey(t) == Found(key, gap + value)
    requires AllWhite(gap) && value != "" && !IsWhite(value[0]) && AllWhite(w)
    requires u != "" && (u[0] == ',' || u[0] == '}')
    requires ParseValue(value, depth).Found? ==> ParseValue(value, depth).rest == w + u
    ensures ParseMembers(t, depth)
         == var v := ParseValue(value, depth);
            if v.Fail? then Fail
            else if u[0] == '}' then Found([Member(key, v.value)], u[1..])
            else
              var others := ParseMembers(u[1..], depth);
              if others.Fail? then Fail else Found([Member(key, v.value)] + others.value, others.rest)
  {
    SkipWhitePrefix(gap, value);
    SkipWhitePrefix(w, u);
  }

  lemma {:induction false} ParseRenderedMembers(members: seq<Member>, fmt: bool, d: nat, depth: int, w: string,
                                                close: string, rest: string)
    requires members != [] && MembersPrintable(members) && depth <= NESTING_LIMIT
    requires AllWhite(w) && AllWhite(close)
    ensures ParseMembers(w + RenderMember(members[0], fmt, d, AfterMember(members, fmt, d, close + ("}" + rest))),
                         depth)
         == Expected(members, MembersNesting(members), depth, rest)
    decreases members, 1
  {
    hide ParseValue, ParseMembers, ParseKey, Render, Printable, Nesting, Quote, NulFree;
    var tail := close + ("}" + rest);
    var key, v := members[0].key, members[0].value;
    var after := AfterMember(members, fmt, d, tail);
    var value := Render(v, fmt, d, after);
    var t := w + RenderMember(members[0], fmt, d, after);
    StepKey(w, key, Tab(fmt), value);
    if |members| > 1 {
      var indent := Newline(fmt) + Indent(fmt, d);
      var next := RenderMember(members[1], fmt, d, AfterMember(members[1..], fmt, d, tail));
      Assoc(Newline(fmt), Indent(fmt, d), next);
      ParseRendered(v, fmt, d, depth, after);
      ParseRenderedMembers(members[1..], fmt, d, depth, indent, close, rest);
      StepMember(t, key, Tab(fmt), value, depth, "", after);
      assert "" + after == after && after[1..] == indent + next;
      assert members == [Member(key, v)] + members[1..];
    } else {
      var space := Newline(fmt) + close;
      Assoc(Newline(fmt), close, "}" + rest);
      assert EndsNumber(after);
      ParseRendered(v, fmt, d, depth, after);
      StepMember(t, key, Tab(fmt), value, depth, space, "}" + rest);
      assert members == [Member(key, v)];
    }
  }

  // ----- A rendering is a C string -----

  lemma {:induction false} RenderNulFree(v: Json, fmt: bool, d: nat, tail: string)
    requires Printable(v) && NulFree(tail)
    ensures NulFree(Render(v, fmt, d, tail))
    decreases v, 1
  {
    match v
    case Arr(items) =>
      RenderItemsNulFree(items, fmt, d + 1, "]" + tail);
    case Obj(members) =>
      RenderMembersNulFree(members, fmt, d + 1, Indent(fmt, d) + ("}" + tail));
    case _ =>
  }

  lemma {:induction false} RenderItemsNulFree(items: seq<Json>, fmt: bool, d: nat, tail: string)
    requires AllPrintable(items) && NulFree(tail)
    ensures NulFree(RenderItems(items, fmt, d, tail))
    decreases items, 0
  {
    if items != [] {
      var others := RenderItems(items[1..], fmt, d, tail);
      RenderItemsNulFree(items[1..], fmt, d, tail);
      RenderNulFree(items[0], fmt, d, if |items| == 1 then others else "," + (Space(fmt) + others));
    }
  }

  lemma {:induction false} RenderMembersNulFree(members: seq<Member>, fmt: bool, d: nat, tail: string)
    requires MembersPrintable(members) && NulFree(tail)
    ensures NulFree(RenderMembers(members, fmt, d, tail))
    decreases members, 0
  {
    assert NulFree(Newline(fmt)) && NulFree(Indent(fmt, d)) && NulFree(",");
    hide NulFree;
    if members != [] {
      var bare := RenderMembers(members[1..], fmt, d, tail);
      var others := Newline(fmt) + bare;
      RenderMembersNulFree(members[1..], fmt, d, tail);
      JoinedNulFree(Newline(fmt), bare);
      JoinedNulFree(",", others);
      var rest := if |members| == 1 then others else "," + others;
      RenderMemberNulFree(members[0], fmt, d, rest);
      JoinedNulFree(Indent(fmt, d), RenderMember(members[0], fmt, d, rest));
    }
  }

  lemma RenderMemberNulFree(member: Member, fmt: bool, d: nat, tail: string)
    requires NulFree(member.key) && Printable(member.value) && NulFree(tail)
    ensures NulFree(RenderMember(member, fmt, d, tail))
    decreases member, 0
  {
    RenderNulFree(member.value, fmt, d, tail);
  }

  lemma JoinedNulFree(a: string, b: string)
    requires NulFree(a) && NulFree(b)
    ensures NulFree(a + b)
  {
  }

  // ----- Main results -----

  /** For every printable tree, in both print formats: the printed text parses if and only if the tree
      is nested at most NESTING_LIMIT deep, and then to the same tree. */
  lemma PrintThenParse(v: Json, fmt: bool)
    requires Printable(v)
    ensures ParseText(Printed(v, fmt)) == if Nesting(v) <= NESTING_LIMIT then Some(v) else None
  {
    hide ParseValue, Render, SkipWhite, Nesting, Printable;
    var t := Render(v, fmt, 0, "\0");
    RenderNulFree(v, fmt, 0, "");
    RenderTail(v, fmt, 0, "\0");
    assert CString(Printed(v, fmt)) + "\0" == t && t[0] != '\U{EF}';
    SkipNothing(t);
    ParseRendered(v, fmt, 0, 0, "\0");
  }

  /** Different trees have different texts, however deep they are: print loses nothing. */
  lemma PrintedInjective(v: Json, w: Json, fmt: bool)
    requires Printable(v) && Printable(w) && Printed(v, fmt) == Printed(w, fmt)
    ensures v == w
  {
    hide ParseValue, Render, Nesting, Printable;
    var depth := NESTING_LIMIT - Max(Nesting(v), Nesting(w));
    RenderTail(v, fmt, 0, "\0");
    RenderTail(w, fmt, 0, "\0");
    ParseRendered(v, fmt, 0, depth, "\0");
    ParseRendered(w, fmt, 0, depth, "\0");
  }

  // ----- The other way round -----

  /** All numbers are integers in int range: the ones "%d" prints. */
  ghost predicate IntNumbers(v: Json) {
    match v
    case Num(d) => d == Saturate(d) as real
    case Arr(items) => forall i :: 0 <= i < |items| ==> IntNumbers(items[i])
    case Obj(members) => forall i :: 0 <= i < |members| ==> IntNumbers(members[i].value)
    case _ => true
  }

  /** No string and no key holds a NUL. */
  ghost predicate CStrings(v: Json) {
    match v
    case Str(s) => NulFree(s)
    case Arr(items) => forall i :: 0 <= i < |items| ==> CStrings(items[i])
    case Obj(members) => forall i :: 0 <= i < |members| ==> NulFree(members[i].key) && CStrings(members[i].value)
    case _ => true
  }

  /** What can be printed: C strings and integers. */
  lemma {:induction false} PrintableIs(v: Json)
    ensures Printable(v) <==> CStrings(v) && IntNumbers(v)
    decreases v
  {
    match v
    case Arr(items) =>
      forall i | 0 <= i < |items| ensures Printable(items[i]) <==> CStrings(items[i]) && IntNumbers(items[i]) {
        PrintableIs(items[i]);
      }
    case Obj(members) =>
      forall i | 0 <= i < |members|
        ensures Printable(members[i].value) <==> CStrings(members[i].value) && IntNumbers(members[i].value)
      {
        PrintableIs(members[i].value);
      }
    case _ =>
  }

  /** Whatever its numbers are, what parsing finds has C strings and respects the nesting limit. */
  lemma {:induction false} ParsedShape(t: string, depth: int)
    requires depth <= NESTING_LIMIT
    ensures var r := ParseValue(t, depth);
            r.Found? ==> depth + Nesting(r.value) <= NESTING_LIMIT && CStrings(r.value)
    decreases |t|, 1
  {
    hide SkipWhite, ReadString, Strtod;
    if ParseValue(t, depth).Found? && ParseValue(t, depth).value.Arr? {
      var u := SkipWhite(t[1..]);
      if u != "" && u[0] != ']' { ParsedItems(u, depth + 1); }
    } else if ParseValue(t, depth).Found? && ParseValue(t, depth).value.Obj? {
      var u := SkipWhite(t[1..]);
      if u != "" && u[0] != '}' { ParsedMembers(u, depth + 1); }
    }
  }

  lemma {:induction false} ParsedItems(t: string, depth: int)
    requires depth <= NESTING_LIMIT
    ensures var r := ParseItems(t, depth);
            r.Found? ==> depth + ItemsNesting(r.value) <= NESTING_LIMIT
                         && forall i :: 0 <= i < |r.value| ==> CStrings(r.value[i])
    decreases |t|, 2
  {
    hide SkipWhite, ParseValue, CStrings;
    if ParseItems(t, depth).Found? {
      ParsedShape(SkipWhite(t), depth);
      var u := SkipWhite(ParseValue(SkipWhite(t), depth).rest);
      if u[0] == ',' { ParsedItems(u[1..], depth); }
    }
  }

  lemma {:induction false} ParsedMembers(t: string, depth: int)
    requires depth <= NESTING_LIMIT
    ensures var r := ParseMembers(t, depth);
            r.Found? ==> depth + MembersNesting(r.value) <= NESTING_LIMIT
                         && forall i :: 0 <= i < |r.value| ==> NulFree(r.value[i].key) && CStrings(r.value[i].value)
    decreases |t|, 2
  {
    hide SkipWhite, ParseValue, CStrings, NulFree;
    if ParseMembers(t, depth).Found? {
      var key := ParseKey(t);
      ParsedShape(SkipWhite(key.rest), depth);
      var u := SkipWhite(ParseValue(SkipWhite(key.rest), depth).rest);
      if u[0] == ',' { ParsedMembers(u[1..], depth); }
    }
  }

  /** Every parsed tree has C strings and is within the nesting limit. */
  lemma ParsedStrings(s: string)
    requires ParseText(s).Some?
    ensures CStrings(ParseText(s).value) && Nesting(ParseText(s).value) <= NESTING_LIMIT
  {
    hide ParseValue, SkipWhite, CStrings;
    var t := CString(s) + "\0";
    var bom := |t| > 4 && t[..3] == "\U{EF}\U{BB}\U{BF}";
    ParsedShape(SkipWhite(if bom then t[3..] else t), 0);
  }

  /** A text that parses to integers can be printed and parsed again without change, in both formats,
      however it was laid out. */
  lemma ParseThenPrint(s: string, fmt: bool)
    requires ParseText(s).Some? && IntNumbers(ParseText(s).value)
    ensures ParseText(Printed(ParseText(s).value, fmt)) == ParseText(s)
  {
    ParsedStrings(s);
    PrintableIs(ParseText(s).value);
    PrintThenParse(ParseText(s).value, fmt);
  }
}
