/** JSON values, the text the printer produces for them and the values the parser finds in a text. */
module Json {
  import opened Text
  import opened Number
  import opened StringLiteral

  const NESTING_LIMIT: nat := 1000

  datatype Json =
    | Null
    | Bool(b: bool)
    | Num(d: real)
    | Str(s: string)
    | Arr(items: seq<Json>)
    | Obj(members: seq<Member>)

  datatype Member = Member(key: string, value: Json)

  /** How deeply arrays and objects are nested; 0 for a scalar. */
  function Nesting(v: Json): (n: nat)
    decreases v, 1
  {
    match v
    case Arr(items) => 1 + ItemsNesting(items)
    case Obj(members) => 1 + MembersNesting(members)
    case _ => 0
  }

  function ItemsNesting(items: seq<Json>): nat
    decreases items, 0
  {
    if items == [] then 0 else Max(Nesting(items[0]), ItemsNesting(items[1..]))
  }

  function MembersNesting(members: seq<Member>): nat
    decreases members, 0
  {
    if members == [] then 0 else Max(Nesting(members[0].value), MembersNesting(members[1..]))
  }

  function Max(m: nat, n: nat): nat {
    if m < n then n else m
  }

  /** The values the printer is modelled on: integers in int range, strings and keys without NUL (a C
      string cannot hold one), to any depth. */
  ghost predicate Printable(v: Json) {
    match v
    case Num(d) => d == Saturate(d) as real
    case Str(s) => NulFree(s)
    case Arr(items) => forall i :: 0 <= i < |items| ==> Printable(items[i])
    case Obj(members) =>
      forall i :: 0 <= i < |members| ==> NulFree(members[i].key) && Printable(members[i].value)
    case _ => true
  }

  ghost predicate AllPrintable(items: seq<Json>) {
    forall i :: 0 <= i < |items| ==> Printable(items[i])
  }

  ghost predicate MembersPrintable(members: seq<Member>) {
    forall i :: 0 <= i < |members| ==> NulFree(members[i].key) && Printable(members[i].value)
  }

  // ----- Rendering -----

  function Newline(fmt: bool): string { if fmt then "\n" else "" }

  function Space(fmt: bool): string { if fmt then " " else "" }

  function Tab(fmt: bool): string { if fmt then "\t" else "" }

  function Indent(fmt: bool, depth: nat): string { if fmt then Repeat('\t', depth) else "" }

  /** The text of a value, followed by `tail`.  `fmt` selects formatted printing and `depth` is the
      nesting depth around the value. */
  function Render(v: Json, fmt: bool, depth: nat, tail: string): (r: string)
    ensures r != "" && r[0] > ' ' && r[0] !in "]}\U{EF}"
    decreases v, 1
  {
    match v
    case Null => "null" + tail
    case Bool(b) => (if b then "true" else "false") + tail
    case Num(d) => Decimal(Saturate(d)) + tail
    case Str(s) => Quote(s) + tail
    case Arr(items) => "[" + RenderItems(items, fmt, depth + 1, "]" + tail)
    case Obj(members) =>
      "{" + (Newline(fmt) + RenderMembers(members, fmt, depth + 1, Indent(fmt, depth) + ("}" + tail)))
  }

  function RenderItems(items: seq<Json>, fmt: bool, depth: nat, tail: string): string
    decreases items, 0
  {
    if items == [] then tail
    else
      var others := RenderItems(items[1..], fmt, depth, tail);
      Render(items[0], fmt, depth, if |items| == 1 then others else "," + (Space(fmt) + others))
  }

  function RenderMembers(members: seq<Member>, fmt: bool, depth: nat, tail: string): string
    decreases members, 0
  {
    if members == [] then tail
    else
      var others := Newline(fmt) + RenderMembers(members[1..], fmt, depth, tail);
      Indent(fmt, depth) + RenderMember(members[0], fmt, depth, if |members| == 1 then others else "," + others)
  }

  function RenderMember(member: Member, fmt: bool, depth: nat, tail: string): (r: string)
    ensures r != "" && r[0] == '"'
    decreases member, 0
  {
    Quote(member.key) + (":" + (Tab(fmt) + Render(member.value, fmt, depth, tail)))
  }

  /** The text of a whole tree. */
  function Printed(v: Json, fmt: bool): string {
    Render(v, fmt, 0, "")
  }

  /** What follows a rendering is carried along unchanged. */
  lemma {:induction false} RenderTail(v: Json, fmt: bool, d: nat, tail: string)
    ensures Render(v, fmt, d, tail) == Render(v, fmt, d, "") + tail
    decreases v, 1
  {
    match v
    case Arr(items) =>
      RenderArrTail(items, fmt, d, tail);
    case Obj(members) =>
      RenderObjTail(members, fmt, d, tail);
    case _ =>
  }

  lemma {:induction false} RenderArrTail(items: seq<Json>, fmt: bool, d: nat, tail: string)
    ensures Render(Arr(items), fmt, d, tail) == Render(Arr(items), fmt, d, "") + tail
    decreases items, 1
  {
    var bare := RenderItems(items, fmt, d + 1, "");
    RenderItemsTail(items, fmt, d + 1, "]" + tail);
    RenderItemsTail(items, fmt, d + 1, "]" + "");
    Assoc(bare, "]", tail);
    Assoc("[", bare + "]", tail);
    assert "]" + "" == "]";
  }

  lemma {:induction false} RenderObjTail(members: seq<Member>, fmt: bool, d: nat, tail: string)
    ensures Render(Obj(members), fmt, d, tail) == Render(Obj(members), fmt, d, "") + tail
    decreases members, 1
  {
    var bare := RenderMembers(members, fmt, d + 1, "");
    var close := Indent(fmt, d);
    RenderMembersTail(members, fmt, d + 1, close + ("}" + tail));
    RenderMembersTail(members, fmt, d + 1, close + ("}" + ""));
    assert "}" + "" == "}";
    Assoc(close, "}", tail);
    Assoc(bare, close + "}", tail);
    Assoc(Newline(fmt), bare + (close + "}"), tail);
    Assoc("{", Newline(fmt) + (bare + (close + "}")), tail);
  }

  lemma {:induction false} RenderItemsTail(items: seq<Json>, fmt: bool, d: nat, tail: string)
    ensures RenderItems(items, fmt, d, tail) == RenderItems(items, fmt, d, "") + tail
    decreases items, 0
  {
    if items == [] {
    } else {
      RenderItemsTail(items[1..], fmt, d, tail);
      var bare, full := RenderItems(items[1..], fmt, d, ""), RenderItems(items[1..], fmt, d, tail);
      assert full == bare + tail;
      var bareRest := if |items| == 1 then bare else "," + (Space(fmt) + bare);
      var fullRest := if |items| == 1 then full else "," + (Space(fmt) + full);
      Assoc(Space(fmt), bare, tail);
      Assoc(",", Space(fmt) + bare, tail);
      assert fullRest == bareRest + tail;
      RenderTail(items[0], fmt, d, fullRest);
      RenderTail(items[0], fmt, d, bareRest);
      Assoc(Render(items[0], fmt, d, ""), bareRest, tail);
    }
  }

  lemma {:induction false} RenderMembersTail(members: seq<Member>, fmt: bool, d: nat, tail: string)
    ensures RenderMembers(members, fmt, d, tail) == RenderMembers(members, fmt, d, "") + tail
    decreases members, 0
  {
    if members == [] {
    } else {
      RenderMembersTail(members[1..], fmt, d, tail);
      var bare, full := RenderMembers(members[1..], fmt, d, ""), RenderMembers(members[1..], fmt, d, tail);
      Assoc(Newline(fmt), bare, tail);
      Assoc(",", Newline(fmt) + bare, tail);
      var bareRest := if |members| == 1 then Newline(fmt) + bare else "," + (Newline(fmt) + bare);
      RenderMemberTail(members[0], fmt, d, bareRest, tail);
      Assoc(Indent(fmt, d), RenderMember(members[0], fmt, d, bareRest), tail);
    }
  }

  lemma {:induction false} RenderMemberTail(member: Member, fmt: bool, d: nat, rest: string, tail: string)
    ensures RenderMember(member, fmt, d, rest + tail) == RenderMember(member, fmt, d, rest) + tail
    decreases member, 0
  {
    var value := Render(member.value, fmt, d, "");
    RenderTail(member.value, fmt, d, rest);
    RenderTail(member.value, fmt, d, rest + tail);
    Assoc(value, rest, tail);
    Assoc(Tab(fmt), value + rest, tail);
    Assoc(":", Tab(fmt) + (value + rest), tail);
    Assoc(Quote(member.key), ":" + (Tab(fmt) + (value + rest)), tail);
  }

  // ----- Parsing -----

  /** A parse: the value found and the text behind it. */
  datatype Parse<+T> = Fail | Found(value: T, rest: string)

  predicate IsWhite(c: char) {
    c <= ' '
  }

  /** buffer_skip_whitespace; it never moves past the last character of the buffer. */
  function SkipWhite(t: string): (r: string)
    ensures |r| <= |t|
    ensures t != "" ==> r != ""
  {
    var n := SpanLength(t, IsWhite);
    if t == "" then t
    else if n == |t| then t[n - 1..]
    else t[n..]
  }

  function ParseNumber(t: string): Parse<Json>
  {
    var c := Strtod(t[..SpanLength(t, IsNumberChar)]);
    if c.consumed == 0 then Fail else Found(Num(c.value), t[c.consumed..])
  }

  /** parse_value at the start of t, inside `depth` open containers.  Only the distance of the depth to the
      limit matters, so the functions are defined for every int. */
  function ParseValue(t: string, depth: int): (r: Parse<Json>)
    ensures r.Found? ==> |r.rest| < |t|
    decreases |t|, 1
  {
    if "null" <= t then Found(Null, t[4..])
    else if "false" <= t then Found(Bool(false), t[5..])
    else if "true" <= t then Found(Bool(true), t[4..])
    else if t == "" then Fail
    else if t[0] == '"' then
      var r := ReadString(t);
      if r.None? then Fail else Found(Str(r.value.0), r.value.1)
    else if t[0] == '-' || IsDigit(t[0]) then ParseNumber(t)
    else if t[0] == '[' then ParseArray(t, depth)
    else if t[0] == '{' then ParseObject(t, depth)
    else Fail
  }

  function ParseArray(t: string, depth: int): (r: Parse<Json>)
    requires t != "" && t[0] == '['
    ensures r.Found? ==> |r.rest| < |t|
    decreases |t|, 0
  {
    if depth >= NESTING_LIMIT then Fail
    else
      var u := SkipWhite(t[1..]);
      if u == "" then Fail
      else if u[0] == ']' then Found(Arr([]), u[1..])
      else
        var items := ParseItems(u, depth + 1);
        if items.Fail? then Fail else Found(Arr(items.value), items.rest)
  }

  /** Elements up to and including the closing bracket; t starts behind '[' or ','. */
  function ParseItems(t: string, depth: int): (r: Parse<seq<Json>>)
    ensures r.Found? ==> |r.rest| < |t|
    decreases |t|, 2
  {
    var first := ParseValue(SkipWhite(t), depth);
    if first.Fail? then Fail
    else
      var u := SkipWhite(first.rest);
      if u == "" then Fail
      else if u[0] == ',' then
        var others := ParseItems(u[1..], depth);
        if others.Fail? then Fail else Found([first.value] + others.value, others.rest)
      else if u[0] == ']' then Found([first.value], u[1..])
      else Fail
  }

  function ParseObject(t: string, depth: int): (r: Parse<Json>)
    requires t != "" && t[0] == '{'
    ensures r.Found? ==> |r.rest| < |t|
    decreases |t|, 0
  {
    if depth >= NESTING_LIMIT then Fail
    else
      var u := SkipWhite(t[1..]);
      if u == "" then Fail
      else if u[0] == '}' then Found(Obj([]), u[1..])
      else
        var members := ParseMembers(u, depth + 1);
        if members.Fail? then Fail else Found(Obj(members.value), members.rest)
  }

  /** The key and the colon of a member. */
  function ParseKey(t: string): (r: Parse<string>)
    ensures r.Found? ==> |r.rest| < |t|
  {
    var name := ReadString(SkipWhite(t));
    if name.None? then Fail
    else
      var u := SkipWhite(name.value.1);
      if u == "" || u[0] != ':' then Fail else Found(name.value.0, u[1..])
  }

  /** Members up to and including the closing brace; t starts behind '{' or ','. */
  function ParseMembers(t: string, depth: int): (r: Parse<seq<Member>>)
    ensures r.Found? ==> |r.rest| < |t|
    decreases |t|, 2
  {
    var key := ParseKey(t);
    if key.Fail? then Fail
    else
      var value := ParseValue(SkipWhite(key.rest), depth);
      if value.Fail? then Fail
      else
        var member := Member(key.value, value.value);
        var u := SkipWhite(value.rest);
        if u == "" then Fail
        else if u[0] == ',' then
          var others := ParseMembers(u[1..], depth);
          if others.Fail? then Fail else Found([member] + others.value, others.rest)
        else if u[0] == '}' then Found([member], u[1..])
        else Fail
  }

  /** cJSON_Parse: the terminating NUL belongs to the buffer, a byte order mark is
      skipped, and whatever follows the first value is ignored. */
  function ParseText(s: string): Option<Json> {
    var t := CString(s) + "\0";
    var bom := |t| > 4 && t[..3] == "\U{EF}\U{BB}\U{BF}";
    var r := ParseValue(SkipWhite(if bom then t[3..] else t), 0);
    if r.Fail? then None else Some(r.value)
  }
}
