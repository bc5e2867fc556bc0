/** JSON texts however they are laid out: what a text spells is defined without the parser, and the parser
    finds exactly that. */
module Layout {
  import opened Text
  import opened Number
  import opened Numeral
  import opened StringLiteral
  import opened LiteralExact
  import opened Json
  import opened RoundTrip

  /** A value as it is written. */
  datatype Laid =
    | LaidNull
    | LaidBool(b: bool)
    | LaidNumber(n: Numeral)
    | LaidString(ps: seq<Piece>)
    | LaidArray(inside: string, slots: seq<Slot>)
    | LaidObject(inside: string, entries: seq<Entry>)

  /** An element with the gaps around it. */
  datatype Slot = Slot(before: string, v: Laid, after: string)

  /** A member with the gaps around its key and around its value. */
  datatype Entry = Entry(before: string, key: seq<Piece>, behindKey: string, behindColon: string, v: Laid,
                         after: string)

  predicate Gap(w: string) {
    forall i :: 0 <= i < |w| ==> w[i] <= ' '
  }

  predicate ValidString(ps: seq<Piece>) {
    AllReadable(ps) && Paired(Spelled(ps))
  }

  /** A number in a JSON text begins with a digit or a minus sign. */
  predicate ValidNumber(n: Numeral) {
    n.Valid() && (n.sign == "-" || (n.sign == "" && n.whole != ""))
  }

  predicate Valid(l: Laid) {
    match l
    case LaidNumber(n) => ValidNumber(n)
    case LaidString(ps) => ValidString(ps)
    case LaidArray(inside, slots) =>
      && Gap(inside)
      && forall i :: 0 <= i < |slots| ==> Gap(slots[i].before) && Gap(slots[i].after) && Valid(slots[i].v)
    case LaidObject(inside, entries) =>
      && Gap(inside)
      && forall i :: 0 <= i < |entries| ==>
           && Gap(entries[i].before) && Gap(entries[i].behindKey) && Gap(entries[i].behindColon)
           && Gap(entries[i].after) && ValidString(entries[i].key) && Valid(entries[i].v)
    case _ => true
  }

  predicate ValidSlots(slots: seq<Slot>) {
    forall i :: 0 <= i < |slots| ==> Gap(slots[i].before) && Gap(slots[i].after) && Valid(slots[i].v)
  }

  predicate ValidEntries(entries: seq<Entry>) {
    forall i :: 0 <= i < |entries| ==>
      && Gap(entries[i].before) && Gap(entries[i].behindKey) && Gap(entries[i].behindColon)
      && Gap(entries[i].after) && ValidString(entries[i].key) && Valid(entries[i].v)
  }

  // ----- The text -----

  function Quoted(ps: seq<Piece>, rest: string): string
    requires AllReadable(ps)
  {
    "\"" + Spelled(ps) + "\"" + rest
  }

  /** The text of a value with `rest` behind it. */
  function Written(l: Laid, rest: string): (r: string)
    requires Valid(l)
    ensures r != "" && ' ' < r[0] <= '~'
    decreases l, 1
  {
    match l
    case LaidNull => "null" + rest
    case LaidBool(b) => (if b then "true" else "false") + rest
    case LaidNumber(n) => NumberStarts(n, rest); n.Spelling() + rest
    case LaidString(ps) => Quoted(ps, rest)
    case LaidArray(inside, slots) =>
      "[" + if slots == [] then inside + ("]" + rest) else WrittenSlots(slots, "]" + rest)
    case LaidObject(inside, entries) =>
      "{" + if entries == [] then inside + ("}" + rest) else WrittenEntries(entries, "}" + rest)
  }

  function WrittenSlots(slots: seq<Slot>, rest: string): string
    requires slots != [] && ValidSlots(slots)
    decreases slots, 1
  {
    slots[0].before + FirstSlot(slots, rest)
  }

  /** The elements without the gap in front. */
  function FirstSlot(slots: seq<Slot>, rest: string): (r: string)
    requires slots != [] && ValidSlots(slots)
    ensures r != "" && ' ' < r[0] <= '~'
    decreases slots, 0
  {
    var tail := if |slots| == 1 then rest else "," + WrittenSlots(slots[1..], rest);
    Written(slots[0].v, slots[0].after + tail)
  }

  function WrittenEntries(entries: seq<Entry>, rest: string): string
    requires entries != [] && ValidEntries(entries)
    decreases entries, 1
  {
    entries[0].before + FirstEntry(entries, rest)
  }

  function FirstEntry(entries: seq<Entry>, rest: string): (r: string)
    requires entries != [] && ValidEntries(entries)
    ensures r != "" && r[0] == '"'
    decreases entries, 0
  {
    var tail := if |entries| == 1 then rest else "," + WrittenEntries(entries[1..], rest);
    var e := entries[0];
    Quoted(e.key, e.behindKey + (":" + (e.behindColon + Written(e.v, e.after + tail))))
  }

  lemma NumberStarts(n: Numeral, rest: string)
    requires ValidNumber(n)
    ensures var t := n.Spelling() + rest;
            t != "" && (t[0] == '-' || IsDigit(t[0]))
  {
  }

  // ----- What it stands for -----

  function TextOf(ps: seq<Piece>): string
    requires AllReadable(ps)
  {
    CString(Denoted(ps))
  }

  function Meaning(l: Laid): Json
    requires Valid(l)
    decreases l, 1
  {
    match l
    case LaidNull => Null
    case LaidBool(b) => Bool(b)
    case LaidNumber(n) => Num(n.Meaning())
    case LaidString(ps) => Str(TextOf(ps))
    case LaidArray(_, slots) => Arr(SlotsMeaning(slots))
    case LaidObject(_, entries) => Obj(EntriesMeaning(entries))
  }

  function SlotsMeaning(slots: seq<Slot>): (r: seq<Json>)
    requires ValidSlots(slots)
    ensures |r| == |slots|
    decreases slots, 0
  {
    if slots == [] then [] else [Meaning(slots[0].v)] + SlotsMeaning(slots[1..])
  }

  function EntriesMeaning(entries: seq<Entry>): (r: seq<Member>)
    requires ValidEntries(entries)
    ensures |r| == |entries|
    decreases entries, 0
  {
    if entries == [] then []
    else [Member(TextOf(entries[0].key), Meaning(entries[0].v))] + EntriesMeaning(entries[1..])
  }

  /** Behind a number the text must not go on as the number could. */
  predicate Stops(l: Laid, rest: string) {
    l.LaidNumber? ==> l.n.Ends(rest)
  }

  // ----- Numbers and strings -----

  lemma SpellingIsToken(n: Numeral, rest: string)
    requires n.Valid()
    ensures |n.Spelling()| <= SpanLength(n.Spelling() + rest, IsNumberChar)
  {
    NumberChars(n);
    hide Numeral.Spelling, SpanLength;
    var t, k := n.Spelling() + rest, SpanLength(n.Spelling() + rest, IsNumberChar);
    assert forall i :: 0 <= i < |n.Spelling()| ==> t[i] == n.Spelling()[i];
  }

  lemma NumberChars(n: Numeral)
    requires n.Valid()
    ensures forall i :: 0 <= i < |n.Spelling()| ==> IsNumberChar(n.Spelling()[i])
  {
    var power := PowerText(n);
    var point := if n.fraction.None? then "" else "." + n.fraction.value;
    assert forall i :: 0 <= i < |power| ==> IsNumberChar(power[i]);
    assert forall i :: 0 <= i < |point| ==> IsNumberChar(point[i]);
    assert forall i :: 0 <= i < |n.whole| ==> IsNumberChar(n.whole[i]);
    hide PowerText;
    assert n.Spelling() == n.sign + (n.whole + (point + power)) by { PowerTextIs(n); }
  }

  lemma NumberReads(n: Numeral, rest: string)
    requires n.Valid() && n.Ends(rest)
    ensures ParseNumber(n.Spelling() + rest) == Found(Num(n.Meaning()), rest)
  {
    hide Strtod, SpanLength, Numeral.Spelling, Numeral.Meaning;
    var t := n.Spelling() + rest;
    var k := SpanLength(t, IsNumberChar);
    SpellingIsToken(n, rest);
    var part := rest[..k - |n.Spelling()|];
    assert t[..k] == n.Spelling() + part;
    EndsEarlier(n, part, rest);
    StrtodReads(n, part);
    NotEmpty(n);
    assert t[|n.Spelling()|..] == rest;
  }

  lemma NotEmpty(n: Numeral)
    requires n.Valid()
    ensures |n.Spelling()| > 0
  {
  }

  lemma EndsEarlier(n: Numeral, part: string, rest: string)
    requires n.Ends(rest) && part <= rest
    ensures n.Ends(part)
  {
  }

  lemma EndsLater(n: Numeral, part: string, rest: string)
    requires n.Ends(part) && part <= rest && (|part| < |rest| ==> !IsNumberChar(rest[|part|]))
    ensures n.Ends(rest)
  {
  }

  lemma NumberFinds(t: string) returns (n: Numeral)
    requires t != "" && (t[0] == '-' || IsDigit(t[0])) && ParseNumber(t).Found?
    ensures ValidNumber(n) && t == n.Spelling() + ParseNumber(t).rest && n.Ends(ParseNumber(t).rest)
    ensures ParseNumber(t).value == Num(n.Meaning())
  {
    hide Strtod, Numeral.Meaning;
    var k := SpanLength(t, IsNumberChar);
    var part: string;
    n, part := StrtodFinds(t[..k]);
    hide SpanLength;
    var rest := ParseNumber(t).rest;
    assert rest == t[|n.Spelling()|..];
    assert t[..k] == n.Spelling() + part && part == t[|n.Spelling()|..k];
    EndsLater(n, part, rest);
    StartOf(n, t);
  }

  lemma StartOf(n: Numeral, t: string)
    requires n.Valid() && n.Spelling() <= t && t != "" && (t[0] == '-' || IsDigit(t[0]))
    ensures ValidNumber(n)
  {
    assert n.Spelling()[0] == t[0];
  }

  lemma StringReads(ps: seq<Piece>, rest: string)
    requires ValidString(ps)
    ensures ReadString(Quoted(ps, rest)) == Some((TextOf(ps), rest))
  {
    hide ReadString, Paired, AllReadable, Spelled, Denoted, CString;
    assert IsLiteral(Quoted(ps, rest), ps, rest);
    LiteralsExactly(Quoted(ps, rest), TextOf(ps), rest);
  }

  lemma StringFinds(t: string) returns (ps: seq<Piece>)
    requires ReadString(t).Some?
    ensures ValidString(ps) && t == Quoted(ps, ReadString(t).value.1) && TextOf(ps) == ReadString(t).value.0
  {
    hide ReadString, Paired, AllReadable, Spelled, Denoted, CString;
    var r := ReadString(t).value;
    LiteralsExactly(t, r.0, r.1);
    ps :| IsLiteral(t, ps, r.1) && r.0 == CString(Denoted(ps));
  }

  // ----- Steps of the parser -----

  lemma GapSkipped(w: string, t: string)
    requires Gap(w) && t != "" && t[0] > ' '
    ensures SkipWhite(w + t) == t
  {
    SkipWhitePrefix(w, t);
  }

  /** Skipping white space drops a gap, and stops behind it if there is anything left. */
  lemma GapFound(t: string) returns (w: string)
    ensures Gap(w) && t == w + SkipWhite(t)
  {
    w := t[..|t| - |SkipWhite(t)|];
  }

  lemma ArrayStep(w: string, t: string, depth: int)
    requires Gap(w) && t != "" && t[0] > ' '
    ensures ParseValue("[" + (w + t), depth)
         == if depth >= 1000 then Fail
            else if t[0] == ']' then Found(Arr([]), t[1..])
            else
              var items := ParseItems(t, depth + 1);
              if items.Fail? then Fail else Found(Arr(items.value), items.rest)
  {
    GapSkipped(w, t);
    StepArray(w + t, depth);
  }

  lemma ObjectStep(w: string, t: string, depth: int)
    requires Gap(w) && t != "" && t[0] > ' '
    ensures ParseValue("{" + (w + t), depth)
         == if depth >= 1000 then Fail
            else if t[0] == '}' then Found(Obj([]), t[1..])
            else
              var members := ParseMembers(t, depth + 1);
              if members.Fail? then Fail else Found(Obj(members.value), members.rest)
  {
    GapSkipped(w, t);
    StepObject(w + t, depth);
  }

  /** One element: a gap, a value, a gap, and a comma or the closing bracket. */
  lemma SlotStep(w: string, t: string, after: string, tail: string, depth: int)
    requires Gap(w) && t != "" && t[0] > ' ' && Gap(after) && tail != "" && (tail[0] == ',' || tail[0] == ']')
    requires ParseValue(t, depth).Found? ==> ParseValue(t, depth).rest == after + tail
    ensures ParseItems(w + t, depth)
         == var first := ParseValue(t, depth);
            if first.Fail? then Fail
            else if tail[0] == ']' then Found([first.value], tail[1..])
            else
              var others := ParseItems(tail[1..], depth);
              if others.Fail? then Fail else Found([first.value] + others.value, others.rest)
  {
    GapSkipped(w, t);
    GapSkipped(after, tail);
    hide SkipWhite, ParseValue;
  }

  /** A key: a gap, a string, a gap, a colon. */
  lemma KeyStep(w: string, key: seq<Piece>, gap: string, u: string)
    requires Gap(w) && ValidString(key) && Gap(gap)
    ensures ParseKey(w + Quoted(key, gap + (":" + u))) == Found(TextOf(key), u)
  {
    var colon := ":" + u;
    var name := Quoted(key, gap + colon);
    GapSkipped(w, name);
    StringReads(key, gap + colon);
    GapSkipped(gap, colon);
    assert colon[1..] == u;
  }

  // ----- Every layout is read as what it stands for -----

  lemma {:induction false} LayoutReads(l: Laid, rest: string, depth: int)
    requires Valid(l) && Stops(l, rest) && depth <= 1000
    ensures ParseValue(Written(l, rest), depth) == Expected(Meaning(l), Nesting(Meaning(l)), depth, rest)
    decreases l, 1
  {
    match l
    case LaidNull => StepWord(Null, "null", depth, rest);
    case LaidBool(b) => StepWord(Bool(b), if b then "true" else "false", depth, rest);
    case LaidNumber(n) => NumberLayout(n, rest, depth);
    case LaidString(ps) => StringLayout(ps, rest, depth);
    case LaidArray(inside, slots) => ArrayLayout(inside, slots, rest, depth);
    case LaidObject(inside, entries) => ObjectLayout(inside, entries, rest, depth);
  }

  lemma NumberLayout(n: Numeral, rest: string, depth: int)
    requires ValidNumber(n) && n.Ends(rest)
    ensures ParseValue(n.Spelling() + rest, depth) == Found(Num(n.Meaning()), rest)
  {
    hide Numeral.Spelling, Numeral.Meaning, ParseNumber, ParseArray, ParseObject, ReadString;
    NumberStarts(n, rest);
    NumberReads(n, rest);
    NoWord(n.Spelling() + rest);
  }

  lemma StringLayout(ps: seq<Piece>, rest: string, depth: int)
    requires ValidString(ps)
    ensures ParseValue(Quoted(ps, rest), depth) == Found(Str(TextOf(ps)), rest)
  {
    StringReads(ps, rest);
    QuoteFirst(ps, rest);
    hide Quoted, ParseNumber, ParseArray, ParseObject, ReadString;
    NoWord(Quoted(ps, rest));
  }

  lemma QuoteFirst(ps: seq<Piece>, rest: string)
    requires AllReadable(ps)
    ensures Quoted(ps, rest) != "" && Quoted(ps, rest)[0] == '"'
  {
  }

  lemma {:induction false} ArrayLayout(inside: string, slots: seq<Slot>, rest: string, depth: int)
    requires Valid(LaidArray(inside, slots)) && depth <= 1000
    ensures ParseValue(Written(LaidArray(inside, slots), rest), depth)
         == Expected(Meaning(LaidArray(inside, slots)), Nesting(Meaning(LaidArray(inside, slots))), depth, rest)
    decreases slots, 2
  {
    hide ParseValue, ParseItems, FirstSlot;
    if slots == [] {
      ArrayStep(inside, "]" + rest, depth);
    } else {
      ArrayStep(slots[0].before, FirstSlot(slots, "]" + rest), depth);
      SlotIsNoBracket(slots, "]" + rest);
      if depth < 1000 {
        SlotsLayout(slots, "", rest, depth + 1);
        assert "" + FirstSlot(slots, "]" + rest) == FirstSlot(slots, "]" + rest);
      }
    }
  }

  lemma SlotIsNoBracket(slots: seq<Slot>, rest: string)
    requires slots != [] && ValidSlots(slots)
    ensures FirstSlot(slots, rest)[0] != ']'
  {
    var tail := if |slots| == 1 then rest else "," + WrittenSlots(slots[1..], rest);
    if slots[0].v.LaidNumber? { NumberStarts(slots[0].v.n, slots[0].after + tail); }
  }

  lemma {:induction false} SlotsLayout(slots: seq<Slot>, w: string, rest: string, depth: int)
    requires slots != [] && ValidSlots(slots) && depth <= 1000 && Gap(w)
    ensures ParseItems(w + FirstSlot(slots, "]" + rest), depth)
         == Expected(SlotsMeaning(slots), ItemsNesting(SlotsMeaning(slots)), depth, rest)
    decreases slots, 1
  {
    hide ParseValue, ParseItems, Written, Nesting, ItemsNesting, Meaning, Valid;
    var first := slots[0];
    var tail := if |slots| == 1 then "]" + rest else "," + WrittenSlots(slots[1..], "]" + rest);
    GapStops(first.v, first.after, tail);
    LayoutReads(first.v, first.after + tail, depth);
    SlotStep(w, Written(first.v, first.after + tail), first.after, tail, depth);
    ExpectedItems(SlotsMeaning(slots), depth, rest);
    assert SlotsMeaning(slots)[1..] == SlotsMeaning(slots[1..]) && SlotsMeaning(slots)[0] == Meaning(first.v);
    if |slots| == 1 {
      assert tail[1..] == rest;
    } else {
      SlotsLayout(slots[1..], slots[1].before, rest, depth);
      assert tail[1..] == WrittenSlots(slots[1..], "]" + rest);
    }
  }

  /** A gap, a comma or a closing bracket ends every number. */
  lemma GapStops(l: Laid, after: string, tail: string)
    requires Gap(after) && tail != "" && (tail[0] == ',' || tail[0] == ']' || tail[0] == '}')
    ensures Stops(l, after + tail)
  {
  }

  lemma EmptyObject(inside: string, rest: string, depth: int)
    requires Gap(inside) && depth <= 1000
    ensures ParseValue("{" + (inside + ("}" + rest)), depth) == Expected(Obj([]), 1, depth, rest)
  {
    ObjectStep(inside, "}" + rest, depth);
  }

  lemma {:induction false} FilledObject(entries: seq<Entry>, rest: string, depth: int)
    requires entries != [] && ValidEntries(entries) && depth <= 1000
    ensures ParseValue("{" + WrittenEntries(entries, "}" + rest), depth)
         == Expected(Obj(EntriesMeaning(entries)), 1 + MembersNesting(EntriesMeaning(entries)), depth, rest)
    decreases entries, 2
  {
    hide ParseValue, ParseMembers, FirstEntry, Valid, Meaning, Nesting, MembersNesting, EntriesMeaning, ValidString;
    var t := FirstEntry(entries, "}" + rest);
    ObjectStep(entries[0].before, t, depth);
    if depth < 1000 {
      EntriesLayout(entries, "", rest, depth + 1);
      assert "" + t == t;
    }
  }

  lemma {:induction false} ObjectLayout(inside: string, entries: seq<Entry>, rest: string, depth: int)
    requires Valid(LaidObject(inside, entries)) && depth <= 1000
    ensures ParseValue(Written(LaidObject(inside, entries), rest), depth)
         == Expected(Meaning(LaidObject(inside, entries)), Nesting(Meaning(LaidObject(inside, entries))), depth, rest)
    decreases entries, 3
  {
    hide ParseValue, WrittenEntries, Gap;
    if entries == [] {
      EmptyObject(inside, rest, depth);
    } else {
      FilledObject(entries, rest, depth);
    }
  }

  /** What is expected of members, one at a time. */
  lemma ExpectedMembers(members: seq<Member>, depth: int, rest: string)
    requires members != []
    ensures Expected(members, MembersNesting(members), depth, rest)
         == if depth + Nesting(members[0].value) > NESTING_LIMIT then Fail
            else if |members| == 1 then Expected([members[0]], 0, depth, rest)
            else
              var others := Expected(members[1..], MembersNesting(members[1..]), depth, rest);
              if others.Fail? then Fail else Found([members[0]] + others.value, others.rest)
  {
    hide Nesting;
    if |members| == 1 {
      assert members == [members[0]] && members[1..] == [];
    } else {
      assert members == [members[0]] + members[1..];
    }
  }

  lemma {:induction false} EntriesLayout(entries: seq<Entry>, w: string, rest: string, depth: int)
    requires entries != [] && ValidEntries(entries) && depth <= 1000 && Gap(w)
    ensures ParseMembers(w + FirstEntry(entries, "}" + rest), depth)
         == Expected(EntriesMeaning(entries), MembersNesting(EntriesMeaning(entries)), depth, rest)
    decreases entries, 1
  {
    hide ParseValue, ParseMembers, ParseKey, Written, Quoted, Nesting, MembersNesting, Meaning, Valid, TextOf,
         AllReadable, Paired;
    var e := entries[0];
    var tail := if |entries| == 1 then "}" + rest else "," + WrittenEntries(entries[1..], "}" + rest);
    var value := Written(e.v, e.after + tail);
    GapStops(e.v, e.after, tail);
    LayoutReads(e.v, e.after + tail, depth);
    KeyStep(w, e.key, e.behindKey, e.behindColon + value);
    StepMember(w + FirstEntry(entries, "}" + rest), TextOf(e.key), e.behindColon, value, depth, e.after, tail);
    ExpectedMembers(EntriesMeaning(entries), depth, rest);
    assert EntriesMeaning(entries)[1..] == EntriesMeaning(entries[1..]);
    assert EntriesMeaning(entries)[0] == Member(TextOf(e.key), Meaning(e.v));
    if |entries| == 1 {
      assert tail[1..] == rest;
    } else {
      EntriesLayout(entries[1..], entries[1].before, rest, depth);
      assert tail[1..] == WrittenEntries(entries[1..], "}" + rest);
    }
  }
}
