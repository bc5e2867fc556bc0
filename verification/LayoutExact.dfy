/** The texts that cJSON_Parse accepts are exactly the layouts, and it reads them as what they stand for. */
module LayoutExact {
  import opened Text
  import opened Number
  import opened Numeral
  import opened StringLiteral
  import opened LiteralExact
  import opened Json
  import opened RoundTrip
  import opened Layout

  // ----- What is found is a layout -----

  lemma {:induction false} LayoutFinds(t: string, depth: int) returns (l: Laid)
    requires ParseValue(t, depth).Found?
    ensures var r := ParseValue(t, depth);
            Valid(l) && t == Written(l, r.rest) && Stops(l, r.rest) && Meaning(l) == r.value
    decreases |t|, 1
  {
    hide ParseNumber, ReadString, ParseArray, ParseObject, Quoted, ValidString, TextOf, Numeral.Spelling,
         Numeral.Meaning, ValidNumber, Numeral.Ends;
    if "null" <= t {
      l := LaidNull;
      assert t == "null" + t[4..];
    } else if "false" <= t {
      l := LaidBool(false);
      assert t == "false" + t[5..];
    } else if "true" <= t {
      l := LaidBool(true);
      assert t == "true" + t[4..];
    } else if t[0] == '"' {
      var ps := StringFinds(t);
      l := LaidString(ps);
    } else if t[0] == '-' || IsDigit(t[0]) {
      var n := NumberFinds(t);
      l := LaidNumber(n);
    } else if t[0] == '[' {
      l := ArrayFinds(t, depth);
    } else {
      l := ObjectFinds(t, depth);
    }
  }

  lemma {:induction false} ArrayFinds(t: string, depth: int) returns (l: Laid)
    requires t != "" && t[0] == '[' && ParseArray(t, depth).Found?
    ensures var r := ParseArray(t, depth);
            l.LaidArray? && Valid(l) && t == Written(l, r.rest) && Meaning(l) == r.value
    decreases |t|, 0
  {
    hide SkipWhite, ParseItems, FirstSlot;
    var w := GapFound(t[1..]);
    var u := SkipWhite(t[1..]);
    assert t == "[" + (w + u);
    if u[0] == ']' {
      l := LaidArray(w, []);
      assert u == "]" + u[1..];
    } else {
      var slots := SlotsFind(u, depth + 1);
      l := LaidArray("", Widened(slots, w));
      WidenedSlots(slots, w, "]" + ParseArray(t, depth).rest);
    }
  }

  lemma {:induction false} SlotsFind(t: string, depth: int) returns (slots: seq<Slot>)
    requires ParseItems(t, depth).Found?
    ensures var r := ParseItems(t, depth);
            && slots != [] && ValidSlots(slots)
            && t == WrittenSlots(slots, "]" + r.rest) && SlotsMeaning(slots) == r.value
    decreases |t|, 2
  {
    hide SkipWhite, ParseValue, Written, Meaning, Valid;
    var r := ParseItems(t, depth);
    var w := GapFound(t);
    var first := ParseValue(SkipWhite(t), depth);
    var l := LayoutFinds(SkipWhite(t), depth);
    var after := GapFound(first.rest);
    var u := SkipWhite(first.rest);
    if u[0] == ',' {
      var others := SlotsFind(u[1..], depth);
      slots := [Slot(w, l, after)] + others;
      assert slots[1..] == others && u == "," + u[1..];
    } else {
      slots := [Slot(w, l, after)];
      assert slots[1..] == [] && u == "]" + u[1..];
    }
  }

  /** The same elements with more white space in front. */
  function Widened(slots: seq<Slot>, w: string): seq<Slot>
    requires slots != []
  {
    [slots[0].(before := w + slots[0].before)] + slots[1..]
  }

  lemma WidenedSlots(slots: seq<Slot>, w: string, rest: string)
    requires slots != [] && ValidSlots(slots) && Gap(w)
    ensures var wide := Widened(slots, w);
            && ValidSlots(wide) && WrittenSlots(wide, rest) == w + WrittenSlots(slots, rest)
            && SlotsMeaning(wide) == SlotsMeaning(slots)
  {
    hide Written, Meaning, Valid;
    var wide := Widened(slots, w);
    assert wide[1..] == slots[1..];
    Assoc(w, slots[0].before, FirstSlot(slots, rest));
  }

  lemma {:induction false} ObjectFinds(t: string, depth: int) returns (l: Laid)
    requires t != "" && t[0] == '{' && ParseObject(t, depth).Found?
    ensures var r := ParseObject(t, depth);
            l.LaidObject? && Valid(l) && t == Written(l, r.rest) && Meaning(l) == r.value
    decreases |t|, 0
  {
    hide SkipWhite, ParseMembers, FirstEntry;
    var w := GapFound(t[1..]);
    var u := SkipWhite(t[1..]);
    assert t == "{" + (w + u);
    if u[0] == '}' {
      l := LaidObject(w, []);
      assert u == "}" + u[1..];
    } else {
      var entries := EntriesFind(u, depth + 1);
      l := LaidObject("", WidenedEntries(entries, w));
      WidenedWritten(entries, w, "}" + ParseObject(t, depth).rest);
    }
  }

  function WidenedEntries(entries: seq<Entry>, w: string): seq<Entry>
    requires entries != []
  {
    [entries[0].(before := w + entries[0].before)] + entries[1..]
  }

  lemma WidenedWritten(entries: seq<Entry>, w: string, rest: string)
    requires entries != [] && ValidEntries(entries) && Gap(w)
    ensures var wide := WidenedEntries(entries, w);
            && ValidEntries(wide) && WrittenEntries(wide, rest) == w + WrittenEntries(entries, rest)
            && EntriesMeaning(wide) == EntriesMeaning(entries)
  {
    hide Written, Meaning, Valid, Quoted;
    var wide := WidenedEntries(entries, w);
    assert wide[1..] == entries[1..];
    Assoc(w, entries[0].before, FirstEntry(entries, rest));
  }

  lemma KeyFinds(t: string) returns (before: string, key: seq<Piece>, gap: string)
    requires ParseKey(t).Found?
    ensures Gap(before) && Gap(gap) && ValidString(key) && TextOf(key) == ParseKey(t).value
    ensures t == before + Quoted(key, gap + (":" + ParseKey(t).rest))
  {
    hide SkipWhite, ReadString, Quoted, ValidString, TextOf, AllReadable;
    before := GapFound(t);
    key := StringFinds(SkipWhite(t));
    var behind := ReadString(SkipWhite(t)).value.1;
    gap := GapFound(behind);
    var u := SkipWhite(behind);
    assert u == ":" + u[1..];
  }

  lemma {:induction false} EntriesFind(t: string, depth: int) returns (entries: seq<Entry>)
    requires ParseMembers(t, depth).Found?
    ensures var r := ParseMembers(t, depth);
            && entries != [] && ValidEntries(entries)
            && t == WrittenEntries(entries, "}" + r.rest) && EntriesMeaning(entries) == r.value
    decreases |t|, 2
  {
    hide SkipWhite, ParseValue, ParseKey, Written, Meaning, Valid, Quoted, TextOf, AllReadable, Paired;
    var r := ParseMembers(t, depth);
    var before, key, behindKey := KeyFinds(t);
    var behind := ParseKey(t).rest;
    var behindColon := GapFound(behind);
    var value := ParseValue(SkipWhite(behind), depth);
    var l := LayoutFinds(SkipWhite(behind), depth);
    var after := GapFound(value.rest);
    var u := SkipWhite(value.rest);
    var e := Entry(before, key, behindKey, behindColon, l, after);
    if u[0] == ',' {
      var others := EntriesFind(u[1..], depth);
      entries := [e] + others;
      assert entries[1..] == others && u == "," + u[1..];
    } else {
      entries := [e];
      assert entries[1..] == [] && u == "}" + u[1..];
    }
  }

  // ----- Whole texts -----

  const MARK := "\U{EF}\U{BB}\U{BF}"

  /** The text of a C string, its NUL included, is a byte order mark or nothing, a gap, and a value with
      anything behind it. */
  predicate Document(s: string, bom: bool, before: string, l: Laid, rest: string) {
    Gap(before) && Valid(l) && Stops(l, rest)
    && CString(s) + "\0" == (if bom then MARK else "") + (before + Written(l, rest))
  }

  lemma NotMarked(t: string)
    requires |t| >= 3 && t[0] <= '~'
    ensures t[..3] != MARK
  {
    assert t[..3][0] == t[0] && MARK[0] == '\U{EF}';
  }

  lemma MarkSkipped(t: string, bom: bool, before: string, l: Laid, rest: string)
    requires Gap(before) && Valid(l)
    requires t == (if bom then MARK else "") + (before + Written(l, rest)) && t[|t| - 1] == '\0'
    ensures (|t| > 4 && t[..3] == MARK) == bom
    ensures SkipWhite(if bom then t[3..] else t) == Written(l, rest)
  {
    hide Written, SkipWhite;
    var u := before + Written(l, rest);
    GapSkipped(before, Written(l, rest));
    if bom {
      assert t[..3] == MARK && t[3..] == u;
      assert u[|before|] == Written(l, rest)[0] && u[|u| - 1] == t[|t| - 1];
    } else {
      assert t == u && t[0] <= '~';
      if |t| >= 3 { NotMarked(t); }
    }
  }

  /** A text is accepted exactly when it is such a document, nested at most 1000 deep, and then as what the
      document stands for. */
  lemma DocumentsExactly(s: string, v: Json)
    ensures ParseText(s) == Some(v)
            <==> Nesting(v) <= 1000
                 && exists bom, before, l, rest :: Document(s, bom, before, l, rest) && Meaning(l) == v
  {
    hide ParseValue, Written, Meaning, Valid, Nesting, SkipWhite, CString, Stops;
    var t := CString(s) + "\0";
    if bom, before, l, rest :| Document(s, bom, before, l, rest) && Meaning(l) == v {
      MarkSkipped(t, bom, before, l, rest);
      LayoutReads(l, rest, 0);
    }
    if ParseText(s) == Some(v) {
      var bom := |t| > 4 && t[..3] == MARK;
      var text := if bom then t[3..] else t;
      assert t == (if bom then MARK else "") + text;
      var before := GapFound(text);
      var l := LayoutFinds(SkipWhite(text), 0);
      assert Document(s, bom, before, l, ParseValue(SkipWhite(text), 0).rest);
      ParsedStrings(s);
    }
  }

  // ----- The texts of RFC 8259 -----

  /** Section 2: space, tab, line feed and carriage return. */
  predicate Blanks(w: string) {
    forall i :: 0 <= i < |w| ==> w[i] == ' ' || w[i] == '\t' || w[i] == '\n' || w[i] == '\r'
  }

  /** Section 7. */
  predicate StrictString(ps: seq<Piece>) {
    forall i :: 0 <= i < |ps| ==> ps[i].Regular? && ps[i].u.Valid() && (ps[i].u.Plain? ==> ps[i].u.c >= ' ')
  }

  /** Section 6: no leading zeros, digits on both sides of the point. */
  predicate StrictNumber(n: Numeral) {
    && n.Valid() && (n.sign == "" || n.sign == "-") && n.whole != "" && (n.whole == "0" || n.whole[0] != '0')
    && (n.fraction.Some? ==> n.fraction.value != "")
  }

  /** Sections 3 to 5. */
  predicate Strict(l: Laid) {
    match l
    case LaidNumber(n) => StrictNumber(n)
    case LaidString(ps) => StrictString(ps)
    case LaidArray(inside, slots) =>
      && Blanks(inside)
      && forall i :: 0 <= i < |slots| ==> Blanks(slots[i].before) && Blanks(slots[i].after) && Strict(slots[i].v)
    case LaidObject(inside, entries) =>
      && Blanks(inside)
      && forall i :: 0 <= i < |entries| ==>
           && Blanks(entries[i].before) && Blanks(entries[i].behindKey) && Blanks(entries[i].behindColon)
           && Blanks(entries[i].after) && StrictString(entries[i].key) && Strict(entries[i].v)
    case _ => true
  }

  lemma {:induction false} UnitsAreReadable(ps: seq<Piece>) returns (us: seq<Unit>)
    requires StrictString(ps)
    ensures AllValid(us) && AllReadable(ps) && Spelled(ps) == Spell(us) && Denoted(ps) == Denote(us)
    decreases |ps|
  {
    if ps == [] {
      us := [];
    } else {
      var others := UnitsAreReadable(ps[1..]);
      us := [ps[0].u] + others;
      assert us[1..] == others;
    }
  }

  lemma StrictStringIsValid(ps: seq<Piece>)
    requires StrictString(ps)
    ensures ValidString(ps)
  {
    var us := UnitsAreReadable(ps);
    SpellBodyLength(us, "");
    var t := Spell(us) + "\"" + "";
    BodyIsPaired(t);
    assert t[..|Spell(us)|] == Spell(us);
  }

  lemma {:induction false} StrictIsValid(l: Laid)
    requires Strict(l)
    ensures Valid(l)
    decreases l
  {
    hide StrictString, StrictNumber, ValidString, ValidNumber;
    match l
    case LaidNumber(n) => StrictNumberIsValid(n);
    case LaidString(ps) => StrictStringIsValid(ps);
    case LaidArray(inside, slots) =>
      forall i | 0 <= i < |slots| ensures Valid(slots[i].v) { StrictIsValid(slots[i].v); }
    case LaidObject(inside, entries) =>
      forall i | 0 <= i < |entries| ensures Valid(entries[i].v) && ValidString(entries[i].key) {
        StrictIsValid(entries[i].v);
        StrictStringIsValid(entries[i].key);
      }
    case _ =>
  }

  lemma StrictNumberIsValid(n: Numeral)
    requires StrictNumber(n)
    ensures ValidNumber(n)
  {
  }

  // ----- No NUL in them, and what follows does not matter -----

  lemma NulFreeJoined(a: string, b: string)
    requires NulFree(a) && NulFree(b)
    ensures NulFree(a + b)
  {
  }

  lemma BlanksNulFree(w: string, t: string)
    requires Blanks(w) && NulFree(t)
    ensures NulFree(w + t)
  {
  }

  lemma {:induction false} StringNulFree(ps: seq<Piece>)
    requires StrictString(ps) && AllReadable(ps)
    ensures NulFree(Spelled(ps))
    decreases |ps|
  {
    if ps != [] {
      StringNulFree(ps[1..]);
      UnitNulFree(ps[0].u);
      hide NulFree;
      NulFreeJoined(ps[0].Spelling(), Spelled(ps[1..]));
    }
  }

  lemma UnitNulFree(u: Unit)
    requires u.Valid() && (u.Plain? ==> u.c >= ' ')
    ensures NulFree(u.Spelling())
  {
  }

  lemma QuotedNulFree(ps: seq<Piece>, rest: string)
    requires StrictString(ps) && AllReadable(ps) && NulFree(rest)
    ensures NulFree(Quoted(ps, rest))
  {
    StringNulFree(ps);
  }

  lemma {:induction false} StrictNulFree(l: Laid, rest: string)
    requires Strict(l) && Valid(l) && NulFree(rest)
    ensures NulFree(Written(l, rest))
    decreases l, 1
  {
    hide StrictString, StrictNumber, AllReadable, Paired, Quoted, NulFree, Numeral.Spelling;
    match l
    case LaidNull => WordNulFree("null", rest);
    case LaidBool(b) => WordNulFree(if b then "true" else "false", rest);
    case LaidNumber(n) =>
      NumberNulFree(n);
      NulFreeJoined(n.Spelling(), rest);
    case LaidString(ps) => QuotedNulFree(ps, rest);
    case LaidArray(inside, slots) =>
      WordNulFree("]", rest);
      if slots == [] { BlanksNulFree(inside, "]" + rest); } else { SlotsNulFree(slots, "]" + rest); }
      WordNulFree("[", if slots == [] then inside + ("]" + rest) else WrittenSlots(slots, "]" + rest));
    case LaidObject(inside, entries) =>
      WordNulFree("}", rest);
      if entries == [] { BlanksNulFree(inside, "}" + rest); } else { EntriesNulFree(entries, "}" + rest); }
      WordNulFree("{", if entries == [] then inside + ("}" + rest) else WrittenEntries(entries, "}" + rest));
  }

  lemma WordNulFree(word: string, rest: string)
    requires word in {"null", "true", "false", "[", "]", "{", "}", ",", ":"} && NulFree(rest)
    ensures NulFree(word + rest)
  {
  }

  lemma NumberNulFree(n: Numeral)
    requires n.Valid()
    ensures NulFree(n.Spelling())
  {
    NumberChars(n);
  }

  lemma {:induction false} SlotsNulFree(slots: seq<Slot>, rest: string)
    requires slots != [] && ValidSlots(slots) && NulFree(rest)
    requires forall i :: 0 <= i < |slots| ==> Blanks(slots[i].before) && Blanks(slots[i].after) && Strict(slots[i].v)
    ensures NulFree(WrittenSlots(slots, rest))
    decreases slots, 0
  {
    hide NulFree, Blanks, Strict, Valid, Written;
    var tail := if |slots| == 1 then rest else "," + WrittenSlots(slots[1..], rest);
    if |slots| > 1 {
      SlotsNulFree(slots[1..], rest);
      WordNulFree(",", WrittenSlots(slots[1..], rest));
    }
    BlanksNulFree(slots[0].after, tail);
    StrictNulFree(slots[0].v, slots[0].after + tail);
    BlanksNulFree(slots[0].before, FirstSlot(slots, rest));
  }

  lemma {:induction false} EntriesNulFree(entries: seq<Entry>, rest: string)
    requires entries != [] && ValidEntries(entries) && NulFree(rest)
    requires forall i :: 0 <= i < |entries| ==>
      && Blanks(entries[i].before) && Blanks(entries[i].behindKey) && Blanks(entries[i].behindColon)
      && Blanks(entries[i].after) && StrictString(entries[i].key) && Strict(entries[i].v)
    ensures NulFree(WrittenEntries(entries, rest))
    decreases entries, 0
  {
    hide NulFree, Blanks, Strict, StrictString, Valid, Written, Quoted, AllReadable, Paired;
    var e := entries[0];
    var tail := if |entries| == 1 then rest else "," + WrittenEntries(entries[1..], rest);
    if |entries| > 1 {
      EntriesNulFree(entries[1..], rest);
      WordNulFree(",", WrittenEntries(entries[1..], rest));
    }
    BlanksNulFree(e.after, tail);
    StrictNulFree(e.v, e.after + tail);
    var value := e.behindColon + Written(e.v, e.after + tail);
    BlanksNulFree(e.behindColon, Written(e.v, e.after + tail));
    WordNulFree(":", value);
    BlanksNulFree(e.behindKey, ":" + value);
    QuotedNulFree(e.key, e.behindKey + (":" + value));
    BlanksNulFree(e.before, FirstEntry(entries, rest));
  }

  lemma {:induction false} WrittenTail(l: Laid, a: string, b: string)
    requires Valid(l)
    ensures Written(l, a + b) == Written(l, a) + b
    decreases l, 1
  {
    match l
    case LaidNull => Assoc("null", a, b);
    case LaidBool(x) => Assoc(if x then "true" else "false", a, b);
    case LaidNumber(n) => Assoc(n.Spelling(), a, b);
    case LaidString(ps) => QuotedTail(ps, a, b);
    case LaidArray(inside, slots) =>
      Assoc("]", a, b);
      if slots == [] { Assoc(inside, "]" + a, b); } else { SlotsTail(slots, "]" + a, b); }
      Assoc("[", if slots == [] then inside + ("]" + a) else WrittenSlots(slots, "]" + a), b);
    case LaidObject(inside, entries) =>
      Assoc("}", a, b);
      if entries == [] { Assoc(inside, "}" + a, b); } else { EntriesTail(entries, "}" + a, b); }
      Assoc("{", if entries == [] then inside + ("}" + a) else WrittenEntries(entries, "}" + a), b);
  }

  lemma QuotedTail(ps: seq<Piece>, a: string, b: string)
    requires AllReadable(ps)
    ensures Quoted(ps, a + b) == Quoted(ps, a) + b
  {
    Assoc("\"" + Spelled(ps) + "\"", a, b);
  }

  lemma {:induction false} SlotsTail(slots: seq<Slot>, a: string, b: string)
    requires slots != [] && ValidSlots(slots)
    ensures WrittenSlots(slots, a + b) == WrittenSlots(slots, a) + b
    decreases slots, 0
  {
    hide Valid, Written;
    var tail := if |slots| == 1 then a else "," + WrittenSlots(slots[1..], a);
    if |slots| > 1 {
      SlotsTail(slots[1..], a, b);
      Assoc(",", WrittenSlots(slots[1..], a), b);
    }
    Assoc(slots[0].after, tail, b);
    WrittenTail(slots[0].v, slots[0].after + tail, b);
    Assoc(slots[0].before, FirstSlot(slots, a), b);
  }

  lemma {:induction false} EntriesTail(entries: seq<Entry>, a: string, b: string)
    requires entries != [] && ValidEntries(entries)
    ensures WrittenEntries(entries, a + b) == WrittenEntries(entries, a) + b
    decreases entries, 0
  {
    hide Valid, Written, Quoted, AllReadable, Paired;
    var e := entries[0];
    var tail := if |entries| == 1 then a else "," + WrittenEntries(entries[1..], a);
    if |entries| > 1 {
      EntriesTail(entries[1..], a, b);
      Assoc(",", WrittenEntries(entries[1..], a), b);
    }
    Assoc(e.after, tail, b);
    WrittenTail(e.v, e.after + tail, b);
    var v := Written(e.v, e.after + tail);
    Assoc(e.behindColon, v, b);
    Assoc(":", e.behindColon + v, b);
    Assoc(e.behindKey, ":" + (e.behindColon + v), b);
    QuotedTail(e.key, e.behindKey + (":" + (e.behindColon + v)), b);
    Assoc(e.before, FirstEntry(entries, a), b);
  }

  /** Every text of RFC 8259, however it is laid out and with a byte order mark or not, is read as what it
      stands for, unless it is nested more than 1000 deep.  StrictIsValid says that Valid asks for no more. */
  lemma StandardTexts(bom: bool, before: string, l: Laid, after: string)
    requires Blanks(before) && Strict(l) && Valid(l) && Blanks(after)
    ensures ParseText((if bom then MARK else "") + (before + Written(l, after)))
         == if Nesting(Meaning(l)) <= 1000 then Some(Meaning(l)) else None
  {
    hide ParseValue, Written, Strict, Valid, Nesting, Meaning;
    var mark := if bom then MARK else "";
    var s := mark + (before + Written(l, after));
    BlanksNulFree(after, "");
    assert after + "" == after;
    StrictNulFree(l, after);
    BlanksNulFree(before, Written(l, after));
    NulFreeJoined(mark, before + Written(l, after));
    WrittenTail(l, after, "\0");
    Assoc(before, Written(l, after), "\0");
    Assoc(mark, before + Written(l, after), "\0");
    BlankStops(l, after);
    MarkSkipped(s + "\0", bom, before, l, after + "\0");
    LayoutReads(l, after + "\0", 0);
  }

  lemma BlankStops(l: Laid, after: string)
    requires Blanks(after)
    ensures Stops(l, after + "\0")
  {
  }
}
