/** How the printer lays a tree out: one line, or with line breaks, tabs and blanks. */
module PrintLayout {
  import opened Text
  import opened Number
  import opened Numeral
  import opened StringLiteral
  import opened LiteralExact
  import opened Json
  import opened Layout

  function NumeralOf(n: int): (r: Numeral)
    ensures ValidNumber(r)
  {
    Numeral(if n < 0 then "-" else "", Digits(if n < 0 then -n else n), None, None)
  }

  function PiecesOf(s: string): (ps: seq<Piece>)
    ensures AllReadable(ps) && Spelled(ps) == Escape(s) && Denoted(ps) == s
  {
    if s == "" then []
    else
      var others := PiecesOf(s[1..]);
      PieceInFront(s, others);
      [Regular(UnitOf(s[0]))] + others
  }

  lemma PieceInFront(s: string, others: seq<Piece>)
    requires s != "" && AllReadable(others) && Spelled(others) == Escape(s[1..]) && Denoted(others) == s[1..]
    ensures var ps := [Regular(UnitOf(s[0]))] + others;
            AllReadable(ps) && Spelled(ps) == Escape(s) && Denoted(ps) == s
  {
    hide EscapeChar;
    assert ([Regular(UnitOf(s[0]))] + others)[1..] == others;
  }

  lemma PiecesArePaired(s: string)
    ensures Paired(Spelled(PiecesOf(s)))
  {
    var us := UnitsOf(s);
    SpellBodyLength(us, "");
    var t := Spell(us) + "\"" + "";
    BodyIsPaired(t);
    assert t[..|Spell(us)|] == Spell(us);
  }

  function LineBreak(fmt: bool, d: nat): string {
    if fmt then "\n" + Repeat('\t', d) else ""
  }

  /** Formatted: a blank behind every comma of an array; every member on its own line, indented by a tab a
      level, with a tab behind the colon, and the closing brace on a line of its own. */
  function LaidOut(v: Json, fmt: bool, d: nat): Laid
    decreases v, 1
  {
    match v
    case Null => LaidNull
    case Bool(b) => LaidBool(b)
    case Num(x) => LaidNumber(NumeralOf(Saturate(x)))
    case Str(s) => LaidString(PiecesOf(s))
    case Arr(items) => LaidArray("", ItemsLaidOut(items, fmt, d + 1, ""))
    case Obj(members) => LaidObject(LineBreak(fmt, d), MembersLaidOut(members, fmt, d + 1))
  }

  function ItemsLaidOut(items: seq<Json>, fmt: bool, d: nat, before: string): (r: seq<Slot>)
    ensures |r| == |items|
    decreases items, 0
  {
    if items == [] then []
    else [Slot(before, LaidOut(items[0], fmt, d), "")] + ItemsLaidOut(items[1..], fmt, d, if fmt then " " else "")
  }

  function MembersLaidOut(members: seq<Member>, fmt: bool, d: nat): (r: seq<Entry>)
    requires d > 0
    ensures |r| == |members|
    decreases members, 0
  {
    if members == [] then []
    else
      var m := members[0];
      [Entry(LineBreak(fmt, d), PiecesOf(m.key), "", if fmt then "\t" else "", LaidOut(m.value, fmt, d),
             if |members| == 1 then LineBreak(fmt, d - 1) else "")]
      + MembersLaidOut(members[1..], fmt, d)
  }

  // ----- The layout is valid -----

  lemma GapsHere(fmt: bool, d: nat)
    ensures Gap(LineBreak(fmt, d)) && Gap("") && Gap(" ") && Gap("\t")
  {
  }

  lemma {:induction false} LaidOutIsValid(v: Json, fmt: bool, d: nat)
    ensures Valid(LaidOut(v, fmt, d))
    decreases v, 1
  {
    hide Gap;
    GapsHere(fmt, d);
    match v
    case Str(s) => PiecesArePaired(s);
    case Arr(items) => ItemsAreValid(items, fmt, d + 1, "");
    case Obj(members) => MembersAreValid(members, fmt, d + 1);
    case _ =>
  }

  lemma {:induction false} ItemsAreValid(items: seq<Json>, fmt: bool, d: nat, before: string)
    requires Gap(before)
    ensures ValidSlots(ItemsLaidOut(items, fmt, d, before))
    decreases items, 0
  {
    hide Valid, LaidOut, Gap;
    GapsHere(fmt, d);
    if items != [] {
      LaidOutIsValid(items[0], fmt, d);
      ItemsAreValid(items[1..], fmt, d, if fmt then " " else "");
    }
  }

  lemma KeyIsValid(s: string)
    ensures ValidString(PiecesOf(s))
  {
    PiecesArePaired(s);
  }

  lemma {:induction false} MembersAreValid(members: seq<Member>, fmt: bool, d: nat)
    requires d > 0
    ensures ValidEntries(MembersLaidOut(members, fmt, d))
    decreases members, 0
  {
    hide Valid, LaidOut, Gap, ValidString, LineBreak, PiecesOf;
    GapsHere(fmt, d);
    GapsHere(fmt, d - 1);
    if members != [] {
      var entries := MembersLaidOut(members, fmt, d);
      KeyIsValid(members[0].key);
      LaidOutIsValid(members[0].value, fmt, d);
      MembersAreValid(members[1..], fmt, d);
      assert entries[1..] == MembersLaidOut(members[1..], fmt, d);
      assert forall i :: 1 <= i < |entries| ==> entries[i] == entries[1..][i - 1];
    }
  }

  // ----- And it is what the printer writes -----

  lemma QuotedIs(s: string, rest: string)
    ensures Quoted(PiecesOf(s), rest) == Quote(s) + rest
  {
  }

  lemma DecimalIs(n: int)
    ensures NumeralOf(n).Spelling() == Decimal(n)
  {
    var r := NumeralOf(n);
    assert r.whole + ("" + "") == r.whole && "" + r.whole == r.whole;
  }

  /** The text that is printed is this layout, character by character. */
  lemma {:induction false} PrintedLayout(v: Json, fmt: bool, d: nat, rest: string)
    requires Valid(LaidOut(v, fmt, d))
    ensures Render(v, fmt, d, rest) == Written(LaidOut(v, fmt, d), rest)
    decreases v, 1
  {
    match v
    case Num(x) => DecimalIs(Saturate(x));
    case Str(s) => QuotedIs(s, rest);
    case Arr(items) => PrintedArray(items, fmt, d, rest);
    case Obj(members) => PrintedObject(members, fmt, d, rest);
    case _ =>
  }

  lemma {:induction false} PrintedArray(items: seq<Json>, fmt: bool, d: nat, rest: string)
    requires ValidSlots(ItemsLaidOut(items, fmt, d + 1, ""))
    ensures Render(Arr(items), fmt, d, rest) == Written(LaidArray("", ItemsLaidOut(items, fmt, d + 1, "")), rest)
    decreases items, 1
  {
    hide Valid, LaidOut;
    if items == [] {
      assert "" + ("]" + rest) == "]" + rest;
    } else {
      ItemsLayout(items, fmt, d + 1, "", "]" + rest);
      assert "" + RenderItems(items, fmt, d + 1, "]" + rest) == RenderItems(items, fmt, d + 1, "]" + rest);
    }
  }

  lemma {:induction false} PrintedObject(members: seq<Member>, fmt: bool, d: nat, rest: string)
    requires ValidEntries(MembersLaidOut(members, fmt, d + 1))
    ensures Render(Obj(members), fmt, d, rest)
         == Written(LaidObject(LineBreak(fmt, d), MembersLaidOut(members, fmt, d + 1)), rest)
    decreases members, 1
  {
    hide Valid, LaidOut;
    if members == [] {
      Assoc(Newline(fmt), Indent(fmt, d), "}" + rest);
      BreakIs(fmt, d);
    } else {
      MembersLayout(members, fmt, d + 1, rest);
    }
  }

  lemma BreakIs(fmt: bool, d: nat)
    ensures Newline(fmt) + Indent(fmt, d) == LineBreak(fmt, d)
  {
  }

  lemma {:induction false} ItemsLayout(items: seq<Json>, fmt: bool, d: nat, before: string, rest: string)
    requires items != [] && ValidSlots(ItemsLaidOut(items, fmt, d, before))
    ensures WrittenSlots(ItemsLaidOut(items, fmt, d, before), rest) == before + RenderItems(items, fmt, d, rest)
    decreases items, 0
  {
    hide Valid, LaidOut, Gap, Render, Written;
    var slots := ItemsLaidOut(items, fmt, d, before);
    var next := if fmt then " " else "";
    assert slots[1..] == ItemsLaidOut(items[1..], fmt, d, next) && slots[0].v == LaidOut(items[0], fmt, d);
    var tail := if |slots| == 1 then rest else "," + WrittenSlots(slots[1..], rest);
    if |items| > 1 {
      ItemsLayout(items[1..], fmt, d, next, rest);
      assert next == Space(fmt);
    } else {
      assert items[1..] == [];
    }
    assert "" + tail == tail;
    PrintedLayout(items[0], fmt, d, tail);
  }

  lemma {:induction false} MembersLayout(members: seq<Member>, fmt: bool, d: nat, rest: string)
    requires d > 0 && members != [] && ValidEntries(MembersLaidOut(members, fmt, d))
    ensures WrittenEntries(MembersLaidOut(members, fmt, d), "}" + rest)
         == Newline(fmt) + RenderMembers(members, fmt, d, Indent(fmt, d - 1) + ("}" + rest))
    decreases members, 0
  {
    hide Valid, LaidOut, Gap, Render, Written, Quoted, Quote, AllReadable, Paired;
    var entries := MembersLaidOut(members, fmt, d);
    var close := Indent(fmt, d - 1) + ("}" + rest);
    var m := members[0];
    assert entries[1..] == MembersLaidOut(members[1..], fmt, d);
    var tail := if |entries| == 1 then "}" + rest else "," + WrittenEntries(entries[1..], "}" + rest);
    if |members| > 1 {
      MembersLayout(members[1..], fmt, d, rest);
      assert "" + tail == tail;
    } else {
      assert members[1..] == [];
      BreakIs(fmt, d - 1);
      Assoc(Newline(fmt), Indent(fmt, d - 1), "}" + rest);
    }
    var others := Newline(fmt) + RenderMembers(members[1..], fmt, d, close);
    var behind := if |members| == 1 then others else "," + others;
    assert entries[0].after + tail == behind;
    PrintedLayout(m.value, fmt, d, behind);
    var value := ":" + (Tab(fmt) + Render(m.value, fmt, d, behind));
    QuotedIs(m.key, value);
    assert "" + value == value;
    BreakIs(fmt, d);
    Assoc(Newline(fmt), Indent(fmt, d), RenderMember(m, fmt, d, behind));
  }
}
