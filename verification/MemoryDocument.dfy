/** MEMORY.md as a list of lines, whoever wrote them: how every line is read, and what storing does to them. */
module MemoryDocument {
  import opened Text
  import opened MemoryFile
  import opened MemoryLaws

  /** A heading, a bullet with its first colon, or any other line. */
  datatype Line = Heading(title: string) | Bullet(name: string, value: string) | Other(text: string)
  {
    function Text(): string {
      match this
      case Heading(title) => "## " + title
      case Bullet(name, value) => "- " + (name + (":" + value))
      case Other(text) => text
    }

    predicate Valid() {
      && |Text()| <= 2046 && (forall k :: 0 <= k < |Text()| ==> Text()[k] != '\n')
      && match this
         case Heading(_) => true
         case Bullet(name, _) => forall k :: 0 <= k < |name| ==> name[k] != ':'
         case Other(text) =>
           && !("## " <= text)
           && ("- " <= text ==> forall k :: 0 <= k < |text| ==> text[k] != ':')
    }
  }

  predicate AllValid(lines: seq<Line>) {
    forall i :: 0 <= i < |lines| ==> lines[i].Valid()
  }

  /** The text of the lines; in an open file the last line has no newline. */
  function Spelled(lines: seq<Line>, open: bool): string {
    if lines == [] then ""
    else if open && |lines| == 1 then lines[0].Text()
    else lines[0].Text() + ("\n" + Spelled(lines[1..], open))
  }

  predicate Closable(lines: seq<Line>, open: bool) {
    open ==> lines != [] && lines[|lines| - 1].Text() != ""
  }

  /** At most the first n bytes. */
  function Cut(s: string, n: nat): (r: string)
    ensures r == First(s, n)
  {
    if |s| > n then s[..n] else s
  }

  /** The title as memory_store compares it: up to a carriage return, blanks included. */
  predicate IsTitle(title: string, section: string)
    ensures IsTitle(title, section) <==> Before(First(title, 255), '\r') == section
  {
    var t := Cut(title, 255);
    TitleIs(t, section);
    section <= t && '\r' !in section && (|section| < |t| ==> t[|section|] == '\r')
  }

  lemma TitleIs(t: string, section: string)
    ensures Before(t, '\r') == section
            <==> section <= t && '\r' !in section && (|section| < |t| ==> t[|section|] == '\r')
  {
    hide IndexOf;
    if section <= t && '\r' !in section && (|section| < |t| ==> t[|section|] == '\r') {
      assert forall k :: 0 <= k < |section| ==> t[k] == section[k];
      IndexIs(t, '\r', |section|);
    }
  }

  // ----- Reading -----

  /** memory_recall: the first bullet with the key below a heading of the section; blanks around titles, keys
      and values do not count, titles are cut to 255 bytes, values to 511, and a key of 512 bytes reads as
      none. */
  function Found(lines: seq<Line>, inTarget: bool, section: string, key: string): Option<string> {
    if lines == [] then None
    else
      match lines[0]
      case Heading(title) => Found(lines[1..], Trim(Cut(title, 255)) == section, section, key)
      case Bullet(name, value) =>
        if inTarget && Trim(if |name| < 512 then name else "") == key then Some(Trim(Cut(value, 511)))
        else Found(lines[1..], inTarget, section, key)
      case Other(_) => Found(lines[1..], inTarget, section, key)
  }

  lemma FirstWithEnd(value: string)
    ensures Trim(First(value + "\n", 511)) == Trim(First(value, 511))
  {
    if |value| < 511 {
      TrimTrailingSpace(value, '\n');
    } else {
      assert (value + "\n")[..511] == value[..511];
    }
  }

  /** How a bullet is read, with its newline or without. */
  lemma BulletReads(name: string, value: string, ended: bool)
    requires Bullet(name, value).Valid()
    ensures var line := Bullet(name, value).Text() + if ended then "\n" else "";
            && IsBullet(line) && HasColon(line) && !IsHeading(line)
            && BulletKey(line) == Trim(if |name| < 512 then name else "")
            && BulletValue(line) == Trim(First(value, 511))
  {
    hide Trim, IndexOf, First;
    var end := if ended then "\n" else "";
    var line := Bullet(name, value).Text() + end;
    var body := name + (":" + (value + end));
    BulletBody(name, value, end);
    assert body[|name|] == ':';
    IndexIs(body, ':', |name|);
    assert body[..|name|] == name && body[|name| + 1..] == value + end;
    FirstWithEnd(value);
    assert value + "" == value;
    HeadingIsNoBullet(line);
  }

  lemma BulletBody(name: string, value: string, end: string)
    ensures var line := Bullet(name, value).Text() + end;
            "- " <= line && line[2..] == name + (":" + (value + end))
  {
    var line := Bullet(name, value).Text() + end;
    assert line == "- " + (name + (":" + (value + end)));
  }

  lemma HeadingReads(title: string, ended: bool)
    requires Heading(title).Valid()
    ensures var line := Heading(title).Text() + if ended then "\n" else "";
            IsHeading(line) && !IsBullet(line) && HeadingText(line) == First(title, 255)
  {
    hide IndexOf;
    var end := if ended then "\n" else "";
    var line := Heading(title).Text() + end;
    assert line[3..] == title + end;
    assert forall k :: 0 <= k < |title| ==> title[k] == Heading(title).Text()[k + 3];
    IndexIs(First(line[3..], 255), '\n', |First(title, 255)|);
    HeadingIsNoBullet(line);
  }

  lemma StartsAlike(mark: string, text: string, end: string)
    requires end == "" || end == "\n"
    requires forall k :: 0 <= k < |mark| ==> mark[k] != '\n'
    ensures mark <= text + end <==> mark <= text
  {
    var line := text + end;
    if |mark| <= |text| {
      assert line[..|mark|] == text[..|mark|];
    } else if |mark| <= |line| {
      assert line[|text|] == '\n' && line[..|mark|][|text|] == line[|text|];
    }
  }

  lemma OtherReads(text: string, ended: bool)
    requires Other(text).Valid()
    ensures var line := text + if ended then "\n" else "";
            !IsHeading(line) && (IsBullet(line) ==> !HasColon(line))
  {
    hide IndexOf;
    var end := if ended then "\n" else "";
    var line := text + end;
    StartsAlike("## ", text, end);
    StartsAlike("- ", text, end);
    if IsBullet(line) {
      assert forall k :: 0 <= k < |line[2..]| ==> line[2..][k] == line[k + 2];
      IndexIs(line[2..], ':', |line[2..]|);
    }
  }

  /** One line of memory_recall. */
  lemma LineReads(l: Line, ended: bool, inTarget: bool, section: string, key: string)
    requires l.Valid()
    ensures var line := l.Text() + if ended then "\n" else "";
            && (!IsHeading(line) && inTarget && Matches(line, key)
                <==> l.Bullet? && inTarget && Trim(if |l.name| < 512 then l.name else "") == key)
            && (l.Bullet? ==> IsBullet(line) && HasColon(line) && BulletValue(line) == Trim(First(l.value, 511)))
            && RecallTarget(inTarget, line, section)
               == if l.Heading? then Trim(First(l.title, 255)) == section else inTarget
  {
    hide Trim, IndexOf, First, HeadingText, BulletKey, BulletValue, Line.Valid, HasColon;
    match l
    case Heading(title) => HeadingReads(title, ended);
    case Bullet(name, value) => BulletReads(name, value, ended);
    case Other(text) => OtherReads(text, ended);
  }

  lemma LineFits(l: Line)
    requires l.Valid()
    ensures OneLine(l.Text() + "\n") && |l.Text() + "\n"| < LINE_BUFFER && |l.Text()| < LINE_BUFFER - 1
    ensures forall k :: 0 <= k < |l.Text()| ==> l.Text()[k] != '\n'
  {
  }

  /** Whoever wrote the file: memory_recall finds what the lines say. */
  lemma {:induction false} RecallReads(lines: seq<Line>, open: bool, inTarget: bool, section: string, key: string)
    requires AllValid(lines) && Closable(lines, open)
    ensures Recalled(Spelled(lines, open), inTarget, section, key) == Found(lines, inTarget, section, key)
    decreases |lines|
  {
    hide Recalled, Matches, IsHeading, IsBullet, HasColon, BulletValue, RecallTarget, Line.Text, Line.Valid, Trim,
         First;
    if lines == [] {
      NothingRecalled(inTarget, section, key);
    } else {
      var l, more := lines[0], lines[1..];
      LineFits(l);
      if open && |lines| == 1 {
        LineReads(l, false, inTarget, section, key);
        assert l.Text() + "" == l.Text();
        OpenLineRecalled(l.Text(), inTarget, section, key);
        assert more == [];
      } else {
        LineReads(l, true, inTarget, section, key);
        Assoc(l.Text(), "\n", Spelled(more, open));
        RecalledLine(l.Text() + "\n", Spelled(more, open), inTarget, section, key);
        RecallReads(more, open, RecallTarget(inTarget, l.Text() + "\n", section), section, key);
      }
    }
  }

  lemma NothingRecalled(inTarget: bool, section: string, key: string)
    ensures Recalled("", inTarget, section, key) == None
  {
  }

  lemma OpenLineRecalled(line: string, inTarget: bool, section: string, key: string)
    requires line != "" && (forall k :: 0 <= k < |line| ==> line[k] != '\n') && |line| < LINE_BUFFER - 1
    ensures Recalled(line, inTarget, section, key)
         == if !IsHeading(line) && inTarget && Matches(line, key) then Some(BulletValue(line)) else None
  {
    hide IndexOf, Trim, BulletKey, BulletValue;
    LastLine(line);
  }

  // ----- Writing -----

  /** memory_store on the lines that are left: every bullet with the key below a heading of the section is
      replaced; when such a section ends without it the bullet is put in front of the next heading, or at the
      end of the file; and without such a section one is appended. */
  function Put(lines: seq<Line>, open: bool, inTarget: bool, written: bool, found: bool,
               section: string, key: string, value: string): string
  {
    var bullet := Cut("- " + key + ": " + value, 2047) + "\n";
    if lines == [] then
      if written then "" else if found then bullet else "\n## " + section + "\n\n" + bullet
    else
      var line := lines[0].Text() + if open && |lines| == 1 then "" else "\n";
      var more := lines[1..];
      match lines[0]
      case Heading(title) =>
        var here := IsTitle(title, section);
        (if inTarget && !written then bullet else "")
        + (line + Put(more, open, here, written || inTarget, found || here, section, key, value))
      case Bullet(name, _) =>
        if inTarget && Trim(if |name| < 512 then name else "") == key
        then bullet + Put(more, open, inTarget, true, found, section, key, value)
        else line + Put(more, open, inTarget, written, found, section, key, value)
      case Other(_) => line + Put(more, open, inTarget, written, found, section, key, value)
  }

  lemma LineStores(l: Line, ended: bool, st: Scan, f: Fact)
    requires l.Valid() && f.key != ""
    ensures var line := l.Text() + if ended then "\n" else "";
            && (Replaces(st, line, f)
                <==> l.Bullet? && st.inTarget && Trim(if |l.name| < 512 then l.name else "") == f.key)
            && IsHeading(line) == l.Heading?
            && Next(st, line, f) == if !l.Heading? then st
                                    else
                                      var here := Before(First(l.title, 255), '\r') == f.section;
                                      Scan(here, st.keyWritten || st.inTarget, st.sectionFound || here)
  {
    hide Trim, IndexOf, First, HeadingText, BulletKey, BulletValue, Line.Valid, HasColon, Before;
    var line := l.Text() + if ended then "\n" else "";
    match l
    case Heading(title) => HeadingReads(title, ended);
    case Bullet(name, value) => BulletReads(name, value, ended);
    case Other(text) =>
      OtherReads(text, ended);
      if IsBullet(line) { NoColonNoKey(line); }
  }

  lemma NoColonNoKey(line: string)
    requires IsBullet(line) && !HasColon(line)
    ensures BulletKey(line) == ""
  {
  }

  lemma OpenLineStored(line: string, st: Scan, f: Fact)
    requires line != "" && (forall k :: 0 <= k < |line| ==> line[k] != '\n')
    ensures Stored(line, st, f)
         == if Replaces(st, line, f) then f.Bullet() + "\n" + Stored("", st.(keyWritten := true), f)
            else (if IsHeading(line) && st.inTarget && !st.keyWritten then f.Bullet() + "\n" else "")
                 + line + Stored("", Next(st, line, f), f)
  {
    hide IndexOf, Trim, BulletKey, StoreHeading;
    LastLine(line);
  }

  lemma BulletIs(f: Fact)
    ensures f.Bullet() == Cut("- " + f.key + ": " + f.value, 2047)
  {
  }

  lemma Sides(b: string, line: string, rest: string)
    ensures b + line + rest == b + (line + rest) && "" + line + rest == line + rest && "" + (line + rest) == line + rest
  {
  }

  /** Whoever wrote the file: memory_store writes it with the bullet put in. */
  lemma {:induction false} StoreWrites(lines: seq<Line>, open: bool, st: Scan, f: Fact)
    requires AllValid(lines) && (open ==> lines == [] || lines[|lines| - 1].Text() != "")
    requires f.key != ""
    ensures Stored(Spelled(lines, open), st, f)
         == Put(lines, open, st.inTarget, st.keyWritten, st.sectionFound, f.section, f.key, f.value)
    decreases |lines|
  {
    hide Stored, Replaces, IsHeading, Next, Line.Text, Line.Valid, Trim, First, Fact.Bullet;
    BulletIs(f);
    if lines == [] {
      StoredAtEnd(st, f);
      Assoc("\n## " + f.section + "\n\n", f.Bullet(), "\n");
    } else {
      var l, more := lines[0], lines[1..];
      var ended := !(open && |lines| == 1);
      var line := l.Text() + if ended then "\n" else "";
      LineFits(l);
      LineStores(l, ended, st, f);
      if ended {
        Assoc(l.Text(), "\n", Spelled(more, open));
        StoredLine(line, Spelled(more, open), st, f);
      } else {
        assert line == l.Text() && more == [] && Spelled(more, open) == "";
        OpenLineStored(line, st, f);
      }
      StoreWrites(more, open, if Replaces(st, line, f) then st.(keyWritten := true) else Next(st, line, f), f);
      Sides(f.Bullet() + "\n", line, Stored(Spelled(more, open), Next(st, line, f), f));
    }
  }

  // ----- Every file -----

  lemma {:induction false} SplitsAtColon(t: string) returns (name: string, value: string, colon: bool)
    ensures forall k :: 0 <= k < |name| ==> name[k] != ':'
    ensures if colon then t == name + (":" + value) else t == name
  {
    var i := IndexOf(t, ':');
    colon := i < |t|;
    name, value := t[..i], if colon then t[i + 1..] else "";
  }

  lemma LineOf(text: string) returns (l: Line)
    requires |text| <= 2046 && forall k :: 0 <= k < |text| ==> text[k] != '\n'
    ensures l.Valid() && l.Text() == text
  {
    if "## " <= text {
      l := Heading(text[3..]);
      assert text == "## " + text[3..];
    } else if "- " <= text {
      var name, value, colon := SplitsAtColon(text[2..]);
      assert text == "- " + text[2..];
      l := if colon then Bullet(name, value) else Other(text);
      assert forall k :: 2 <= k < |text| ==> text[k] == text[2..][k - 2];
    } else {
      l := Other(text);
    }
  }

  lemma LineInFront(l: Line, others: seq<Line>, open: bool)
    requires l.Valid() && AllValid(others) && (others == [] ==> !open)
    requires open ==> others != [] && others[|others| - 1].Text() != ""
    ensures var lines := [l] + others;
            && AllValid(lines) && Spelled(lines, open) == l.Text() + ("\n" + Spelled(others, open))
            && (open ==> lines[|lines| - 1].Text() != "")
  {
    hide Line.Text, Line.Valid;
    assert ([l] + others)[1..] == others;
  }

  /** Every file whose lines fit is such a list of lines. */
  lemma {:induction false} LinesOf(file: string) returns (lines: seq<Line>, open: bool)
    requires GoodLines(file, false)
    ensures AllValid(lines) && Spelled(lines, open) == file && (lines == [] ==> !open)
    ensures open ==> lines != [] && lines[|lines| - 1].Text() != ""
    decreases |file|
  {
    hide Line.Text, Line.Valid, IndexOf;
    if file == "" {
      lines, open := [], false;
    } else {
      var n := LineLength(file);
      var line, more := file[..n], file[n..];
      assert file == line + more;
      if more == "" && !Ended(line) {
        var l := LineOf(line);
        lines, open := [l], true;
      } else {
        assert line == line[..n - 1] + "\n";
        var l := LineOf(line[..n - 1]);
        var others, o := LinesOf(more);
        hide Spelled, AllValid;
        LineInFront(l, others, o);
        lines, open := [l] + others, o;
        Assoc(line[..n - 1], "\n", more);
      }
    }
  }

  // ----- Files as they are read from the disk -----

  /** What is recalled from any file within the size limit. */
  lemma FileReads(lines: seq<Line>, open: bool, section: string, key: string)
    requires AllValid(lines) && Closable(lines, open)
    requires NulFree(Spelled(lines, open)) && |Spelled(lines, open)| <= 262144
    ensures RecallFile(Spelled(lines, open), section, key) == Found(lines, false, section, key)
  {
    hide Spelled, Recalled, AllValid;
    RecallReads(lines, open, false, section, key);
  }

  /** What is written over it. */
  lemma FileWrites(lines: seq<Line>, open: bool, f: Fact)
    requires AllValid(lines) && Closable(lines, open)
    requires NulFree(Spelled(lines, open)) && |Spelled(lines, open)| <= 262144
    requires f.key != ""
    ensures StoreFile(Spelled(lines, open), f) == Put(lines, open, false, false, false, f.section, f.key, f.value)
  {
    hide Spelled, Stored, AllValid;
    StoreWrites(lines, open, START, f);
  }

  /** A file over the limit reads as empty: nothing is recalled, and storing writes a new file. */
  lemma LongFile(file: string, section: string, key: string, f: Fact)
    requires |file| > 262144
    ensures RecallFile(file, section, key) == None
    ensures StoreFile(file, f) == "\n## " + f.section + "\n\n" + Cut("- " + f.key + ": " + f.value, 2047) + "\n"
  {
    hide Stored, Recalled;
    StoredAtEnd(START, f);
    NothingRecalled(false, section, key);
  }
}
