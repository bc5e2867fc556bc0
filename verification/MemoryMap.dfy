/** The file behaves like a map from (section, key) to value: main results about storing and recalling. */
module MemoryMap {
  import opened Text
  import opened MemoryFile
  import opened MemoryLaws

  /** One line of the store loop. */
  lemma Split(rest: string, st: Scan, f: Fact, tidy: bool) returns (line: string, more: string)
    requires rest != "" && GoodLines(rest, tidy)
    ensures rest == line + more && |more| < |rest| && line != "" && GoodLine(line, tidy) && GoodLines(more, tidy)
    ensures if more != "" || Ended(line) then OneLine(line)
            else rest == line && forall k :: 0 <= k < |line| ==> line[k] != '\n'
    ensures Stored(rest, st, f)
         == if Replaces(st, line, f) then f.Bullet() + "\n" + Stored(more, st.(keyWritten := true), f)
            else if IsHeading(line) && st.inTarget && !st.keyWritten
            then f.Bullet() + "\n" + (line + Stored(more, Next(st, line, f), f))
            else line + Stored(more, Next(st, line, f), f)
    ensures Glues(rest, st, f)
         == if Replaces(st, line, f) then Glues(more, st.(keyWritten := true), f)
            else if more == "" && !Ended(line) then Next(st, line, f).inTarget && !Next(st, line, f).keyWritten
            else Glues(more, Next(st, line, f), f)
  {
    hide IndexOf, Trim, Fact.Bullet, BulletKey, StoreHeading, RecallHeading, GoodLine;
    var n := LineLength(rest);
    line, more := rest[..n], rest[n..];
    var b, after := f.Bullet() + "\n", Stored(more, Next(st, line, f), f);
    assert b + line + after == b + (line + after) && "" + line + after == line + after;
  }

  /** The same line for Misses. */
  lemma SplitMisses(line: string, more: string, st: Scan, f: Fact, r: bool)
    requires if more != "" || Ended(line) then OneLine(line)
             else line != "" && forall k :: 0 <= k < |line| ==> line[k] != '\n'
    ensures Misses(line + more, st, f, r) ==
              if Replaces(st, line, f) then !r && Misses(more, st.(keyWritten := true), f, r)
              else if IsHeading(line) && st.inTarget && !st.keyWritten
              then !r && Misses(more, Next(st, line, f), f, RecallTarget(r, line, f.section))
              else if !IsHeading(line) && r && Matches(line, f.key) then true
              else if more == "" && !Ended(line) then Next(st, line, f).inTarget || Next(st, line, f).keyWritten
              else Misses(more, Next(st, line, f), f, RecallTarget(r, line, f.section))
  {
    hide LineLength, Matches, Replaces, IsHeading, RecallTarget, Next;
    if more != "" || Ended(line) {
      FirstLine(line, more);
    } else {
      LastLine(line);
      assert line + more == line;
    }
  }

  /** The last line of the file has no newline, and a new section is appended. */
  lemma AppendedToOpenLine(line: string, f: Fact, inTarget: bool, section: string, key: string)
    requires line != "" && (forall k :: 0 <= k < |line| ==> line[k] != '\n') && |line| < LINE_BUFFER - 1 && GoodFact(f)
    ensures Recalled(line + ("\n## " + f.section + "\n\n" + f.Bullet() + "\n"), inTarget, section, key)
         == if !IsHeading(line) && inTarget && Matches(line, key) then Some(BulletValue(line))
            else if section == f.section && key == f.key then Some(Trim(First(f.value, 510))) else None
  {
    hide IndexOf, Trim, GoodFact, Fact.Bullet, Recalled;
    EndingALine(line);
    var added := "## " + f.section + "\n" + ("\n" + (f.Bullet() + "\n"));
    assert line + ("\n## " + f.section + "\n\n" + f.Bullet() + "\n") == line + "\n" + added;
    RecalledLine(line + "\n", added, inTarget, section, key);
    NewSection(RecallTarget(inTarget, line + "\n", section), f, section, key);
  }

  /** The same, when the file ended in a newline. */
  lemma Appended(f: Fact, inTarget: bool, section: string, key: string)
    requires GoodFact(f)
    ensures Recalled("\n## " + f.section + "\n\n" + f.Bullet() + "\n", inTarget, section, key)
         == if section == f.section && key == f.key then Some(Trim(First(f.value, 510))) else None
  {
    hide IndexOf, Trim, GoodFact, Fact.Bullet, Recalled;
    var added := "## " + f.section + "\n" + ("\n" + (f.Bullet() + "\n"));
    assert "\n## " + f.section + "\n\n" + f.Bullet() + "\n" == "\n" + added;
    RecalledLine("\n", added, inTarget, section, key);
    NewSection(inTarget, f, section, key);
  }

  /** Recalling the bullet right where it was written. */
  lemma AtBullet(f: Fact, more: string, inTarget: bool, section: string, key: string)
    requires GoodFact(f)
    ensures Recalled(f.Bullet() + "\n" + more, inTarget, section, key)
         == if inTarget && key == f.key then Some(Trim(First(f.value, 510))) else Recalled(more, inTarget, section, key)
  {
    hide IndexOf, Trim, GoodFact, Fact.Bullet, Recalled, BulletKey, BulletValue;
    BulletLine(f);
    RecalledLine(f.Bullet() + "\n", more, inTarget, section, key);
  }

  /** What a stored fact is recalled as: its trimmed value, unless the bullet was glued to a last line
      without a newline; then nothing is found. */
  lemma {:induction false} RecallStored(rest: string, st: Scan, f: Fact)
    requires GoodLines(rest, true) && GoodFact(f) && Reached(st) && !st.keyWritten
    ensures Recalled(Stored(rest, st, f), st.inTarget, f.section, f.key)
         == if Glues(rest, st, f) then None else Some(Trim(First(f.value, 510)))
    decreases |rest|
  {
    hide IndexOf, Trim, GoodFact, Fact.Bullet, Recalled, BulletKey, BulletValue, StoreHeading, RecallHeading, HasColon;
    hide Stored, Glues, GoodLines, LineLength;
    if rest == "" {
      StoredAtEnd(st, f);
      if st.sectionFound {
        AtBullet(f, "", st.inTarget, f.section, f.key);
        assert f.Bullet() + "\n" + "" == f.Bullet() + "\n";
        RecalledNothing(st.inTarget, f.section, f.key);
      } else {
        Appended(f, st.inTarget, f.section, f.key);
      }
    } else {
      var line, more := Split(rest, st, f, true);
      var next := Next(st, line, f);
      if Replaces(st, line, f) {
        AtBullet(f, Stored(more, st.(keyWritten := true), f), st.inTarget, f.section, f.key);
        WrittenNeverGlues(more, st.(keyWritten := true), f);
      } else if IsHeading(line) && st.inTarget {
        AtBullet(f, line + Stored(more, next, f), st.inTarget, f.section, f.key);
        WrittenNeverGlues(more, next, f);
      } else if more != "" || Ended(line) {
        RecalledLine(line, Stored(more, next, f), st.inTarget, f.section, f.key);
        RecallStored(more, next, f);
      } else {
        StoredAtEnd(next, f);
        if next.inTarget {
          GluedRest(line, f, st.inTarget);
        } else {
          AppendedToOpenLine(line, f, st.inTarget, f.section, f.key);
        }
      }
    }
  }

  /** What gluing does: nothing but appending the bullet to the last line.  The new file ends in a newline,
      so the next store is not glued. */
  lemma {:induction false} GluedFile(rest: string, st: Scan, f: Fact)
    requires GoodLines(rest, false) && Reached(st) && !st.keyWritten && Glues(rest, st, f)
    ensures Stored(rest, st, f) == rest + (f.Bullet() + "\n")
    ensures forall g: Fact :: !Glues(Stored(rest, st, f), START, g)
    decreases |rest|
  {
    hide IndexOf, Fact.Bullet, BulletKey, StoreHeading, Stored, Glues, GoodLines, LineLength;
    GlueNothing(st, f);
    var line, more := Split(rest, st, f, false);
    var next, b := Next(st, line, f), f.Bullet() + "\n";
    if Replaces(st, line, f) || next.keyWritten {
      WrittenNeverGlues(more, if Replaces(st, line, f) then st.(keyWritten := true) else next, f);
    }
    if more == "" && !Ended(line) {
      StoredAtEnd(next, f);
    } else {
      GluedFile(more, next, f);
      Regroup(line, more, b);
    }
    forall g: Fact ensures !Glues(Stored(rest, st, f), START, g) {
      EndedNeverGlues(Stored(rest, st, f), START, g);
    }
  }

  // ----- The other keys when the bullet is glued -----

  /** The last line with more text on the same line behind it. */
  lemma LongerLastLine(line: string, b: string, inTarget: bool, section: string, key: string)
    requires line != "" && (forall k :: 0 <= k < |line| ==> line[k] != '\n') && |line| < LINE_BUFFER - 1
    requires OneLine(b) && IsBullet(b)
    ensures Recalled(line + b, inTarget, section, key)
         == if inTarget && !IsHeading(line) then InLine(First(line + b, LINE_BUFFER - 1), key) else None
  {
    hide IndexOf, Trim, BulletKey, BulletValue, Matches;
    var all := line + b;
    assert OneLine(all);
    FirstLine(all, "");
    assert all + "" == all;
    SameHeading(line, b);
  }

  lemma SameHeading(line: string, b: string)
    requires line != "" && |line| < LINE_BUFFER - 1 && IsBullet(b)
    ensures IsHeading(First(line + b, LINE_BUFFER - 1)) == IsHeading(line)
  {
    var read := First(line + b, LINE_BUFFER - 1);
    assert |read| >= 3 && forall k :: 0 <= k < 3 ==> read[k] == (line + b)[k];
    if |line| >= 3 {
      assert read[..3] == line[..3];
      assert IsHeading(read) == (read[..3] == "## ") && IsHeading(line) == (line[..3] == "## ");
    } else {
      assert read[|line|] == b[0] == "- "[0] && "## "[|line|] != '-';
    }
  }

  /** What recalling gives when text is glued to the last line: nothing new, unless the recall reaches that
      line; then the longer line alone decides, where before the shorter one did. */
  lemma {:induction false} RecallGlued(rest: string, b: string, inTarget: bool, section: string, key: string)
    requires rest != "" && !Ended(rest) && GoodLines(rest, false) && OneLine(b) && IsBullet(b)
    ensures Recalled(rest + b, inTarget, section, key)
         == if ReachesLast(rest, inTarget, section, key)
            then InLine(First(FinalLine(rest) + b, LINE_BUFFER - 1), key)
            else Recalled(rest, inTarget, section, key)
    ensures ReachesLast(rest, inTarget, section, key) ==>
      Recalled(rest, inTarget, section, key) == InLine(FinalLine(rest), key)
    decreases |rest|
  {
    hide IndexOf, LineLength, BulletKey, BulletValue, Matches, Recalled, IsHeading, RecallHeading, IsBullet;
    var n := LineLength(rest);
    var line, more := rest[..n], rest[n..];
    assert rest == line + more && First(line, LINE_BUFFER - 1) == line;
    if more == "" {
      assert line == rest;
      LongerLastLine(rest, b, inTarget, section, key);
      RecalledLast(rest, inTarget, section, key);
    } else {
      assert OneLine(line) && !Ended(more);
      Regroup(line, more, b);
      RecalledLine(line, more + b, inTarget, section, key);
      RecalledLine(line, more, inTarget, section, key);
      RecallGlued(more, b, RecallTarget(inTarget, line, section), section, key);
    }
  }

  lemma GlueNothing(st: Scan, f: Fact)
    ensures !Glues("", st, f)
  {
  }

  lemma RecalledNothing(inTarget: bool, section: string, key: string)
    ensures Recalled("", inTarget, section, key) == None
  {
  }

  lemma RecalledLast(line: string, inTarget: bool, section: string, key: string)
    requires line != "" && (forall k :: 0 <= k < |line| ==> line[k] != '\n') && |line| < LINE_BUFFER - 1
    ensures Recalled(line, inTarget, section, key)
         == if !IsHeading(line) && inTarget && Matches(line, key) then Some(BulletValue(line)) else None
  {
    hide IndexOf, Trim, BulletKey, BulletValue;
    LastLine(line);
  }

  /** On every file whose lines fit, with any headings: a store either makes the new value the one that is
      recalled, or the recall does not see it at all and finds what it found before. */
  lemma {:induction false} RecallStoredExactly(rest: string, st: Scan, f: Fact, inTarget: bool)
    requires GoodLines(rest, false) && GoodFact(f) && Reached(st)
    ensures Recalled(Stored(rest, st, f), inTarget, f.section, f.key)
         == if Misses(rest, st, f, inTarget) then Recalled(rest, inTarget, f.section, f.key)
            else Some(Trim(First(f.value, 510)))
    decreases |rest|
  {
    hide IndexOf, Trim, GoodFact, Fact.Bullet, Recalled, BulletKey, BulletValue, StoreHeading, RecallHeading, HasColon;
    hide Stored, Glues, GoodLines, LineLength, Misses;
    RecalledNothing(inTarget, f.section, f.key);
    if rest == "" {
      StoredAtEnd(st, f);
      MissesAtEnd(st, f, inTarget);
      AtBullet(f, "", inTarget, f.section, f.key);
      assert f.Bullet() + "\n" + "" == f.Bullet() + "\n";
      Appended(f, inTarget, f.section, f.key);
    } else {
      var line, more := Split(rest, st, f, false);
      var next := Next(st, line, f);
      var target := RecallTarget(inTarget, line, f.section);
      SplitMisses(line, more, st, f, inTarget);
      if OneLine(line) {
        RecalledLine(line, more, inTarget, f.section, f.key);
      } else {
        RecalledLast(line, inTarget, f.section, f.key);
      }
      if Replaces(st, line, f) {
        HeadingIsNoBullet(line);
        AtBullet(f, Stored(more, st.(keyWritten := true), f), inTarget, f.section, f.key);
        RecallStoredExactly(more, st.(keyWritten := true), f, inTarget);
      } else if OneLine(line) {
        RecallStoredExactly(more, next, f, target);
        AtBullet(f, line + Stored(more, next, f), inTarget, f.section, f.key);
        RecalledLine(line, Stored(more, next, f), inTarget, f.section, f.key);
      } else {
        StoredAtEnd(next, f);
        MissesAtEnd(next, f, target);
        AtBullet(f, line, inTarget, f.section, f.key);
        assert line + "" == line;
        if !next.keyWritten {
          if next.inTarget {
            HeadingIsNoBullet(line);
            GluedRest(line, f, inTarget);
          } else {
            AppendedToOpenLine(line, f, inTarget, f.section, f.key);
          }
        }
      }
    }
  }

  lemma MissesAtEnd(st: Scan, f: Fact, inTarget: bool)
    ensures Misses("", st, f, inTarget) == (st.keyWritten || (st.sectionFound && !inTarget))
  {
  }

  /** No heading is taken for one section by a store and for another by a recall. */
  lemma HeadingsClash(line: string, stored: string, recalled: string)
    requires IsHeading(line) && GoodSection(stored) && GoodSection(recalled)
    requires StoreHeading(line) == stored && RecallHeading(line) == recalled
    ensures stored == recalled
  {
    hide IndexOf;
    var t := HeadingText(line);
    var i := IndexOf(t, '\r');
    assert t[..i] == stored;
    assert t[0] == stored[0];
    SpanLengthIs(t, IsSpace, 0);
    assert t[0..] == t;
    TrimRightKeeps(t, i);
    assert recalled <= t && forall k :: 0 <= k < |recalled| ==> t[k] == recalled[k] && t[k] != '\r';
  }

  lemma {:induction false} TrimRightKeeps(s: string, n: nat)
    requires 0 < n <= |s| && !IsSpace(s[n - 1])
    ensures |TrimRight(s)| >= n
    decreases |s|
  {
    if IsSpace(s[|s| - 1]) { TrimRightKeeps(s[..|s| - 1], n); }
  }

  lemma FactSection(f: Fact)
    requires GoodFact(f)
    ensures GoodSection(f.section)
  {
  }

  /** Storing one fact does not touch any other: every other section and key is recalled as before, when
      the headings are tidy, or else for every section that can make a heading. */
  lemma {:induction false} OtherStored(rest: string, st: Scan, f: Fact, inTarget: bool, section: string, key: string,
                                        tidy: bool)
    requires GoodLines(rest, tidy) && GoodFact(f) && Reached(st) && !Glues(rest, st, f)
    requires (tidy || GoodSection(section)) && (section != f.section || key != f.key)
    requires key == f.key ==> !(inTarget && st.inTarget)
    ensures Recalled(Stored(rest, st, f), inTarget, section, key) == Recalled(rest, inTarget, section, key)
    decreases |rest|
  {
    hide IndexOf, Trim, GoodFact, Fact.Bullet, Recalled, BulletKey, BulletValue, StoreHeading, RecallHeading, HasColon;
    hide Stored, Glues, GoodLines, LineLength;
    RecalledNothing(inTarget, section, key);
    if rest == "" {
      StoredAtEnd(st, f);
      AtBullet(f, "", inTarget, section, key);
      assert f.Bullet() + "\n" + "" == f.Bullet() + "\n";
      Appended(f, inTarget, section, key);
    } else {
      var line, more := Split(rest, st, f, tidy);
      var next := Next(st, line, f);
      var target := RecallTarget(inTarget, line, section);
      if IsHeading(line) && next.inTarget && target && !tidy {
        FactSection(f);
        HeadingsClash(line, f.section, section);
      }
      if OneLine(line) {
        RecalledLine(line, more, inTarget, section, key);
      } else {
        RecalledLast(line, inTarget, section, key);
      }
      if Replaces(st, line, f) {
        HeadingIsNoBullet(line);
        AtBullet(f, Stored(more, st.(keyWritten := true), f), inTarget, section, key);
        OtherStored(more, st.(keyWritten := true), f, inTarget, section, key, tidy);
      } else if OneLine(line) {
        OtherStored(more, next, f, target, section, key, tidy);
        AtBullet(f, line + Stored(more, next, f), inTarget, section, key);
        RecalledLine(line, Stored(more, next, f), inTarget, section, key);
      } else {
        StoredAtEnd(next, f);
        AtBullet(f, line, inTarget, section, key);
        assert line + "" == line;
        if !next.keyWritten {
          AppendedToOpenLine(line, f, inTarget, section, key);
        }
      }
    }
  }

  // ----- Storing twice -----

  lemma AfterBullet(f: Fact, more: string, st: Scan, tidy: bool)
    requires GoodFact(f)
    ensures st.inTarget ==>
      Stored(f.Bullet() + "\n" + more, st, f) == f.Bullet() + "\n" + Stored(more, st.(keyWritten := true), f)
    ensures GoodLines(f.Bullet() + "\n" + more, tidy) <==> GoodLines(more, tidy)
  {
    hide IndexOf, Trim, GoodFact, Fact.Bullet, BulletValue, GoodLine, HasColon, Stored, GoodLines;
    BulletLine(f);
    StoredLine(f.Bullet() + "\n", more, st, f);
    GoodLinesLine(f.Bullet() + "\n", more, tidy);
  }

  /** A line that is kept as it is. */
  lemma AfterKeptLine(line: string, more: string, st: Scan, f: Fact, tidy: bool)
    requires OneLine(line) && !Replaces(st, line, f) && !(IsHeading(line) && st.inTarget && !st.keyWritten)
    ensures Stored(line + more, st, f) == line + Stored(more, Next(st, line, f), f)
    ensures GoodLine(line, tidy) ==> (GoodLines(line + more, tidy) <==> GoodLines(more, tidy))
  {
    hide Stored, GoodLines, GoodLine, Replaces, Next;
    StoredLine(line, more, st, f);
    GoodLinesLine(line, more, tidy);
    assert "" + line + Stored(more, Next(st, line, f), f) == line + Stored(more, Next(st, line, f), f);
  }

  lemma AfterEmptyLine(more: string, st: Scan, f: Fact, tidy: bool)
    ensures Stored("\n" + more, st, f) == "\n" + Stored(more, st, f)
    ensures GoodLines("\n" + more, tidy) <==> GoodLines(more, tidy)
  {
    hide Stored, GoodLines;
    AfterKeptLine("\n", more, st, f, tidy);
  }

  function NewText(f: Fact): string {
    "## " + f.section + "\n" + ("\n" + (f.Bullet() + "\n"))
  }

  /** The section that was appended is found by the next store. */
  lemma AfterNewSection(f: Fact, st: Scan, tidy: bool)
    requires GoodFact(f) && !st.inTarget && !st.keyWritten
    ensures Stored(NewText(f), st, f) == NewText(f) && GoodLines(NewText(f), tidy)
  {
    HeadingLine(f.section);
    hide IndexOf, Trim, GoodFact, Fact.Bullet, StoreHeading, RecallHeading, GoodLine, Stored, GoodLines;
    var h, b := "## " + f.section + "\n", f.Bullet() + "\n";
    var found := Scan(true, false, true);
    AfterBullet(f, "", found, tidy);
    StoredAtEnd(found.(keyWritten := true), f);
    GoodNothing(tidy);
    assert b + "" == b;
    AfterEmptyLine(b, found, f, tidy);
    AfterKeptLine(h, "\n" + b, st, f, tidy);
  }

  /** Storing a fact twice gives the same file as storing it once, and the file stays well formed. */
  lemma {:induction false} StoredAgain(rest: string, st: Scan, f: Fact, tidy: bool)
    requires GoodLines(rest, tidy) && GoodFact(f) && Reached(st) && !Glues(rest, st, f)
    ensures Stored(Stored(rest, st, f), st, f) == Stored(rest, st, f) && GoodLines(Stored(rest, st, f), tidy)
    decreases |rest|
  {
    hide IndexOf, Trim, GoodFact, Fact.Bullet, BulletKey, StoreHeading, RecallHeading, GoodLine;
    hide Stored, Glues, GoodLines, LineLength, NewText, IsBullet;
    if rest == "" {
      StoredAtEnd(st, f);
      GoodNothing(tidy);
      if st.keyWritten {
      } else if st.sectionFound {
        AfterBullet(f, "", st, tidy);
        StoredAtEnd(st.(keyWritten := true), f);
        assert f.Bullet() + "\n" + "" == f.Bullet() + "\n";
      } else {
        AfterNewSection(f, st, tidy);
        AfterEmptyLine(NewText(f), st, f, tidy);
        SectionText(f);
      }
    } else {
      var line, more := Split(rest, st, f, tidy);
      var next := Next(st, line, f);
      if Replaces(st, line, f) {
        StoredAgain(more, st.(keyWritten := true), f, tidy);
        AfterBullet(f, Stored(more, st.(keyWritten := true), f), st, tidy);
      } else if OneLine(line) {
        StoredAgain(more, next, f, tidy);
        var after := Stored(more, next, f);
        StoredLine(line, after, st, f);
        GoodLinesLine(line, after, tidy);
        if IsHeading(line) && st.inTarget && !st.keyWritten {
          AfterBullet(f, line + after, st, tidy);
          StoredLine(line, after, st.(keyWritten := true), f);
        }
      } else {
        StoredAtEnd(next, f);
        OpenLineAgain(line, st, f, tidy);
      }
    }
  }

  /** Storing twice where the file ends without a newline and nothing is glued. */
  lemma OpenLineAgain(line: string, st: Scan, f: Fact, tidy: bool)
    requires line != "" && (forall k :: 0 <= k < |line| ==> line[k] != '\n') && GoodLine(line, tidy)
    requires GoodFact(f) && Reached(st) && !Replaces(st, line, f)
    requires Next(st, line, f).inTarget ==> Next(st, line, f).keyWritten
    ensures Stored(Stored(line, st, f), st, f) == Stored(line, st, f) && GoodLines(Stored(line, st, f), tidy)
  {
    hide IndexOf, Trim, GoodFact, Fact.Bullet, BulletKey, StoreHeading, RecallHeading, GoodLine, Stored, GoodLines;
    var next := Next(st, line, f);
    var written := st.(keyWritten := true);
    StoredAtEnd(next, f);
    StoredAtEnd(Next(written, line, f), f);
    OpenLine(line, st, f, tidy);
    OpenLine(line, written, f, tidy);
    assert line + "" == line;
    if !next.keyWritten {
      OpenSectionText(line, f);
      SectionGetsAppended(line, st, f, tidy);
    } else if IsHeading(line) && st.inTarget && !st.keyWritten {
      AfterBullet(f, line, st, tidy);
    }
  }

  lemma SectionGetsAppended(line: string, st: Scan, f: Fact, tidy: bool)
    requires line != "" && (forall k :: 0 <= k < |line| ==> line[k] != '\n') && GoodLine(line, tidy) && GoodFact(f)
    requires !Replaces(st, line, f) && !Next(st, line, f).inTarget && !Next(st, line, f).keyWritten
    ensures var s := line + "\n" + NewText(f); Stored(s, st, f) == s && GoodLines(s, tidy)
  {
    hide OneLine, Ended, IsHeading, Replaces, NewText, Fact.Bullet, Trim, GoodFact, GoodLine, GoodLines,
         Stored, StoreHeading;
    EndedReadsTheSame(line, st, f, tidy);
    AfterNewSection(f, Next(st, line, f), tidy);
    AfterKeptLine(line + "\n", NewText(f), st, f, tidy);
  }

  lemma OpenSectionText(line: string, f: Fact)
    ensures line + ("\n## " + f.section + "\n\n" + f.Bullet() + "\n") == line + "\n" + NewText(f)
  {
    SectionText(f);
  }

  lemma OpenLine(line: string, st: Scan, f: Fact, tidy: bool)
    requires line != "" && (forall k :: 0 <= k < |line| ==> line[k] != '\n')
    requires !Replaces(st, line, f) && GoodLine(line, tidy)
    ensures GoodLines(line, tidy)
    ensures Stored(line, st, f)
         == if IsHeading(line) && st.inTarget && !st.keyWritten
            then f.Bullet() + "\n" + (line + Stored("", Next(st, line, f), f))
            else line + Stored("", Next(st, line, f), f)
  {
    hide IndexOf, Trim, Fact.Bullet, BulletKey, StoreHeading, RecallHeading, GoodLine;
    LastLine(line);
    var b, after := f.Bullet() + "\n", Stored("", Next(st, line, f), f);
    assert b + line + after == b + (line + after) && "" + line + after == line + after;
  }

  /** Ending a line changes nothing for the store loop. */
  lemma EndedReadsTheSame(line: string, st: Scan, f: Fact, tidy: bool)
    requires line != "" && (forall k :: 0 <= k < |line| ==> line[k] != '\n') && GoodLine(line, tidy)
    ensures OneLine(line + "\n") && (IsHeading(line + "\n") <==> IsHeading(line))
    ensures GoodLine(line + "\n", tidy) && Next(st, line + "\n", f) == Next(st, line, f)
    ensures Replaces(st, line + "\n", f) <==> Replaces(st, line, f)
  {
    hide IndexOf, Trim, BulletKey, HeadingText;
    EndingALine(line);
  }

  lemma GoodNothing(tidy: bool)
    ensures GoodLines("", tidy)
  {
  }

  lemma SectionText(f: Fact)
    ensures "\n## " + f.section + "\n\n" + f.Bullet() + "\n" == "\n" + NewText(f)
  {
  }

  // ----- Whole files -----

  lemma Joined(a: string, b: string)
    ensures NulFree(a + b) <==> NulFree(a) && NulFree(b)
  {
    if NulFree(a + b) {
      assert forall i :: 0 <= i < |a| ==> a[i] == (a + b)[i];
      assert forall i :: 0 <= i < |b| ==> b[i] == (a + b)[|a| + i];
    }
  }

  lemma AtEndNulFree(st: Scan, f: Fact)
    requires GoodFact(f)
    ensures NulFree(f.Bullet() + "\n") && NulFree(Stored("", st, f))
  {
    assert f.Bullet() == "- " + f.key + ": " + f.value;
  }

  lemma {:induction false} StoredNulFree(rest: string, st: Scan, f: Fact)
    requires NulFree(rest) && GoodFact(f)
    ensures NulFree(Stored(rest, st, f))
    decreases |rest|
  {
    hide IndexOf, GoodFact, Fact.Bullet, LineLength, Replaces, Next, Stored, IsHeading, NulFree;
    AtEndNulFree(st, f);
    if rest != "" {
      var n := LineLength(rest);
      var line, more, b := rest[..n], rest[n..], f.Bullet() + "\n";
      assert line + more == rest;
      Joined(line, more);
      StoredStep("", rest, st, f);
      assert "" + Stored(rest, st, f) == Stored(rest, st, f) && "" + b == b && "" + line == line;
      if Replaces(st, line, f) {
        StoredNulFree(more, st.(keyWritten := true), f);
        Joined(b, Stored(more, st.(keyWritten := true), f));
      } else {
        StoredNulFree(more, Next(st, line, f), f);
        Joined(b, line);
        Joined(b + line, Stored(more, Next(st, line, f), f));
        Joined(line, Stored(more, Next(st, line, f), f));
      }
    }
  }

  lemma EndedJoined(a: string, b: string)
    requires Ended(a) && (b == "" || Ended(b))
    ensures Ended(a + b)
  {
  }

  lemma AtEndEnds(st: Scan, f: Fact)
    ensures Ended(f.Bullet() + "\n") && (Stored("", st, f) == "" || Ended(Stored("", st, f)))
  {
    hide Fact.Bullet;
    StoredAtEnd(st, f);
  }

  lemma LinesEnd(rest: string)
    requires Ended(rest)
    ensures var n := LineLength(rest); Ended(rest[..n]) && (rest[n..] == "" || Ended(rest[n..]))
  {
    hide IndexOf;
  }

  lemma {:induction false} StoredEnds(rest: string, st: Scan, f: Fact)
    requires rest == "" || Ended(rest)
    ensures Stored(rest, st, f) == "" || Ended(Stored(rest, st, f))
    decreases |rest|
  {
    hide LineLength, Ended, Fact.Bullet, Replaces, Next, Stored, IsHeading;
    AtEndEnds(st, f);
    if rest != "" {
      LinesEnd(rest);
      var n := LineLength(rest);
      var line, more, b := rest[..n], rest[n..], f.Bullet() + "\n";
      StoredStep("", rest, st, f);
      assert "" + Stored(rest, st, f) == Stored(rest, st, f) && "" + b == b && "" + line == line;
      StoredEnds(more, st.(keyWritten := true), f);
      StoredEnds(more, Next(st, line, f), f);
      EndedJoined(b, Stored(more, st.(keyWritten := true), f));
      EndedJoined(b, line);
      EndedJoined(b + line, Stored(more, Next(st, line, f), f));
      EndedJoined(line, Stored(more, Next(st, line, f), f));
    }
  }

  lemma ReadsBack(file: string, f: Fact)
    requires GoodFact(f)
    ensures Read(StoreFile(file, f)) == if |StoreFile(file, f)| > MAX_FILE_SIZE then "" else StoreFile(file, f)
  {
    hide Stored, GoodFact, CString;
    StoredNulFree(Read(file), START, f);
  }

  /** On every file whose lines fit: a store makes the new value (cut to 510 bytes and trimmed) the one that
      is recalled exactly when the new file is within the size cap and the recall does not miss the bullet;
      when it misses it, it finds what it found before, and above the cap nothing. */
  lemma RecallAfterStoreExactly(file: string, f: Fact)
    requires GoodLines(Read(file), false) && GoodFact(f)
    ensures RecallFile(StoreFile(file, f), f.section, f.key)
         == if |StoreFile(file, f)| > MAX_FILE_SIZE then None
            else if Misses(Read(file), START, f, false) then RecallFile(file, f.section, f.key)
            else Some(Trim(First(f.value, 510)))
  {
    hide Stored, Misses, GoodLines, GoodFact, Read;
    ReadsBack(file, f);
    RecallStoredExactly(Read(file), START, f, false);
    RecalledNothing(false, f.section, f.key);
  }

  /** When the headings carry no stray white space, the only way to miss the bullet is that it was glued to
      a last line without newline, and then nothing is found. */
  lemma RecallAfterStore(file: string, f: Fact)
    requires GoodLines(Read(file), true) && GoodFact(f)
    ensures RecallFile(StoreFile(file, f), f.section, f.key)
         == if |StoreFile(file, f)| <= MAX_FILE_SIZE && !Glues(Read(file), START, f)
            then Some(Trim(First(f.value, 510))) else None
  {
    hide Stored, Glues, GoodLines, GoodFact, Read;
    ReadsBack(file, f);
    RecallStored(Read(file), START, f);
    RecalledNothing(false, f.section, f.key);
  }

  /** Every other section and key is recalled as before: for every section that can make a heading, and on
      files with tidy headings for any. */
  lemma OthersUnchanged(file: string, f: Fact, section: string, key: string, tidy: bool)
    requires GoodLines(Read(file), tidy) && GoodFact(f) && !Glues(Read(file), START, f)
    requires (tidy || GoodSection(section)) && (section != f.section || key != f.key)
    requires |StoreFile(file, f)| <= MAX_FILE_SIZE
    ensures RecallFile(StoreFile(file, f), section, key) == RecallFile(file, section, key)
  {
    hide Stored, Glues, GoodLines, GoodFact, GoodSection, Read;
    ReadsBack(file, f);
    OtherStored(Read(file), START, f, false, section, key, tidy);
  }

  /** When the bullet is glued to the last line, any section and key is recalled as before unless the recall
      reaches that line; then the longer line decides where the old last line did.  That makes a difference
      only when the last line is a bullet. */
  lemma RecallWhenGlued(file: string, f: Fact, section: string, key: string)
    requires GoodLines(Read(file), false) && GoodFact(f) && Glues(Read(file), START, f)
    requires |StoreFile(file, f)| <= MAX_FILE_SIZE
    ensures var rest := Read(file);
            var longer := First(FinalLine(rest) + (f.Bullet() + "\n"), LINE_BUFFER - 1);
            && RecallFile(StoreFile(file, f), section, key)
               == (if ReachesLast(rest, false, section, key) then InLine(longer, key)
                   else RecallFile(file, section, key))
            && (ReachesLast(rest, false, section, key) ==>
                  RecallFile(file, section, key) == InLine(FinalLine(rest), key))
            && (!IsBullet(FinalLine(rest)) ==>
                  RecallFile(StoreFile(file, f), section, key) == RecallFile(file, section, key))
  {
    hide Stored, GoodLines, GoodFact, Read, Fact.Bullet, ReachesLast, FinalLine, Recalled, OneLine, IsBullet, Matches,
         BulletValue;
    var rest, b := Read(file), f.Bullet() + "\n";
    ReadsBack(file, f);
    GluedFile(rest, START, f);
    assert rest != "" && !Ended(rest) by { if Ended(rest) { EndedNeverGlues(rest, START, f); } }
    BulletLine(f);
    RecallGlued(rest, b, false, section, key);
    FinalIsSomething(rest);
    if !IsBullet(FinalLine(rest)) { NoBulletNothing(FinalLine(rest), b, key); }
  }

  lemma {:induction false} FinalIsSomething(rest: string)
    requires rest != ""
    ensures FinalLine(rest) != ""
    decreases |rest|
  {
    var n := LineLength(rest);
    if n < |rest| { FinalIsSomething(rest[n..]); }
  }

  lemma NoBulletNothing(line: string, b: string, key: string)
    requires line != "" && !IsBullet(line) && IsBullet(b)
    ensures InLine(line, key) == None && InLine(First(line + b, LINE_BUFFER - 1), key) == None
  {
    var read := First(line + b, LINE_BUFFER - 1);
    assert |read| >= 2 && read[0] == line[0] && read[1] == (line + b)[1];
    if |line| >= 2 {
      assert read[..2] == line[..2];
    } else {
      assert read[1] == b[0] == "- "[0];
    }
  }

  /** When the last line is the bullet of another key, that key's value takes the new bullet in. */
  lemma GluedValueGrows(last: Fact, f: Fact)
    requires GoodFact(last) && GoodFact(f) && |last.Bullet()| + |f.Bullet()| < LINE_BUFFER - 1
    ensures InLine(First(last.Bullet() + (f.Bullet() + "\n"), LINE_BUFFER - 1), last.key)
         == Some(Trim(First(" " + last.value + (f.Bullet() + "\n"), 511)))
  {
    hide Trim, IndexOf;
    var b := f.Bullet() + "\n";
    assert |last.key| + |last.value| + 4 == |"- " + last.key + ": " + last.value|;
    assert last.Bullet() == "- " + last.key + ": " + last.value;
    var body := last.key + ":" + (" " + last.value + b);
    assert (last.Bullet() + b)[2..] == body;
    IndexIs(body, ':', |last.key|);
    Untrimmed(last.key);
    assert body[..|last.key|] == last.key && body[|last.key| + 1..] == " " + last.value + b;
  }

  /** Storing the same fact twice gives the same file as storing it once. */
  lemma StoreTwice(file: string, f: Fact)
    requires GoodLines(Read(file), false) && GoodFact(f) && !Glues(Read(file), START, f)
    requires |StoreFile(file, f)| <= MAX_FILE_SIZE
    ensures StoreFile(StoreFile(file, f), f) == StoreFile(file, f)
  {
    hide Stored, Glues, GoodLines, GoodFact, Read;
    ReadsBack(file, f);
    StoredAgain(Read(file), START, f, false);
  }

  // ----- Where the two readings of a heading differ -----

  /** A blank behind a heading, an instance of the above: memory_store compares the heading as it is and
      misses the section, while memory_recall trims it and still finds the old value. */
  lemma StrayBlankKeepsTheOldValue(f: Fact, earlier: string)
    requires GoodFact(f) && GoodFact(f.(value := earlier)) && |f.section| < 255
    ensures var file := "## " + f.section + " \n" + (f.(value := earlier).Bullet() + "\n");
            && Misses(file, START, f, false)
            && Recalled(Stored(file, START, f), false, f.section, f.key) == Some(Trim(First(earlier, 510)))
  {
    var before := f.(value := earlier);
    var h, b := "## " + f.section + " \n", before.Bullet() + "\n";
    BulletText(before);
    BulletLine(before);
    StrayHeading(f.section);
    hide IndexOf, Trim, GoodFact, Fact.Bullet, StoreHeading, RecallHeading, Stored, Recalled, BulletKey, BulletValue,
         GoodLine, GoodLines, Misses;
    assert b + "" == b;
    SplitMisses(b, "", START, f, true);
    SplitMisses(h, b, START, f, false);
    GoodNothing(false);
    GoodLinesLine(b, "", false);
    GoodLinesLine(h, b, false);
    RecallStoredExactly(h + b, START, f, false);
    RecalledLine(h, b, false, f.section, f.key);
    RecalledLine(b, "", true, f.section, f.key);
  }

  /** The text of a heading with a blank behind it. */
  lemma StrayText(section: string)
    requires GoodSection(section) && |section| < 255
    ensures var line := "## " + section + " \n";
            && OneLine(line) && GoodLine(line, false) && IsHeading(line) && HeadingText(line) == section + " "
  {
    hide IndexOf;
    var line := "## " + section + " \n";
    var t := section + " ";
    assert line[3..] == t + "\n";
    IndexIs(First(line[3..], 255), '\n', |t|);
  }

  lemma StrayHeading(section: string)
    requires GoodSection(section) && |section| < 255
    ensures var line := "## " + section + " \n";
            && OneLine(line) && GoodLine(line, false) && IsHeading(line)
            && StoreHeading(line) != section && RecallHeading(line) == section
  {
    Untrimmed(section);
    StrayText(section);
    hide Trim, IndexOf, HeadingText, OneLine, GoodLine, IsHeading;
    var t := section + " ";
    IndexIs(t, '\r', |t|);
    assert t[..|t|] == t && |t| != |section|;
    TrimTrailingSpace(section, ' ');
  }

  // ----- Which keys can be found -----

  /** No file holds a key with a colon, a newline, white space around it or 512 bytes and more: storing
      such a key is never seen by a recall.  So what GoodFact asks of the key is needed. */
  lemma {:induction false} OnlyGoodKeysAreFound(rest: string, inTarget: bool, section: string, key: string)
    requires Recalled(rest, inTarget, section, key).Some?
    ensures Trim(key) == key && |key| < 512 && forall k :: 0 <= k < |key| ==> key[k] != ':' && key[k] != '\n'
    decreases |rest|
  {
    hide IndexOf, Trim, RecallHeading, BulletValue;
    var n := LineLength(rest);
    var line := First(rest[..n], LINE_BUFFER - 1);
    if !IsHeading(line) && inTarget && Matches(line, key) {
      var colon := IndexOf(line[2..], ':');
      var x := if colon < 512 then line[2..][..colon] else "";
      assert forall k :: 0 <= k < |x| ==> x[k] == rest[k + 2] && k + 2 < n - 1;
      TrimOnlyDrops(x);
    } else {
      OnlyGoodKeysAreFound(rest[n..], RecallTarget(inTarget, line, section), section, key);
    }
  }

  // ----- Whole runs -----

  function StoreAll(file: string, facts: seq<Fact>): string {
    if facts == [] then file else StoreFile(StoreAll(file, facts[..|facts| - 1]), facts[|facts| - 1])
  }

  /** The value last stored under a section and key. */
  function LastValue(facts: seq<Fact>, section: string, key: string): Option<string> {
    if facts == [] then None
    else
      var f := facts[|facts| - 1];
      if f.section == section && f.key == key then Some(Trim(First(f.value, 510)))
      else LastValue(facts[..|facts| - 1], section, key)
  }

  predicate GoodFile(file: string) {
    GoodLines(Read(file), true) && (Read(file) == "" || Ended(Read(file)))
  }

  lemma StoreKeepsGood(file: string, f: Fact)
    requires GoodFile(file) && GoodFact(f)
    ensures GoodFile(StoreFile(file, f)) && !Glues(Read(file), START, f)
  {
    hide Stored, Glues, GoodLines, GoodFact, Read, Ended;
    EndedNeverGlues(Read(file), START, f);
    ReadsBack(file, f);
    GoodNothing(true);
    StoredAgain(Read(file), START, f, true);
    StoredEnds(Read(file), START, f);
  }

  /** Over any run of stores into a file that ends in a newline and stays within the size cap, the file is a
      map: each section and key is recalled with the value last stored there, or as in the first file. */
  lemma {:induction false} RunIsMap(file: string, facts: seq<Fact>, section: string, key: string)
    requires GoodFile(file) && forall k :: 0 <= k < |facts| ==> GoodFact(facts[k])
    requires forall k :: 0 < k <= |facts| ==> |StoreAll(file, facts[..k])| <= MAX_FILE_SIZE
    ensures GoodFile(StoreAll(file, facts))
    ensures var last := LastValue(facts, section, key);
            RecallFile(StoreAll(file, facts), section, key)
            == if last.Some? then last else RecallFile(file, section, key)
    decreases |facts|
  {
    hide GoodFile, GoodFact, StoreFile, RecallFile, Trim, First;
    if facts != [] {
      var n := |facts| - 1;
      var earlier, f := facts[..n], facts[n];
      forall k | 0 < k <= n ensures |StoreAll(file, earlier[..k])| <= MAX_FILE_SIZE {
        assert earlier[..k] == facts[..k];
      }
      RunIsMap(file, earlier, section, key);
      assert facts[..n + 1] == facts;
      StepIsMap(StoreAll(file, earlier), f, section, key);
    }
  }

  lemma StepIsMap(file: string, f: Fact, section: string, key: string)
    requires GoodFile(file) && GoodFact(f) && |StoreFile(file, f)| <= MAX_FILE_SIZE
    ensures GoodFile(StoreFile(file, f))
    ensures RecallFile(StoreFile(file, f), section, key)
         == if f.section == section && f.key == key then Some(Trim(First(f.value, 510)))
            else RecallFile(file, section, key)
  {
    hide StoreFile, RecallFile, GoodFact, GoodLines, Glues;
    StoreKeepsGood(file, f);
    RecallAfterStore(file, f);
    if f.section != section || f.key != key { OthersUnchanged(file, f, section, key, true); }
  }

  // ----- The first file -----

  predicate PlainText(s: string) {
    forall k :: 0 <= k < |s| ==> s[k] != '\r' && s[k] != '\n' && s[k] != '\0'
  }

  lemma SectionsAreGood()
    ensures forall i :: 0 <= i < |SECTIONS| ==> GoodSection(SECTIONS[i])
  {
    assert GoodSection("User Information") && GoodSection("Preferences");
    assert GoodSection("Project Context") && GoodSection("Important Notes");
  }

  /** Every section a category can be mapped to makes a well-formed heading. */
  lemma CanonicalIsGood(category: Option<string>)
    ensures GoodSection(Canonicalise(category))
  {
    hide Canonicalise, GoodSection;
    SectionsAreGood();
  }

  /** The pattern does not start at this position: one of its first three characters differs. */
  predicate Differs(s: string, i: nat, p: string)
    requires |p| >= 3 && i + |p| <= |s|
  {
    s[i] != p[0] || s[i + 1] != p[1] || s[i + 2] != p[2]
  }

  lemma {:induction false} NotFound(s: string, p: string)
    requires |p| >= 3 && forall i :: 0 <= i <= |s| - |p| ==> Differs(s, i, p)
    ensures Find(s, p).None?
    decreases |s|
  {
    if |s| >= |p| {
      assert Differs(s, 0, p);
      forall i | 0 <= i <= |s[1..]| - |p| ensures Differs(s[1..], i, p) {
        assert Differs(s, i + 1, p);
      }
      NotFound(s[1..], p);
    }
  }

  lemma NamesNothing(a: string, b: string)
    requires |a| >= 3 && |b| >= 3
    requires forall i :: 0 <= i <= |a| - |b| ==> Differs(LowerAll(a), i, LowerAll(b))
    requires forall i :: 0 <= i <= |b| - |a| ==> Differs(LowerAll(b), i, LowerAll(a))
    ensures !Names(a, b)
  {
    NotFound(LowerAll(a), LowerAll(b));
    NotFound(LowerAll(b), LowerAll(a));
  }

  lemma PreferencesApart()
    ensures !Names(SECTIONS[1], SECTIONS[0])
  {
    hide Names;
    NamesNothing("Preferences", "User Information");
  }

  lemma ProjectApart()
    ensures !Names(SECTIONS[2], SECTIONS[0]) && !Names(SECTIONS[2], SECTIONS[1])
  {
    hide Names;
    NamesNothing("Project Context", "User Information");
    NamesNothing("Project Context", "Preferences");
  }

  lemma NotesApart()
    ensures !Names(SECTIONS[3], SECTIONS[0]) && !Names(SECTIONS[3], SECTIONS[1]) && !Names(SECTIONS[3], SECTIONS[2])
  {
    hide Names;
    NamesNothing("Important Notes", "User Information");
    NamesNothing("Important Notes", "Preferences");
    NamesNothing("Important Notes", "Project Context");
  }

  /** The name of a section stands for that section and no other. */
  lemma SectionsNameThemselves(k: nat)
    requires k < 4
    ensures Canonicalise(Some(SECTIONS[k])) == SECTIONS[k]
  {
    hide Names;
    NamesItself(SECTIONS[k]);
    PreferencesApart();
    ProjectApart();
    NotesApart();
  }

  lemma NamesItself(s: string)
    ensures Names(s, s)
  {
  }

  lemma {:induction false} GoodLinesFit(rest: string)
    requires GoodLines(rest, false)
    ensures LinesFit(rest)
    decreases |rest|
  {
    hide IndexOf, StoreHeading, RecallHeading;
    if rest != "" { GoodLinesFit(rest[LineLength(rest)..]); }
  }

  /** The file of create_initial_memory: a title and a sentence, then the headings, with empty lines
      between them. */
  function Headings(sections: seq<string>): string {
    if sections == [] then ""
    else "## " + sections[0] + "\n" + (if |sections| == 1 then "" else "\n" + Headings(sections[1..]))
  }

  const TITLE := "# Long-term Memory"
  const SENTENCE := "This file stores " + "important information " + "that should persist " + "across sessions."
  const FIRST_FILE := TITLE + "\n" + ("\n" + (SENTENCE + "\n" + ("\n" + Headings(SECTIONS))))

  lemma PlainLine(text: string, more: string)
    requires |text| < 100 && PlainText(text) && (|text| > 1 ==> text[1] != '#') && GoodLines(more, true)
    ensures GoodLines(text + "\n" + more, true)
  {
    hide GoodLines;
    assert text != "" ==> (text + "\n")[1] != '#';
    assert !IsHeading(text + "\n") && OneLine(text + "\n");
    GoodLinesLine(text + "\n", more, true);
  }

  lemma EmptyLine(more: string)
    requires GoodLines(more, true)
    ensures GoodLines("\n" + more, true)
  {
    hide GoodLines;
    PlainLine("", more);
    assert "" + "\n" == "\n";
  }

  lemma {:induction false} HeadingsAreGood(sections: seq<string>)
    requires sections != [] && forall i :: 0 <= i < |sections| ==> GoodSection(sections[i])
    ensures GoodLines(Headings(sections), true) && Ended(Headings(sections))
    decreases |sections|
  {
    hide GoodLines;
    var h := "## " + sections[0] + "\n";
    HeadingLine(sections[0]);
    GoodNothing(true);
    if |sections| == 1 {
      GoodLinesLine(h, "", true);
    } else {
      HeadingsAreGood(sections[1..]);
      EmptyLine(Headings(sections[1..]));
      GoodLinesLine(h, "\n" + Headings(sections[1..]), true);
    }
  }

  /** The first file is well formed and ends in a newline, so every run from it is a map. */
  lemma FirstFileIsGood()
    ensures GoodLines(FIRST_FILE, true) && Ended(FIRST_FILE)
  {
    hide GoodLines, Headings;
    SectionsAreGood();
    HeadingsAreGood(SECTIONS);
    var rest := "\n" + Headings(SECTIONS);
    EmptyLine(Headings(SECTIONS));
    assert PlainText("This file stores ") && PlainText("important information ");
    assert PlainText("that should persist ") && PlainText("across sessions.") && SENTENCE[1] == 'h';
    PlainLine(SENTENCE, rest);
    EmptyLine(SENTENCE + "\n" + rest);
    PlainLine(TITLE, "\n" + (SENTENCE + "\n" + rest));
  }
}
