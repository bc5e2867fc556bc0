/** Storing and recalling, line by line. */
module MemoryLaws {
  import opened Text
  import opened MemoryFile

  // ----- Strings -----

  lemma {:induction false} IndexIs(s: string, c: char, i: nat)
    requires i <= |s| && (i < |s| ==> s[i] == c) && (forall k :: 0 <= k < i ==> s[k] != c)
    ensures IndexOf(s, c) == i
  {
    if i > 0 {
      IndexIs(s[1..], c, i - 1);
    }
  }

  lemma TrimLeadingSpace(s: string)
    ensures Trim(" " + s) == Trim(s)
  {
    assert (" " + s)[1..] == s;
    var n := SpanLength(s, IsSpace);
    assert (" " + s)[1 + n..] == s[n..];
  }

  lemma TrimTrailingSpace(s: string, c: char)
    requires IsSpace(c)
    ensures Trim(s + [c]) == Trim(s)
  {
    var n := SpanLength(s, IsSpace);
    if n < |s| {
      SpanLengthIs(s + [c], IsSpace, n);
      assert (s + [c])[n..] == s[n..] + [c];
      assert (s[n..] + [c])[..|s[n..]|] == s[n..];
    } else {
      SpanLengthIs(s + [c], IsSpace, |s| + 1);
    }
  }

  /** Text that starts with a character that is not white space and ends with another keeps them. */
  lemma TrimKeepsEnds(x: string, y: string)
    requires y != "" && !IsSpace(y[|y| - 1]) && !IsSpace(y[0])
    ensures |Trim(x + y)| >= |y|
  {
    var s := x + y;
    var n := SpanLength(s, IsSpace);
    assert s[|x|] == y[0];
    assert s[n..][|s| - n - 1] == y[|y| - 1];
  }

  lemma Untrimmed(s: string)
    requires s != "" && !IsSpace(s[0]) && !IsSpace(s[|s| - 1])
    ensures Trim(s) == s
  {
    SpanLengthIs(s, IsSpace, 0);
  }

  /** Trimming keeps a part of the text and is done after one go. */
  lemma TrimOnlyDrops(s: string)
    ensures var t := Trim(s);
            Trim(t) == t && |t| <= |s| && forall k :: 0 <= k < |t| ==> t[k] in s
  {
    var n, t := SpanLength(s, IsSpace), Trim(s);
    TrimRightIs(s[n..]);
    if t != "" { Untrimmed(t); }
    forall k | 0 <= k < |t| ensures t[k] in s { assert t[k] == s[n..][k] == s[n + k]; }
  }

  // ----- Lines -----

  predicate OneLine(line: string) {
    Ended(line) && forall k :: 0 <= k < |line| - 1 ==> line[k] != '\n'
  }

  lemma FirstLine(line: string, more: string)
    requires OneLine(line)
    ensures LineLength(line + more) == |line| && (line + more)[..|line|] == line && (line + more)[|line|..] == more
  {
    IndexIs(line + more, '\n', |line| - 1);
  }

  /** A last line without its newline. */
  lemma LastLine(line: string)
    requires line != "" && forall k :: 0 <= k < |line| ==> line[k] != '\n'
    ensures LineLength(line) == |line| && line[..|line|] == line && line[|line|..] == ""
  {
    IndexIs(line, '\n', |line|);
  }

  lemma RecalledLine(line: string, more: string, inTarget: bool, section: string, key: string)
    requires OneLine(line) && |line| < LINE_BUFFER
    ensures Recalled(line + more, inTarget, section, key)
         == if !IsHeading(line) && inTarget && Matches(line, key) then Some(BulletValue(line))
            else Recalled(more, RecallTarget(inTarget, line, section), section, key)
  {
    FirstLine(line, more);
  }

  lemma StoredLine(line: string, more: string, st: Scan, f: Fact)
    requires OneLine(line)
    ensures Stored(line + more, st, f)
         == if Replaces(st, line, f) then f.Bullet() + "\n" + Stored(more, st.(keyWritten := true), f)
            else (if IsHeading(line) && st.inTarget && !st.keyWritten then f.Bullet() + "\n" else "")
                 + line + Stored(more, Next(st, line, f), f)
  {
    FirstLine(line, more);
  }

  lemma HeadingIsNoBullet(line: string)
    ensures !(IsHeading(line) && IsBullet(line))
  {
    assert IsHeading(line) ==> line[0] == '#';
    assert IsBullet(line) ==> line[0] == '-';
  }

  /** One line of the store loop, appended to what was written before. */
  lemma StoredStep(out: string, rest: string, st: Scan, f: Fact)
    requires rest != ""
    ensures var n := LineLength(rest);
            var line, b := rest[..n], f.Bullet() + "\n";
            out + Stored(rest, st, f) ==
            (if Replaces(st, line, f) then out + b + Stored(rest[n..], st.(keyWritten := true), f)
             else if IsHeading(line) && st.inTarget && !st.keyWritten
             then out + b + line + Stored(rest[n..], Next(st, line, f), f)
             else out + line + Stored(rest[n..], Next(st, line, f), f))
  {
    hide LineLength, Replaces, Next, Fact.Bullet;
    var n := LineLength(rest);
    var line, b := rest[..n], f.Bullet() + "\n";
    Regroup(out, b, Stored(rest[n..], st.(keyWritten := true), f));
    Regroup(out, b + line, Stored(rest[n..], Next(st, line, f), f));
    Regroup(out, b, line);
    Regroup(out, line, Stored(rest[n..], Next(st, line, f), f));
    assert "" + line == line;
  }

  lemma StoredAtEnd(st: Scan, f: Fact)
    ensures Stored("", st, f)
         == if st.keyWritten then "" else if st.sectionFound then f.Bullet() + "\n"
            else "\n## " + f.section + "\n\n" + f.Bullet() + "\n"
    ensures !Glues("", st, f)
  {
  }

  lemma Regroup(a: string, b: string, c: string)
    ensures a + (b + c) == a + b + c
  {
  }

  lemma GoodLinesLine(line: string, more: string, tidy: bool)
    requires OneLine(line)
    ensures GoodLines(line + more, tidy) <==> GoodLine(line, tidy) && GoodLines(more, tidy)
  {
    FirstLine(line, more);
  }

  /** The characters of the bullet that is written. */
  lemma BulletText(f: Fact)
    requires GoodFact(f)
    ensures var line, v := f.Bullet() + "\n", " " + f.value + "\n";
            && |line| == |f.key| + |f.value| + 5 < LINE_BUFFER && OneLine(line) && IsBullet(line)
            && line[2..] == f.key + ":" + v
  {
    hide Trim;
    var line, v := f.Bullet() + "\n", " " + f.value + "\n";
    assert f.Bullet() == "- " + f.key + ": " + f.value;
    assert line[0] == '-' && line[1] == ' ';
    var body := f.key + ":" + v;
    assert line[2..] == body;
    assert forall k :: 2 <= k < |line| ==> line[k] == body[k - 2];
  }

  /** Where the colon of a written bullet stands. */
  lemma BulletColon(f: Fact)
    requires GoodFact(f)
    ensures var body := (f.Bullet() + "\n")[2..];
            && IndexOf(body, ':') == |f.key| < |body|
            && body[..|f.key|] == f.key && body[|f.key| + 1..] == " " + f.value + "\n"
  {
    hide IndexOf, Fact.Bullet;
    BulletText(f);
    IndexIs((f.Bullet() + "\n")[2..], ':', |f.key|);
  }

  lemma TrimmedValue(value: string)
    ensures Trim(First(" " + value + "\n", 511)) == Trim(First(value, 510))
  {
    hide Trim;
    if |value| < 510 {
      TrimTrailingSpace(" " + value, '\n');
      TrimLeadingSpace(value);
    } else {
      assert First(" " + value + "\n", 511) == " " + First(value, 510);
      TrimLeadingSpace(First(value, 510));
    }
  }

  /** It holds its fact, and only that. */
  lemma BulletLine(f: Fact)
    requires GoodFact(f)
    ensures var line := f.Bullet() + "\n";
            && OneLine(line) && GoodLine(line, true) && GoodLine(line, false)
            && !IsHeading(line) && IsBullet(line) && HasColon(line)
            && BulletKey(line) == f.key && BulletValue(line) == Trim(First(f.value, 510))
  {
    hide Trim, IndexOf, Fact.Bullet, First;
    BulletText(f);
    BulletColon(f);
    Untrimmed(f.key);
    TrimmedValue(f.value);
    HeadingIsNoBullet(f.Bullet() + "\n");
  }

  lemma HeadingLine(section: string)
    requires GoodSection(section)
    ensures var line := "## " + section + "\n";
            && OneLine(line) && GoodLine(line, true) && GoodLine(line, false)
            && IsHeading(line) && StoreHeading(line) == section == RecallHeading(line)
  {
    Untrimmed(section);
    hide Trim, IndexOf;
    var line := "## " + section + "\n";
    assert line[3..] == section + "\n";
    IndexIs(First(line[3..], 255), '\n', |section|);
    assert HeadingText(line) == section;
    IndexIs(section, '\r', |section|);
  }

  /** Ending a last line changes nothing about it. */
  lemma EndingALine(line: string)
    requires line != "" && (forall k :: 0 <= k < |line| ==> line[k] != '\n') && |line| < LINE_BUFFER - 1
    ensures var ended := line + "\n";
            && OneLine(ended) && |ended| < LINE_BUFFER
            && (IsHeading(ended) <==> IsHeading(line)) && (IsBullet(ended) <==> IsBullet(line))
            && (IsHeading(line) ==> HeadingText(ended) == HeadingText(line))
            && (IsBullet(line) ==> (HasColon(ended) <==> HasColon(line)) && BulletKey(ended) == BulletKey(line))
            && (IsBullet(line) && HasColon(line) ==> BulletValue(ended) == BulletValue(line))
  {
    hide Trim, IndexOf;
    var ended := line + "\n";
    if IsHeading(line) {
      var t := line[3..];
      assert ended[3..] == t + "\n";
      IndexIs(First(t, 255), '\n', |First(t, 255)|);
      IndexIs(First(t + "\n", 255), '\n', |First(t, 255)|);
      assert HeadingText(ended) == HeadingText(line);
    }
    if IsBullet(line) {
      var body := line[2..];
      assert ended[2..] == body + "\n";
      var colon := IndexOf(body, ':');
      if colon < |body| {
        IndexIs(body + "\n", ':', colon);
        assert (body + "\n")[..colon] == body[..colon];
        var v := body[colon + 1..];
        assert (body + "\n")[colon + 1..] == v + "\n";
        if |v| < 511 { TrimTrailingSpace(v, '\n'); }
        assert |v| >= 511 ==> First(v + "\n", 511) == First(v, 511);
      } else {
        IndexIs(body + "\n", ':', |body| + 1);
      }
    }
  }

  // ----- Gluing -----

  lemma {:induction false} WrittenNeverGlues(rest: string, st: Scan, f: Fact)
    requires st.keyWritten
    ensures !Glues(rest, st, f)
    decreases |rest|
  {
    if rest != "" {
      var n := LineLength(rest);
      var line := rest[..n];
      WrittenNeverGlues(rest[n..], if Replaces(st, line, f) then st else Next(st, line, f), f);
    }
  }

  /** A file that ends in a newline never glues. */
  lemma {:induction false} EndedNeverGlues(rest: string, st: Scan, f: Fact)
    requires rest == "" || Ended(rest)
    ensures !Glues(rest, st, f)
    decreases |rest|
  {
    if rest != "" {
      var n := LineLength(rest);
      var line := rest[..n];
      EndedNeverGlues(rest[n..], if Replaces(st, line, f) then st.(keyWritten := true) else Next(st, line, f), f);
    }
  }

  /** A prefix that reaches the first colon shows what stands before it. */
  lemma KeyBeforeColon(all: string, i: nat, seen: string)
    requires i < |all| && all[i] == ':' && (forall k :: 0 <= k < i ==> all[k] != ':') && seen <= all
    ensures var colon := IndexOf(seen, ':'); colon < |seen| ==> seen[..colon] == all[..i]
  {
    var colon := IndexOf(seen, ':');
    if colon < |seen| {
      IndexIs(all, ':', colon);
      IndexIs(all, ':', i);
    }
  }

  /** A glued line with a colon of its own shows its own key. */
  lemma GluedOwnKey(body: string, more: string, seen: string)
    requires seen <= body + more && IndexOf(body, ':') < |body|
    ensures var colon := IndexOf(seen, ':'); colon < |seen| ==> seen[..colon] == body[..IndexOf(body, ':')]
  {
    hide IndexOf;
    var own := IndexOf(body, ':');
    assert (body + more)[..own] == body[..own];
    KeyBeforeColon(body + more, own, seen);
  }

  /** A glued line without a colon of its own shows a key longer than the new one. */
  lemma GluedNewKey(body: string, key: string, more: string, seen: string)
    requires key != "" && !IsSpace(key[0]) && !IsSpace(key[|key| - 1]) && forall k :: 0 <= k < |key| ==> key[k] != ':'
    requires seen <= body + ("- " + key) + ":" + more && IndexOf(body, ':') == |body|
    ensures var colon := IndexOf(seen, ':'); colon < |seen| ==> |Trim(seen[..colon])| > |key|
  {
    hide Trim, IndexOf;
    var p := body + ("- " + key);
    KeyBeforeColon(p + ":" + more, |p|, seen);
    assert (p + ":" + more)[..|p|] == p;
    TrimKeepsEnds(body, "- " + key);
  }

  /** A bullet glued to a line that does not hold the key cannot be recalled. */
  lemma GluedIsLost(line: string, f: Fact)
    requires GoodFact(f) && line != "" && (forall k :: 0 <= k < |line| ==> line[k] != '\n')
    requires !(IsBullet(line) && BulletKey(line) == f.key)
    ensures !Matches(First(line + (f.Bullet() + "\n"), LINE_BUFFER - 1), f.key)
  {
    hide Trim, IndexOf, Fact.Bullet;
    BulletText(f);
    var b := f.Bullet() + "\n";
    var seen := First(line + b, LINE_BUFFER - 1);
    assert seen[0] == line[0] && (|seen| > 1 ==> seen[1] == (line + b)[1]);
    if |line| >= 2 && IsBullet(line) {
      var body := line[2..];
      assert seen[2..] <= body + b;
      if IndexOf(body, ':') < |body| {
        GluedOwnKey(body, b, seen[2..]);
      } else {
        assert body + b == body + ("- " + f.key) + ":" + (" " + f.value + "\n");
        GluedNewKey(body, f.key, " " + f.value + "\n", seen[2..]);
      }
    }
  }

  lemma GluedLine(line: string, b: string)
    requires OneLine(b) && forall k :: 0 <= k < |line| ==> line[k] != '\n'
    ensures OneLine(line + b)
  {
    assert forall k :: |line| <= k < |line + b| ==> (line + b)[k] == b[k - |line|];
  }

  lemma GluedRest(line: string, f: Fact, inTarget: bool)
    requires GoodFact(f) && line != "" && (forall k :: 0 <= k < |line| ==> line[k] != '\n')
    requires !(inTarget && IsBullet(line) && BulletKey(line) == f.key)
    ensures Recalled(line + (f.Bullet() + "\n"), inTarget, f.section, f.key) == None
  {
    if inTarget { GluedIsLost(line, f); }
    var glued, b := line + (f.Bullet() + "\n"), f.Bullet() + "\n";
    assert OneLine(b) by { BulletText(f); }
    hide Trim, IndexOf, GoodFact, Fact.Bullet, Matches;
    GluedLine(line, b);
    FirstLine(glued, "");
    assert glued + "" == glued;
  }

  /** Recalling the section that storing appends to the file. */
  lemma NewSection(inTarget: bool, f: Fact, section: string, key: string)
    requires GoodFact(f)
    ensures Recalled("## " + f.section + "\n" + ("\n" + (f.Bullet() + "\n")), inTarget, section, key)
         == if section == f.section && key == f.key then Some(Trim(First(f.value, 510))) else None
  {
    BulletLine(f);
    HeadingLine(f.section);
    var b := f.Bullet() + "\n";
    var target := f.section == section;
    RecalledLine("## " + f.section + "\n", "\n" + b, inTarget, section, key);
    RecalledLine("\n", b, target, section, key);
    RecalledLine(b, "", target, section, key);
    assert b + "" == b;
  }
}
