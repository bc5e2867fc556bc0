/** MEMORY.md as text: what storing and recalling a fact do to its lines, and why the two agree. */
module MemoryFile {
  import opened Text

  const LINE_BUFFER: nat := 2048
  const MAX_FILE_SIZE: nat := 262144

  // ----- Sections -----

  const SECTIONS := ["User Information", "Preferences", "Project Context", "Important Notes"]

  /** Either text contains the other, without case. */
  predicate Names(category: string, section: string) {
    ContainsNoCase(section, category) || ContainsNoCase(category, section)
  }

  /** The first section that the category names, or 4. */
  function NamedSection(category: string, i: nat): (r: nat)
    requires i <= 4
    ensures i <= r <= 4
    ensures r < 4 ==> Names(category, SECTIONS[r])
    ensures forall j :: i <= j < r ==> !Names(category, SECTIONS[j])
    decreases 4 - i
  {
    if i == 4 || Names(category, SECTIONS[i]) then i else NamedSection(category, i + 1)
  }

  /** canonicalise_section */
  function Canonicalise(category: Option<string>): (r: string)
    ensures r in SECTIONS
  {
    if category.None? then SECTIONS[3]
    else
      var c := category.value;
      var named := NamedSection(c, 0);
      if named < 4 then SECTIONS[named]
      else if ContainsNoCase(c, "user") || ContainsNoCase(c, "person") then SECTIONS[0]
      else if ContainsNoCase(c, "pref") || ContainsNoCase(c, "setting") then SECTIONS[1]
      else if ContainsNoCase(c, "project") || ContainsNoCase(c, "task") then SECTIONS[2]
      else SECTIONS[3]
  }

  /** The words that stand for a section when the category names none. */
  const KEYWORDS := [["user", "person"], ["pref", "setting"], ["project", "task"]]

  predicate Hints(category: string, k: nat)
    requires k < 3
  {
    ContainsNoCase(category, KEYWORDS[k][0]) || ContainsNoCase(category, KEYWORDS[k][1])
  }

  lemma SectionsDiffer()
    ensures forall i, j :: 0 <= i < 4 && 0 <= j < 4 && SECTIONS[i] == SECTIONS[j] ==> i == j
  {
    assert SECTIONS[0][0] == 'U' && SECTIONS[1][1] == 'r' && |SECTIONS[1]| == 11 && SECTIONS[2][0] == 'P';
    assert |SECTIONS[2]| == 15 && SECTIONS[3][0] == 'I';
  }

  /** Which section it is: the first that the category names; when it names none, the first that one of its
      words stands for; and the last when no word does, or when there is no category. */
  lemma WhichSection(category: Option<string>, k: nat)
    requires k < 4
    ensures Canonicalise(category) == ["User Information", "Preferences", "Project Context", "Important Notes"][k] <==>
      if category.None? then k == 3
      else if exists j :: 0 <= j < 4 && Names(category.value, SECTIONS[j])
      then Names(category.value, SECTIONS[k]) && forall j :: 0 <= j < k ==> !Names(category.value, SECTIONS[j])
      else (k < 3 ==> Hints(category.value, k)) && forall j: nat :: j < k ==> !Hints(category.value, j)
  {
    hide NamedSection, ContainsNoCase;
    SectionsDiffer();
    if category.Some? {
      var c := category.value;
      var named := NamedSection(c, 0);
      if named < 4 {
        assert Names(c, SECTIONS[named]);
      } else {
        assert Hints(c, 0) == (ContainsNoCase(c, "user") || ContainsNoCase(c, "person"));
        assert Hints(c, 1) == (ContainsNoCase(c, "pref") || ContainsNoCase(c, "setting"));
        assert Hints(c, 2) == (ContainsNoCase(c, "project") || ContainsNoCase(c, "task"));
      }
    }
  }

  // ----- Pieces of C strings -----

  /** strchr: where c first stands, or the length. */
  function IndexOf(s: string, c: char): (i: nat)
    ensures i <= |s|
    ensures i < |s| ==> s[i] == c
    ensures forall k :: 0 <= k < i ==> s[k] != c
  {
    if s == "" || s[0] == c then 0 else 1 + IndexOf(s[1..], c)
  }

  function Before(s: string, c: char): string {
    s[..IndexOf(s, c)]
  }

  /** The length of the first line with its newline. */
  function LineLength(s: string): (n: nat)
    ensures n <= |s|
    ensures s != "" ==> n > 0
    ensures forall k :: 0 <= k < n - 1 ==> s[k] != '\n'
    ensures n < |s| ==> s[n - 1] == '\n'
  {
    var i := IndexOf(s, '\n');
    if i < |s| then i + 1 else i
  }

  // ----- One line -----

  predicate IsHeading(line: string) {
    "## " <= line
  }

  predicate IsBullet(line: string) {
    "- " <= line
  }

  function HeadingText(line: string): string
    requires IsHeading(line)
  {
    Before(First(line[3..], 255), '\n')
  }

  /** How memory_store reads a heading. */
  function StoreHeading(line: string): string
    requires IsHeading(line)
  {
    Before(HeadingText(line), '\r')
  }

  /** How memory_recall reads a heading. */
  function RecallHeading(line: string): string
    requires IsHeading(line)
  {
    Trim(HeadingText(line))
  }

  predicate HasColon(line: string)
    requires IsBullet(line)
  {
    IndexOf(line[2..], ':') < |line| - 2
  }

  /** The key of a bullet: what stands before the colon, if it fits the buffer of 512 bytes. */
  function BulletKey(line: string): string
    requires IsBullet(line)
  {
    var colon := IndexOf(line[2..], ':');
    Trim(if colon < |line| - 2 && colon < 512 then line[2..][..colon] else "")
  }

  function BulletValue(line: string): string
    requires IsBullet(line) && HasColon(line)
  {
    Trim(First(line[2..][IndexOf(line[2..], ':') + 1..], 511))
  }

  predicate Matches(line: string, key: string) {
    IsBullet(line) && HasColon(line) && BulletKey(line) == key
  }

  // ----- Storing -----

  /** What is being stored, and where. */
  datatype Fact = Fact(section: string, key: string, value: string)
  {
    /** The bullet, cut to the buffer. */
    function Bullet(): string {
      First("- " + key + ": " + value, LINE_BUFFER - 1)
    }
  }

  /** The flags of memory_store. */
  datatype Scan = Scan(inTarget: bool, keyWritten: bool, sectionFound: bool)

  const START := Scan(false, false, false)

  /** The flags after a line that is kept. */
  function Next(st: Scan, line: string, f: Fact): Scan {
    if IsHeading(line) then
      var target := StoreHeading(line) == f.section;
      Scan(target, st.keyWritten || st.inTarget, st.sectionFound || target)
    else st
  }

  /** The line is the bullet that storing replaces. */
  predicate Replaces(st: Scan, line: string, f: Fact) {
    st.inTarget && IsBullet(line) && BulletKey(line) == f.key
  }

  /** What memory_store writes for what is left of the file. */
  function Stored(rest: string, st: Scan, f: Fact): string
    decreases |rest|
  {
    if rest == "" then
      if st.keyWritten then ""
      else if st.sectionFound then f.Bullet() + "\n"
      else "\n## " + f.section + "\n\n" + f.Bullet() + "\n"
    else
      var n := LineLength(rest);
      var line := rest[..n];
      if Replaces(st, line, f) then f.Bullet() + "\n" + Stored(rest[n..], st.(keyWritten := true), f)
      else
        (if IsHeading(line) && st.inTarget && !st.keyWritten then f.Bullet() + "\n" else "")
        + line + Stored(rest[n..], Next(st, line, f), f)
  }

  // ----- Recalling -----

  function RecallTarget(inTarget: bool, line: string, section: string): bool {
    if IsHeading(line) then RecallHeading(line) == section else inTarget
  }

  /** What memory_recall finds in what is left of the file. */
  function Recalled(rest: string, inTarget: bool, section: string, key: string): Option<string>
    decreases |rest|
  {
    if rest == "" then None
    else
      var n := LineLength(rest);
      var line := First(rest[..n], LINE_BUFFER - 1);
      if !IsHeading(line) && inTarget && Matches(line, key) then Some(BulletValue(line))
      else Recalled(rest[n..], RecallTarget(inTarget, line, section), section, key)
  }

  // ----- Files -----

  /** read_memory_file: a file over the cap reads as empty. */
  function Read(file: string): string {
    if |file| > MAX_FILE_SIZE then "" else CString(file)
  }

  function StoreFile(file: string, f: Fact): string {
    Stored(Read(file), START, f)
  }

  function RecallFile(file: string, section: string, key: string): Option<string> {
    Recalled(Read(file), false, section, key)
  }

  // ----- Well-formed files -----

  predicate Ended(line: string) {
    line != "" && line[|line| - 1] == '\n'
  }

  /** The line fits the buffer, also once it is ended, and if it has to be `tidy`, a heading reads the same
      both ways. */
  predicate GoodLine(line: string, tidy: bool) {
    && |line| < (if Ended(line) then LINE_BUFFER else LINE_BUFFER - 1)
    && (tidy && IsHeading(line) ==> StoreHeading(line) == RecallHeading(line))
  }

  predicate GoodLines(rest: string, tidy: bool)
    decreases |rest|
  {
    rest == "" || (GoodLine(rest[..LineLength(rest)], tidy) && GoodLines(rest[LineLength(rest)..], tidy))
  }

  /** Every line fits the line buffer; beyond that memory_store copies bytes past its end. */
  predicate LinesFit(rest: string)
    decreases |rest|
  {
    rest == "" || (LineLength(rest) < LINE_BUFFER && LinesFit(rest[LineLength(rest)..]))
  }

  /** A key that is not empty, carries no white space around it, and has no colon or newline; a value of
      one line; both together fit the bullet buffer. */
  predicate GoodFact(f: Fact) {
    && GoodSection(f.section)
    && 0 < |f.key| < 512 && !IsSpace(f.key[0]) && !IsSpace(f.key[|f.key| - 1])
    && (forall k :: 0 <= k < |f.key| ==> f.key[k] != ':' && f.key[k] != '\n')
    && (forall k :: 0 <= k < |f.value| ==> f.value[k] != '\n')
    && |f.key| + |f.value| + 4 <= LINE_BUFFER - 2
    && NulFree(f.key) && NulFree(f.value)
  }

  predicate GoodSection(section: string) {
    && 0 < |section| <= 255 && !IsSpace(section[0]) && !IsSpace(section[|section| - 1]) && NulFree(section)
    && (forall k :: 0 <= k < |section| ==> section[k] != '\r' && section[k] != '\n')
  }

  /** The file ends without a newline in the target section and the key was not found, so the new
      bullet is glued to the last line. */
  predicate Glues(rest: string, st: Scan, f: Fact)
    decreases |rest|
  {
    rest != "" &&
    var n := LineLength(rest);
    var line := rest[..n];
    if Replaces(st, line, f) then Glues(rest[n..], st.(keyWritten := true), f)
    else
      var next := Next(st, line, f);
      if n == |rest| && !Ended(line) then next.inTarget && !next.keyWritten
      else Glues(rest[n..], next, f)
  }

  /** Recalling, with its own flag, does not reach the bullet that is written: it finds an older bullet
      first, or it does not count the place as part of the section, or the bullet is glued. */
  predicate Misses(rest: string, st: Scan, f: Fact, inTarget: bool)
    decreases |rest|
  {
    if rest == "" then st.keyWritten || (st.sectionFound && !inTarget)
    else
      var n := LineLength(rest);
      var line := rest[..n];
      var next := Next(st, line, f);
      if Replaces(st, line, f) then !inTarget && Misses(rest[n..], st.(keyWritten := true), f, inTarget)
      else if IsHeading(line) && st.inTarget && !st.keyWritten then
        !inTarget && Misses(rest[n..], next, f, RecallTarget(inTarget, line, f.section))
      else if !IsHeading(line) && inTarget && Matches(line, f.key) then true
      else if n == |rest| && !Ended(line) then next.inTarget || next.keyWritten
      else Misses(rest[n..], next, f, RecallTarget(inTarget, line, f.section))
  }

  /** What stands behind the last newline but one: the last line, with its newline if it has one. */
  function FinalLine(rest: string): string
    decreases |rest|
  {
    var n := LineLength(rest);
    if n == |rest| then rest else FinalLine(rest[n..])
  }

  /** Recalling finds nothing in front of the last line, takes that line as part of the section, and it is no
      heading. */
  predicate ReachesLast(rest: string, inTarget: bool, section: string, key: string)
    decreases |rest|
  {
    var n := LineLength(rest);
    var line := First(rest[..n], LINE_BUFFER - 1);
    if n == |rest| then inTarget && !IsHeading(line)
    else
      && !(!IsHeading(line) && inTarget && Matches(line, key))
      && ReachesLast(rest[n..], RecallTarget(inTarget, line, section), section, key)
  }

  /** What a single line gives for the key. */
  function InLine(line: string, key: string): Option<string> {
    if Matches(line, key) then Some(BulletValue(line)) else None
  }

  /** Flags that memory_store can be in. */
  predicate Reached(st: Scan) {
    (st.inTarget ==> st.sectionFound) && (st.sectionFound && !st.keyWritten ==> st.inTarget)
  }
}
