/** Character strings as the C code sees them.

  A `string` stands for a byte sequence: each `char` is one byte.  Nothing below depends on the
  upper bound 255, so the results hold for every sequence of characters.
 */
module Text {

  datatype Option<+T> = None | Some(value: T)

  lemma Assoc(a: string, b: string, c: string)
    ensures a + (b + c) == (a + b) + c
  {
  }

  /** The length of the longest prefix of s whose characters all satisfy p. */
  function SpanLength(s: string, p: char -> bool): (n: nat)
    ensures n <= |s|
    ensures forall i :: 0 <= i < n ==> p(s[i])
    ensures n < |s| ==> !p(s[n])
  {
    if s != "" && p(s[0]) then 1 + SpanLength(s[1..], p) else 0
  }

  /** A span is determined by where the first offending character stands. */
  lemma {:induction false} SpanLengthIs(s: string, p: char -> bool, n: nat)
    requires n <= |s|
    requires forall i :: 0 <= i < n ==> p(s[i])
    requires n < |s| ==> !p(s[n])
    ensures SpanLength(s, p) == n
  {
    if n > 0 {
      SpanLengthIs(s[1..], p, n - 1);
    }
  }

  predicate NulFree(s: string) {
    forall i :: 0 <= i < |s| ==> s[i] != '\0'
  }

  /** What a char pointer to these bytes denotes: everything before the first NUL. */
  function CString(s: string): (r: string)
    ensures NulFree(r)
    ensures NulFree(s) ==> r == s
  {
    var n := SpanLength(s, c => c != '\0');
    s[..n]
  }

  /** It ends in front of the first NUL, or with the bytes. */
  lemma CStringIs(s: string)
    ensures CString(s) <= s && (|CString(s)| < |s| ==> s[|CString(s)|] == '\0')
  {
  }

  /** isspace in the C locale. */
  predicate IsSpace(c: char) {
    c == ' ' || '\t' <= c <= '\r'
  }

  /** str_trim: drop white space on both sides. */
  function Trim(s: string): string {
    TrimRight(s[SpanLength(s, IsSpace)..])
  }

  function TrimRight(s: string): (r: string)
    ensures r <= s
  {
    if s != "" && IsSpace(s[|s| - 1]) then TrimRight(s[..|s| - 1]) else s
  }

  /** The white space of the C locale. */
  lemma SpaceTable(c: char)
    ensures IsSpace(c) <==> c in [9 as char, 10 as char, 11 as char, 12 as char, 13 as char, 32 as char]
  {
  }

  /** Trimming takes all white space from both ends and nothing else. */
  lemma TrimIs(s: string) returns (front: string, back: string)
    ensures s == front + Trim(s) + back
    ensures (forall i :: 0 <= i < |front| ==> IsSpace(front[i])) && (forall i :: 0 <= i < |back| ==> IsSpace(back[i]))
    ensures Trim(s) != "" ==> !IsSpace(Trim(s)[0]) && !IsSpace(Trim(s)[|Trim(s)| - 1])
  {
    var n := SpanLength(s, IsSpace);
    front, back := s[..n], s[n..][|Trim(s)|..];
    TrimRightIs(s[n..]);
  }

  lemma {:induction false} TrimRightIs(s: string)
    ensures forall i :: |TrimRight(s)| <= i < |s| ==> IsSpace(s[i])
    ensures TrimRight(s) != "" ==> !IsSpace(TrimRight(s)[|TrimRight(s)| - 1])
  {
    if s != "" && IsSpace(s[|s| - 1]) { TrimRightIs(s[..|s| - 1]); }
  }

  /** tolower in the C locale. */
  function Lower(c: char): char {
    if 'A' <= c <= 'Z' then ((c as int) + 32) as char else c
  }

  lemma LowerTable(c: char)
    ensures Lower(c) == if 65 <= c as int <= 90 then "abcdefghijklmnopqrstuvwxyz"[c as int - 65] else c
  {
  }

  function LowerAll(s: string): (r: string)
    ensures |r| == |s|
    ensures forall i :: 0 <= i < |s| ==> r[i] == Lower(s[i])
  {
    seq(|s|, i requires 0 <= i < |s| => Lower(s[i]))
  }

  function Repeat(c: char, n: nat): (r: string)
    ensures |r| == n
    ensures forall i :: 0 <= i < n ==> r[i] == c
  {
    seq(n, _ => c)
  }

  /** Copying into a buffer of n + 1 bytes. */
  function First(s: string, n: nat): (r: string)
    ensures r <= s
    ensures |s| <= n ==> r == s
    ensures |r| <= n
  {
    if |s| <= n then s else s[..n]
  }

  /** strstr: where the pattern first stands. */
  function Find(s: string, pattern: string): (r: Option<nat>)
    ensures r.Some? ==> r.value + |pattern| <= |s|
  {
    if pattern <= s then Some(0)
    else if s == "" then None
    else
      var later := Find(s[1..], pattern);
      if later.None? then None else Some(1 + later.value)
  }

  /** The pattern stands at this position. */
  predicate At(s: string, i: nat, pattern: string) {
    i <= |s| && pattern <= s[i..]
  }

  predicate Occurs(s: string, pattern: string) {
    exists i :: 0 <= i <= |s| && At(s, i, pattern)
  }

  lemma AtShifts(s: string, i: nat, pattern: string)
    requires 1 <= i <= |s|
    ensures At(s, i, pattern) <==> At(s[1..], i - 1, pattern)
  {
    assert s[1..][i - 1..] == s[i..];
  }

  lemma AtStart(s: string, pattern: string)
    ensures At(s, 0, pattern) <==> pattern <= s
  {
    assert s[0..] == s;
  }

  /** Find gives the first position, and nothing exactly when there is none. */
  lemma {:induction false} FindIs(s: string, pattern: string)
    ensures Find(s, pattern).None? <==> !Occurs(s, pattern)
    ensures Find(s, pattern).Some? ==>
      && At(s, Find(s, pattern).value, pattern)
      && forall j :: 0 <= j < Find(s, pattern).value ==> !At(s, j, pattern)
    decreases |s|
  {
    hide At;
    AtStart(s, pattern);
    if !(pattern <= s) && s != "" {
      FindIs(s[1..], pattern);
      forall i | 1 <= i <= |s| ensures At(s, i, pattern) <==> At(s[1..], i - 1, pattern) {
        AtShifts(s, i, pattern);
      }
      if i :| 0 <= i <= |s[1..]| && At(s[1..], i, pattern) {
        assert At(s, i + 1, pattern);
      }
    }
  }

  lemma NotBefore(a: string, pattern: string, c: string, j: nat)
    requires pattern != "" && (forall k :: 1 <= k < |pattern| ==> pattern[k] != pattern[0]) && !Occurs(a, pattern)
    requires j < |a|
    ensures !At(a + pattern + c, j, pattern)
  {
    var t := (a + pattern + c)[j..];
    assert !At(a, j, pattern);
    if j + |pattern| <= |a| {
      assert t[..|pattern|] == a[j..][..|pattern|];
    } else {
      assert t[|a| - j] == pattern[0] != pattern[|a| - j];
    }
  }

  /** A pattern whose first character comes only once in it is found right behind text without it. */
  lemma FindBehind(a: string, pattern: string, c: string)
    requires pattern != "" && (forall k :: 1 <= k < |pattern| ==> pattern[k] != pattern[0]) && !Occurs(a, pattern)
    ensures Find(a + pattern + c, pattern) == Some(|a|)
  {
    var s := a + pattern + c;
    assert At(s, |a|, pattern) by { assert s[|a|..] == pattern + c; }
    forall j: nat | j < |a| ensures !At(s, j, pattern) { NotBefore(a, pattern, c, j); }
    hide At, Find;
    FindIs(s, pattern);
    assert At(s, |a|, pattern);
  }

  /** strcasestr */
  predicate ContainsNoCase(s: string, pattern: string) {
    Find(LowerAll(s), LowerAll(pattern)).Some?
  }

  predicate SpeltAt(s: string, i: int, pattern: string) {
    0 <= i <= |s| - |pattern| && forall j :: 0 <= j < |pattern| ==> Lower(s[i + j]) == Lower(pattern[j])
  }

  /** The pattern stands somewhere, upper and lower case being one. */
  lemma ContainsNoCaseIs(s: string, pattern: string)
    ensures ContainsNoCase(s, pattern) <==> exists i :: SpeltAt(s, i, pattern)
  {
    var t, p := LowerAll(s), LowerAll(pattern);
    FindIs(t, p);
    forall i | 0 <= i <= |t| ensures At(t, i, p) <==> SpeltAt(s, i, pattern) {
      if At(t, i, p) {
        assert forall j :: 0 <= j < |pattern| ==> p[j] == t[i..][j] == t[i + j];
      }
    }
  }
}
