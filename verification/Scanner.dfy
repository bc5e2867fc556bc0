/** The lexical half of the parser: white space, numbers and the two passes over a string literal. */
module Scanner {
  import opened Text
  import opened Utf8
  import opened StringLiteral

  /** The number of bytes the first pass of parse_string counts for a literal's body: one for each
      character or backslash pair. */
  function Units(t: string): (n: nat)
    ensures n <= |t|
  {
    if t == "" then 0
    else if t[0] == '\\' && |t| > 1 then 1 + Units(t[2..])
    else 1 + Units(t[1..])
  }

  /** The count for the body of the literal that starts t. */
  function BodyUnits(t: string): nat {
    if BodyLength(t).None? then 0 else Units(t[..BodyLength(t).value])
  }

  /** One round of the first pass. */
  lemma FirstPassStep(t: string)
    requires t != "" && t[0] != '"'
    ensures var step := if t[0] == '\\' then 2 else 1;
            if |t| < step || BodyLength(t[step..]).None? then BodyLength(t).None?
            else BodyLength(t) == Some(step + BodyLength(t[step..]).value)
                 && BodyUnits(t) == 1 + BodyUnits(t[step..])
  {
    var step := if t[0] == '\\' then 2 else 1;
    if BodyLength(t).Some? {
      var n := BodyLength(t).value;
      assert t[..n][step..] == t[step..][..n - step];
    }
  }

  lemma FirstPassEnd(t: string)
    ensures t == "" ==> BodyLength(t).None?
    ensures t != "" && t[0] == '"' ==> BodyLength(t) == Some(0) && BodyUnits(t) == 0
  {
  }

  /** Starting one character later changes the count by at most one, however the pairs fall. */
  lemma {:induction false} UnitsShift(t: string)
    requires t != ""
    ensures Units(t[1..]) <= Units(t) <= 1 + Units(t[1..])
    decreases |t|
  {
    if t[0] == '\\' && |t| > 1 {
      UnitsShift(t[1..]);
      assert t[1..][1..] == t[2..];
    }
  }

  lemma {:induction false} UnitsDrop(t: string, k: nat)
    requires k <= |t|
    ensures Units(t[k..]) <= Units(t)
    decreases k
  {
    if k == 0 {
      assert t[0..] == t;
    } else {
      UnitsShift(t);
      UnitsDrop(t[1..], k - 1);
      assert t[1..][k - 1..] == t[k..];
    }
  }

  lemma UnitsHex(t: string)
    requires |t| >= 6 && t[0] == '\\' && t[1] == 'u'
    ensures Units(t) >= 1 + Units(t[6..])
    ensures IsHex4(t[2..6]) ==> Units(t) == 5 + Units(t[6..])
  {
    UnitsDrop(t[2..], 4);
    assert t[2..][4..] == t[6..];
    if IsHex4(t[2..6]) {
      var h := t[2..6];
      PlainUnit(t, 2, h[0]);
      PlainUnit(t, 3, h[1]);
      PlainUnit(t, 4, h[2]);
      PlainUnit(t, 5, h[3]);
    }
  }

  lemma PlainUnit(t: string, i: nat, c: char)
    requires i < |t| && t[i] == c != '\\'
    ensures Units(t[i..]) == 1 + Units(t[i + 1..])
  {
    assert t[i..][1..] == t[i + 1..];
  }

  /** A UTF-16 escape, malformed or not, takes no more bytes than the first pass counted for it. */
  lemma Utf16Fits(t: string)
    requires t != "" && t[0] == '\\' && |t| > 1 && t[1] == 'u' && Utf16Literal(t).Utf16Ok?
    ensures |Utf16Literal(t).bytes| + Units(t[Utf16Literal(t).consumed..]) <= Units(t)
  {
    UnitsHex(t);
    if Utf16Literal(t).consumed == 12 {
      UnitsHex(t[6..]);
      assert t[6..][2..6] == t[8..12];
      assert t[6..][6..] == t[12..];
    }
  }

  /** One round of the second pass over t, whose next character is e where t ends with a backslash.
      Each round writes at most as many bytes as the count drops by. */
  lemma SecondPassStep(t: string, e: char)
    requires t != "" && e == (if |t| > 1 then t[1] else '"')
    ensures t[0] != '\\' ==>
      && Unescape(t) == Prepend([t[0]], Unescape(t[1..]))
      && Units(t) == 1 + Units(t[1..])
    ensures t[0] == '\\' && e == 'u' ==>
      if Utf16Literal(t).Utf16Fail? then Unescape(t).None?
      else Unescape(t) == Prepend(Utf16Bytes(t), Unescape(t[Utf16Literal(t).consumed..]))
           && Units(t) >= |Utf16Bytes(t)| + Units(t[Utf16Literal(t).consumed..])
    ensures t[0] == '\\' && e != 'u' ==>
      var rest := if |t| > 1 then t[2..] else "";
      if Unshort(e).None? then Unescape(t).None?
      else Unescape(t) == Prepend([Unshort(e).value], Unescape(rest)) && Units(t) == 1 + Units(rest)
  {
    if t[0] == '\\' && e == 'u' && Utf16Literal(t).Utf16Ok? {
      Utf16Fits(t);
    }
    assert t[..1] == [t[0]];
  }

  lemma PrependPrepend(a: string, b: string, r: Option<string>)
    ensures Prepend(a, Prepend(b, r)) == Prepend(a + b, r)
  {
    if r.Some? { Assoc(a, b, r.value); }
  }

  lemma SecondPassEnd(done: string)
    ensures Units("") == 0 && Prepend(done, Unescape("")) == Some(done)
    ensures forall r: Option<string> :: Prepend("", r) == r
  {
    assert done + "" == done;
    forall r: Option<string> ensures Prepend("", r) == r {
      if r.Some? { assert "" + r.value == r.value; }
    }
  }

  /** The unescaped text is never longer than the first pass counted, even where a malformed \u makes
      the second pass pair the backslashes differently. */
  lemma {:induction false} UnescapeFits(t: string)
    requires Unescape(t).Some?
    ensures |Unescape(t).value| <= Units(t)
    decreases |t|
  {
    if t == "" {
    } else if t[0] != '\\' {
      UnescapeFits(t[1..]);
    } else if |t| > 1 && t[1] == 'u' {
      Utf16Fits(t);
      UnescapeFits(t[Utf16Literal(t).consumed..]);
    } else {
      UnescapeFits(if |t| > 1 then t[2..] else "");
    }
  }

  /** A pair of backslashes the two passes disagree about: the first pass sees an escaped quote, the
      second has swallowed its backslash as a bad hexadecimal digit. */
  lemma PassesCanDisagree()
    ensures BodyLength("\\uabc\\\"\"") == Some(7)
    ensures Unescape("\\uabc\\\"") == Some("\0\"")
  {
    var t := "\\uabc\\\"";
    assert !IsHex(t[2..6][3]);
    assert EncodeUtf8(0) == ['\0'];
    assert Utf16Literal(t) == Utf16Ok("\0", 6);
    assert t[6..] == "\"";
    var q := "\"";
    assert q[..1] == q && q[1..] == "" && q + "" == q;
    assert Unescape(q) == Some(q);
    assert "\0" + q == "\0\"";
    var e := ['\\', '"'] + q;
    var abc := ['a'] + (['b'] + (['c'] + e));
    assert "\\uabc\\\"\"" == ['\\', 'u'] + abc;
    EscapeIsPair('"', q);
    PlainStep('c', e);
    PlainStep('b', ['c'] + e);
    PlainStep('a', ['b'] + (['c'] + e));
    EscapeIsPair('u', abc);
  }

  lemma Slice(s: string, a: nat, b: nat, c: nat, d: nat)
    requires c <= d && a + d <= b <= |s|
    ensures s[a..b][c..d] == s[a + c..a + d]
  {
    forall k | 0 <= k < d - c ensures s[a..b][c..d][k] == s[a + c..a + d][k] {
      assert s[a..b][c + k] == s[a + c + k];
    }
  }

  /** parse_hex4 */
  method ParseHex4(input: string) returns (h: nat)
    requires |input| == 4
    ensures h == Hex4(input)
  {
    h := 0;
    for i := 0 to 4
      invariant forall j :: 0 <= j < i ==> IsHex(input[j])
      invariant i == 0 ==> h == 0
      invariant i == 1 ==> h == 0x10 * HexValue(input[0])
      invariant i == 2 ==> h == 0x100 * HexValue(input[0]) + 0x10 * HexValue(input[1])
      invariant i == 3 ==> h == 0x1000 * HexValue(input[0]) + 0x100 * HexValue(input[1]) + 0x10 * HexValue(input[2])
      invariant i == 4 ==> h == Hex4(input)
    {
      var c := input[i];
      if '0' <= c <= '9' {
        h := h + (c as int - '0' as int);
      } else if 'A' <= c <= 'F' {
        h := h + 10 + (c as int - 'A' as int);
      } else if 'a' <= c <= 'f' {
        h := h + 10 + (c as int - 'a' as int);
      } else {
        return 0;
      }
      if i < 3 {
        h := h * 0x10;
      }
    }
  }

  lemma LastByte(cp: nat, n: nat, mark: nat, tail: string)
    requires 2 <= n <= 4 && mark < 0x100
    ensures Utf8Bytes(cp, n, mark) + tail
         == Utf8Bytes(cp / 0x40, n - 1, mark) + ([(0x80 + cp % 0x40) as char] + tail)
  {
    Assoc(Utf8Bytes(cp / 0x40, n - 1, mark), [(0x80 + cp % 0x40) as char], tail);
  }

  lemma OnlyByte(cp: nat, mark: nat)
    requires mark < 0x100
    ensures Utf8Bytes(cp, 1, mark) == [((cp + mark) % 0x100) as char]
  {
  }

  /** The encoding loop of utf16_literal_to_utf8: continuation bytes from the back, then the first. */
  method PutUtf8(codepoint: nat, output: array<char>, at: nat)
    requires at + Utf8Length(codepoint) <= output.Length
    modifies output
    ensures output[..at + Utf8Length(codepoint)] == old(output[..at]) + EncodeUtf8(codepoint)
  {
    var length := Utf8Length(codepoint);
    var mark := FirstByteMark(length);
    assert Utf8Bytes(codepoint, length, mark) + output[at + length..at + length] == EncodeUtf8(codepoint);
    hide Utf8Bytes, Utf8Length, FirstByteMark, EncodeUtf8;
    var rest, position := codepoint, length - 1;
    while position > 0
      invariant 0 <= position < length
      invariant output[..at] == old(output[..at])
      invariant Utf8Bytes(rest, position + 1, mark) + output[at + position + 1..at + length] == EncodeUtf8(codepoint)
    {
      output[at + position] := (0x80 + rest % 0x40) as char;
      ghost var last := [(0x80 + rest % 0x40) as char];
      assert output[at + position..at + length] == last + output[at + position + 1..at + length];
      LastByte(rest, position + 1, mark, output[at + position + 1..at + length]);
      rest := rest / 0x40;
      position := position - 1;
    }
    OnlyByte(rest, mark);
    output[at] := ((rest + mark) % 0x100) as char;
    assert output[at..at + length] == [output[at]] + output[at + 1..at + length];
    assert output[..at + length] == output[..at] + output[at..at + length];
  }

  /** utf16_literal_to_utf8 on input[at..end]; 0 stands for failure. */
  method Utf16LiteralToUtf8(input: string, from: nat, end: nat, output: array<char>, at: nat)
    returns (sequenceLength: nat, written: nat)
    requires from <= end <= |input|
    requires at + |Utf16Bytes(input[from..end])| <= output.Length
    modifies output
    ensures var r := Utf16Literal(input[from..end]);
            && sequenceLength == (if r.Utf16Ok? then r.consumed else 0)
            && written == |Utf16Bytes(input[from..end])|
            && output[..at + written] == old(output[..at]) + Utf16Bytes(input[from..end])
  {
    hide EncodeUtf8, Utf8Length, FromSurrogates, Hex4;
    ghost var t := input[from..end];
    written := 0;
    if end - from < 6 { return 0, 0; }
    Slice(input, from, end, 2, 6);
    var first := ParseHex4(input[from + 2..from + 6]);
    if 0xDC00 <= first <= 0xDFFF { return 0, 0; }
    var codepoint: nat;
    if 0xD800 <= first <= 0xDBFF {
      sequenceLength := 12;
      if end - (from + 6) < 6 { return 0, 0; }
      if input[from + 6] != '\\' || input[from + 7] != 'u' { return 0, 0; }
      Slice(input, from, end, 8, 12);
      var second := ParseHex4(input[from + 8..from + 12]);
      if second < 0xDC00 || second > 0xDFFF { return 0, 0; }
      codepoint := FromSurrogates(first, second);
    } else {
      sequenceLength := 6;
      codepoint := first;
    }
    PutUtf8(codepoint, output, at);
    written := Utf8Length(codepoint);
  }

  function Utf16Bytes(t: string): string {
    var r := Utf16Literal(t);
    if r.Utf16Ok? then r.bytes else ""
  }
}
