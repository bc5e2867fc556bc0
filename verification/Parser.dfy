/** The parser: a cursor over the input, and the functions that build the heap tree. */
module Parser {
  import opened Text
  import opened Number
  import opened Utf8
  import opened StringLiteral
  import opened Json
  import opened Tree
  import opened Scanner
  import S = Json

  /** Skipping n characters of white space. */
  lemma SkipWhiteIs(t: string, n: nat)
    requires 0 < n <= |t| && (forall i :: 0 <= i < n ==> t[i] <= ' ') && (n < |t| ==> t[n] > ' ')
    ensures SkipWhite(t) == if n == |t| then t[n - 1..] else t[n..]
  {
    SpanLengthIs(t, IsWhite, n);
  }

  lemma NothingToSkip(t: string)
    requires t != "" && t[0] > ' '
    ensures SkipWhite(t) == t
  {
    SpanLengthIs(t, IsWhite, 0);
  }

  class ParseBuffer {
    const content: string
    var offset: nat
    var depth: nat

    constructor (content: string)
      ensures this.content == content && offset == 0 && depth == 0
    {
      this.content, offset, depth := content, 0, 0;
    }

    predicate Valid()
      reads this`offset
    {
      offset <= |content|
    }

    /** What has not been consumed yet. */
    function Rest(): (r: string)
      reads this`offset
      requires Valid()
      ensures |r| == |content| - offset
    {
      content[offset..]
    }

    /** Moving the cursor drops characters in front of it. */
    lemma Dropped(from: nat, k: nat)
      requires from + k <= |content|
      ensures content[from..][k..] == content[from + k..]
    {
    }

    /** buffer_skip_whitespace */
    method SkipWhitespace()
      requires Valid()
      modifies this`offset
      ensures Valid() && Rest() == SkipWhite(old(Rest())) && old(offset) <= offset
    {
      hide SkipWhite;
      ghost var from := offset;
      if offset >= |content| { return; }
      while offset < |content| && content[offset] <= ' '
        invariant from <= offset <= |content|
        invariant forall i :: from <= i < offset ==> content[i] <= ' '
      {
        offset := offset + 1;
      }
      WhiteSkipped(from, offset);
      if offset == |content| {
        offset := offset - 1;
      }
    }

    /** Where skipping white space ends. */
    lemma WhiteSkipped(from: nat, to: nat)
      requires from < |content| && from <= to <= |content|
      requires forall i :: from <= i < to ==> content[i] <= ' '
      requires to < |content| ==> content[to] > ' '
      ensures SkipWhite(content[from..]) == content[if to == |content| then to - 1 else to..]
    {
      hide SkipWhite;
      var t := content[from..];
      assert forall i :: 0 <= i < to - from ==> t[i] == content[from + i];
      if to == from { NothingToSkip(t); } else { SkipWhiteIs(t, to - from); }
      Dropped(from, to - from);
      if to == |content| { Dropped(from, to - 1 - from); }
    }

    /** How far the number characters reach. */
    method ScanNumber() returns (i: nat)
      requires Valid()
      ensures i == SpanLength(Rest(), IsNumberChar)
    {
      i := 0;
      while offset + i < |content| && IsNumberChar(content[offset + i])
        invariant offset + i <= |content|
        invariant forall j :: 0 <= j < i ==> IsNumberChar(Rest()[j])
      {
        i := i + 1;
      }
      SpanLengthIs(Rest(), IsNumberChar, i);
    }

    /** parse_number */
    method ParseNumber(item: Node) returns (ok: bool)
      requires Valid() && item.Blank()
      modifies this`offset, item`kind, item`valueint, item`valuedouble, item`val
      ensures Valid()
      ensures var r := S.ParseNumber(old(Rest()));
              && (ok <==> r.Found?)
              && (ok ==> item.Valid() && item.val == r.value && Rest() == r.rest)
    {
      hide Strtod, Node.Valid;
      var i := ScanNumber();
      assert Rest()[..i] == content[offset..offset + i];
      var number := Strtod(content[offset..offset + i]);
      if number.consumed == 0 { return false; }
      item.valuedouble := number.value;
      item.valueint := Saturate(number.value);
      item.kind := Kind.Number;
      item.val := Num(number.value);
      item.Scalar();
      Dropped(offset, number.consumed);
      offset := offset + number.consumed;
      return true;
    }

    /** The first pass of parse_string: where the body ends and how many bytes escapes save. */
    method FindEnd() returns (ok: bool, end: nat, skipped: nat)
      requires Valid() && Rest() != "" && Rest()[0] == '"'
      ensures var t := content[offset + 1..];
              && (ok <==> BodyLength(t).Some?)
              && (ok ==> end == offset + 1 + BodyLength(t).value < |content|
                         && BodyLength(t).value == skipped + BodyUnits(t))
    {
      hide BodyLength, BodyUnits;
      end, skipped := offset + 1, 0;
      ghost var t := content[offset + 1..];
      while end < |content| && content[end] != '"'
        invariant offset + 1 <= end <= |content|
        invariant BodyLength(content[end..]).None? ==> BodyLength(t).None?
        invariant BodyLength(content[end..]).Some? ==>
          && BodyLength(t) == Some(end - (offset + 1) + BodyLength(content[end..]).value)
          && BodyUnits(t) + skipped == end - (offset + 1) + BodyUnits(content[end..])
      {
        FirstPassStep(content[end..]);
        if content[end] == '\\' {
          if end + 1 >= |content| { return false, end, skipped; }
          Dropped(end, 2);
          skipped := skipped + 1;
          end := end + 1;
        } else {
          Dropped(end, 1);
        }
        end := end + 1;
      }
      FirstPassEnd(content[end..]);
      ok := end < |content|;
    }

    /** What the second pass still has to read; it can step one character over the closing quote. */
    ghost function Body(at: nat, end: nat): string
      requires end <= |content|
    {
      if at <= end then content[at..end] else ""
    }

    lemma BodyStep(at: nat, end: nat, k: nat)
      requires at < end <= |content| && k <= |Body(at, end)| + 1
      ensures (if k <= |Body(at, end)| then Body(at, end)[k..] else "") == Body(at + k, end)
    {
    }

    lemma BodyIs(at: nat, end: nat)
      requires end < |content| && content[end] == '"'
      ensures at >= end ==> Body(at, end) == ""
      ensures at < end ==>
        && Body(at, end) == content[at..end] && Body(at, end)[0] == content[at]
        && content[at + 1] == if |Body(at, end)| > 1 then Body(at, end)[1] else '"'
    {
    }

    /** The second pass of parse_string.  The output array has room for what the first pass counted
        and a NUL; no write misses it, whatever the escapes look like. */
    method Unescaped(start: nat, end: nat, output: array<char>) returns (ok: bool, length: nat, at: nat)
      requires start <= end < |content| && content[end] == '"'
      requires output.Length > Units(Body(start, end))
      modifies output
      ensures ok <==> Unescape(Body(start, end)).Some?
      ensures ok ==> length < output.Length && Unescape(Body(start, end)) == Some(output[..length])
      ensures at <= end + 1
    {
      hide Unescape, Units, Utf16Literal, Unshort, Body;
      length, at, ok := 0, start, true;
      assert output[..0] == "";
      SecondPassEnd("");
      while at < end
        invariant at <= end + 1 && length + Units(Body(at, end)) < output.Length
        invariant Unescape(Body(start, end)) == Prepend(output[..length], Unescape(Body(at, end)))
        decreases end + 1 - at
      {
        ghost var t := Body(at, end);
        ghost var done := output[..length];
        BodyIs(at, end);
        SecondPassStep(t, content[at + 1]);
        if content[at] != '\\' {
          BodyStep(at, end, 1);
          output[length] := content[at];
          assert output[..length + 1] == done + [content[at]];
          PrependPrepend(done, [content[at]], Unescape(Body(at + 1, end)));
          length, at := length + 1, at + 1;
        } else if content[at + 1] == 'u' {
          var sequenceLength, written := Utf16LiteralToUtf8(content, at, end, output, length);
          if sequenceLength == 0 { return false, length, at; }
          BodyStep(at, end, sequenceLength);
          PrependPrepend(done, Utf16Bytes(t), Unescape(Body(at + sequenceLength, end)));
          length, at := length + written, at + sequenceLength;
        } else if Unshort(content[at + 1]).Some? {
          BodyStep(at, end, 2);
          output[length] := Unshort(content[at + 1]).value;
          assert output[..length + 1] == done + [output[length]];
          PrependPrepend(done, [output[length]], Unescape(Body(at + 2, end)));
          length, at := length + 1, at + 2;
        } else {
          return false, length, at;
        }
      }
      BodyIs(at, end);
      SecondPassEnd(output[..length]);
    }

    /** parse_string */
    method ParseString(item: Node) returns (ok: bool)
      requires Valid() && Rest() != ""
      modifies this`offset, item`kind, item`valuestring
      ensures Valid()
      ensures var r := ReadString(old(Rest()));
              && (ok <==> r.Some?)
              && (ok ==> item.kind == Kind.String && item.valuestring == Some(r.value.0) && Rest() == r.value.1)
    {
      hide BodyLength, Unescape, Units;
      ghost var t := Rest();
      Dropped(offset, 1);
      if content[offset] != '"' {
        offset := offset + 1;
        return false;
      }
      var found, end, skipped := FindEnd();
      if !found {
        offset := offset + 1;
        return false;
      }
      var allocation := end - offset - skipped;
      var output := new char[allocation + 1];
      assert Body(offset + 1, end) == t[1..][..end - (offset + 1)];
      var valid, length, at := Unescaped(offset + 1, end, output);
      if !valid {
        offset := at;
        return false;
      }
      output[length] := '\0';
      item.kind := Kind.String;
      item.valuestring := Some(CString(output[..length]));
      Dropped(offset, end + 1 - offset);
      offset := end + 1;
      return true;
    }
  }
}
