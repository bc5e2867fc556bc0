/** The printer: a growable, or fixed, buffer and the functions that write a tree into it. */
module Printer {
  import opened Text
  import opened Number
  import opened StringLiteral
  import opened Json
  import opened Tree

  class PrintBuffer {
    var buffer: array<char>
    var length: nat
    var offset: nat
    var depth: nat
    const noalloc: bool
    const format: bool

    /** A buffer of our own, which may grow. */
    constructor (size: nat, format: bool)
      requires size <= INT_MAX
      ensures Valid() && fresh(buffer) && length == size && offset == 0 && depth == 0
      ensures !noalloc && this.format == format
    {
      buffer := new char[size];
      length, offset, depth := size, 0, 0;
      this.noalloc, this.format := false, format;
    }

    /** A fixed buffer of the caller. */
    constructor Over(buffer: array<char>, format: bool)
      requires buffer.Length <= INT_MAX
      ensures Valid() && this.buffer == buffer && length == buffer.Length && offset == 0 && depth == 0
      ensures this.noalloc && this.format == format
    {
      this.buffer := buffer;
      length, offset, depth := buffer.Length, 0, 0;
      this.noalloc, this.format := true, format;
    }

    predicate Valid()
      reads this`buffer, this`length, this`offset
    {
      buffer.Length == length <= INT_MAX && (offset < length || offset == length == 0)
    }

    /** The most bytes the buffer can ever have. */
    function Capacity(): nat
      reads this`length
    {
      if noalloc then length else INT_MAX
    }

    /** The bytes in front of the offset. */
    function Written(): (r: string)
      reads this`buffer, this`length, this`offset, buffer
      requires Valid()
      ensures |r| == offset
    {
      buffer[..offset]
    }

    /** ensure: make room for `needed` more bytes and one to spare. */
    method Ensure(needed: nat) returns (ok: bool)
      requires Valid()
      modifies this`buffer, this`length
      ensures Valid() && Capacity() == old(Capacity())
      ensures ok <==> offset + needed + 1 <= Capacity()
      ensures ok ==> offset + needed + 1 <= length
      ensures Written() == old(Written())
      ensures buffer == old(buffer) || (fresh(buffer) && !noalloc)
    {
      if length > 0 && offset >= length { return false; }
      if needed > INT_MAX { return false; }
      var total := needed + offset + 1;
      if total <= length { return true; }
      if noalloc { return false; }
      var newsize: nat;
      if total > INT_MAX / 2 {
        if total <= INT_MAX { newsize := INT_MAX; } else { return false; }
      } else {
        newsize := total * 2;
      }
      var newbuffer := new char[newsize];
      forall i | 0 <= i <= offset && i < length { newbuffer[i] := buffer[i]; }
      length, buffer := newsize, newbuffer;
      return true;
    }

    /** strcpy, memcpy and runs of single stores: put `s` at position `at`. */
    method Store(at: nat, s: string)
      requires Valid() && offset <= at && at + |s| <= length
      modifies buffer
      ensures buffer[..at + |s|] == old(buffer[..at]) + s
      ensures Written() == old(Written())
    {
      forall i | 0 <= i < |s| { buffer[at + i] := s[i]; }
    }

    /** Punctuation: room for `needed` bytes, the text, its NUL where the source writes one, and the
        offset behind it. */
    method Append(s: string, needed: nat, nul: bool) returns (ok: bool)
      requires Valid() && |s| + (if nul then 1 else 0) <= needed
      modifies this`buffer, this`length, this`offset, buffer
      ensures Valid() && Capacity() == old(Capacity())
      ensures buffer == old(buffer) || (fresh(buffer) && !noalloc)
      ensures ok <==> old(offset) + needed + 1 <= Capacity()
      ensures Written() == old(Written()) + if ok then s else ""
    {
      ok := Ensure(needed);
      if !ok { return; }
      Store(offset, s);
      if nul { buffer[offset + |s|] := '\0'; }
      offset := offset + |s|;
    }

    /** A closing bracket or a word: the text and its NUL, the offset left where it is. */
    method Put(s: string) returns (ok: bool)
      requires Valid()
      modifies this`buffer, this`length, buffer
      ensures Valid() && Capacity() == old(Capacity())
      ensures buffer == old(buffer) || (fresh(buffer) && !noalloc)
      ensures ok <==> offset + |s| + 2 <= Capacity()
      ensures Written() == old(Written())
      ensures ok ==> Holds(Written(), s)
    {
      ok := Ensure(|s| + 1);
      if !ok { return; }
      Store(offset, s);
      buffer[offset + |s|] := '\0';
    }

    /** What print_value leaves behind on success: `text` stands behind `prefix`, ended by a NUL, and
        the offset has not run past it. */
    ghost predicate Holds(prefix: string, text: string)
      reads this`buffer, this`length, this`offset, buffer
    {
      && Valid()
      && |prefix| <= offset <= |prefix| + |text| < length
      && buffer[..|prefix| + |text|] == prefix + text
      && buffer[|prefix| + |text|] == '\0'
    }

    /** The same bytes, seen from a shorter prefix. */
    lemma HoldsFrom(prefix: string, text: string, longer: string, tail: string)
      requires Holds(longer, tail) && longer + tail == prefix + text && |prefix| <= |longer|
      ensures Holds(prefix, text)
    {
      assert |longer| + |tail| == |prefix| + |text|;
    }

    /** update_offset: the offset moves to the terminating NUL, found by strlen. */
    method UpdateOffset(ghost prefix: string, ghost text: string)
      requires Holds(prefix, text) && NulFree(text)
      modifies this`offset
      ensures Valid() && offset == |prefix| + |text|
      ensures Written() == prefix + text && buffer[offset] == '\0'
    {
      var strlen := 0;
      ghost var end := |prefix| + |text|;
      assert forall i :: |prefix| <= i < end ==> buffer[i] == buffer[..end][i] == text[i - |prefix|];
      while buffer[offset + strlen] != '\0'
        invariant offset + strlen <= end
        decreases end - strlen
      {
        strlen := strlen + 1;
      }
      offset := offset + strlen;
    }

    /** print_number, for the numbers that "%d" prints. */
    method PrintNumber(item: Node) returns (ok: bool)
      requires Valid() && item.Valid() && item.kind == Kind.Number && Printable(item.val)
      modifies this`buffer, this`length, this`offset, buffer
      ensures Valid() && Capacity() == old(Capacity())
      ensures buffer == old(buffer) || (fresh(buffer) && !noalloc)
      ensures ok <==> old(offset) + |Decimal(item.valueint)| + 2 <= Capacity()
      ensures ok ==> Holds(old(Written()), Decimal(item.valueint))
      ensures !ok ==> Written() == old(Written())
    {
      var number := Decimal(item.valueint);
      DecimalFitsNumberBuffer(item.valueint);
      if |number| > 25 { return false; }
      ok := Put(number);
      if ok { offset := offset + |number|; }
    }

    /** print_string_ptr: count the escapes, make room, copy. */
    method PrintString(input: Option<string>) returns (ok: bool)
      requires Valid() && (input.Some? ==> NulFree(input.value))
      modifies this`buffer, this`length, buffer
      ensures Valid() && Capacity() == old(Capacity())
      ensures buffer == old(buffer) || (fresh(buffer) && !noalloc)
      ensures Written() == old(Written())
      ensures var text := if input.None? then "\"\"" else Quote(input.value);
              (ok <==> offset + |text| + 2 <= Capacity()) && (ok ==> Holds(Written(), text))
    {
      if input.None? {
        ok := Put("\"\"");
        return;
      }
      var s := input.value;
      var escapes := CountEscapes(s);
      ok := Ensure(|s| + escapes + 3);
      if !ok { return; }
      if escapes == 0 {
        NothingEscaped(s);
        Store(offset, Quote(s));
        buffer[offset + |Quote(s)|] := '\0';
      } else {
        CopyEscaped(s);
      }
    }

    /** The slow path of print_string_ptr: quotes around the characters, escaped one by one. */
    method CopyEscaped(s: string)
      requires Valid() && offset + |Quote(s)| < length
      modifies buffer
      ensures Written() == old(Written())
      ensures Holds(Written(), Quote(s))
    {
      hide Escape, EscapeChar;
      Store(offset, "\"");
      var at := offset + 1;
      ghost var total := buffer[..at] + Escape(s);
      assert s[0..] == s;
      for i := 0 to |s|
        invariant offset < at && at + |Escape(s[i..])| == |total|
        invariant Written() == old(Written())
        invariant buffer[..at] + Escape(s[i..]) == total
      {
        assert s[i..][1..] == s[i + 1..];
        EscapeStep(s[i..]);
        var piece := EscapeChar(s[i]);
        Assoc(buffer[..at], piece, Escape(s[i + 1..]));
        Store(at, piece);
        at := at + |piece|;
        // sprintf ends its escape with a NUL, which the next character or the closing quote overwrites
        if ShortEscape(s[i]).None? && s[i] < ' ' { buffer[at] := '\0'; }
      }
      assert buffer[..at] == total by {
        EscapeStep(s[|s|..]);
        assert buffer[..at] + "" == buffer[..at];
      }
      Store(at, "\"");
      buffer[at + 1] := '\0';
      Assoc(Written(), "\"", Escape(s));
      Assoc(Written(), "\"" + Escape(s), "\"");
    }
  }

  /** The first pass of print_string_ptr: how many bytes escaping adds. */
  method CountEscapes(s: string) returns (escapes: nat)
    ensures escapes == |Escape(s)| - |s|
  {
    escapes := 0;
    assert s[0..] == s;
    for i := 0 to |s|
      invariant escapes + |Escape(s[i..])| == |Escape(s)| - i
    {
      assert s[i..][1..] == s[i + 1..];
      if ShortEscape(s[i]).Some? {
        escapes := escapes + 1;
      } else if s[i] < ' ' {
        escapes := escapes + 5;
      }
    }
  }

  lemma EscapeStep(s: string)
    ensures Escape(s) == if s == "" then "" else EscapeChar(s[0]) + Escape(s[1..])
  {
  }

  lemma {:induction false} EscapeGrows(s: string)
    ensures |Escape(s)| >= |s|
    ensures |Escape(s)| == |s| ==> Escape(s) == s
  {
    if s != "" {
      EscapeGrows(s[1..]);
    }
  }

  lemma NothingEscaped(s: string)
    requires |Escape(s)| == |s|
    ensures Quote(s) == "\"" + s + "\""
  {
    EscapeGrows(s);
  }
}
