/** print_value and its two companions walk the heap tree and refine `Render`. */
module TreePrinter {
  import opened Text
  import opened Number
  import opened StringLiteral
  import opened Json
  import opened Tree
  import opened Printer
  import opened RoundTrip

  /** On success the buffer holds the rendering of the item behind what was there.  Printing succeeds
      if and only if the text fits with its NUL and one spare byte. */
  method PrintValue(item: Node, p: PrintBuffer) returns (ok: bool)
    requires p.Valid() && item.Valid() && Printable(item.val)
    modifies p, p.buffer
    ensures p.Valid() && p.Capacity() == old(p.Capacity())
    ensures p.buffer == old(p.buffer) || (fresh(p.buffer) && !p.noalloc)
    ensures var text := Render(item.val, p.format, old(p.depth), "");
            && (ok <==> old(p.offset) + |text| + 2 <= p.Capacity())
            && (ok ==> p.Holds(old(p.Written()), text) && p.depth == old(p.depth))
    decreases item.val, 1
  {
    hide Node.Valid, Render, Printable, PrintBuffer.Written, PrintBuffer.Holds, PrintBuffer.Valid, PrintBuffer.Capacity;
    ScalarText(item, p.format, p.depth);
    match item.kind
    case NULL => ok := p.Put("null");
    case False => ok := p.Put("false");
    case True => ok := p.Put("true");
    case Number => ok := p.PrintNumber(item);
    case String => ok := p.PrintString(item.valuestring);
    case Array => ok := PrintArray(item, p);
    case Object => ok := PrintObject(item, p);
  }

  /** The text of a node that is no container. */
  lemma ScalarText(item: Node, fmt: bool, d: nat)
    requires item.Valid() && Printable(item.val)
    ensures var text := Render(item.val, fmt, d, "");
            match item.kind
            case Invalid => false
            case NULL => text == "null"
            case False => text == "false"
            case True => text == "true"
            case Number => text == Decimal(item.valueint)
            case String =>
              item.valuestring.Some? && NulFree(item.valuestring.value) && text == Quote(item.valuestring.value)
            case _ => true
  {
    hide NulFree;
    assert item.Denotes();
    hide Node.Valid;
    var text := Render(item.val, fmt, d, "");
    assert item.val.Null? ==> text == "null" + "" == "null";
    assert item.val.Bool? ==> text == (if item.val.b then "true" else "false") + "";
    assert item.val.Num? ==> text == Decimal(Saturate(item.val.d)) + "" == Decimal(Saturate(item.val.d));
    assert item.val.Str? ==> text == Quote(item.val.s) + "" == Quote(item.val.s);
  }

  function ItemText(v: Json, more: bool, fmt: bool, d: nat): string {
    Render(v, fmt, d, "") + if more then "," + Space(fmt) else ""
  }

  lemma ItemsStep(items: seq<Json>, i: nat, fmt: bool, d: nat, tail: string)
    requires i < |items|
    ensures RenderItems(items[i..], fmt, d, tail)
         == ItemText(items[i], i + 1 < |items|, fmt, d) + RenderItems(items[i + 1..], fmt, d, tail)
  {
    var others := RenderItems(items[i + 1..], fmt, d, tail);
    var separator := if i + 1 < |items| then "," + Space(fmt) else "";
    assert items[i..][1..] == items[i + 1..];
    Assoc(",", Space(fmt), others);
    assert "" + others == others;
    RenderTail(items[i], fmt, d, separator + others);
    Assoc(Render(items[i], fmt, d, ""), separator, others);
  }

  lemma ArrayText(items: seq<Json>, fmt: bool, d: nat, before: string)
    ensures before + Render(Arr(items), fmt, d, "")
         == (before + "[") + RenderItems(items[0..], fmt, d + 1, "]")
  {
    assert "]" + "" == "]" && items[0..] == items;
    Assoc(before, "[", RenderItems(items, fmt, d + 1, "]"));
  }

  /** One round of print_array's loop. */
  method PrintItem(current: Node, p: PrintBuffer) returns (ok: bool)
    requires p.Valid() && current.Valid() && Printable(current.val)
    modifies p, p.buffer
    ensures p.Valid() && p.Capacity() == old(p.Capacity())
    ensures p.buffer == old(p.buffer) || (fresh(p.buffer) && !p.noalloc)
    ensures var text := ItemText(current.val, current.next != null, p.format, old(p.depth));
            && (!ok ==> old(p.offset) + |text| + 2 > p.Capacity())
            && (ok ==> p.Written() == old(p.Written()) + text && p.depth == old(p.depth))
    decreases current.val, 2
  {
    hide Render, PrintBuffer.Written, PrintBuffer.Holds, PrintBuffer.Valid, PrintBuffer.Capacity;
    ghost var piece := Render(current.val, p.format, p.depth, "");
    ghost var before := p.Written();
    ok := PrintValue(current, p);
    if !ok { return; }
    RenderNulFree(current.val, p.format, p.depth, "");
    p.UpdateOffset(before, piece);
    assert piece + "" == piece;
    if current.next != null {
      var separator := "," + Space(p.format);
      ok := p.Append(separator, |separator| + 1, true);
      Assoc(before, piece, separator);
    }
  }

  /** The end of print_array and print_object: the closing bracket, or the indentation and the closing brace. */
  method PrintClosing(p: PrintBuffer, closing: string, ghost before: string, ghost text: string) returns (ok: bool)
    requires p.Valid() && p.depth > 0 && |before| <= p.offset
    requires p.Written() + closing == before + text
    modifies p`buffer, p`length, p`depth, p.buffer
    ensures p.Valid() && p.Capacity() == old(p.Capacity())
    ensures p.buffer == old(p.buffer) || (fresh(p.buffer) && !p.noalloc)
    ensures ok <==> |before| + |text| + 2 <= p.Capacity()
    ensures ok ==> p.Holds(before, text) && p.depth == old(p.depth) - 1
  {
    hide PrintBuffer.Written, PrintBuffer.Holds, PrintBuffer.Valid, PrintBuffer.Capacity;
    assert |p.Written()| + |closing| == |before| + |text|;
    ok := p.Put(closing);
    if !ok { return; }
    p.HoldsFrom(before, text, p.Written(), closing);
    p.depth := p.depth - 1;
  }

  method PrintArray(item: Node, p: PrintBuffer) returns (ok: bool)
    requires p.Valid() && item.Valid() && item.kind == Array && Printable(item.val)
    modifies p, p.buffer
    ensures p.Valid() && p.Capacity() == old(p.Capacity())
    ensures p.buffer == old(p.buffer) || (fresh(p.buffer) && !p.noalloc)
    ensures var text := Render(item.val, p.format, old(p.depth), "");
            && (ok <==> old(p.offset) + |text| + 2 <= p.Capacity())
            && (ok ==> p.Holds(old(p.Written()), text) && p.depth == old(p.depth))
    decreases item.val, 0
  {
    hide Render, RenderItems, ItemText, Node.Valid, Printable, PrintBuffer.Written, PrintBuffer.Holds,
         PrintBuffer.Valid, PrintBuffer.Capacity;
    Kids(item);
    ghost var items := item.val.items;
    ghost var d := p.depth + 1;
    ghost var before := p.Written();
    ghost var text := Render(item.val, p.format, p.depth, "");
    ArrayText(items, p.format, p.depth, before);
    ok := p.Append("[", 1, false);
    if !ok { return; }
    p.depth := p.depth + 1;
    var current := item.child;
    ghost var i := 0;
    while current != null
      invariant i <= |items| && current == if i < |items| then item.kids[i] else null
      invariant item.Valid() && |before| <= p.offset && p.Valid() && p.depth == d && p.Capacity() == old(p.Capacity())
      invariant p.buffer == old(p.buffer) || (fresh(p.buffer) && !p.noalloc)
      invariant p.Written() + RenderItems(items[i..], p.format, d, "]") == before + text
      decreases |items| - i
    {
      ItemsStep(items, i, p.format, d, "]");
      ghost var piece := ItemText(items[i], i + 1 < |items|, p.format, d);
      Assoc(p.Written(), piece, RenderItems(items[i + 1..], p.format, d, "]"));
      Kid(item, i);
      NoItems(items[i + 1..], p.format, d, "]");
      ok := PrintItem(current, p);
      if !ok { return; }
      i := i + 1;
      current := current.next;
    }
    NoItems(items[i..], p.format, d, "]");
    ok := PrintClosing(p, "]", before, text);
  }

  lemma NoItems(items: seq<Json>, fmt: bool, d: nat, tail: string)
    ensures items == [] ==> RenderItems(items, fmt, d, tail) == tail
    ensures |RenderItems(items, fmt, d, tail)| >= |tail|
  {
    RenderItemsTail(items, fmt, d, tail);
  }

  lemma NoMembers(members: seq<Member>, fmt: bool, d: nat, tail: string)
    ensures members == [] ==> RenderMembers(members, fmt, d, tail) == tail
    ensures |RenderMembers(members, fmt, d, tail)| >= |tail|
  {
    RenderMembersTail(members, fmt, d, tail);
  }

  /** One member as it stands in an object that goes on with more members or ends. */
  function MemberText(m: Member, more: bool, fmt: bool, d: nat): string {
    KeyText(m.key, fmt, d) + (Render(m.value, fmt, d, "") + Separator(more, fmt))
  }

  function KeyText(key: string, fmt: bool, d: nat): string {
    (Indent(fmt, d) + Quote(key)) + (":" + Tab(fmt))
  }

  function Separator(more: bool, fmt: bool): string {
    (if more then "," else "") + Newline(fmt)
  }

  lemma MembersStep(members: seq<Member>, i: nat, fmt: bool, d: nat, tail: string)
    requires i < |members|
    ensures RenderMembers(members[i..], fmt, d, tail)
         == MemberText(members[i], i + 1 < |members|, fmt, d) + RenderMembers(members[i + 1..], fmt, d, tail)
  {
    var m, more := members[i], i + 1 < |members|;
    var others := RenderMembers(members[i + 1..], fmt, d, tail);
    var after := Separator(more, fmt) + others;
    assert members[i..][1..] == members[i + 1..];
    Assoc(if more then "," else "", Newline(fmt), others);
    assert "" + (Newline(fmt) + others) == Newline(fmt) + others;
    RenderTail(m.value, fmt, d, after);
    var value := Render(m.value, fmt, d, "");
    Assoc(value, Separator(more, fmt), others);
    Assoc(":", Tab(fmt), value + after);
    Assoc(Quote(m.key), ":" + Tab(fmt), value + after);
    Assoc(Indent(fmt, d), Quote(m.key), (":" + Tab(fmt)) + (value + after));
    Assoc(Indent(fmt, d) + Quote(m.key), ":" + Tab(fmt), value + after);
    Assoc(KeyText(m.key, fmt, d), value + Separator(more, fmt), others);
  }

  lemma ObjectText(members: seq<Member>, fmt: bool, d: nat, before: string)
    ensures before + Render(Obj(members), fmt, d, "")
         == (before + ("{" + Newline(fmt))) + RenderMembers(members[0..], fmt, d + 1, Indent(fmt, d) + "}")
  {
    assert "}" + "" == "}" && members[0..] == members;
    var rest := RenderMembers(members, fmt, d + 1, Indent(fmt, d) + "}");
    Assoc("{", Newline(fmt), rest);
    Assoc(before, "{" + Newline(fmt), rest);
  }

  /** The indentation, the key and its colon. */
  method PrintKey(current: Node, p: PrintBuffer, ghost key: string) returns (ok: bool)
    requires p.Valid() && current.name == Some(key) && NulFree(key)
    modifies p`buffer, p`length, p`offset, p.buffer
    ensures p.Valid() && p.Capacity() == old(p.Capacity())
    ensures p.buffer == old(p.buffer) || (fresh(p.buffer) && !p.noalloc)
    ensures var text := KeyText(key, p.format, p.depth);
            && (!ok ==> old(p.offset) + |text| + 2 > p.Capacity())
            && (ok ==> p.Written() == old(p.Written()) + text)
  {
    hide Quote, Indent, Tab, PrintBuffer.Written, PrintBuffer.Holds, PrintBuffer.Valid, PrintBuffer.Capacity;
    ghost var before := p.Written();
    ghost var indent := Indent(p.format, p.depth);
    var colon := ":" + Tab(p.format);
    IndentIs(p.format, p.depth, before);
    if p.format {
      ok := p.Append(Repeat('\t', p.depth), p.depth, false);
      if !ok { return; }
    }
    ok := p.PrintString(current.name);
    if !ok { return; }
    p.UpdateOffset(before + indent, Quote(key));
    ok := p.Append(colon, |colon|, false);
    Assoc(before, indent, Quote(key));
    Assoc(before, indent + Quote(key), colon);
  }

  /** One round of print_object's loop. */
  method PrintMember(current: Node, p: PrintBuffer, ghost m: Member) returns (ok: bool)
    requires p.Valid() && current.Valid() && Printable(current.val)
    requires current.name == Some(m.key) && current.val == m.value && NulFree(m.key)
    modifies p, p.buffer
    ensures p.Valid() && p.Capacity() == old(p.Capacity())
    ensures p.buffer == old(p.buffer) || (fresh(p.buffer) && !p.noalloc)
    ensures var text := MemberText(m, current.next != null, p.format, old(p.depth));
            && (!ok ==> old(p.offset) + |text| + 2 > p.Capacity())
            && (ok ==> p.Written() == old(p.Written()) + text && p.depth == old(p.depth))
    decreases m.value, 2
  {
    hide Render, KeyText, Separator, Node.Valid, PrintBuffer.Written, PrintBuffer.Holds, PrintBuffer.Valid,
         PrintBuffer.Capacity;
    ghost var before := p.Written();
    ghost var key := KeyText(m.key, p.format, p.depth);
    ghost var value := Render(m.value, p.format, p.depth, "");
    ok := PrintKey(current, p, m.key);
    if !ok { return; }
    ok := PrintValue(current, p);
    if !ok { return; }
    RenderNulFree(m.value, p.format, p.depth, "");
    p.UpdateOffset(before + key, value);
    var separator := Separator(current.next != null, p.format);
    ok := p.Append(separator, |separator| + 1, true);
    Assoc(before, key, value + separator);
    Assoc(before + key, value, separator);
  }

  lemma IndentIs(fmt: bool, d: nat, before: string)
    ensures fmt ==> Indent(fmt, d) == Repeat('\t', d)
    ensures !fmt ==> before + Indent(fmt, d) == before
  {
  }

  lemma ClosingIs(fmt: bool, d: nat)
    ensures (if fmt then Repeat('\t', d) else "") + "}" == Indent(fmt, d) + "}"
  {
  }

  method PrintObject(item: Node, p: PrintBuffer) returns (ok: bool)
    requires p.Valid() && item.Valid() && item.kind == Object && Printable(item.val)
    modifies p, p.buffer
    ensures p.Valid() && p.Capacity() == old(p.Capacity())
    ensures p.buffer == old(p.buffer) || (fresh(p.buffer) && !p.noalloc)
    ensures var text := Render(item.val, p.format, old(p.depth), "");
            && (ok <==> old(p.offset) + |text| + 2 <= p.Capacity())
            && (ok ==> p.Holds(old(p.Written()), text) && p.depth == old(p.depth))
    decreases item.val, 0
  {
    hide Render, RenderMembers, MemberText, Indent, Newline, NulFree, Node.Valid, Printable,
         PrintBuffer.Written, PrintBuffer.Holds, PrintBuffer.Valid, PrintBuffer.Capacity;
    Kids(item);
    ghost var members := item.val.members;
    ghost var d := p.depth + 1;
    ghost var before := p.Written();
    ghost var text := Render(item.val, p.format, p.depth, "");
    ghost var close := Indent(p.format, p.depth) + "}";
    ObjectText(members, p.format, p.depth, before);
    var open := "{" + Newline(p.format);
    ok := p.Append(open, |open| + 1, false);
    if !ok { return; }
    p.depth := p.depth + 1;
    var current := item.child;
    ghost var i := 0;
    while current != null
      invariant i <= |members| && current == if i < |members| then item.kids[i] else null
      invariant item.Valid() && |before| <= p.offset && p.Valid() && p.depth == d && p.Capacity() == old(p.Capacity())
      invariant p.buffer == old(p.buffer) || (fresh(p.buffer) && !p.noalloc)
      invariant p.Written() + RenderMembers(members[i..], p.format, d, close) == before + text
      decreases |members| - i
    {
      MembersStep(members, i, p.format, d, close);
      ghost var piece := MemberText(members[i], i + 1 < |members|, p.format, d);
      Assoc(p.Written(), piece, RenderMembers(members[i + 1..], p.format, d, close));
      Kid(item, i);
      NoMembers(members[i + 1..], p.format, d, close);
      ok := PrintMember(current, p, members[i]);
      if !ok { return; }
      i := i + 1;
      current := current.next;
    }
    NoMembers(members[i..], p.format, d, close);
    var closing := (if p.format then Repeat('\t', p.depth - 1) else "") + "}";
    ClosingIs(p.format, p.depth - 1);
    ok := PrintClosing(p, closing, before, text);
  }

  /** cJSON_Print and cJSON_PrintUnformatted: the whole text of a tree, or nothing when it would not
      fit in INT_MAX bytes. */
  method Print(item: Node, format: bool) returns (r: Option<string>)
    requires item.Valid() && Printable(item.val)
    ensures r == if |Printed(item.val, format)| + 2 <= INT_MAX then Some(Printed(item.val, format)) else None
  {
    var p := new PrintBuffer(256, format);
    var ok := PrintValue(item, p);
    if !ok { return None; }
    RenderNulFree(item.val, format, 0, "");
    p.UpdateOffset("", Printed(item.val, format));
    assert p.Written() == "" + Printed(item.val, format) == Printed(item.val, format);
    return Some(p.buffer[..p.offset]);
  }

  /** cJSON_PrintPreallocated into a buffer of the caller: two bytes more than the text are needed and enough. */
  method PrintPreallocated(item: Node, buffer: array<char>, format: bool) returns (ok: bool)
    requires item.Valid() && Printable(item.val) && buffer.Length <= INT_MAX
    modifies buffer
    ensures ok <==> |Printed(item.val, format)| + 2 <= buffer.Length
    ensures ok ==> CString(buffer[..]) == Printed(item.val, format)
  {
    var p := new PrintBuffer.Over(buffer, format);
    ok := PrintValue(item, p);
    if ok {
      var text := Printed(item.val, format);
      RenderNulFree(item.val, format, 0, "");
      assert buffer[..|text|] == "" + text == text;
      forall i | 0 <= i < |text| ensures buffer[..][i] != '\0' {
        assert buffer[..][i] == buffer[..|text|][i];
      }
      SpanLengthIs(buffer[..], c => c != '\0', |text|);
    }
  }
}
