/** parse_value and its two companions build the heap tree and refine `ParseValue`. */
module TreeParser {
  import opened Text
  import opened Number
  import opened StringLiteral
  import opened Json
  import opened Tree
  import opened Parser

  /** On success the item is a well-formed tree for the value the specification finds, the cursor
      stands behind it and the depth is what it was. */
  method ParseValue(item: Node, b: ParseBuffer) returns (ok: bool)
    requires b.Valid() && item.Blank()
    modifies item`kind, item`valueint, item`valuedouble, item`valuestring, item`child
    modifies item`kids, item`repr, item`val, b`offset, b`depth
    ensures b.Valid()
    ensures var r := S.ParseValue(old(b.Rest()), old(b.depth));
            && (ok <==> r.Found?)
            && (ok ==> item.Valid() && item.val == r.value && b.Rest() == r.rest && b.depth == old(b.depth))
    ensures item in item.repr && fresh(item.repr - {item})
    decreases |b.Rest()|, 3
  {
    hide S.ParseArray, S.ParseObject, S.ParseNumber, ReadString, Node.Valid;
    ghost var t := b.Rest();
    var offset, content := b.offset, b.content;
    if offset + 4 <= |content| && content[offset..offset + 4] == "null" {
      item.kind, item.val := NULL, Null;
      item.Scalar();
      b.Dropped(offset, 4);
      b.offset := offset + 4;
      return true;
    }
    if offset + 5 <= |content| && content[offset..offset + 5] == "false" {
      item.kind, item.val := False, Bool(false);
      item.Scalar();
      b.Dropped(offset, 5);
      b.offset := offset + 5;
      return true;
    }
    if offset + 4 <= |content| && content[offset..offset + 4] == "true" {
      item.kind, item.valueint, item.val := True, 1, Bool(true);
      item.Scalar();
      b.Dropped(offset, 4);
      b.offset := offset + 4;
      return true;
    }
    if offset < |content| && content[offset] == '"' {
      ok := b.ParseString(item);
      if ok {
        item.val := Str(item.valuestring.value);
        item.Scalar();
      }
      return;
    }
    if offset < |content| && (content[offset] == '-' || IsDigit(content[offset])) {
      ok := b.ParseNumber(item);
      return;
    }
    if offset < |content| && content[offset] == '[' {
      ok := ParseArray(item, b);
      return;
    }
    if offset < |content| && content[offset] == '{' {
      ok := ParseObject(item, b);
      return;
    }
    return false;
  }

  /** What parsing the elements from the start amounts to once `before` have been read. */
  function Continue<T>(before: seq<T>, others: S.Parse<seq<T>>): S.Parse<seq<T>> {
    if others.Fail? then Fail else Found(before + others.value, others.rest)
  }

  /** One round of parse_array's loop: a new node behind the list, and a value for it. */
  method NextItem(b: ParseBuffer, ghost kids: seq<Node>, ghost nodes: set<Node>, current: Node?)
    returns (ok: bool, newItem: Node)
    requires b.offset < |b.content| && Forest(kids, nodes, null)
    requires current == if kids == [] then null else kids[|kids| - 1]
    modifies Tail(kids)`next, b`offset, b`depth
    ensures b.Valid() && fresh(newItem) && newItem in newItem.repr && fresh(newItem.repr)
    ensures var r := S.ParseValue(SkipWhite(old(b.content[b.offset + 1..])), old(b.depth));
            && (ok <==> r.Found?)
            && (ok ==> Forest(kids + [newItem], nodes + newItem.repr, null)
                       && old(b.offset) < b.offset && newItem.val == r.value
                       && b.Rest() == SkipWhite(r.rest) && b.depth == old(b.depth))
    decreases |b.Rest()|, 0
  {
    hide Node.Valid, Forest, SkipWhite, S.ParseValue;
    InForest(kids, nodes);
    newItem := new Node();
    Link(kids, nodes, current, newItem);
    b.offset := b.offset + 1;
    b.SkipWhitespace();
    ok := ParseValue(newItem, b);
    if !ok { return; }
    b.SkipWhitespace();
    ForestSnoc(kids, nodes, newItem);
  }

  lemma ContinueNothing<T>(others: S.Parse<seq<T>>)
    ensures Continue([], others) == others
  {
    if others.Found? { assert [] + others.value == others.value; }
  }

  /** The loop of parse_array, from the character in front of the first element to the closing bracket. */
  method ParseItems(b: ParseBuffer)
    returns (ok: bool, head: Node?, current: Node?,
             ghost kids: seq<Node>, ghost nodes: set<Node>, ghost vals: seq<Json>)
    requires b.offset < |b.content|
    modifies b`offset, b`depth
    ensures b.Valid()
    ensures var r := S.ParseItems(old(b.content[b.offset + 1..]), old(b.depth));
            && (ok <==> r.Found?)
            && (ok ==> Forest(kids, nodes, null) && fresh(nodes) && Contains(kids, Arr(vals)) && vals == r.value
                       && b.offset < |b.content| && b.content[b.offset + 1..] == r.rest && b.depth == old(b.depth))
    ensures head == (if kids == [] then null else kids[0])
    ensures current == if kids == [] then null else kids[|kids| - 1]
    decreases |b.content| - b.offset, 1
  {
    hide Node.Valid, Forest, Contains, SkipWhite, S.ParseValue, S.ParseItems;
    head, current, kids, nodes, vals := null, null, [], {}, [];
    ghost var full := S.ParseItems(b.content[b.offset + 1..], b.depth);
    ghost var start := b.offset;
    EmptyForest();
    ContainsNothing();
    ContinueNothing(full);
    var more := true;
    while more
      invariant start <= b.offset < |b.content| && b.depth == old(b.depth)
      invariant Forest(kids, nodes, null) && fresh(nodes) && Contains(kids, Arr(vals))
      invariant head == (if kids == [] then null else kids[0])
      invariant current == if kids == [] then null else kids[|kids| - 1]
      invariant more ==> full == Continue(vals, S.ParseItems(b.content[b.offset + 1..], b.depth))
      invariant !more ==> full == if b.content[b.offset] == ']' then Found(vals, b.content[b.offset + 1..]) else Fail
      decreases |b.content| - b.offset, more
    {
      InForest(kids, nodes);
      ParseItemsStep(vals, b.content[b.offset + 1..], b.depth);
      var parsed, newItem := NextItem(b, kids, nodes, current);
      if !parsed { return false, head, current, kids, nodes, vals; }
      if head == null { head := newItem; }
      current := newItem;
      ContainsItem(kids, vals, newItem);
      kids, nodes, vals := kids + [newItem], nodes + newItem.repr, vals + [newItem.val];
      if b.offset >= |b.content| { return false, head, current, kids, nodes, vals; }
      more := b.content[b.offset] == ',';
      b.Dropped(b.offset, 1);
    }
    ok := b.content[b.offset] == ']';
  }

  method ParseArray(item: Node, b: ParseBuffer) returns (ok: bool)
    requires b.Valid() && item.Blank() && b.Rest() != "" && b.Rest()[0] == '['
    modifies item`kind, item`valueint, item`valuedouble, item`valuestring, item`child
    modifies item`kids, item`repr, item`val, b`offset, b`depth
    ensures b.Valid()
    ensures var r := S.ParseArray(old(b.Rest()), old(b.depth));
            && (ok <==> r.Found?)
            && (ok ==> item.Valid() && item.val == r.value && b.Rest() == r.rest && b.depth == old(b.depth))
    ensures item in item.repr && fresh(item.repr - {item})
    decreases |b.Rest()|, 2
  {
    hide Node.Valid, Forest, Contains, SkipWhite, S.ParseValue, S.ParseItems;
    if b.depth >= NESTING_LIMIT { return false; }
    b.depth := b.depth + 1;
    var head: Node?, current: Node? := null, null;
    ghost var kids: seq<Node>, nodes: set<Node>, vals: seq<Json> := [], {}, [];
    EmptyForest();
    ContainsNothing();
    b.Dropped(b.offset, 1);
    b.offset := b.offset + 1;
    b.SkipWhitespace();
    if b.offset >= |b.content| {
      b.offset := b.offset - 1;
      return false;
    }
    if b.content[b.offset] != ']' {
      b.offset := b.offset - 1;
      ok, head, current, kids, nodes, vals := ParseItems(b);
      if !ok { return; }
    }
    InForest(kids, nodes);
    b.depth := b.depth - 1;
    Adopt(item, Array, head, current, kids, nodes, Arr(vals));
    b.Dropped(b.offset, 1);
    b.offset := b.offset + 1;
    return true;
  }

  /** One unfolding of the element list, behind elements already read. */
  lemma ParseItemsStep(before: seq<Json>, t: string, d: nat)
    ensures var first := S.ParseValue(SkipWhite(t), d);
            var full := Continue(before, S.ParseItems(t, d));
            if first.Fail? || SkipWhite(first.rest) == "" then full.Fail?
            else
              var u := SkipWhite(first.rest);
              var read := before + [first.value];
              full == if u[0] == ',' then Continue(read, S.ParseItems(u[1..], d))
                      else if u[0] == ']' then Found(read, u[1..])
                      else Fail
  {
    hide S.ParseValue, SkipWhite;
    var first := S.ParseValue(SkipWhite(t), d);
    if first.Found? {
      var u := SkipWhite(first.rest);
      if u != "" && u[0] == ',' && S.ParseItems(u[1..], d).Found? {
        var others := S.ParseItems(u[1..], d).value;
        assert before + ([first.value] + others) == (before + [first.value]) + others;
      }
    }
  }

  /** A member after its key: the value found, if there is one. */
  function MemberValue(key: S.Parse<string>, d: nat): S.Parse<Json> {
    if key.Fail? then Fail else S.ParseValue(SkipWhite(key.rest), d)
  }

  /** The key and the colon; the key moves from the value slot to the name. */
  method NextKey(b: ParseBuffer, item: Node) returns (ok: bool)
    requires b.Valid() && item.Blank()
    modifies item`kind, item`valuestring, item`name, b`offset
    ensures b.Valid()
    ensures var r := S.ParseKey(old(b.Rest()));
            && (ok <==> r.Found?)
            && (ok ==> item.Blank() && item.name == Some(r.value) && NulFree(r.value) && b.Rest() == r.rest
                       && old(b.offset) < b.offset)
  {
    hide SkipWhite, ReadString;
    if b.offset >= |b.content| { return false; }
    b.SkipWhitespace();
    ok := b.ParseString(item);
    if !ok { return; }
    b.SkipWhitespace();
    item.name, item.valuestring := item.valuestring, None;
    if b.offset >= |b.content| || b.content[b.offset] != ':' { return false; }
    b.Dropped(b.offset, 1);
    b.offset := b.offset + 1;
  }

  /** One round of parse_object's loop: a new node behind the list, its key and its value. */
  method NextMember(b: ParseBuffer, ghost kids: seq<Node>, ghost nodes: set<Node>, current: Node?)
    returns (ok: bool, newItem: Node)
    requires b.offset < |b.content| && Forest(kids, nodes, null)
    requires current == if kids == [] then null else kids[|kids| - 1]
    modifies Tail(kids)`next, b`offset, b`depth
    ensures b.Valid() && fresh(newItem) && newItem in newItem.repr && fresh(newItem.repr)
    ensures var key := S.ParseKey(old(b.content[b.offset + 1..]));
            var r := MemberValue(key, old(b.depth));
            && (ok <==> r.Found?)
            && (ok ==> Forest(kids + [newItem], nodes + newItem.repr, null) && old(b.offset) < b.offset
                       && newItem.name == Some(key.value) && NulFree(key.value)
                       && newItem.val == r.value && b.Rest() == SkipWhite(r.rest) && b.depth == old(b.depth))
    decreases |b.Rest()|, 0
  {
    hide Node.Valid, Forest, SkipWhite, S.ParseValue, S.ParseKey;
    InForest(kids, nodes);
    newItem := new Node();
    Link(kids, nodes, current, newItem);
    b.offset := b.offset + 1;
    ok := NextKey(b, newItem);
    if !ok { return; }
    b.SkipWhitespace();
    ok := ParseValue(newItem, b);
    if !ok { return; }
    b.SkipWhitespace();
    ForestSnoc(kids, nodes, newItem);
  }

  /** The loop of parse_object, from the character in front of the first element to the closing bracket. */
  method ParseMembers(b: ParseBuffer)
    returns (ok: bool, head: Node?, current: Node?,
             ghost kids: seq<Node>, ghost nodes: set<Node>, ghost members: seq<Member>)
    requires b.offset < |b.content|
    modifies b`offset, b`depth
    ensures b.Valid()
    ensures var r := S.ParseMembers(old(b.content[b.offset + 1..]), old(b.depth));
            && (ok <==> r.Found?)
            && (ok ==> Forest(kids, nodes, null) && fresh(nodes) && Contains(kids, Obj(members)) && members == r.value
                       && b.offset < |b.content| && b.content[b.offset + 1..] == r.rest && b.depth == old(b.depth))
    ensures head == (if kids == [] then null else kids[0])
    ensures current == if kids == [] then null else kids[|kids| - 1]
    decreases |b.content| - b.offset, 1
  {
    hide Node.Valid, Forest, Contains, SkipWhite, S.ParseValue, S.ParseKey, S.ParseMembers;
    head, current, kids, nodes, members := null, null, [], {}, [];
    ghost var full := S.ParseMembers(b.content[b.offset + 1..], b.depth);
    ghost var start := b.offset;
    EmptyForest();
    ContainsNothing();
    ContinueNothing(full);
    var more := true;
    while more
      invariant start <= b.offset < |b.content| && b.depth == old(b.depth)
      invariant Forest(kids, nodes, null) && fresh(nodes) && Contains(kids, Obj(members))
      invariant head == (if kids == [] then null else kids[0])
      invariant current == if kids == [] then null else kids[|kids| - 1]
      invariant more ==> full == Continue(members, S.ParseMembers(b.content[b.offset + 1..], b.depth))
      invariant !more ==> full == if b.content[b.offset] == '}' then Found(members, b.content[b.offset + 1..]) else Fail
      decreases |b.content| - b.offset, more
    {
      InForest(kids, nodes);
      ParseMembersStep(members, b.content[b.offset + 1..], b.depth);
      var parsed, newItem := NextMember(b, kids, nodes, current);
      if !parsed { return false, head, current, kids, nodes, members; }
      if head == null { head := newItem; }
      current := newItem;
      ContainsMember(kids, members, newItem);
      kids, nodes := kids + [newItem], nodes + newItem.repr;
      members := members + [Member(newItem.name.value, newItem.val)];
      if b.offset >= |b.content| { return false, head, current, kids, nodes, members; }
      more := b.content[b.offset] == ',';
      b.Dropped(b.offset, 1);
    }
    ok := b.content[b.offset] == '}';
  }

  method ParseObject(item: Node, b: ParseBuffer) returns (ok: bool)
    requires b.Valid() && item.Blank() && b.Rest() != "" && b.Rest()[0] == '{'
    modifies item`kind, item`valueint, item`valuedouble, item`valuestring, item`child
    modifies item`kids, item`repr, item`val, b`offset, b`depth
    ensures b.Valid()
    ensures var r := S.ParseObject(old(b.Rest()), old(b.depth));
            && (ok <==> r.Found?)
            && (ok ==> item.Valid() && item.val == r.value && b.Rest() == r.rest && b.depth == old(b.depth))
    ensures item in item.repr && fresh(item.repr - {item})
    decreases |b.Rest()|, 2
  {
    hide Node.Valid, Forest, Contains, SkipWhite, S.ParseValue, S.ParseKey, S.ParseMembers;
    if b.depth >= NESTING_LIMIT { return false; }
    b.depth := b.depth + 1;
    var head: Node?, current: Node? := null, null;
    ghost var kids: seq<Node>, nodes: set<Node>, members: seq<Member> := [], {}, [];
    EmptyForest();
    ContainsNothing();
    b.Dropped(b.offset, 1);
    b.offset := b.offset + 1;
    b.SkipWhitespace();
    if b.offset >= |b.content| {
      b.offset := b.offset - 1;
      return false;
    }
    if b.content[b.offset] != '}' {
      b.offset := b.offset - 1;
      ok, head, current, kids, nodes, members := ParseMembers(b);
      if !ok { return; }
    }
    InForest(kids, nodes);
    b.depth := b.depth - 1;
    Adopt(item, Object, head, current, kids, nodes, Obj(members));
    b.Dropped(b.offset, 1);
    b.offset := b.offset + 1;
    return true;
  }

  /** One unfolding of the member list, behind members already read. */
  lemma ParseMembersStep(before: seq<Member>, t: string, d: nat)
    ensures var key := S.ParseKey(t);
            var first := MemberValue(key, d);
            var full := Continue(before, S.ParseMembers(t, d));
            if first.Fail? || SkipWhite(first.rest) == "" then full.Fail?
            else
              var u := SkipWhite(first.rest);
              var read := before + [Member(key.value, first.value)];
              full == if u[0] == ',' then Continue(read, S.ParseMembers(u[1..], d))
                      else if u[0] == '}' then Found(read, u[1..])
                      else Fail
  {
    hide S.ParseValue, S.ParseKey, SkipWhite;
    var key := S.ParseKey(t);
    var first := MemberValue(key, d);
    if first.Found? {
      var u := SkipWhite(first.rest);
      if u != "" && u[0] == ',' && S.ParseMembers(u[1..], d).Found? {
        var others := S.ParseMembers(u[1..], d).value;
        var m := Member(key.value, first.value);
        assert before + ([m] + others) == (before + [m]) + others;
      }
    }
  }

  /** cJSON_Parse: a well-formed tree for the value the text starts with, or nothing. */
  method Parse(value: string) returns (item: Node?)
    ensures (item == null) == (ParseText(value) == None)
    ensures item != null ==> fresh(item) && item.Valid() && Some(item.val) == ParseText(value)
  {
    hide S.ParseValue, Node.Valid;
    var b := new ParseBuffer(CString(value) + "\0");
    var root := new Node();
    if |b.content| > 4 && b.content[..3] == "\U{EF}\U{BB}\U{BF}" {
      b.offset := 3;
    }
    b.SkipWhitespace();
    var ok := ParseValue(root, b);
    return if ok then root else null;
  }
}
