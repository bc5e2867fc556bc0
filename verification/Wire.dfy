/** What stands in the JSON that is exchanged with the model: field by field, for replies and for requests. */
module Wire {
  import opened Text
  import opened Number
  import opened Json
  import opened Copy
  import opened Conversation
  import opened ToolCalls
  import opened Request

  // ----- Fields -----

  /** The same key but for the case of its letters. */
  predicate SameLetters(a: string, b: string) {
    |a| == |b| && forall i :: 0 <= i < |a| ==> Lower(a[i]) == Lower(b[i])
  }

  /** The first member with this key has this value. */
  ghost predicate Field(v: Json, key: string, x: Json) {
    v.Obj? && exists i :: FieldAt(v.members, i, key) && v.members[i].value == x
  }

  predicate FieldAt(members: seq<Member>, i: int, key: string) {
    && 0 <= i < |members| && SameLetters(members[i].key, key)
    && forall j :: 0 <= j < i ==> !SameLetters(members[j].key, key)
  }

  predicate NoField(v: Json, key: string) {
    v.Obj? ==> forall i :: 0 <= i < |v.members| ==> !SameLetters(v.members[i].key, key)
  }

  lemma SameKeyIs(a: string, b: string)
    ensures SameKey(a, b, false) <==> SameLetters(b, a)
  {
    if SameLetters(b, a) { assert LowerAll(a) == LowerAll(b); }
    if LowerAll(a) == LowerAll(b) {
      assert forall i :: 0 <= i < |a| ==> LowerAll(a)[i] == Lower(a[i]) && LowerAll(b)[i] == Lower(b[i]);
    }
  }

  lemma FieldIs(v: Json, key: string, x: Json)
    ensures Get(Some(v), key) == Some(x) <==> Field(v, key, x)
  {
    hide SameKey, SameLetters;
    if v.Obj? {
      var at := Lookup(v.members, key, false);
      forall i | 0 <= i < |v.members|
        ensures SameKey(key, v.members[i].key, false) <==> SameLetters(v.members[i].key, key)
      {
        SameKeyIs(key, v.members[i].key);
      }
      if at < |v.members| { assert FieldAt(v.members, at, key); }
      if i :| FieldAt(v.members, i, key) && v.members[i].value == x { assert at == i; }
    }
  }

  lemma NoFieldIs(v: Json, key: string)
    ensures Get(Some(v), key) == None <==> NoField(v, key)
  {
    hide SameKey, SameLetters;
    if v.Obj? {
      forall i | 0 <= i < |v.members|
        ensures SameKey(key, v.members[i].key, false) <==> SameLetters(v.members[i].key, key)
      {
        SameKeyIs(key, v.members[i].key);
      }
    }
  }

  // ----- A reply -----

  /** The field, if there is one, holds no string. */
  ghost predicate NoString(v: Json, key: string) {
    forall x :: Field(v, key, x) ==> !x.Str?
  }

  predicate Full(calls: Json) {
    (calls.Arr? && calls.items != []) || (calls.Obj? && calls.members != [])
  }

  lemma NoStringIs(v: Json, key: string)
    requires NoString(v, key)
    ensures AsString(Get(Some(v), key)) == None
  {
    hide Field, Get;
    if Get(Some(v), key).Some? {
      FieldIs(v, key, Get(Some(v), key).value);
    }
  }

  lemma UnreadableReply(body: string, counter: nat)
    requires ParseText(body) == None
    ensures ReadReply(body, counter) == (Failure("Failed to parse Ollama response (invalid JSON)"), counter)
  {
  }

  lemma ErrorReply(body: string, counter: nat, v: Json, error: string)
    requires ParseText(body) == Some(v) && Field(v, "error", Str(error))
    ensures ReadReply(body, counter) == (Failure(error), counter)
  {
    FieldIs(v, "error", Str(error));
  }

  /** Calls of a generation that stopped early are refused, with a message of at most 127 bytes. */
  lemma TruncatedReply(body: string, counter: nat, v: Json, reason: string, m: Json, calls: Json)
    requires ParseText(body) == Some(v) && NoString(v, "error")
    requires Field(v, "done_reason", Str(reason)) && reason != "stop" && reason != "tool_calls"
    requires Field(v, "message", m) && Field(m, "tool_calls", calls) && Full(calls)
    ensures var text := "Generation stopped early (done_reason: " + reason
                        + ") \U{E2}\U{80}\U{94} try a shorter prompt or a model with a larger context window";
            ReadReply(body, counter) == (Failure(if |text| > 127 then text[..127] else text), counter)
  {
    hide Field, NoString, ParseText, Get;
    NoStringIs(v, "error");
    FieldIs(v, "done_reason", Str(reason));
    FieldIs(v, "message", m);
    FieldIs(m, "tool_calls", calls);
  }

  /** What the content field of the message says. */
  ghost predicate ContentIs(m: Json, content: Option<string>) {
    match content
    case None => NoString(m, "content")
    case Some(text) => Field(m, "content", Str(text))
  }

  lemma ContentRead(m: Json, content: Option<string>)
    requires ContentIs(m, content)
    ensures AsString(Get(Some(m), "content")) == content
  {
    hide Field, NoString, Get;
    match content
    case None => NoStringIs(m, "content");
    case Some(text) => FieldIs(m, "content", Str(text));
  }

  /** Without calls the reply is the content, whatever the reason to stop was. */
  lemma TextReply(body: string, counter: nat, v: Json, m: Json, content: Option<string>)
    requires ParseText(body) == Some(v) && NoString(v, "error") && Field(v, "message", m) && ContentIs(m, content)
    requires forall calls :: Field(m, "tool_calls", calls) ==> !Full(calls)
    ensures ReadReply(body, counter) == (Answer(content, []), counter)
  {
    hide Field, NoString, ParseText, Get, ContentIs;
    NoStringIs(v, "error");
    FieldIs(v, "message", m);
    ContentRead(m, content);
    if Get(Some(m), "tool_calls").Some? { FieldIs(m, "tool_calls", Get(Some(m), "tool_calls").value); }
  }

  /** With calls it is the content and the normalised calls, or an error when there is neither. */
  lemma CallsReply(body: string, counter: nat, v: Json, m: Json, content: Option<string>, items: seq<Json>)
    requires ParseText(body) == Some(v) && NoString(v, "error") && Field(v, "message", m) && ContentIs(m, content)
    requires NoString(v, "done_reason") || Field(v, "done_reason", Str("stop"))
             || Field(v, "done_reason", Str("tool_calls"))
    requires Field(m, "tool_calls", Arr(items)) && items != []
    ensures var (calls, n) := Normalise(items, counter);
            ReadReply(body, counter)
            == (if calls == [] && content == None
                then Failure("Model requested tool calls but all had invalid arguments. Try rephrasing your request.")
                else Answer(content, calls), n)
  {
    hide Field, NoString, ParseText, Get, ContentIs, Normalise;
    NoStringIs(v, "error");
    if NoString(v, "done_reason") { NoStringIs(v, "done_reason"); }
    FieldIs(v, "done_reason", Str("stop"));
    FieldIs(v, "done_reason", Str("tool_calls"));
    FieldIs(v, "message", m);
    FieldIs(m, "tool_calls", Arr(items));
    ContentRead(m, content);
  }

  /** The string that is stored for the arguments. */
  ghost predicate ArgumentsAre(f: Json, text: string) {
    if NoField(f, "arguments") then text == "{}"
    else
      exists args :: Field(f, "arguments", args) && ParseText(text).Some?
                     && if args.Str? then text == args.s else text == Printed(args, false) && |text| + 2 <= 0x7fff_ffff
  }

  /** One call: its number behind "call_", the name of its function, and its arguments as a text. */
  lemma CallIsRead(item: Json, counter: nat, f: Json, name: string, text: string)
    requires Field(item, "function", f) && Field(f, "name", Str(name)) && name != "" && ArgumentsAre(f, text)
    ensures Keeps(item)
    ensures NormaliseOne(item, counter)
         == ToolCall(Some("call_" + Digits((counter + 1) % 0x1_0000_0000)), Some(name), text)
  {
    hide Field, ParseText, Printed, Get;
    FieldIs(item, "function", f);
    FieldIs(f, "name", Str(name));
    NoFieldIs(f, "arguments");
    if args :| Field(f, "arguments", args) && ParseText(text).Some?
               && if args.Str? then text == args.s else text == Printed(args, false) && |text| + 2 <= 0x7fff_ffff {
      FieldIs(f, "arguments", args);
    }
  }

  // ----- A request -----

  lemma FieldBehind(front: seq<Member>, rest: seq<Member>, key: string, x: Json)
    requires NoField(Obj(front), key) && Field(Obj(rest), key, x)
    ensures Field(Obj(front + rest), key, x)
  {
    hide SameLetters;
    var i :| FieldAt(rest, i, key) && rest[i].value == x;
    assert FieldAt(front + rest, |front| + i, key) by {
      forall j | 0 <= j < |front| + i ensures !SameLetters((front + rest)[j].key, key) {
        if j >= |front| { assert (front + rest)[j] == rest[j - |front|]; }
      }
    }
  }

  lemma FieldInFront(front: seq<Member>, rest: seq<Member>, key: string, x: Json)
    requires Field(Obj(front), key, x)
    ensures Field(Obj(front + rest), key, x)
  {
    hide SameLetters;
    var i :| FieldAt(front, i, key) && front[i].value == x;
    assert FieldAt(front + rest, i, key);
  }

  lemma NoFieldJoined(front: seq<Member>, rest: seq<Member>, key: string)
    requires NoField(Obj(front), key) && NoField(Obj(rest), key)
    ensures NoField(Obj(front + rest), key)
  {
    hide SameLetters;
  }

  /** A list of at most one member. */
  lemma AtMostOne(key: string, x: Json, other: string)
    ensures Field(Obj([Member(key, x)]), key, x) && NoField(Obj([]), other)
    ensures !SameLetters(key, other) ==> NoField(Obj([Member(key, x)]), other)
  {
    assert FieldAt([Member(key, x)], 0, key);
  }

  const FIELDS := ["role", "content", "tool_call_id", "name", "tool_calls"]

  lemma FieldsDiffer(i: nat, j: nat)
    requires i < 5 && j < 5 && i != j
    ensures !SameLetters(FIELDS[i], FIELDS[j])
  {
    if {i, j} == {0, 3} { assert Lower("role"[0]) != Lower("name"[0]); }
  }

  /** The five fields of a message, each present or not. */
  function FieldList(values: seq<Option<Json>>, n: nat): seq<Member>
    requires |values| == 5 && n <= 5
  {
    if n == 0 then []
    else FieldList(values, n - 1) + if values[n - 1].None? then [] else [Member(FIELDS[n - 1], values[n - 1].value)]
  }

  lemma {:induction false} FieldListHas(values: seq<Option<Json>>, n: nat, i: nat)
    requires |values| == 5 && n <= 5 && i < 5
    ensures var j := Obj(FieldList(values, n));
            if i < n && values[i].Some? then Field(j, FIELDS[i], values[i].value) else NoField(j, FIELDS[i])
    decreases n
  {
    hide Field, NoField, SameLetters;
    if n == 0 {
      AtMostOne("", Null, FIELDS[i]);
    } else {
      var front, value := FieldList(values, n - 1), values[n - 1];
      FieldListHas(values, n - 1, i);
      AtMostOne(FIELDS[n - 1], if value.None? then Null else value.value, FIELDS[i]);
      var rest := if value.None? then [] else [Member(FIELDS[n - 1], value.value)];
      if i == n - 1 {
        if value.Some? { FieldBehind(front, rest, FIELDS[i], value.value); }
        else { NoFieldJoined(front, rest, FIELDS[i]); }
      } else {
        FieldsDiffer(n - 1, i);
        if i < n && values[i].Some? { FieldInFront(front, rest, FIELDS[i], values[i].value); }
        else { NoFieldJoined(front, rest, FIELDS[i]); }
      }
    }
  }

  function OrString(value: Option<string>): Option<Json> {
    if value.None? then None else Some(Str(value.value))
  }

  /** Role and content, what belongs to a result, and the calls. */
  function Values(m: Message, fmt: Format): (r: seq<Option<Json>>)
    ensures |r| == 5
  {
    [Some(Str(match m.role
              case System => "system"
              case User => "user"
              case Assistant => "assistant"
              case Tool => "tool")),
     if m.role == Assistant && m.calls != [] && m.content == "" && !fmt.emptyContent then None
     else Some(Str(m.content)),
     if m.role == Tool then OrString(m.callId) else None,
     if m.role == Tool && fmt.resultName then OrString(m.name) else None,
     if m.calls == [] then None else Some(Arr(CallsJson(m.calls, fmt)))]
  }

  lemma MessageIsList(m: Message, fmt: Format)
    ensures MessageJson(m, fmt) == Obj(FieldList(Values(m, fmt), 5))
  {
    hide CallsJson;
    var values := Values(m, fmt);
    assert FieldList(values, 1) == [Member("role", values[0].value)];
    assert FieldList(values, 2)
        == FieldList(values, 1) + if values[1].None? then [] else [Member("content", values[1].value)];
    assert FieldList(values, 4) == PlainFields(m, fmt);
  }

  /** The fields of a message: the named values are there, and no others of these names. */
  lemma MessageFields(m: Message, fmt: Format, i: nat)
    requires i < 5
    ensures var j, value := MessageJson(m, fmt), Values(m, fmt)[i];
            var name := ["role", "content", "tool_call_id", "name", "tool_calls"][i];
            match value
            case None => NoField(j, name)
            case Some(x) => Field(j, name, x)
  {
    hide Field, NoField, FieldList, Values, MessageJson;
    MessageIsList(m, fmt);
    FieldListHas(Values(m, fmt), 5, i);
  }

  /** The fields of a call in a request. */
  lemma CallFields(call: ToolCall, fmt: Format) returns (f: Json)
    ensures var j := CallJson(call, fmt);
            && (if call.id.Some? then Field(j, "id", Str(call.id.value)) else NoField(j, "id"))
            && Field(j, "type", Str("function")) && Field(j, "function", f)
    ensures if call.name.Some? then Field(f, "name", Str(call.name.value)) else NoField(f, "name")
    ensures Field(f, "arguments",
                  if !fmt.argsAsObject then Str(call.arguments)
                  else if ParseText(call.arguments).None? then Obj([]) else ParseText(call.arguments).value)
  {
    hide Field, NoField, SameLetters, ParseText;
    CallNamesDiffer();
    var args := SentArguments(call, fmt);
    var name, id := Optional("name", call.name), Optional("id", call.id);
    f := Obj(name + [Member("arguments", args)]);
    AtMostOne("arguments", args, "name");
    AtMostOne("name", Str(if call.name.Some? then call.name.value else ""), "arguments");
    FieldBehind(name, [Member("arguments", args)], "arguments", args);
    if call.name.Some? {
      FieldInFront(name, [Member("arguments", args)], "name", Str(call.name.value));
    } else {
      AtMostOne("", Null, "name");
      NoFieldJoined(name, [Member("arguments", args)], "name");
    }
    var kind := [Member("type", Str("function"))];
    var rest := kind + [Member("function", f)];
    CallRest(f);
    assert rest == [Member("type", Str("function")), Member("function", f)];
    AtMostOne("id", Str(if call.id.Some? then call.id.value else ""), "type");
    AtMostOne("id", Str(if call.id.Some? then call.id.value else ""), "function");
    FieldBehind(id, rest, "type", Str("function"));
    FieldBehind(id, rest, "function", f);
    if call.id.Some? {
      FieldInFront(id, rest, "id", Str(call.id.value));
    } else {
      AtMostOne("", Null, "id");
      NoFieldJoined(id, rest, "id");
    }
  }

  lemma CallNamesDiffer()
    ensures !SameLetters("arguments", "name") && !SameLetters("name", "arguments")
    ensures !SameLetters("id", "type") && !SameLetters("id", "function")
  {
  }

  lemma CallRest(f: Json)
    ensures var rest := [Member("type", Str("function"))] + [Member("function", f)];
            Field(Obj(rest), "type", Str("function")) && Field(Obj(rest), "function", f) && NoField(Obj(rest), "id")
  {
    var rest := [Member("type", Str("function"))] + [Member("function", f)];
    assert FieldAt(rest, 0, "type") && FieldAt(rest, 1, "function");
  }

  /** A request holds one message for each of the history, in order, and each has one call for each of its
      calls. */
  lemma RequestOrder(h: seq<Message>, fmt: Format, i: nat, k: nat)
    requires i < |h|
    ensures |MessagesJson(h, fmt)| == |h| && MessagesJson(h, fmt)[i] == MessageJson(h[i], fmt)
    ensures |CallsJson(h[i].calls, fmt)| == |h[i].calls|
    ensures k < |h[i].calls| ==> CallsJson(h[i].calls, fmt)[k] == CallJson(h[i].calls[k], fmt)
  {
  }
}
