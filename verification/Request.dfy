/** The messages of the next request: how the history is put into JSON and whether the provider gets it. */
module Request {
  import opened Text
  import opened Number
  import opened Json
  import opened RoundTrip
  import opened Copy
  import opened Conversation
  import opened ToolCalls

  /** The flags of a provider that build_messages_json looks at. */
  datatype Format = Format(argsAsObject: bool, resultName: bool, emptyContent: bool)

  /** What ollama_provider_create sets. */
  const OLLAMA := Format(true, true, false)

  function RoleName(role: Role): string {
    match role
    case System => "system"
    case User => "user"
    case Assistant => "assistant"
    case Tool => "tool"
  }

  function Optional(key: string, value: Option<string>): seq<Member> {
    if value.None? then [] else [Member(key, Str(value.value))]
  }

  /** The arguments of a call, decoded for a provider that wants an object. */
  function SentArguments(call: ToolCall, fmt: Format): Json {
    if fmt.argsAsObject then ArgumentsAsObject(call.arguments) else Str(call.arguments)
  }

  function CallJson(call: ToolCall, fmt: Format): Json {
    var func := Obj(Optional("name", call.name) + [Member("arguments", SentArguments(call, fmt))]);
    Obj(Optional("id", call.id) + [Member("type", Str("function")), Member("function", func)])
  }

  function CallsJson(calls: seq<ToolCall>, fmt: Format): seq<Json> {
    seq(|calls|, i requires 0 <= i < |calls| => CallJson(calls[i], fmt))
  }

  /** All fields in front of the calls; an assistant message of calls alone has no content. */
  function PlainFields(m: Message, fmt: Format): seq<Member> {
    var callsOnly := m.role == Assistant && m.HasCalls() && m.content == "";
    [Member("role", Str(RoleName(m.role)))]
    + (if callsOnly && !fmt.emptyContent then [] else [Member("content", Str(m.content))])
    + (if m.role == Tool then
         Optional("tool_call_id", m.callId) + if fmt.resultName then Optional("name", m.name) else []
       else [])
  }

  function MessageJson(m: Message, fmt: Format): Json {
    Obj(PlainFields(m, fmt) + if m.HasCalls() then [Member("tool_calls", Arr(CallsJson(m.calls, fmt)))] else [])
  }

  /** build_messages_json */
  function MessagesJson(h: seq<Message>, fmt: Format): seq<Json> {
    seq(|h|, i requires 0 <= i < |h| => MessageJson(h[i], fmt))
  }

  /** The messages that ollama_chat_complete puts into the body: it parses the text the agent printed, and
      when there is none the request goes out without any. */
  function SentMessages(h: seq<Message>, fmt: Format): Option<Json> {
    var text := PrintUnformatted(Arr(MessagesJson(h, fmt)));
    if text.None? then None else ParseText(text.value)
  }

  // ----- The loops of build_messages_json -----

  method BuildCalls(calls: seq<ToolCall>, fmt: Format) returns (items: seq<Json>)
    ensures items == CallsJson(calls, fmt)
  {
    hide ParseText;
    items := [];
    for j := 0 to |calls|
      invariant items == CallsJson(calls[..j], fmt)
    {
      var tc := calls[j];
      var otc, ofunc: seq<Member> := [], [];
      if tc.id.Some? { otc := otc + [Member("id", Str(tc.id.value))]; }
      otc := otc + [Member("type", Str("function"))];
      if tc.name.Some? { ofunc := ofunc + [Member("name", Str(tc.name.value))]; }
      if fmt.argsAsObject {
        var args := ParseText(tc.arguments);
        if args.None? { args := Some(Obj([])); }
        ofunc := ofunc + [Member("arguments", args.value)];
      } else {
        ofunc := ofunc + [Member("arguments", Str(tc.arguments))];
      }
      otc := otc + [Member("function", Obj(ofunc))];
      assert ofunc == Optional("name", tc.name) + [Member("arguments", SentArguments(tc, fmt))];
      assert otc == Optional("id", tc.id) + [Member("type", Str("function")), Member("function", Obj(ofunc))];
      items := items + [Obj(otc)];
    }
    assert calls[..|calls|] == calls;
  }

  method BuildMessages(h: seq<Message>, fmt: Format) returns (arr: seq<Json>)
    ensures arr == MessagesJson(h, fmt)
  {
    hide CallsJson;
    arr := [];
    for i := 0 to |h|
      invariant arr == MessagesJson(h[..i], fmt)
    {
      var m := h[i];
      var msg := [Member("role", Str(RoleName(m.role)))];
      if m.role == Assistant && m.calls != [] && m.content == "" {
        if fmt.emptyContent { msg := msg + [Member("content", Str(""))]; }
      } else {
        msg := msg + [Member("content", Str(m.content))];
      }
      if m.role == Tool {
        if m.callId.Some? { msg := msg + [Member("tool_call_id", Str(m.callId.value))]; }
        if m.name.Some? && fmt.resultName { msg := msg + [Member("name", Str(m.name.value))]; }
      }
      assert msg == PlainFields(m, fmt);
      if m.calls != [] {
        var items := BuildCalls(m.calls, fmt);
        msg := msg + [Member("tool_calls", Arr(items))];
      }
      assert Obj(msg) == MessageJson(m, fmt);
      arr := arr + [Obj(msg)];
    }
    assert h[..|h|] == h;
  }

  // ----- Nesting -----

  lemma {:induction false} ItemsAtMost(items: seq<Json>, n: nat)
    ensures ItemsNesting(items) <= n <==> forall i :: 0 <= i < |items| ==> Nesting(items[i]) <= n
    decreases |items|
  {
    if items != [] {
      ItemsAtMost(items[1..], n);
      assert forall i :: 1 <= i < |items| ==> items[i] == items[1..][i - 1];
    }
  }

  lemma {:induction false} MembersAtMost(members: seq<Member>, n: nat)
    ensures MembersNesting(members) <= n <==> forall i :: 0 <= i < |members| ==> Nesting(members[i].value) <= n
    decreases |members|
  {
    if members != [] {
      MembersAtMost(members[1..], n);
      assert forall i :: 1 <= i < |members| ==> members[i] == members[1..][i - 1];
    }
  }

  /** An object of strings and one more member, which comes last. */
  lemma LastAtMost(front: seq<Member>, last: Member, n: nat)
    requires forall i :: 0 <= i < |front| ==> front[i].value.Str?
    ensures Nesting(Obj(front + [last])) <= n + 1 <==> Nesting(last.value) <= n
  {
    var all := front + [last];
    MembersAtMost(all, n);
    assert all[|front|] == last;
    assert forall i :: 0 <= i < |front| ==> all[i] == front[i];
  }

  lemma CallAtMost(call: ToolCall, fmt: Format, n: nat)
    ensures Nesting(CallJson(call, fmt)) <= n + 2 <==> Nesting(SentArguments(call, fmt)) <= n
  {
    hide Nesting, SentArguments;
    var name := Optional("name", call.name);
    var func := Obj(name + [Member("arguments", SentArguments(call, fmt))]);
    var front := Optional("id", call.id) + [Member("type", Str("function"))];
    LastAtMost(name, Member("arguments", SentArguments(call, fmt)), n);
    LastAtMost(front, Member("function", func), n + 1);
    assert front + [Member("function", func)]
        == Optional("id", call.id) + [Member("type", Str("function")), Member("function", func)];
  }

  lemma CallsAtMost(calls: seq<ToolCall>, fmt: Format, n: nat)
    ensures Nesting(Arr(CallsJson(calls, fmt))) <= n + 3
            <==> forall c :: c in calls ==> Nesting(SentArguments(c, fmt)) <= n
  {
    hide CallJson, SentArguments;
    var items := CallsJson(calls, fmt);
    ItemsAtMost(items, n + 2);
    forall i | 0 <= i < |calls| ensures Nesting(items[i]) <= n + 2 <==> Nesting(SentArguments(calls[i], fmt)) <= n {
      CallAtMost(calls[i], fmt, n);
    }
    assert forall c :: c in calls ==> exists i :: 0 <= i < |items| && c == calls[i] && items[i] == CallJson(c, fmt);
  }

  lemma StringFields(m: Message, fmt: Format)
    ensures forall i :: 0 <= i < |PlainFields(m, fmt)| ==> PlainFields(m, fmt)[i].value.Str?
  {
  }

  lemma MessageAtMost(m: Message, fmt: Format, n: nat)
    ensures Nesting(MessageJson(m, fmt)) <= n + 4
            <==> forall c :: c in m.calls ==> Nesting(SentArguments(c, fmt)) <= n
  {
    hide PlainFields, CallsJson, SentArguments;
    StringFields(m, fmt);
    if m.HasCalls() {
      hide Nesting;
      CallsAtMost(m.calls, fmt, n);
      LastAtMost(PlainFields(m, fmt), Member("tool_calls", Arr(CallsJson(m.calls, fmt))), n + 3);
    } else {
      MembersAtMost(PlainFields(m, fmt), 0);
      assert PlainFields(m, fmt) + [] == PlainFields(m, fmt);
    }
  }

  /** Every call of the history has arguments that nest at most n deep when they are sent. */
  ghost predicate ArgumentsNest(h: seq<Message>, fmt: Format, n: nat) {
    forall m, c :: m in h && c in m.calls ==> Nesting(SentArguments(c, fmt)) <= n
  }

  lemma MessagesAtMost(h: seq<Message>, fmt: Format, n: nat)
    ensures Nesting(Arr(MessagesJson(h, fmt))) <= n + 5 <==> ArgumentsNest(h, fmt, n)
  {
    hide MessageJson, SentArguments;
    var items := MessagesJson(h, fmt);
    ItemsAtMost(items, n + 4);
    forall i | 0 <= i < |h|
      ensures Nesting(items[i]) <= n + 4 <==> forall c :: c in h[i].calls ==> Nesting(SentArguments(c, fmt)) <= n
    {
      MessageAtMost(h[i], fmt, n);
    }
    assert forall m :: m in h ==> exists i :: 0 <= i < |items| && m == h[i] && items[i] == MessageJson(m, fmt);
  }

  // ----- What is sent -----

  ghost predicate CText(s: Option<string>) {
    s.Some? ==> NulFree(s.value)
  }

  /** A history of C strings whose arguments, when they are decoded, hold only integers. */
  ghost predicate Sendable(h: seq<Message>, fmt: Format) {
    forall m :: m in h ==>
      && NulFree(m.content) && CText(m.callId) && CText(m.name)
      && forall c :: c in m.calls ==> SendableCall(c, fmt)
  }

  ghost predicate SendableCall(c: ToolCall, fmt: Format) {
    && CText(c.id) && CText(c.name) && NulFree(c.arguments)
    && (fmt.argsAsObject ==> IntNumbers(ArgumentsAsObject(c.arguments)))
  }

  lemma SentPrintable(c: ToolCall, fmt: Format)
    requires SendableCall(c, fmt)
    ensures Printable(SentArguments(c, fmt))
  {
    hide ParseText, CStrings, IntNumbers;
    if fmt.argsAsObject && ParseText(c.arguments).Some? {
      ParsedStrings(c.arguments);
      PrintableIs(ArgumentsAsObject(c.arguments));
    }
  }

  lemma CallPrintable(c: ToolCall, fmt: Format)
    requires SendableCall(c, fmt)
    ensures Printable(CallJson(c, fmt))
  {
    hide SentArguments, IntNumbers;
    SentPrintable(c, fmt);
    var func := Optional("name", c.name) + [Member("arguments", SentArguments(c, fmt))];
    assert MembersPrintable(func) && Printable(Obj(func));
    assert MembersPrintable(Optional("id", c.id) + [Member("type", Str("function")), Member("function", Obj(func))]);
  }

  lemma MessagePrintable(m: Message, fmt: Format)
    requires NulFree(m.content) && CText(m.callId) && CText(m.name)
    requires forall c :: c in m.calls ==> SendableCall(c, fmt)
    ensures Printable(MessageJson(m, fmt))
  {
    hide CallJson, SendableCall;
    forall i | 0 <= i < |m.calls| ensures Printable(CallsJson(m.calls, fmt)[i]) {
      CallPrintable(m.calls[i], fmt);
    }
    assert Printable(Arr(CallsJson(m.calls, fmt)));
    assert NulFree(RoleName(m.role));
    assert MembersPrintable(PlainFields(m, fmt));
  }

  /** The provider gets exactly the history, or no messages at all: none when some call was decoded to
      arguments nested more than 995 deep, because they stand under five more containers, or when the text
      does not fit an int. */
  lemma SentExactly(h: seq<Message>, fmt: Format)
    requires Sendable(h, fmt)
    ensures var messages := Arr(MessagesJson(h, fmt));
            SentMessages(h, fmt)
            == if ArgumentsNest(h, fmt, NESTING_LIMIT - 5) && |Printed(messages, false)| + 2 <= INT_MAX
               then Some(messages) else None
  {
    hide ParseText, Printed, MessageJson, SendableCall, ArgumentsNest, Nesting;
    var messages := Arr(MessagesJson(h, fmt));
    forall i | 0 <= i < |h| ensures Printable(MessagesJson(h, fmt)[i]) {
      MessagePrintable(h[i], fmt);
    }
    PrintThenParse(messages, false);
    MessagesAtMost(h, fmt, NESTING_LIMIT - 5);
  }

  /** A provider that takes strings always gets the history when its text fits. */
  lemma StringsAlwaysNest(h: seq<Message>, fmt: Format)
    requires !fmt.argsAsObject
    ensures ArgumentsNest(h, fmt, 0)
  {
  }

  // ----- Which arguments nest too deep -----

  lemma GetShrinks(v: Json, key: string)
    requires Get(Some(v), key).Some?
    ensures Nesting(Get(Some(v), key).value) < Nesting(v)
  {
    NestingMember(v.members, Lookup(v.members, key, false));
  }

  /** Arguments that came as an object always nest few enough levels: in the reply they stood under five
      containers, too. */
  lemma ObjectArgumentsNest(body: string, i: nat)
    requires i < |CallItems(body)| && IntArguments(CallItems(body)[i]) && Keeps(CallItems(body)[i])
    requires CallArguments(CallItems(body)[i]).Some? && !CallArguments(CallItems(body)[i]).value.Str?
    ensures var text := ArgumentText(CallArguments(CallItems(body)[i])).value;
            Nesting(ArgumentsAsObject(text)) <= NESTING_LIMIT - 5
  {
    hide ParseText, Nesting, Printed, CStrings, IntNumbers, Printable, ArgumentText;
    ParsedStrings(body);
    var json := ParseText(body).value;
    GetShrinks(json, "message");
    var message := Get(Some(json), "message").value;
    GetShrinks(message, "tool_calls");
    NestingItem(CallItems(body), i);
    var item := CallItems(body)[i];
    GetShrinks(item, "function");
    GetShrinks(Get(Some(item), "function").value, "arguments");
    ItemParts(body, i);
    ArgumentsSurvive(CallArguments(item));
  }

  function Deep(n: nat): Json {
    if n == 0 then Null else Arr([Deep(n - 1)])
  }

  lemma {:induction false} DeepNests(n: nat)
    ensures Nesting(Deep(n)) == n && Printable(Deep(n))
  {
    if n > 0 {
      DeepNests(n - 1);
      var items := [Deep(n - 1)];
      assert items[1..] == [] && ItemsNesting(items[1..]) == 0;
      assert Deep(n) == Arr(items) && ItemsNesting(items) == Nesting(items[0]);
    }
  }

  /** Arguments that came as a string need not: 996 levels are kept with the call, and the next request has
      no messages. */
  lemma DeepStringLosesTheMessages()
    ensures var call := ToolCall(None, Some("tool"), Printed(Deep(996), false));
            && ArgumentText(Some(Str(call.arguments))) == Some(call.arguments)
            && SentMessages([AssistantMessage(None, [call])], OLLAMA) == None
  {
    hide Printed, ParseText, Deep, Nesting, MessagesJson, ArgumentsNest;
    var call := ToolCall(None, Some("tool"), Printed(Deep(996), false));
    var ask := AssistantMessage(None, [call]);
    DeepNests(996);
    PrintableIs(Deep(996));
    PrintThenParse(Deep(996), false);
    RenderNulFree(Deep(996), false, 0, "");
    assert Printed(Deep(996), false) == Render(Deep(996), false, 0, "") by { PrintedIs(Deep(996)); }
    SentExactly([ask], OLLAMA);
    TooDeep([ask], ask, call, OLLAMA, 995);
  }

  lemma PrintedIs(v: Json)
    ensures Printed(v, false) == Render(v, false, 0, "")
  {
  }

  lemma TooDeep(h: seq<Message>, m: Message, c: ToolCall, fmt: Format, n: nat)
    requires m in h && c in m.calls && Nesting(SentArguments(c, fmt)) > n
    ensures !ArgumentsNest(h, fmt, n)
  {
  }
}
