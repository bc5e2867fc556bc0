/** Tool calls on their way from an Ollama reply into the history, to the tool, and back into the next
    request. */
module ToolCalls {
  import opened Text
  import opened Number
  import opened StringLiteral
  import opened Json
  import opened RoundTrip
  import opened Copy
  import opened Conversation

  /** cJSON_GetObjectItem: the keys are compared without case. */
  function Get(v: Option<Json>, key: string): Option<Json> {
    if v.Some? && v.value.Obj? then
      var i := Lookup(v.value.members, key, false);
      if i < |v.value.members| then Some(v.value.members[i].value) else None
    else None
  }

  /** cJSON_GetArraySize */
  function Size(v: Option<Json>): nat {
    match v
    case Some(Arr(items)) => |items|
    case Some(Obj(members)) => |members|
    case _ => 0
  }

  function AsString(v: Option<Json>): Option<string> {
    match v
    case Some(Str(s)) => Some(s)
    case _ => None
  }

  // ----- Normalising -----

  /** cJSON_PrintUnformatted; a text that does not fit an int is refused. */
  function PrintUnformatted(v: Json): Option<string> {
    if |Printed(v, false)| + 2 <= INT_MAX then Some(Printed(v, false)) else None
  }

  /** The string that is stored for the arguments of a call, if the call is kept. */
  function ArgumentText(args: Option<Json>): Option<string> {
    match args
    case None => Some("{}")
    case Some(Str(s)) => if ParseText(s).None? then None else Some(s)
    case Some(v) =>
      var text := PrintUnformatted(v);
      if text.None? || ParseText(text.value).None? then None else text
  }

  function CallArguments(item: Json): Option<Json> {
    Get(Get(Some(item), "function"), "arguments")
  }

  function CallName(item: Json): Option<string> {
    AsString(Get(Get(Some(item), "function"), "name"))
  }

  predicate Keeps(item: Json) {
    CallName(item).Some? && CallName(item).value != "" && ArgumentText(CallArguments(item)).Some?
  }

  const COUNTER_SIZE: nat := 0x1_0000_0000

  /** ++call_counter on an unsigned int. */
  function Increment(counter: nat): nat {
    (counter + 1) % COUNTER_SIZE
  }

  function CallId(n: nat): string {
    "call_" + Digits(n)
  }

  function NormaliseOne(item: Json, counter: nat): ToolCall
    requires Keeps(item)
  {
    ToolCall(Some(CallId(Increment(counter))), CallName(item), ArgumentText(CallArguments(item)).value)
  }

  /** The normalised calls and the counter behind them. */
  function Normalise(items: seq<Json>, counter: nat): (seq<ToolCall>, nat) {
    if items == [] then ([], counter)
    else
      var before := Normalise(items[..|items| - 1], counter);
      var item := items[|items| - 1];
      if Keeps(item) then (before.0 + [NormaliseOne(item, before.1)], Increment(before.1)) else before
  }

  // ----- The reply -----

  const INVALID_REPLY := "Failed to parse Ollama response (invalid JSON)"
  const INVALID_ARGUMENTS := "Model requested tool calls but all had invalid arguments. Try rephrasing your request."

  /** The message about a generation that stopped early, cut to its buffer of 128 bytes. */
  function StoppedEarly(reason: string): string {
    First("Generation stopped early (done_reason: " + reason
          + ") \U{E2}\U{80}\U{94} try a shorter prompt or a model with a larger context window", 127)
  }

  /** What ollama_chat_complete makes of the body of the response. */
  function ReadReply(body: string, counter: nat): (Reply, nat) {
    var json := ParseText(body);
    var error, reason := AsString(Get(json, "error")), AsString(Get(json, "done_reason"));
    var message := Get(json, "message");
    var calls := Get(message, "tool_calls");
    if json.None? then (Failure(INVALID_REPLY), counter)
    else if error.Some? then (Failure(error.value), counter)
    else if reason.Some? && reason.value != "stop" && reason.value != "tool_calls" && Size(calls) > 0 then
      (Failure(StoppedEarly(reason.value)), counter)
    else
      var content := AsString(Get(message, "content"));
      if calls.Some? && calls.value.Arr? && Size(calls) > 0 then
        var normalised := Normalise(calls.value.items, counter);
        (if normalised.0 != [] || content.Some? then Answer(content, normalised.0) else Failure(INVALID_ARGUMENTS),
         normalised.1)
      else (Answer(content, []), counter)
  }

  // ----- The agent's two readings of the stored string -----

  /** parse_tool_arguments, on its way to the tool. */
  function ParseToolArguments(arguments: string): Json {
    if arguments == "" || arguments == "{}" then Obj([])
    else
      var parsed := ParseText(arguments);
      if parsed.None? then Obj([]) else parsed.value
  }

  /** build_messages_json for a provider that wants an object. */
  function ArgumentsAsObject(arguments: string): Json {
    var parsed := ParseText(arguments);
    if parsed.None? then Obj([]) else parsed.value
  }

  /** What the arguments of a call stand for. */
  function Meaning(args: Option<Json>): Json {
    match args
    case None => Obj([])
    case Some(Str(s)) => ArgumentsAsObject(s)
    case Some(v) => v
  }

  lemma NoText()
    ensures ParseText("") == None
  {
    hide ParseNumber, ReadString, ParseArray, ParseObject;
    assert CString("") + "\0" == "\0";
    SpanLengthIs("\0", IsWhite, 1);
    assert SkipWhite("\0") == "\0";
  }

  lemma EmptyTexts()
    ensures ParseText("") == None && ParseText("{}") == Some(Obj([]))
  {
    NoText();
    hide ParseText;
    assert Printed(Obj([]), false) == "{}";
    PrintThenParse(Obj([]), false);
  }

  /** Both readings of a stored string agree, whatever it holds. */
  lemma ReadingsAgree(arguments: string)
    ensures ParseToolArguments(arguments) == ArgumentsAsObject(arguments)
  {
    EmptyTexts();
  }

  /** Tool arguments survive the pipeline: a call is kept exactly when its arguments are absent, a string
      that parses, or another printable value that is nested at most NESTING_LIMIT deep and prints into
      an int's worth of bytes; and then both readings of the stored string give what was meant. */
  lemma ArgumentsSurvive(args: Option<Json>)
    requires args.Some? && !args.value.Str? ==> Printable(args.value)
    ensures var text := ArgumentText(args);
            && (text.Some? <==>
                  match args
                  case None => true
                  case Some(Str(s)) => ParseText(s).Some?
                  case Some(v) => Nesting(v) <= NESTING_LIMIT && |Printed(v, false)| + 2 <= INT_MAX)
            && (text.Some? ==> ParseToolArguments(text.value) == Meaning(args) == ArgumentsAsObject(text.value))
  {
    hide ParseText, Printed;
    EmptyTexts();
    if args.Some? && !args.value.Str? { PrintThenParse(args.value, false); }
  }

  // ----- Replies that were parsed -----

  /** The arguments of a call are absent, a string, or can be printed. */
  ghost predicate ArgumentsPrintable(item: Json) {
    CallArguments(item).Some? && !CallArguments(item).value.Str? ==> Printable(CallArguments(item).value)
  }

  /** The numbers in the arguments of a call, unless they are a string, are integers in int range. */
  ghost predicate IntArguments(item: Json) {
    CallArguments(item).Some? && !CallArguments(item).value.Str? ==> IntNumbers(CallArguments(item).value)
  }

  lemma Part(v: Json, key: string)
    requires CStrings(v) && Get(Some(v), key).Some?
    ensures CStrings(Get(Some(v), key).value) && Nesting(Get(Some(v), key).value) <= Nesting(v)
  {
    NestingMember(v.members, Lookup(v.members, key, false));
  }

  lemma CallParts(item: Json)
    requires CStrings(item) && CallArguments(item).Some?
    ensures CStrings(CallArguments(item).value) && Nesting(CallArguments(item).value) <= Nesting(item)
  {
    hide CStrings, Nesting;
    Part(item, "function");
    Part(Get(Some(item), "function").value, "arguments");
  }

  function CallItems(body: string): seq<Json> {
    var calls := Get(Get(ParseText(body), "message"), "tool_calls");
    if calls.Some? && calls.value.Arr? then calls.value.items else []
  }

  /** What a call of a parsed reply has for arguments is within the nesting limit, and can be printed when
      its numbers are integers; the numbers in the rest of the reply do not matter. */
  lemma ItemParts(body: string, i: nat)
    requires i < |CallItems(body)|
    ensures var item := CallItems(body)[i];
            && (CallArguments(item).Some? ==> Nesting(CallArguments(item).value) <= NESTING_LIMIT)
            && (IntArguments(item) ==> ArgumentsPrintable(item))
  {
    hide ParseText, CStrings, Nesting, CallArguments, Printable, IntNumbers;
    ParsedStrings(body);
    var json := ParseText(body).value;
    Part(json, "message");
    var message := Get(Some(json), "message").value;
    Part(message, "tool_calls");
    var item := CallItems(body)[i];
    NestingItem(CallItems(body), i);
    assert CStrings(item) by { StringsOfItem(CallItems(body), i); }
    if CallArguments(item).Some? {
      CallParts(item);
      PrintableIs(CallArguments(item).value);
    }
  }

  lemma StringsOfItem(items: seq<Json>, i: nat)
    requires CStrings(Arr(items)) && i < |items|
    ensures CStrings(items[i])
  {
  }

  /** A call of a parsed reply is kept exactly when it names a function and its arguments are absent, a
      string that parses, or another value that prints into an int's worth of bytes. */
  lemma WhichCallsAreKept(body: string, i: nat)
    requires i < |CallItems(body)| && IntArguments(CallItems(body)[i])
    ensures var item := CallItems(body)[i];
            Keeps(item) <==>
              && CallName(item).Some? && CallName(item).value != ""
              && match CallArguments(item)
                 case None => true
                 case Some(Str(s)) => ParseText(s).Some?
                 case Some(v) => |Printed(v, false)| + 2 <= INT_MAX
  {
    hide ParseText, Printed, CallArguments, CallName, CallItems, Printable, Nesting, ArgumentText;
    ItemParts(body, i);
    ArgumentsSurvive(CallArguments(CallItems(body)[i]));
  }

  function Kept(items: seq<Json>): seq<Json> {
    if items == [] then []
    else
      var item := items[|items| - 1];
      Kept(items[..|items| - 1]) + if Keeps(item) then [item] else []
  }

  /** The stored call stands for the item, and its id for the number of calls so far. */
  predicate StandsFor(call: ToolCall, item: Json, number: nat) {
    && call.id == Some(CallId(number % COUNTER_SIZE)) && call.name == CallName(item)
    && ParseToolArguments(call.arguments) == Meaning(CallArguments(item)) == ArgumentsAsObject(call.arguments)
  }

  lemma {:induction false} NormaliseMaps(items: seq<Json>, counter: nat)
    requires forall i :: 0 <= i < |items| ==> ArgumentsPrintable(items[i])
    ensures var r := Normalise(items, counter % COUNTER_SIZE);
            && |r.0| == |Kept(items)| && r.1 == (counter + |r.0|) % COUNTER_SIZE
            && forall k :: 0 <= k < |r.0| ==> StandsFor(r.0[k], Kept(items)[k], counter + k + 1)
    decreases |items|
  {
    hide Keeps, StandsFor, NormaliseOne, ArgumentsPrintable;
    if items != [] {
      NormaliseMaps(items[..|items| - 1], counter);
      var item, before := items[|items| - 1], Normalise(items[..|items| - 1], counter % COUNTER_SIZE);
      if Keeps(item) { OneStandsFor(item, counter + |before.0|); }
    }
  }

  lemma NextNumber(n: nat)
    ensures Increment(n % COUNTER_SIZE) == (n + 1) % COUNTER_SIZE
  {
    var q := n / COUNTER_SIZE;
    assert n == COUNTER_SIZE * q + n % COUNTER_SIZE;
    if n % COUNTER_SIZE == COUNTER_SIZE - 1 {
      assert n + 1 == COUNTER_SIZE * (q + 1);
    }
  }

  lemma OneStandsFor(item: Json, counter: nat)
    requires ArgumentsPrintable(item) && Keeps(item)
    ensures StandsFor(NormaliseOne(item, counter % COUNTER_SIZE), item, counter + 1)
    ensures Increment(counter % COUNTER_SIZE) == (counter + 1) % COUNTER_SIZE
  {
    hide ParseToolArguments, ArgumentsAsObject, Meaning, ArgumentText, Printable, CallArguments, CallName,
         CallId, Increment;
    NextNumber(counter);
    ArgumentsSurvive(CallArguments(item));
  }

  /** The items that ollama_chat_complete looks at: none when the reply is an error. */
  function UsedItems(body: string): seq<Json> {
    var json := ParseText(body);
    var reason := AsString(Get(json, "done_reason"));
    var calls := Get(Get(json, "message"), "tool_calls");
    if json.None? || AsString(Get(json, "error")).Some? then []
    else if reason.Some? && reason.value != "stop" && reason.value != "tool_calls" && Size(calls) > 0 then []
    else CallItems(body)
  }

  /** In all arguments that are looked at the numbers are integers in int range. */
  ghost predicate IntBody(body: string) {
    forall i :: 0 <= i < |UsedItems(body)| ==> IntArguments(UsedItems(body)[i])
  }

  function CallsIn(r: Reply): seq<ToolCall> {
    if r.Answer? then r.calls else []
  }

  /** A reply hands over exactly the normalised calls, also when it turns into an error. */
  lemma ReplyCalls(body: string, counter: nat)
    ensures var r, n := ReadReply(body, counter), Normalise(UsedItems(body), counter);
            CallsIn(r.0) == n.0 && r.1 == n.1
  {
    hide ParseText, Keeps;
  }

  /** All calls handed over in a run of replies, and the counter behind it. */
  function AllCalls(bodies: seq<string>): (seq<ToolCall>, nat) {
    if bodies == [] then ([], 0)
    else
      var before := AllCalls(bodies[..|bodies| - 1]);
      var r := ReadReply(bodies[|bodies| - 1], before.1);
      (before.0 + CallsIn(r.0), r.1)
  }

  function AllKept(bodies: seq<string>): seq<Json> {
    if bodies == [] then [] else AllKept(bodies[..|bodies| - 1]) + Kept(UsedItems(bodies[|bodies| - 1]))
  }

  /** Over any run of replies: the calls handed to the agent are those kept, in order; both readings of
      the stored arguments give what the model meant; and the k-th call ever made has the id number k. */
  lemma {:induction false} RunOfReplies(bodies: seq<string>)
    requires forall i :: 0 <= i < |bodies| ==> IntBody(bodies[i])
    ensures var (calls, counter) := AllCalls(bodies);
            && |calls| == |AllKept(bodies)| && counter == |calls| % COUNTER_SIZE
            && forall k :: 0 <= k < |calls| ==> StandsFor(calls[k], AllKept(bodies)[k], k + 1)
    decreases |bodies|
  {
    hide ReadReply, UsedItems, Normalise, StandsFor, IntBody, Kept;
    if bodies != [] {
      var body, earlier := bodies[|bodies| - 1], bodies[..|bodies| - 1];
      RunOfReplies(earlier);
      var (calls, counter) := AllCalls(earlier);
      UsedItemsPrintable(body);
      ReplyCalls(body, counter);
      NormaliseMaps(UsedItems(body), |calls|);
    }
  }

  lemma UsedItemsPrintable(body: string)
    requires IntBody(body)
    ensures forall i :: 0 <= i < |UsedItems(body)| ==> ArgumentsPrintable(UsedItems(body)[i])
  {
    hide ParseText, IntArguments, ArgumentsPrintable, CallItems;
    forall i | 0 <= i < |UsedItems(body)| ensures ArgumentsPrintable(UsedItems(body)[i]) {
      assert IntArguments(UsedItems(body)[i]);
      ItemParts(body, i);
    }
  }

  /** The ids of normalised calls count on from the counter, whatever the calls hold. */
  lemma {:induction false} NormalisedIds(items: seq<Json>, counter: nat)
    ensures var r := Normalise(items, counter % COUNTER_SIZE);
            && r.1 == (counter + |r.0|) % COUNTER_SIZE
            && forall k :: 0 <= k < |r.0| ==> r.0[k].id == Some(CallId((counter + k + 1) % COUNTER_SIZE))
    decreases |items|
  {
    hide Keeps, CallId, Increment;
    if items != [] {
      NormalisedIds(items[..|items| - 1], counter);
      NextNumber(counter + |Normalise(items[..|items| - 1], counter % COUNTER_SIZE).0|);
    }
  }

  lemma {:induction false} IdsInOrder(bodies: seq<string>)
    ensures var (calls, counter) := AllCalls(bodies);
            && counter == |calls| % COUNTER_SIZE
            && forall k :: 0 <= k < |calls| ==> calls[k].id == Some(CallId((k + 1) % COUNTER_SIZE))
    decreases |bodies|
  {
    hide ReadReply, UsedItems, Normalise, CallId;
    if bodies != [] {
      var body, earlier := bodies[|bodies| - 1], bodies[..|bodies| - 1];
      IdsInOrder(earlier);
      var (calls, counter) := AllCalls(earlier);
      ReplyCalls(body, counter);
      NormalisedIds(UsedItems(body), |calls|);
    }
  }

  /** In every run of replies ids are unique until the counter wraps: two calls have the same id exactly
      when a multiple of 2^32 calls lies between them. */
  lemma IdsAreUnique(bodies: seq<string>, i: nat, j: nat)
    requires i < j < |AllCalls(bodies).0|
    ensures AllCalls(bodies).0[i].id == AllCalls(bodies).0[j].id <==> (j - i) % COUNTER_SIZE == 0
  {
    hide AllCalls, CallId;
    IdsInOrder(bodies);
    CallIdInjective((i + 1) % COUNTER_SIZE, (j + 1) % COUNTER_SIZE);
    SameRemainder(i + 1, j + 1);
  }

  lemma SameRemainder(a: nat, b: nat)
    requires a <= b
    ensures a % COUNTER_SIZE == b % COUNTER_SIZE <==> (b - a) % COUNTER_SIZE == 0
  {
    var p, q, d := a / COUNTER_SIZE, b / COUNTER_SIZE, (b - a) / COUNTER_SIZE;
    assert a == COUNTER_SIZE * p + a % COUNTER_SIZE && b == COUNTER_SIZE * q + b % COUNTER_SIZE;
    assert b - a == COUNTER_SIZE * d + (b - a) % COUNTER_SIZE;
  }

  lemma CallIdInjective(m: nat, n: nat)
    ensures CallId(m) == CallId(n) ==> m == n
  {
    assert CallId(m)[5..] == Digits(m) && CallId(n)[5..] == Digits(n);
  }
}
