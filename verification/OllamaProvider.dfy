/** The Ollama provider: reading a reply, with a counter of tool calls that lives as long as the process. */
module OllamaProvider {
  import opened Text
  import opened Json
  import opened Conversation
  import opened ToolCalls

  class Ollama {
    var callCounter: nat

    constructor ()
      ensures callCounter == 0
    {
      callCounter := 0;
    }

    /** The arguments of one call as a string, or none when the call must be skipped. */
    method Serialise(args: Option<Json>) returns (text: Option<string>)
      requires args.Some? && !args.value.Str? ==> Printable(args.value)
      ensures text == ArgumentText(args)
    {
      hide ParseText, Printed;
      match args
      case None =>
        return Some("{}");
      case Some(Str(s)) =>
        var probe := ParseText(s);
        if probe.None? { return None; }
        return Some(s);
      case Some(v) =>
        text := PrintUnformatted(v);
        if text.None? { return None; }
        var probe := ParseText(text.value);
        if probe.None? { return None; }
    }

    /** The loop that builds `normalized`. */
    method NormaliseCalls(items: seq<Json>) returns (normalized: seq<ToolCall>)
      requires forall i :: 0 <= i < |items| ==> ArgumentsPrintable(items[i])
      modifies this
      ensures (normalized, callCounter) == Normalise(items, old(callCounter))
    {
      hide Get, ArgumentText, Printable, CallId;
      normalized := [];
      for i := 0 to |items|
        invariant (normalized, callCounter) == Normalise(items[..i], old(callCounter))
      {
        assert items[..i + 1][..i] == items[..i];
        var func := Get(Some(items[i]), "function");
        if func.None? {
          NothingInside(items[i]);
          continue;
        }
        var name := Get(func, "name");
        var args := Get(func, "arguments");
        if AsString(name).None? || AsString(name).value == "" { continue; }
        var text := Serialise(args);
        if text.None? { continue; }
        callCounter := Increment(callCounter);
        normalized := normalized + [ToolCall(Some(CallId(callCounter)), AsString(name), text.value)];
      }
      assert items[..|items|] == items;
    }

    /** ollama_chat_complete from the body of the response on. */
    method Complete(body: string) returns (reply: Reply)
      requires IntBody(body)
      modifies this
      ensures (reply, callCounter) == ReadReply(body, old(callCounter))
    {
      hide ParseText, Get, Keeps, ArgumentsPrintable, IntBody;
      var json := ParseText(body);
      if json.None? { return Failure(INVALID_REPLY); }
      var error := Get(json, "error");
      if AsString(error).Some? { return Failure(AsString(error).value); }
      var doneReason := Get(json, "done_reason");
      var message := Get(json, "message");
      var toolCalls := Get(message, "tool_calls");
      var reason := AsString(doneReason);
      if reason.Some? && reason.value != "stop" && reason.value != "tool_calls" {
        if Size(toolCalls) > 0 {
          return Failure(StoppedEarly(AsString(doneReason).value));
        }
      }
      var content := AsString(Get(message, "content"));
      if toolCalls.Some? && toolCalls.value.Arr? && Size(toolCalls) > 0 {
        assert toolCalls.value.items == UsedItems(body);
        UsedItemsPrintable(body);
        var normalized := NormaliseCalls(toolCalls.value.items);
        if normalized == [] && content.None? {
          return Failure(INVALID_ARGUMENTS);
        }
        return Answer(content, normalized);
      }
      return Answer(content, []);
    }
  }

  /** Without a function there is nothing to keep. */
  lemma NothingInside(item: Json)
    requires Get(Some(item), "function").None?
    ensures CallName(item) == None
  {
  }
}
