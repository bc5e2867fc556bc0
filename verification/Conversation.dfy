/** The agent's conversation history as a mathematical sequence: what one turn does to it, and what
    every run keeps. */
module Conversation {
  import opened Text
  import opened Thinking

  const MAX_MESSAGES: nat := 128

  datatype Role = System | User | Assistant | Tool

  datatype ToolCall = ToolCall(id: Option<string>, name: Option<string>, arguments: string)

  datatype Message = Message(role: Role, content: string, callId: Option<string>, name: Option<string>,
                             calls: seq<ToolCall>)
  {
    predicate HasCalls() {
      calls != []
    }
  }

  /** What the provider answers: an error, or text and tool calls. */
  datatype Reply = Failure(error: string) | Answer(content: Option<string>, calls: seq<ToolCall>)

  /** The outside world.  The first argument counts the calls made so far, so provider and tools may
      answer differently every time; a tool that is not registered gives no result. */
  datatype World = World(reply: (nat, seq<Message>) -> Reply, run: (nat, ToolCall) -> Option<string>)

  datatype Settings = Settings(maxMessages: int, maxIterations: nat, systemPrompt: string)
  {
    function Limit(): (n: nat)
      ensures 1 <= n <= MAX_MESSAGES
    {
      if 0 < maxMessages <= MAX_MESSAGES then maxMessages else MAX_MESSAGES
    }
  }

  // ----- Compaction -----

  /** Step back over messages with pending tool calls, but never to the system message. */
  function WalkBack(h: seq<Message>, cut: nat): (r: nat)
    requires cut <= |h|
    ensures r <= cut
    ensures 2 <= cut ==> 2 <= r
    ensures r < cut ==> h[r].HasCalls()
    ensures 2 < r ==> !h[r - 1].HasCalls()
  {
    if cut > 2 && h[cut - 1].HasCalls() then WalkBack(h, cut - 1) else cut
  }

  /** The cut before walking back: the oldest quarter of the window. */
  function FirstCut(h: seq<Message>, limit: nat): (r: nat)
    ensures r <= |h|
  {
    var remove := if limit / 4 < 1 then 1 else limit / 4;
    if 1 + remove > |h| then |h| else 1 + remove
  }

  function CutEnd(h: seq<Message>, limit: nat): (r: nat)
    ensures r <= |h|
    ensures 2 <= |h| ==> 2 <= r
  {
    WalkBack(h, FirstCut(h, limit))
  }

  function Compact(h: seq<Message>, limit: nat): seq<Message> {
    var cut := CutEnd(h, limit);
    if cut <= 1 then h else h[..1] + h[cut..]
  }

  function Add(h: seq<Message>, limit: nat, m: Message): seq<Message> {
    (if |h| >= limit then Compact(h, limit) else h) + [m]
  }

  /** A compaction with something to remove removes at least one message and keeps the system message
      and a suffix in order. */
  lemma CompactKeeps(h: seq<Message>, limit: nat)
    requires |h| >= 2
    ensures var cut := CutEnd(h, limit); 2 <= cut <= |h| && Compact(h, limit) == h[..1] + h[cut..]
    ensures |Compact(h, limit)| < |h|
  {
  }

  // ----- One turn -----

  /** A turn under way. */
  datatype Turn = Turn(h: seq<Message>, clock: nat, compacted: bool)
  {
    function Append(limit: nat, m: Message): Turn {
      Turn(Add(h, limit, m), clock, compacted || |h| >= limit)
    }
  }

  /** The end of a turn. */
  datatype Outcome = Outcome(h: seq<Message>, clock: nat, reply: Option<string>, compacted: bool, rolledBack: bool)

  function SystemMessage(env: Settings): Message {
    Message(System, env.systemPrompt, None, None, [])
  }

  function UserMessage(text: string): Message {
    Message(User, text, None, None, [])
  }

  function AssistantMessage(content: Option<string>, calls: seq<ToolCall>): Message {
    Message(Assistant, if content.None? then "" else content.value, None, None, calls)
  }

  function ToolMessage(result: Option<string>, call: ToolCall): Message {
    Message(Tool, if result.None? then "{\"error\": \"Unknown tool\"}" else result.value, call.id, call.name, [])
  }

  /** The history a turn starts from: the system message is put first when there is nothing yet. */
  function Opening(env: Settings, h: seq<Message>): seq<Message> {
    if h == [] then Add(h, env.Limit(), SystemMessage(env)) else h
  }

  function Begin(env: Settings, h: seq<Message>, clock: nat, user: string): Turn {
    Turn(Opening(env, h), clock, false).Append(env.Limit(), UserMessage(user))
  }

  /** Run the tool calls of one reply and append their results. */
  function RunTools(env: Settings, w: World, t: Turn, calls: seq<ToolCall>): Turn
    decreases |calls|
  {
    if calls == [] then t
    else
      var result := w.run(t.clock, calls[0]);
      RunTools(env, w, t.(clock := t.clock + 1).Append(env.Limit(), ToolMessage(result, calls[0])), calls[1..])
  }

  function RollBack(h: seq<Message>, count: nat): seq<Message> {
    if |h| > count then h[..count] else h
  }

  datatype Step = Continue(t: Turn) | Stop(o: Outcome)

  const MAX_ITERATIONS_REPLY := "[Aham: max tool iterations reached. Please try again.]"

  /** One iteration of the agent loop. */
  function Iterate(env: Settings, w: World, t: Turn, pre: nat): Step {
    var reply := w.reply(t.clock, t.h);
    var asked := t.(clock := t.clock + 1);
    if reply.Failure? then
      Stop(Outcome(RollBack(t.h, pre), asked.clock, Some(reply.error), t.compacted, true))
    else if reply.calls != [] then
      var said := asked.Append(env.Limit(), AssistantMessage(StripThinkTags(reply.content), reply.calls));
      Continue(RunTools(env, w, said, reply.calls))
    else
      var final := StripThinkTags(reply.content);
      var said := asked.Append(env.Limit(), AssistantMessage(final, []));
      Stop(Outcome(said.h, said.clock, final, said.compacted, false))
  }

  function Loop(env: Settings, w: World, t: Turn, pre: nat, iter: nat): Outcome
    decreases env.maxIterations - iter
  {
    if iter >= env.maxIterations then
      Outcome(RollBack(t.h, pre), t.clock, Some(MAX_ITERATIONS_REPLY), t.compacted, true)
    else
      var step := Iterate(env, w, t, pre);
      if step.Stop? then step.o else Loop(env, w, step.t, pre, iter + 1)
  }

  const EMPTY_MESSAGE_REPLY := "[Error: empty message]"

  /** agent_chat */
  function Chat(env: Settings, w: World, h: seq<Message>, clock: nat, user: string): Outcome {
    if user == "" then Outcome(h, clock, Some(EMPTY_MESSAGE_REPLY), false, false)
    else Loop(env, w, Begin(env, h, clock, user), |Opening(env, h)|, 0)
  }

  // ----- Answers without text -----

  /** The only answer that ends a turn without a reply: no text and no tool calls.  The program's own strdup
      gives a null pointer for a null pointer, so there agent_chat returns none. */
  lemma WhenThereIsNoReply(env: Settings, w: World, t: Turn, pre: nat)
    ensures var step := Iterate(env, w, t, pre);
            step.Stop? && step.o.reply.None? <==> w.reply(t.clock, t.h) == Answer(None, [])
  {
    hide Add, RunTools, RollBack, DropThinking;
  }

  ghost predicate NeverSilent(w: World) {
    forall n: nat, h: seq<Message> :: w.reply(n, h) != Answer(None, [])
  }

  lemma {:induction false} LoopReplies(env: Settings, w: World, t: Turn, pre: nat, iter: nat)
    requires NeverSilent(w)
    ensures Loop(env, w, t, pre, iter).reply.Some?
    decreases env.maxIterations - iter
  {
    hide Iterate;
    if iter < env.maxIterations {
      WhenThereIsNoReply(env, w, t, pre);
      var step := Iterate(env, w, t, pre);
      if step.Continue? { LoopReplies(env, w, step.t, pre, iter + 1); }
    }
  }

  /** A provider that never answers with nothing at all always gets the user a reply. */
  lemma ChatReplies(env: Settings, w: World, h: seq<Message>, clock: nat, user: string)
    requires NeverSilent(w)
    ensures Chat(env, w, h, clock, user).reply.Some?
  {
    if user != "" { LoopReplies(env, w, Begin(env, h, clock, user), |Opening(env, h)|, 0); }
  }

  // ----- Runs -----

  datatype Event = Say(user: string) | NewConversation

  /** The history and the clock after a run from an empty history. */
  function Exec(env: Settings, w: World, events: seq<Event>): (seq<Message>, nat) {
    if events == [] then ([], 0)
    else
      var before := Exec(env, w, events[..|events| - 1]);
      match events[|events| - 1]
      case NewConversation => ([], before.1)
      case Say(user) =>
        var o := Chat(env, w, before.0, before.1, user);
        (o.h, o.clock)
  }

  // ----- What every run keeps -----

  function Max(m: nat, n: nat): nat {
    if m < n then n else m
  }

  /** The system message first and nowhere else, tool calls only on assistant messages, and every tool
      message from the third position on behind another tool message or behind tool calls. */
  ghost predicate Ordered(env: Settings, h: seq<Message>) {
    && (h != [] ==> h[0] == SystemMessage(env))
    && (forall i :: 1 <= i < |h| ==> h[i].role != System)
    && (forall i :: 0 <= i < |h| ==> (h[i].HasCalls() ==> h[i].role == Assistant))
    && (forall i :: 2 <= i < |h| ==> (h[i].role == Tool ==> MayPrecedeTool(h[i - 1])))
  }

  predicate MayPrecedeTool(m: Message) {
    m.role == Tool || m.HasCalls()
  }

  ghost predicate Sound(env: Settings, h: seq<Message>) {
    |h| <= Max(env.Limit(), 2) && Ordered(env, h)
  }

  /** A message may follow h without breaking the tool protocol. */
  ghost predicate MayFollow(h: seq<Message>, m: Message) {
    && m.role != System
    && (m.HasCalls() ==> m.role == Assistant)
    && (m.role == Tool ==> h != [] && MayPrecedeTool(h[|h| - 1]))
  }

  lemma OrderedSnoc(env: Settings, h: seq<Message>, m: Message)
    requires Ordered(env, h) && h != [] && m.role != System && (m.HasCalls() ==> m.role == Assistant)
    requires m.role == Tool ==> |h| == 1 || MayPrecedeTool(h[|h| - 1])
    ensures Ordered(env, h + [m])
  {
  }

  lemma OrderedCut(env: Settings, h: seq<Message>, cut: nat)
    requires Ordered(env, h) && 1 <= cut <= |h|
    ensures Ordered(env, h[..1] + h[cut..])
  {
    var c := h[..1] + h[cut..];
    assert forall i :: 1 <= i < |c| ==> c[i] == h[i + cut - 1];
  }

  /** Appending, with or without a compaction, keeps the history sound, and what was appended stands at
      the end. */
  lemma AddSound(env: Settings, h: seq<Message>, m: Message)
    requires Sound(env, h) && h != [] && MayFollow(h, m)
    ensures Sound(env, Add(h, env.Limit(), m)) && |Add(h, env.Limit(), m)| >= 2
    ensures var r := Add(h, env.Limit(), m); r[|r| - 1] == m
  {
    hide Ordered, MayPrecedeTool;
    var cut := CutEnd(h, env.Limit());
    var full := |h| >= env.Limit();
    if full && cut > 1 {
      OrderedCut(env, h, cut);
      var c := h[..1] + h[cut..];
      assert |c| > 1 ==> c[|c| - 1] == h[|h| - 1];
      OrderedSnoc(env, c, m);
    } else {
      OrderedSnoc(env, h, m);
    }
  }

  lemma {:induction false} RunToolsSound(env: Settings, w: World, t: Turn, calls: seq<ToolCall>)
    requires Sound(env, t.h) && |t.h| >= 2 && MayPrecedeTool(t.h[|t.h| - 1])
    ensures Sound(env, RunTools(env, w, t, calls).h) && |RunTools(env, w, t, calls).h| >= 2
    decreases |calls|
  {
    hide Sound, Add;
    if calls != [] {
      var m := ToolMessage(w.run(t.clock, calls[0]), calls[0]);
      AddSound(env, t.h, m);
      RunToolsSound(env, w, t.(clock := t.clock + 1).Append(env.Limit(), m), calls[1..]);
    }
  }

  lemma RollBackSound(env: Settings, h: seq<Message>, count: nat)
    requires Sound(env, h)
    ensures Sound(env, RollBack(h, count))
  {
  }

  lemma IterateSound(env: Settings, w: World, t: Turn, pre: nat)
    requires Sound(env, t.h) && t.h != []
    ensures match Iterate(env, w, t, pre)
            case Continue(t') => Sound(env, t'.h) && t'.h != []
            case Stop(o) => Sound(env, o.h)
  {
    hide Sound, Add, RunTools;
    RollBackSound(env, t.h, pre);
    var reply := w.reply(t.clock, t.h);
    if reply.Answer? {
      var m := AssistantMessage(StripThinkTags(reply.content), reply.calls);
      AddSound(env, t.h, m);
      if reply.calls != [] {
        RunToolsSound(env, w, t.(clock := t.clock + 1).Append(env.Limit(), m), reply.calls);
      }
    }
  }

  lemma {:induction false} LoopSound(env: Settings, w: World, t: Turn, pre: nat, iter: nat)
    requires Sound(env, t.h) && t.h != []
    ensures Sound(env, Loop(env, w, t, pre, iter).h)
    decreases env.maxIterations - iter
  {
    hide Sound, Iterate;
    RollBackSound(env, t.h, pre);
    if iter < env.maxIterations {
      IterateSound(env, w, t, pre);
      var step := Iterate(env, w, t, pre);
      if step.Continue? { LoopSound(env, w, step.t, pre, iter + 1); }
    }
  }

  lemma BeginSound(env: Settings, h: seq<Message>, clock: nat, user: string)
    requires Sound(env, h)
    ensures Sound(env, Opening(env, h)) && Opening(env, h) != []
    ensures Sound(env, Begin(env, h, clock, user).h) && Begin(env, h, clock, user).h != []
  {
    assert Opening(env, []) == [SystemMessage(env)];
    AddSound(env, Opening(env, h), UserMessage(user));
  }

  /** Every reachable history is sound, whatever the provider and the tools answer. */
  lemma {:induction false} RunSound(env: Settings, w: World, events: seq<Event>)
    ensures Sound(env, Exec(env, w, events).0)
    decreases |events|
  {
    if events != [] {
      RunSound(env, w, events[..|events| - 1]);
      var before := Exec(env, w, events[..|events| - 1]);
      match events[|events| - 1]
      case NewConversation =>
      case Say(user) =>
        BeginSound(env, before.0, before.1, user);
        LoopSound(env, w, Begin(env, before.0, before.1, user), |Opening(env, before.0)|, 0);
    }
  }

  /** The maximal run of tool messages that ends at i: it starts right behind the system message or
      right behind a message with tool calls. */
  lemma {:induction false} ToolRun(env: Settings, h: seq<Message>, i: nat) returns (start: nat)
    requires Sound(env, h) && i < |h| && h[i].role == Tool
    ensures 1 <= start <= i && forall k :: start <= k <= i ==> h[k].role == Tool
    ensures start == 1 || h[start - 1].HasCalls()
    ensures h[start - 1].role != Tool
    decreases i
  {
    start := i;
    if i >= 2 && h[i - 1].role == Tool {
      start := ToolRun(env, h, i - 1);
    }
  }

  // ----- Compaction and the pairs of calls and results -----

  lemma WhereTheWalkEnds(h: seq<Message>, cut: nat)
    requires cut <= |h|
    ensures WalkBack(h, cut) == cut <==> cut <= 2 || !h[cut - 1].HasCalls()
  {
  }

  lemma SecondIs(h: seq<Message>, limit: nat, m: Message)
    requires |h| >= limit && |h| >= 2
    ensures var a, cut := Add(h, limit, m), CutEnd(h, limit);
            2 <= cut <= |h| && |a| > 1 && a[1] == (h + [m])[cut]
  {
    hide FirstCut, WalkBack;
  }

  /** When appending to a full history leaves a tool result right behind the system message, without its
      call: the message that then comes first, the new one included, is a result, and either the message in
      front of it carried no calls (so nothing was walked back), or the walk stopped at the first removable
      message. */
  lemma OrphansAfterCompaction(env: Settings, h: seq<Message>, m: Message)
    requires Ordered(env, h) && |h| >= env.Limit() && |h| >= 2
    ensures var all, first, a := h + [m], FirstCut(h, env.Limit()), Add(h, env.Limit(), m);
            (|a| > 1 && a[1].role == Tool)
            <==> first < |all| && all[first].role == Tool && (first == 2 || !all[first - 1].HasCalls())
  {
    var all, first, cut := h + [m], FirstCut(h, env.Limit()), CutEnd(h, env.Limit());
    hide FirstCut, WalkBack, Add;
    WhereTheWalkEnds(h, first);
    SecondIs(h, env.Limit(), m);
    assert cut < first ==> h[cut].role == Assistant;
  }

  /** The world of the counterexample below: the first reply asks for two tool calls, all others are text. */
  function TwoCallsFirst(): World {
    var call := ToolCall(Some("id"), Some("tool"), "{}");
    World((n: nat, h: seq<Message>) => if n == 0 then Answer(None, [call, call]) else Answer(None, []),
          (n: nat, c: ToolCall) => Some("result"))
  }

  /** The header's claim that compaction never splits a pair fails, and a run shows it: after three
      turns under a limit of 8 a result whose call was removed follows the system message. */
  lemma CompactionCanSplit()
    ensures var env := Settings(8, 10, "");
            var h := Exec(env, TwoCallsFirst(), [Say("u"), Say("u"), Say("u")]).0;
            |h| > 1 && h[1].role == Tool && !h[0].HasCalls()
  {
    hide Chat, Add, Exec;
    var env, w := Settings(8, 10, ""), TwoCallsFirst();
    var call := ToolCall(Some("id"), Some("tool"), "{}");
    var sys, u, done := SystemMessage(env), UserMessage("u"), AssistantMessage(None, []);
    var ask, result := AssistantMessage(None, [call, call]), ToolMessage(Some("result"), call);
    var h1 := [sys, u, ask, result, result, done];
    ExecSay(env, w, [], "u");
    ExecSay(env, w, [Say("u")], "u");
    ExecSay(env, w, [Say("u"), Say("u")], "u");
    FirstTurn(env, w, call);
    TextTurn(env, w, h1, 4);
    ShortAdds(h1, u, done);
    TextTurn(env, w, h1 + [u, done], 5);
    LastAdds(sys, ask, result, u, done);
    assert h1 + [u, done] == [sys, u, ask, result, result, done, u, done];
    assert Exec(env, w, [Say("u")]) == (h1, 4) by { assert [] + [Say("u")] == [Say("u")]; }
    assert [Say("u")] + [Say("u")] == [Say("u"), Say("u")];
    assert [Say("u"), Say("u")] + [Say("u")] == [Say("u"), Say("u"), Say("u")];
  }

  const SOME_CALL := ToolCall(Some("id"), Some("tool"), "{}")

  /** The world of the next counterexample: the first reply asks for one tool call, all others are text. */
  function OneCallFirst(): World {
    World((n: nat, h: seq<Message>) => if n == 0 then Answer(None, [SOME_CALL]) else Answer(None, []),
          (n: nat, c: ToolCall) => Some("result"))
  }

  /** Under a limit of 2 the call itself goes while its result is still to be appended: in the first turn the
      provider is asked the second time with a result that has no call. */
  lemma PendingCallCanGo()
    ensures var env, w := Settings(2, 10, ""), OneCallFirst();
            var t := Turn([SystemMessage(env), ToolMessage(Some("result"), SOME_CALL)], 2, true);
            && Iterate(env, w, Begin(env, [], 0, "u"), 1) == Continue(t)
            && Chat(env, w, [], 0, "u") == Loop(env, w, t, 1, 1)
  {
    var env, w := Settings(2, 10, ""), OneCallFirst();
    var sys, ask := SystemMessage(env), AssistantMessage(None, [SOME_CALL]);
    var result := ToolMessage(Some("result"), SOME_CALL);
    var t0 := Begin(env, [], 0, "u");
    assert t0.h == [sys, UserMessage("u")];
    var t1 := Turn([sys, ask], 1, true);
    var t2 := Turn([sys, result], 2, true);
    assert t0.(clock := 1).Append(2, ask) == t1;
    assert t1.(clock := 2).Append(2, result) == t2;
    assert [SOME_CALL][1..] == [] && RunTools(env, w, t2, []) == t2;
    assert RunTools(env, w, t1, [SOME_CALL]) == t2;
  }

  lemma ExecSay(env: Settings, w: World, events: seq<Event>, user: string)
    ensures var before := Exec(env, w, events);
            var o := Chat(env, w, before.0, before.1, user);
            Exec(env, w, events + [Say(user)]) == (o.h, o.clock)
    ensures events == [] ==> Exec(env, w, events) == ([], 0)
  {
    assert (events + [Say(user)])[..|events|] == events;
  }

  lemma ShortAdds(h: seq<Message>, u: Message, done: Message)
    requires |h| <= 6
    ensures Add(Add(h, 8, u), 8, done) == h + [u, done]
  {
    hide Compact;
  }

  lemma LastAdds(sys: Message, ask: Message, result: Message, u: Message, done: Message)
    requires ask.HasCalls() && !result.HasCalls() && !u.HasCalls() && !done.HasCalls()
    ensures var h := [sys, u, ask, result, result, done, u, done];
            Add(h, 8, u) == [sys, ask, result, result, done, u, done, u]
            && Add(Add(h, 8, u), 8, done) == [sys, result, done, u, done, u, done]
  {
    var h := [sys, u, ask, result, result, done, u, done];
    assert CutEnd(h, 8) == 2;
    var g := [sys, ask, result, result, done, u, done, u];
    assert Add(h, 8, u) == g;
    assert CutEnd(g, 8) == 3;
  }

  lemma FirstTurn(env: Settings, w: World, call: ToolCall)
    requires env == Settings(8, 10, "") && w == TwoCallsFirst() && call == ToolCall(Some("id"), Some("tool"), "{}")
    ensures var ask, result := AssistantMessage(None, [call, call]), ToolMessage(Some("result"), call);
            var o := Chat(env, w, [], 0, "u");
            && o.h == [SystemMessage(env), UserMessage("u"), ask, result, result, AssistantMessage(None, [])]
            && o.clock == 4
  {
    var result := ToolMessage(Some("result"), call);
    var t0 := Begin(env, [], 0, "u");
    assert t0.h == [SystemMessage(env), UserMessage("u")];
    var t1 := Turn(t0.h + [AssistantMessage(None, [call, call])], 1, false);
    var t2 := Turn(t1.h + [result], 2, false);
    var t3 := Turn(t2.h + [result], 3, false);
    assert [call, call][1..] == [call] && [call][1..] == [];
    assert RunTools(env, w, t3, []) == t3;
    assert RunTools(env, w, t2, [call]) == t3;
    assert RunTools(env, w, t1, [call, call]) == t3;
    assert Iterate(env, w, t0, 1) == Continue(t3);
  }

  /** A turn that is answered with text at once. */
  lemma TextTurn(env: Settings, w: World, h: seq<Message>, clock: nat)
    requires env == Settings(8, 10, "") && h != []
    requires w.reply(clock, Add(h, 8, UserMessage("u"))) == Answer(None, [])
    ensures var o := Chat(env, w, h, clock, "u");
            o.h == Add(Add(h, 8, UserMessage("u")), 8, AssistantMessage(None, [])) && o.clock == clock + 1
  {
  }

  // ----- Rolling back -----

  /** Without a compaction a turn only appends. */
  ghost predicate Grown(t: Turn, base: seq<Message>) {
    t.compacted || base <= t.h
  }

  lemma {:induction false} RunToolsGrown(env: Settings, w: World, t: Turn, calls: seq<ToolCall>, base: seq<Message>)
    requires Grown(t, base)
    ensures Grown(RunTools(env, w, t, calls), base)
    decreases |calls|
  {
    if calls != [] {
      var m := ToolMessage(w.run(t.clock, calls[0]), calls[0]);
      RunToolsGrown(env, w, t.(clock := t.clock + 1).Append(env.Limit(), m), calls[1..], base);
    }
  }

  lemma {:induction false} LoopRollsBack(env: Settings, w: World, t: Turn, base: seq<Message>, iter: nat)
    requires Grown(t, base)
    ensures var o := Loop(env, w, t, |base|, iter);
            o.rolledBack ==> |o.h| <= |base| && (!o.compacted ==> o.h == base)
    decreases env.maxIterations - iter
  {
    hide RunTools, StripThinkTags, Compact;
    if iter < env.maxIterations {
      var reply := w.reply(t.clock, t.h);
      if reply.Answer? && reply.calls != [] {
        var message := AssistantMessage(StripThinkTags(reply.content), reply.calls);
        var said := t.(clock := t.clock + 1).Append(env.Limit(), message);
        RunToolsGrown(env, w, said, reply.calls, base);
        LoopRollsBack(env, w, RunTools(env, w, said, reply.calls), base, iter + 1);
      }
    }
  }

  /** A turn that ends in a provider error or runs out of iterations leaves the history as it found it,
      but for the system message a first turn puts in, unless a compaction fired during the turn; then
      it is at most as long. */
  lemma ChatRollsBack(env: Settings, w: World, h: seq<Message>, clock: nat, user: string)
    ensures var o := Chat(env, w, h, clock, user);
            o.rolledBack ==>
              && |o.h| <= |Opening(env, h)|
              && (!o.compacted ==> o.h == Opening(env, h))
  {
    if user != "" {
      LoopRollsBack(env, w, Begin(env, h, clock, user), Opening(env, h), 0);
    }
  }

  // ----- One tool call per reply -----

  ghost predicate OneCall(w: World) {
    forall n: nat, h: seq<Message> :: w.reply(n, h).Answer? ==> |w.reply(n, h).calls| <= 1
  }

  predicate Answers(result: Message, ask: Message) {
    |ask.calls| == 1 && result.callId == ask.calls[0].id && result.name == ask.calls[0].name
  }

  /** Every result stands right behind the call it answers, and every call is answered by the next
      message; while a call is `pending` it may be the last message. */
  ghost predicate Paired(h: seq<Message>, pending: bool) {
    && (forall i {:trigger h[i].role} :: 0 <= i < |h| && h[i].role == Tool ==> i >= 2 && Answers(h[i], h[i - 1]))
    && (forall i {:trigger h[i].HasCalls()} :: 0 <= i < |h| && h[i].HasCalls() ==>
          if i + 1 < |h| then h[i + 1].role == Tool else pending)
  }

  /** The cut of a compaction falls between two pairs: the first message kept is no result, and the
      last one removed is no call. */
  lemma CutBetweenPairs(env: Settings, h: seq<Message>, pending: bool)
    requires Ordered(env, h) && Paired(h, pending) && env.Limit() >= 8 && |h| >= env.Limit()
    ensures var cut := CutEnd(h, env.Limit());
            2 <= cut < |h| && h[cut].role != Tool && !h[cut - 1].HasCalls()
    ensures h[0].role != Tool && !h[0].HasCalls()
  {
    var first := FirstCut(h, env.Limit());
    assert 3 <= first < |h|;
    assert h[first - 1].HasCalls() ==> h[first - 1].role == Assistant && !h[first - 2].HasCalls();
  }

  lemma PairedSnoc(h: seq<Message>, m: Message, pending: bool)
    requires Paired(h, pending) && h != []
    requires m.role == Tool <==> h[|h| - 1].HasCalls()
    requires m.role == Tool ==> |h| >= 2 && Answers(m, h[|h| - 1])
    ensures Paired(h + [m], m.HasCalls())
  {
    var all := h + [m];
    forall i | 0 <= i < |all| && all[i].role == Tool ensures i >= 2 && Answers(all[i], all[i - 1]) {
      if i < |h| { assert h[i].role == Tool; }
    }
    forall i | 0 <= i < |all| && all[i].HasCalls()
      ensures if i + 1 < |all| then all[i + 1].role == Tool else m.HasCalls()
    {
      if i < |h| { assert h[i].HasCalls(); }
    }
  }

  lemma PairedCut(h: seq<Message>, cut: nat, pending: bool)
    requires Paired(h, pending) && 2 <= cut < |h| && h[cut].role != Tool && h[0].role != Tool && !h[0].HasCalls()
    ensures Paired(h[..1] + h[cut..], pending)
  {
    var c := h[..1] + h[cut..];
    forall i | 0 <= i < |c| && c[i].role == Tool ensures i >= 2 && Answers(c[i], c[i - 1]) {
      if i > 0 { assert c[i] == h[i + cut - 1]; }
    }
    forall i | 0 <= i < |c| && c[i].HasCalls() ensures if i + 1 < |c| then c[i + 1].role == Tool else pending {
      if i > 0 { assert h[i + cut - 1].HasCalls(); }
    }
  }

  lemma AddPaired(env: Settings, h: seq<Message>, m: Message, pending: bool)
    requires Ordered(env, h) && Paired(h, pending) && env.Limit() >= 8 && h != []
    requires m.role == Tool <==> h[|h| - 1].HasCalls()
    requires m.role == Tool ==> |h| >= 2 && Answers(m, h[|h| - 1])
    ensures Paired(Add(h, env.Limit(), m), m.HasCalls())
  {
    hide Paired;
    if |h| >= env.Limit() {
      CutBetweenPairs(env, h, pending);
      var cut := CutEnd(h, env.Limit());
      var c := h[..1] + h[cut..];
      PairedCut(h, cut, pending);
      assert c[|c| - 1] == h[|h| - 1];
      PairedSnoc(c, m, pending);
    } else {
      PairedSnoc(h, m, pending);
    }
  }

  /** A reply with one call and its result, appended one after the other. */
  lemma RoundPaired(env: Settings, w: World, t: Turn, m: Message)
    requires Sound(env, t.h) && t.h != [] && Paired(t.h, false) && env.Limit() >= 8
    requires m.role == Assistant && |m.calls| == 1
    ensures var t' := RunTools(env, w, t.Append(env.Limit(), m), m.calls);
            Sound(env, t'.h) && t'.h != [] && Paired(t'.h, false)
  {
    hide Ordered, Paired, Add;
    var said := t.Append(env.Limit(), m);
    var call := m.calls[0];
    var result := ToolMessage(w.run(said.clock, call), call);
    AddSound(env, t.h, m);
    LastHasNoCalls(t.h);
    AddPaired(env, t.h, m, false);
    AddSound(env, said.h, result);
    AddPaired(env, said.h, result, true);
    var ran := said.(clock := said.clock + 1).Append(env.Limit(), result);
    assert m.calls[1..] == [];
    assert RunTools(env, w, ran, []) == ran;
  }

  lemma LastHasNoCalls(h: seq<Message>)
    requires Paired(h, false) && h != []
    ensures !h[|h| - 1].HasCalls()
  {
  }

  /** A turn during which no compaction was followed by a roll-back. */
  predicate CleanOutcome(o: Outcome) {
    !(o.compacted && o.rolledBack)
  }

  lemma {:induction false} LoopPaired(env: Settings, w: World, t: Turn, base: seq<Message>, iter: nat)
    requires OneCall(w) && env.Limit() >= 8
    requires Sound(env, t.h) && t.h != [] && Paired(t.h, false) && Grown(t, base) && Paired(base, false)
    requires CleanOutcome(Loop(env, w, t, |base|, iter))
    ensures Paired(Loop(env, w, t, |base|, iter).h, false)
    decreases env.maxIterations - iter
  {
    hide Ordered, Paired, Add, RunTools, Grown, StripThinkTags, RollBack;
    LoopRollsBack(env, w, t, base, iter);
    if iter < env.maxIterations {
      var reply := w.reply(t.clock, t.h);
      if reply.Answer? {
        var m := AssistantMessage(StripThinkTags(reply.content), reply.calls);
        var asked := t.(clock := t.clock + 1);
        LastHasNoCalls(t.h);
        if reply.calls != [] {
          RoundPaired(env, w, asked, m);
          GrownSame(t, asked, base);
          GrownAppend(asked, env.Limit(), m, base);
          RunToolsGrown(env, w, asked.Append(env.Limit(), m), reply.calls, base);
          LoopPaired(env, w, RunTools(env, w, asked.Append(env.Limit(), m), reply.calls), base, iter + 1);
        } else {
          AddPaired(env, t.h, m, false);
        }
      }
    }
  }

  lemma GrownSame(t: Turn, t': Turn, base: seq<Message>)
    requires Grown(t, base) && t'.h == t.h && t'.compacted == t.compacted
    ensures Grown(t', base)
  {
  }

  lemma GrownAppend(t: Turn, limit: nat, m: Message, base: seq<Message>)
    requires Grown(t, base)
    ensures Grown(t.Append(limit, m), base)
  {
  }

  /** No turn of the run rolls back after a compaction of its own. */
  ghost predicate CleanRun(env: Settings, w: World, events: seq<Event>) {
    forall k :: 0 <= k < |events| && events[k].Say? ==>
      var before := Exec(env, w, events[..k]);
      CleanOutcome(Chat(env, w, before.0, before.1, events[k].user))
  }

  /** With one tool call per reply, a limit of at least 8 and no roll-back after a compaction in the
      same turn, no run ever separates a result from its call. */
  lemma {:induction false} RunPaired(env: Settings, w: World, events: seq<Event>)
    requires OneCall(w) && env.Limit() >= 8 && CleanRun(env, w, events)
    ensures Paired(Exec(env, w, events).0, false)
    decreases |events|
  {
    if events != [] {
      var n := |events| - 1;
      var earlier := events[..n];
      forall k | 0 <= k < n && earlier[k].Say?
        ensures var before := Exec(env, w, earlier[..k]);
                CleanOutcome(Chat(env, w, before.0, before.1, earlier[k].user))
      {
        assert earlier[..k] == events[..k] && earlier[k] == events[k];
      }
      RunPaired(env, w, earlier);
      RunSound(env, w, earlier);
      var before := Exec(env, w, earlier);
      if events[n].Say? && events[n].user != "" {
        var user := events[n].user;
        BeginSound(env, before.0, before.1, user);
        var base := Opening(env, before.0);
        LastHasNoCalls(base);
        AddPaired(env, base, UserMessage(user), false);
        assert Paired(Begin(env, before.0, before.1, user).h, false);
        LoopPaired(env, w, Begin(env, before.0, before.1, user), base, 0);
      }
    }
  }

  // ----- Any number of calls a reply -----

  predicate IsResultOf(m: Message, call: ToolCall) {
    m.role == Tool && m.callId == call.id && m.name == call.name
  }

  /** The message at i is followed by one result for each of its calls, in order. */
  ghost predicate Answered(h: seq<Message>, i: nat)
    requires i < |h|
  {
    && i + |h[i].calls| < |h|
    && forall k :: 0 <= k < |h[i].calls| ==> IsResultOf(h[i + 1 + k], h[i].calls[k])
  }

  /** The message at j is the result of a call of the message at i. */
  ghost predicate Belongs(h: seq<Message>, j: nat, i: nat)
    requires i < j < |h|
  {
    j <= i + |h[i].calls| && IsResultOf(h[j], h[i].calls[j - i - 1])
  }

  /** All calls are answered, and there are no other results. */
  ghost predicate Complete(h: seq<Message>) {
    && (forall i :: 0 <= i < |h| && h[i].HasCalls() ==> Answered(h, i))
    && (forall j :: 0 <= j < |h| && h[j].role == Tool ==> exists i :: 0 <= i < j && Belongs(h, j, i))
  }

  /** However many calls a reply has, rolling back keeps calls and results together exactly when the first
      message that goes is no result. */
  lemma RollBackKeepsComplete(h: seq<Message>, count: nat)
    requires Complete(h)
    ensures Complete(RollBack(h, count)) <==> !(count < |h| && h[count].role == Tool)
  {
    var r := RollBack(h, count);
    if count < |h| && h[count].role == Tool {
      var i :| 0 <= i < count && Belongs(h, count, i);
      assert r[i].HasCalls() && !Answered(r, i);
    } else if count < |h| {
      forall i | 0 <= i < |r| && r[i].HasCalls() ensures Answered(r, i) {
        assert h[i].HasCalls() && Answered(h, i);
        assert count <= i + |h[i].calls| ==> IsResultOf(h[i + 1 + (count - i - 1)], h[i].calls[count - i - 1]);
      }
      forall j | 0 <= j < |r| && r[j].role == Tool ensures exists i :: 0 <= i < j && Belongs(r, j, i) {
        assert h[j].role == Tool;
        var i :| 0 <= i < j && Belongs(h, j, i);
        assert Belongs(r, j, i);
      }
    }
  }

  /** With one call a reply: rolling back keeps the pairs exactly when it does not cut right behind a call. */
  lemma RollBackKeepsPairs(h: seq<Message>, count: nat)
    requires Paired(h, false)
    ensures Paired(RollBack(h, count), false) <==> !(0 < count < |h| && h[count - 1].HasCalls())
  {
    var r := RollBack(h, count);
    if 0 < count < |h| && h[count - 1].HasCalls() {
      assert r[count - 1].HasCalls();
    } else {
      forall i | 0 <= i < |r| && r[i].role == Tool ensures i >= 2 && Answers(r[i], r[i - 1]) {
        assert h[i].role == Tool;
      }
      forall i | 0 <= i < |r| && r[i].HasCalls() ensures i + 1 < |r| && r[i + 1].role == Tool {
        assert h[i].HasCalls();
      }
    }
  }

  /** Three answers in text, two that ask for one tool call each, then failures. */
  function CallsThenFailure(): World {
    World((n: nat, h: seq<Message>) =>
            if n < 3 then Answer(None, [])
            else if n == 3 || n == 5 then Answer(None, [SOME_CALL])
            else Failure("error"),
          (n: nat, c: ToolCall) => Some("result"))
  }

  /** Under a limit of 8 a compaction of a full history removes two messages. */
  lemma QuarterGoes(h: seq<Message>)
    requires |h| == 8 && !h[2].HasCalls()
    ensures Compact(h, 8) == h[..1] + h[3..]
  {
  }

  /** The last turn of the counterexample below: both calls make the history compact, so it is one
      message too long when the provider fails, and that message is a result. */
  lemma FailingTurn()
    ensures var env := Settings(8, 10, "");
            var sys, u, done := SystemMessage(env), UserMessage("u"), AssistantMessage(None, []);
            var ask, result := AssistantMessage(None, [SOME_CALL]), ToolMessage(Some("result"), SOME_CALL);
            var o := Chat(env, CallsThenFailure(), [sys, u, done, u, done, u, done], 3, "u");
            o.h == [sys, u, done, u, ask, result, ask] && o.compacted && o.rolledBack
  {
    var env, w := Settings(8, 10, ""), CallsThenFailure();
    var sys, u, done := SystemMessage(env), UserMessage("u"), AssistantMessage(None, []);
    var ask, result := AssistantMessage(None, [SOME_CALL]), ToolMessage(Some("result"), SOME_CALL);
    var t0 := Turn([sys, u, done, u, done, u, done, u], 3, false);
    var t1 := Turn([sys, u, done, u, done, u, ask, result], 5, true);
    var t2 := Turn([sys, u, done, u, ask, result, ask, result], 7, true);
    QuarterGoes(t0.h);
    QuarterGoes(t1.h);
    hide Compact;
    assert Begin(env, [sys, u, done, u, done, u, done], 3, "u") == t0;
    CallingRound(env, w, t0, t1, 7, [sys, u, done, u, done, u]);
    CallingRound(env, w, t1, t2, 7, [sys, u, done, u, ask, result]);
    assert Loop(env, w, t2, 7, 2).h == RollBack(t2.h, 7) == [sys, u, done, u, ask, result, ask];
    assert Loop(env, w, t1, 7, 1) == Loop(env, w, t2, 7, 2);
    assert Loop(env, w, t0, 7, 0) == Loop(env, w, t1, 7, 1);
  }

  /** One iteration on a full history: the request and the result of one call, behind a compaction that
      leaves `kept`. */
  lemma CallingRound(env: Settings, w: World, t: Turn, t': Turn, pre: nat, kept: seq<Message>)
    requires env == Settings(8, 10, "") && w == CallsThenFailure() && (t.clock == 3 || t.clock == 5) && |t.h| == 8
    requires kept == Compact(t.h, 8) && |kept| == 6
    requires t' == Turn(kept + [AssistantMessage(None, [SOME_CALL]), ToolMessage(Some("result"), SOME_CALL)],
                        t.clock + 2, true)
    ensures Iterate(env, w, t, pre) == Continue(t')
  {
    hide Compact;
    var said := Turn(kept + [AssistantMessage(None, [SOME_CALL])], t.clock + 1, true);
    assert t.(clock := t.clock + 1).Append(8, AssistantMessage(None, [SOME_CALL])) == said;
    assert said.(clock := t.clock + 2).Append(8, ToolMessage(Some("result"), SOME_CALL)) == t';
    assert [SOME_CALL][1..] == [] && RunTools(env, w, t', []) == t';
    assert RunTools(env, w, said, [SOME_CALL]) == t';
  }

  lemma ThreeTexts()
    ensures var env := Settings(8, 10, "");
            var sys, u, done := SystemMessage(env), UserMessage("u"), AssistantMessage(None, []);
            Exec(env, CallsThenFailure(), [Say("u"), Say("u"), Say("u")]) == ([sys, u, done, u, done, u, done], 3)
  {
    hide Chat, Add, Exec, Compact;
    var env, w := Settings(8, 10, ""), CallsThenFailure();
    var sys, u, done := SystemMessage(env), UserMessage("u"), AssistantMessage(None, []);
    var e1, e2 := [Say("u")], [Say("u"), Say("u")];
    ExecSay(env, w, [], "u");
    ExecSay(env, w, e1, "u");
    ExecSay(env, w, e2, "u");
    assert [] + [Say("u")] == e1 && e1 + [Say("u")] == e2 && e2 + [Say("u")] == [Say("u"), Say("u"), Say("u")];
    FirstText(env, w);
    var h1, h2 := [sys, u, done], [sys, u, done, u, done];
    assert h1 + [u, done] == h2 && h2 + [u, done] == [sys, u, done, u, done, u, done];
    TextTurn(env, w, h1, 1);
    ShortAdds(h1, u, done);
    TextTurn(env, w, h2, 2);
    ShortAdds(h2, u, done);
  }

  /** The index of a roll-back is taken before the turn, so after a compaction it can split a pair, and a
      run shows it: even with one call a reply, the history ends in a call without its result. */
  lemma RollBackCanSplit()
    ensures var w := CallsThenFailure();
            var h := Exec(Settings(8, 10, ""), w, [Say("u"), Say("u"), Say("u"), Say("u")]).0;
            OneCall(w) && h != [] && h[|h| - 1].HasCalls() && !Paired(h, false)
  {
    hide Chat, Add, Exec, Compact;
    var env, w, e3 := Settings(8, 10, ""), CallsThenFailure(), [Say("u"), Say("u"), Say("u")];
    assert e3 + [Say("u")] == [Say("u"), Say("u"), Say("u"), Say("u")];
    ExecSay(env, w, e3, "u");
    ThreeTexts();
    FailingTurn();
    var h := Exec(env, w, e3 + [Say("u")]).0;
    assert |h| == 7 && h[6] == AssistantMessage(None, [SOME_CALL]) && h[6].HasCalls();
  }

  lemma FirstText(env: Settings, w: World)
    requires env == Settings(8, 10, "") && w == CallsThenFailure()
    ensures var o := Chat(env, w, [], 0, "u");
            o.h == [SystemMessage(env), UserMessage("u"), AssistantMessage(None, [])] && o.clock == 1
  {
    hide Compact;
    var t0 := Begin(env, [], 0, "u");
    assert t0.h == [SystemMessage(env), UserMessage("u")];
  }
}
