/** The agent object: a fixed array of messages that append, compaction and roll-back change in place. */
module AgentLoop {
  import opened Text
  import opened Thinking
  import opened Conversation
  import C = Conversation

  class Agent {
    var messages: array<Message>
    var messageCount: nat
    /** Calls made to the provider and to tools so far. */
    var clock: nat
    const env: Settings

    constructor (env: Settings)
      ensures Valid() && History() == [] && clock == 0 && this.env == env && fresh(messages)
    {
      messages, messageCount, clock := new Message[MAX_MESSAGES], 0, 0;
      this.env := env;
    }

    predicate Valid()
      reads this
    {
      messages.Length == MAX_MESSAGES && messageCount <= C.Max(env.Limit(), 2)
    }

    ghost function History(): seq<Message>
      reads this, messages
      requires Valid()
    {
      messages[..messageCount]
    }

    /** agent_compact_history */
    method CompactHistory()
      requires Valid()
      modifies this`messageCount, messages
      ensures Valid() && messages == old(messages)
      ensures History() == Compact(old(History()), env.Limit())
      ensures messageCount <= old(messageCount) && (old(messageCount) >= 2 ==> messageCount < old(messageCount))
    {
      ghost var h := History();
      var limit := env.Limit();
      var keep := 1;
      var removeCount := limit / 4;
      if removeCount < 1 { removeCount := 1; }
      var cutEnd: nat := keep + removeCount;
      if cutEnd > messageCount { cutEnd := messageCount; }
      while cutEnd > keep + 1 && messages[cutEnd - 1].HasCalls()
        invariant cutEnd <= messageCount && WalkBack(h, cutEnd) == CutEnd(h, limit)
      {
        cutEnd := cutEnd - 1;
      }
      var actualRemove := cutEnd - keep;
      if actualRemove <= 0 { return; }
      RemoveAfterFirst(actualRemove);
    }

    /** The memmove of agent_compact_history: drop `count` messages behind the first. */
    method RemoveAfterFirst(count: nat)
      requires Valid() && 1 + count <= messageCount
      modifies this`messageCount, messages
      ensures Valid() && messages == old(messages)
      ensures History() == old(History())[..1] + old(History())[1 + count..]
    {
      ghost var h := History();
      forall i | 1 <= i < messageCount - count {
        messages[i] := messages[i + count];
      }
      messageCount := messageCount - count;
      assert messages[..messageCount] == h[..1] + h[1 + count..];
    }

    /** agent_add_message: no write leaves the array. */
    method AddMessage(m: Message)
      requires Valid()
      modifies this`messageCount, messages
      ensures Valid() && messages == old(messages)
      ensures History() == Add(old(History()), env.Limit(), m)
    {
      if messageCount >= env.Limit() {
        CompactHistory();
      }
      messages[messageCount] := m;
      messageCount := messageCount + 1;
    }

    /** Pop messages until only `count` are left. */
    method RollBackTo(count: nat)
      requires Valid()
      modifies this`messageCount
      ensures Valid() && History() == RollBack(old(History()), count)
    {
      while messageCount > count
        invariant messageCount <= old(messageCount)
        invariant messageCount >= count || messageCount == old(messageCount)
      {
        messageCount := messageCount - 1;
      }
    }

    /** The history and the clock of a turn under way. */
    ghost predicate At(t: Turn)
      reads this, messages
    {
      Valid() && History() == t.h && clock == t.clock
    }

    method NewConversation()
      requires Valid()
      modifies this`messageCount
      ensures Valid() && History() == [] && clock == old(clock)
    {
      messageCount := 0;
    }

    /** The inner loop of agent_chat over the tool calls of one reply. */
    method RunToolCalls(w: World, calls: seq<ToolCall>, ghost t: Turn)
      requires At(t)
      modifies this`messageCount, this`clock, messages
      ensures At(RunTools(env, w, t, calls)) && messages == old(messages)
    {
      ghost var all := RunTools(env, w, t, calls);
      ghost var now := t;
      assert calls[0..] == calls;
      for i := 0 to |calls|
        invariant At(now) && messages == old(messages)
        invariant RunTools(env, w, now, calls[i..]) == all
      {
        var result := w.run(clock, calls[i]);
        clock := clock + 1;
        AddMessage(ToolMessage(result, calls[i]));
        now := now.(clock := now.clock + 1).Append(env.Limit(), ToolMessage(result, calls[i]));
        assert calls[i..][1..] == calls[i + 1..];
      }
    }

    /** strip_think_tags */
    method StripTags(input: Option<string>) returns (result: Option<string>)
      ensures result == StripThinkTags(input)
    {
      hide DropThinking, Find, Trim;
      if input.None? { return None; }
      var p, sb := input.value, "";
      assert sb + DropThinking(p) == DropThinking(p);
      while p != ""
        invariant sb + DropThinking(p) == DropThinking(input.value)
        decreases |p|
      {
        DropStep(sb, p);
        var start := Find(p, "<think>");
        if start.None? {
          sb, p := sb + p, "";
        } else {
          var inside := p[start.value + 7..];
          var end := Find(inside, "</think>");
          sb, p := sb + p[..start.value], if end.None? then "" else inside[end.value + 8..];
        }
      }
      NoThinking();
      assert sb + "" == sb;
      return Some(Trim(sb));
    }

    /** One iteration of agent_chat: ask the provider, then act on the answer. */
    method Ask(w: World, preTurnCount: nat, ghost t: Turn) returns (done: bool, reply: Option<string>)
      requires At(t)
      modifies this`messageCount, this`clock, messages
      ensures Valid() && messages == old(messages)
      ensures match Iterate(env, w, t, preTurnCount)
              case Continue(t') => !done && At(t')
              case Stop(o) => done && History() == o.h && clock == o.clock && reply == o.reply
    {
      hide RunTools, Add, RollBack;
      reply := None;
      var answer := w.reply(clock, messages[..messageCount]);
      clock := clock + 1;
      if answer.Failure? {
        RollBackTo(preTurnCount);
        return true, Some(answer.error);
      }
      var content := StripTags(answer.content);
      AddMessage(AssistantMessage(content, answer.calls));
      if answer.calls != [] {
        RunToolCalls(w, answer.calls,
                     t.(clock := t.clock + 1).Append(env.Limit(), AssistantMessage(content, answer.calls)));
        return false, None;
      }
      return true, content;
    }

    /** agent_chat */
    method Chat(w: World, user: string) returns (reply: Option<string>)
      requires Valid()
      modifies this`messageCount, this`clock, messages
      ensures Valid() && messages == old(messages)
      ensures var o := C.Chat(env, w, old(History()), old(clock), user);
              History() == o.h && clock == o.clock && reply == o.reply
    {
      hide Iterate, Add, RollBack;
      ghost var h0 := History();
      if user == "" { return Some(EMPTY_MESSAGE_REPLY); }
      if messageCount == 0 {
        AddMessage(SystemMessage(env));
      }
      var preTurnCount := messageCount;
      AddMessage(UserMessage(user));
      ghost var t := Begin(env, h0, clock, user);
      ghost var whole := C.Loop(env, w, t, preTurnCount, 0);
      for iter := 0 to env.maxIterations
        invariant At(t) && messages == old(messages)
        invariant C.Loop(env, w, t, preTurnCount, iter) == whole
      {
        var done, answer := Ask(w, preTurnCount, t);
        if done { return answer; }
        t := Iterate(env, w, t, preTurnCount).t;
      }
      RollBackTo(preTurnCount);
      return Some(MAX_ITERATIONS_REPLY);
    }
  }

  lemma NoThinking()
    ensures DropThinking("") == ""
  {
  }

  lemma DropStep(out: string, p: string)
    requires p != ""
    ensures out + DropThinking(p) == out + NextThought(p).0 + DropThinking(NextThought(p).1)
  {
    hide NextThought;
    var (head, tail) := NextThought(p);
    assert out + (head + DropThinking(tail)) == out + head + DropThinking(tail);
  }
}
