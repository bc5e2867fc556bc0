/** What a turn says: every history the provider is asked with, every message that is appended, and what the
    user gets, message by message. */
module Transcript {
  import opened Text
  import opened Thinking
  import opened Conversation

  /** One call of the provider: the number of calls made before it, and the history it is given. */
  datatype Ask = Ask(clock: nat, h: seq<Message>)

  function ResultText(w: World, n: nat, call: ToolCall): string {
    match w.run(n, call)
    case None => "{\"error\": \"Unknown tool\"}"
    case Some(text) => text
  }

  /** The text of an answer without its thinking and without white space around it. */
  function Said(content: Option<string>): Option<string> {
    if content.None? then None else Some(Trim(DropThinking(content.value)))
  }

  function SaidText(content: Option<string>): string {
    if Said(content).None? then "" else Said(content).value
  }

  function Results(w: World, n: nat, calls: seq<ToolCall>): seq<Message> {
    seq(|calls|, i requires 0 <= i < |calls| =>
          Message(Tool, ResultText(w, n + i, calls[i]), calls[i].id, calls[i].name, []))
  }

  /** An answer with tool calls, and one result for each call in order. */
  function Exchange(w: World, n: nat, content: Option<string>, calls: seq<ToolCall>): seq<Message> {
    [Message(Assistant, SaidText(content), None, None, calls)] + Results(w, n + 1, calls)
  }

  function Question(env: Settings, h: seq<Message>, user: string): seq<Message> {
    (if h == [] then [Message(System, env.systemPrompt, None, None, [])] else [])
    + [Message(User, user, None, None, [])]
  }

  function AddAll(h: seq<Message>, limit: nat, ms: seq<Message>): seq<Message>
    decreases |ms|
  {
    if ms == [] then h else AddAll(Add(h, limit, ms[0]), limit, ms[1..])
  }

  /** An answer with tool calls leads to the next question, with the answer and all results appended. */
  predicate Follows(env: Settings, w: World, a: Ask, b: Ask) {
    var reply := w.reply(a.clock, a.h);
    && reply.Answer? && reply.calls != []
    && b == Ask(a.clock + 1 + |reply.calls|,
                AddAll(a.h, env.Limit(), Exchange(w, a.clock, reply.content, reply.calls)))
  }

  ghost predicate Chain(env: Settings, w: World, asks: seq<Ask>) {
    asks != [] && forall i :: 0 <= i < |asks| - 1 ==> Follows(env, w, asks[i], asks[i + 1])
  }

  /** How the last question of a turn is answered and what becomes of it; `pre` messages were there before
      the turn, and `left` questions could still be asked. */
  predicate Closes(env: Settings, w: World, last: Ask, pre: nat, left: nat, o: Outcome) {
    match w.reply(last.clock, last.h)
    case Failure(error) =>
      && o.reply == Some(error) && o.rolledBack && o.clock == last.clock + 1
      && o.h == if |last.h| > pre then last.h[..pre] else last.h
    case Answer(content, calls) =>
      if calls == [] then
        && o.reply == Said(content) && !o.rolledBack && o.clock == last.clock + 1
        && o.h == AddAll(last.h, env.Limit(), [Message(Assistant, SaidText(content), None, None, [])])
      else
        var h := AddAll(last.h, env.Limit(), Exchange(w, last.clock, content, calls));
        && left == 0 && o.reply == Some("[Aham: max tool iterations reached. Please try again.]") && o.rolledBack
        && o.clock == last.clock + 1 + |calls| && o.h == if |h| > pre then h[..pre] else h
  }

  // ----- Appending -----

  /** What is appended last stands last, whatever is compacted on the way. */
  lemma {:induction false} LastStands(h: seq<Message>, limit: nat, ms: seq<Message>)
    requires ms != []
    ensures AddAll(h, limit, ms) != [] && AddAll(h, limit, ms)[|AddAll(h, limit, ms)| - 1] == ms[|ms| - 1]
    decreases |ms|
  {
    hide Compact;
    if |ms| > 1 {
      LastStands(Add(h, limit, ms[0]), limit, ms[1..]);
    } else {
      assert ms[1..] == [];
    }
  }

  /** While there is room nothing is lost. */
  lemma {:induction false} RoomForAll(h: seq<Message>, limit: nat, ms: seq<Message>)
    requires |h| + |ms| <= limit
    ensures AddAll(h, limit, ms) == h + ms
    decreases |ms|
  {
    hide Compact;
    if ms == [] {
      assert h + ms == h;
    } else {
      RoomForAll(h + [ms[0]], limit, ms[1..]);
      assert h + [ms[0]] + ms[1..] == h + ms;
    }
  }

  lemma AddOne(h: seq<Message>, limit: nat, m: Message)
    ensures AddAll(h, limit, [m]) == Add(h, limit, m)
  {
    hide Add;
    assert [m][1..] == [];
  }

  lemma AddFirst(h: seq<Message>, limit: nat, m: Message, ms: seq<Message>)
    ensures AddAll(h, limit, [m] + ms) == AddAll(Add(h, limit, m), limit, ms)
  {
    hide Add;
    assert ([m] + ms)[1..] == ms;
  }

  /** The results of a reply are appended in order, each with what its tool answered. */
  lemma {:induction false} ToolsSay(env: Settings, w: World, t: Turn, calls: seq<ToolCall>)
    ensures var r := RunTools(env, w, t, calls);
            r.h == AddAll(t.h, env.Limit(), Results(w, t.clock, calls)) && r.clock == t.clock + |calls|
    decreases |calls|
  {
    hide Add;
    if calls != [] {
      var m := Results(w, t.clock, calls)[0];
      var next := t.(clock := t.clock + 1).Append(env.Limit(), m);
      ToolsSay(env, w, next, calls[1..]);
      assert Results(w, t.clock, calls) == [m] + Results(w, t.clock + 1, calls[1..]);
      AddFirst(t.h, env.Limit(), m, Results(w, t.clock + 1, calls[1..]));
    }
  }

  // ----- A turn -----

  lemma IterationSays(env: Settings, w: World, t: Turn, pre: nat)
    ensures var a, step := Ask(t.clock, t.h), Iterate(env, w, t, pre);
            if step.Continue? then Follows(env, w, a, Ask(step.t.clock, step.t.h))
            else forall left :: Closes(env, w, a, pre, left, step.o)
  {
    hide Add, RunTools, DropThinking;
    var reply := w.reply(t.clock, t.h);
    if reply.Answer? {
      var m := Message(Assistant, SaidText(reply.content), None, None, reply.calls);
      if reply.calls != [] {
        var said := t.(clock := t.clock + 1).Append(env.Limit(), m);
        ToolsSay(env, w, said, reply.calls);
        AddFirst(t.h, env.Limit(), m, Results(w, t.clock + 1, reply.calls));
      } else {
        AddOne(t.h, env.Limit(), m);
      }
    }
  }

  lemma {:induction false} LoopSays(env: Settings, w: World, t: Turn, pre: nat, iter: nat) returns (asks: seq<Ask>)
    requires iter < env.maxIterations
    ensures Chain(env, w, asks) && asks[0] == Ask(t.clock, t.h) && |asks| <= env.maxIterations - iter
    ensures Closes(env, w, asks[|asks| - 1], pre, env.maxIterations - iter - |asks|, Loop(env, w, t, pre, iter))
    decreases env.maxIterations - iter
  {
    hide Iterate, Closes, Follows;
    IterationSays(env, w, t, pre);
    var a, step := Ask(t.clock, t.h), Iterate(env, w, t, pre);
    if step.Stop? {
      asks := [a];
    } else if iter + 1 < env.maxIterations {
      var others := LoopSays(env, w, step.t, pre, iter + 1);
      asks := [a] + others;
      forall i | 0 <= i < |asks| - 1 ensures Follows(env, w, asks[i], asks[i + 1]) {
        assert i > 0 ==> asks[i] == others[i - 1];
      }
    } else {
      asks := [a];
      OutOfIterations(env, w, t, pre, iter);
    }
  }

  lemma OutOfIterations(env: Settings, w: World, t: Turn, pre: nat, iter: nat)
    requires iter + 1 == env.maxIterations && Iterate(env, w, t, pre).Continue?
    ensures Closes(env, w, Ask(t.clock, t.h), pre, 0, Loop(env, w, t, pre, iter))
  {
    hide Iterate;
    IterationSays(env, w, t, pre);
    hide AddAll, Exchange;
    assert Loop(env, w, Iterate(env, w, t, pre).t, pre, iter + 1).rolledBack;
  }

  /** A turn, message by message: the provider is first asked with the history and what the user said, which
      stands last; every answer with tool calls is followed by the question that holds it and its results;
      and the last answer decides what the user gets and what the history becomes. */
  lemma ChatSays(env: Settings, w: World, h: seq<Message>, clock: nat, user: string) returns (asks: seq<Ask>)
    requires user != "" && env.maxIterations > 0
    ensures Chain(env, w, asks) && |asks| <= env.maxIterations
    ensures asks[0] == Ask(clock, AddAll(h, env.Limit(), Question(env, h, user)))
    ensures var first := asks[0].h; first != [] && first[|first| - 1] == Message(User, user, None, None, [])
    ensures var pre := if h == [] then 1 else |h|;
            Closes(env, w, asks[|asks| - 1], pre, env.maxIterations - |asks|, Chat(env, w, h, clock, user))
  {
    hide Add, Loop, Closes, Chain;
    var t := Begin(env, h, clock, user);
    var u := Message(User, user, None, None, []);
    AddOne(h, env.Limit(), u);
    if h == [] {
      var sys := Message(System, env.systemPrompt, None, None, []);
      OnlySystem(env);
      AddFirst(h, env.Limit(), sys, [u]);
      AddOne(Add(h, env.Limit(), sys), env.Limit(), u);
    } else {
      assert [] + [u] == [u];
    }
    LastStands(h, env.Limit(), Question(env, h, user));
    asks := LoopSays(env, w, t, |Opening(env, h)|, 0);
  }

  lemma OnlySystem(env: Settings)
    ensures |Opening(env, [])| == 1
  {
  }

  /** An empty text is refused at once, and without iterations no provider is asked. */
  lemma NothingIsAsked(env: Settings, w: World, h: seq<Message>, clock: nat, user: string)
    requires user == "" || env.maxIterations == 0
    ensures var o := Chat(env, w, h, clock, user);
            && o.clock == clock
            && o.reply == Some(if user == "" then "[Error: empty message]"
                               else "[Aham: max tool iterations reached. Please try again.]")
            && (user == "" ==> o.h == h)
  {
  }

  // ----- How much a compaction removes -----

  lemma {:induction false} WalkStops(h: seq<Message>, cut: nat)
    requires cut <= |h|
    ensures forall k :: WalkBack(h, cut) <= k < cut ==> h[k].HasCalls()
    decreases cut
  {
    if cut > 2 && h[cut - 1].HasCalls() { WalkStops(h, cut - 1); }
  }

  /** A compaction removes messages behind the system message: a quarter of the limit, at least one, and as
      many as there are; but it gives up the last of them while those carry calls, down to one message. */
  lemma AQuarterGoes(h: seq<Message>, limit: nat) returns (cut: nat)
    requires |h| >= 2
    ensures var quarter := if limit < 4 then 1 else limit / 4;
            var most := if quarter + 1 > |h| then |h| else quarter + 1;
            && 2 <= cut <= most && (cut == 2 || !h[cut - 1].HasCalls())
            && (forall k :: cut <= k < most ==> h[k].HasCalls())
            && Compact(h, limit) == h[..1] + h[cut..]
  {
    WalkStops(h, FirstCut(h, limit));
    cut := CutEnd(h, limit);
  }

  /** A limit from 1 to 128 is taken as it is, any other one is 128. */
  lemma LimitIs(env: Settings)
    ensures env.Limit() == if 1 <= env.maxMessages <= 128 then env.maxMessages else 128
  {
  }
}
