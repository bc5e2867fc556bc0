/** The gateway: a listener and detached workers share a counting semaphore of thread slots, and a mutex
    lets one worker at a time talk to the agent.  A step machine with one program counter a thread;
    every step is one action on shared state, so any interleaving is a sequence of steps. */
module Gateway {
  import opened Text
  import opened Thinking
  import opened Conversation

  const MAX_THREADS: nat := 8

  /** Where gateway_listen_thread stands. */
  datatype Listener = LoopTest | Wait | Recheck | Accept | AcceptFailed | Allocate | Spawn | Stopped
  {
    /** Between sem_wait and either sem_post or the start of a worker. */
    predicate HoldsSlot() {
      Recheck? || Accept? || Allocate? || Spawn?
    }
  }

  /** Where gateway_conn_thread stands; the states from HasAgent to Unlocking lie between locking and
      unlocking the mutex.  `turn` counts lock acquisitions and only serves the statements below. */
  datatype Worker =
    | Reading
    | WantsAgent(user: string)
    | HasAgent(user: string)
    | Asking(user: string, pre: nat, iter: nat, compacted: bool)
    | Running(user: string, pre: nat, iter: nat, compacted: bool, calls: seq<ToolCall>)
    | Unlocking(user: string, reply: Option<string>)
    | Answering(turn: nat, user: string, reply: Option<string>)
    | Leaving
  {
    predicate Critical() {
      HasAgent? || Asking? || Running? || Unlocking?
    }
  }

  datatype Sent = Sent(turn: nat, user: string, reply: Option<string>)

  /** The shared state.  `turns` lists what was said in the order in which the mutex was taken, and
      `answers` what was sent back. */
  datatype State = State(running: bool, free: nat, listener: Listener, workers: map<nat, Worker>, spawned: nat,
                         holder: Option<nat>, h: seq<Message>, clock: nat, turns: seq<Event>, answers: seq<Sent>)

  /** What a connection turns out to carry. */
  datatype Request = Unreadable | Other | Chatting(user: string)

  /** One action: gateway_destroy clears `running`, the listener moves (and its accept, malloc or
      pthread_create succeeds or not), or a worker moves. */
  datatype Action = Shutdown | Listen(succeeds: bool) | Work(id: nat, request: Request)

  function Initial(): State {
    State(true, MAX_THREADS, LoopTest, map[], 0, None, [], 0, [], [])
  }

  function Go(s: State, listener: Listener): State {
    s.(listener := listener)
  }

  function Post(s: State): State {
    s.(free := s.free + 1)
  }

  /** gateway_listen_thread; None when blocked in sem_wait or finished. */
  function ListenerStep(s: State, succeeds: bool): Option<State> {
    match s.listener
    case LoopTest => Some(Go(s, if s.running then Wait else Stopped))
    case Wait => if s.free > 0 then Some(Go(s.(free := s.free - 1), Recheck)) else None
    case Recheck => Some(if s.running then Go(s, Accept) else Go(Post(s), Stopped))
    case Accept => Some(if succeeds then Go(s, Allocate) else Go(Post(s), AcceptFailed))
    case AcceptFailed => Some(Go(s, if s.running then LoopTest else Stopped))
    case Allocate => Some(if succeeds then Go(s, Spawn) else Go(Post(s), LoopTest))
    case Spawn =>
      Some(if succeeds
           then Go(s.(workers := s.workers[s.spawned := Reading], spawned := s.spawned + 1), LoopTest)
           else Go(Post(s), LoopTest))
    case Stopped => None
  }

  /** A critical step of a worker: agent_chat, one provider call or one tool call at a time. */
  function AgentStep(env: Settings, w: World, h: seq<Message>, clock: nat, worker: Worker): (seq<Message>, nat, Worker)
    requires worker.HasAgent? || worker.Asking? || worker.Running?
  {
    match worker
    case HasAgent(user) =>
      if user == "" then (h, clock, Unlocking(user, Some(EMPTY_MESSAGE_REPLY)))
      else
        var t := Begin(env, h, clock, user);
        (t.h, t.clock, Asking(user, |Opening(env, h)|, 0, t.compacted))
    case Asking(user, pre, iter, compacted) =>
      if iter >= env.maxIterations then (RollBack(h, pre), clock, Unlocking(user, Some(MAX_ITERATIONS_REPLY)))
      else
        var reply := w.reply(clock, h);
        if reply.Failure? then (RollBack(h, pre), clock + 1, Unlocking(user, Some(reply.error)))
        else
          var content := StripThinkTags(reply.content);
          var said := Turn(h, clock + 1, compacted).Append(env.Limit(), AssistantMessage(content, reply.calls));
          (said.h, said.clock,
           if reply.calls != [] then Running(user, pre, iter, said.compacted, reply.calls)
           else Unlocking(user, content))
    case Running(user, pre, iter, compacted, calls) =>
      if calls == [] then (h, clock, Asking(user, pre, iter + 1, compacted))
      else
        var m := ToolMessage(w.run(clock, calls[0]), calls[0]);
        var t := Turn(h, clock + 1, compacted).Append(env.Limit(), m);
        (t.h, t.clock, Running(user, pre, iter, t.compacted, calls[1..]))
  }

  /** gateway_conn_thread; None when blocked on the mutex. */
  function WorkerStep(env: Settings, w: World, s: State, id: nat, request: Request): Option<State>
    requires id in s.workers
  {
    match s.workers[id]
    case Reading =>
      var next := if request.Chatting? && request.user != "" then WantsAgent(request.user) else Leaving;
      Some(s.(workers := s.workers[id := next]))
    case WantsAgent(user) =>
      if s.holder.Some? then None
      else Some(s.(workers := s.workers[id := HasAgent(user)], holder := Some(id), turns := s.turns + [Say(user)]))
    case Unlocking(user, reply) =>
      var turn := if |s.turns| > 0 then |s.turns| - 1 else 0;
      Some(s.(workers := s.workers[id := Answering(turn, user, reply)], holder := None))
    case Answering(turn, user, reply) =>
      Some(s.(workers := s.workers[id := Leaving], answers := s.answers + [Sent(turn, user, reply)]))
    case Leaving =>
      Some(Post(s.(workers := s.workers - {id})))
    case _ =>
      var (h, clock, worker) := AgentStep(env, w, s.h, s.clock, s.workers[id]);
      Some(s.(workers := s.workers[id := worker], h := h, clock := clock))
  }

  function Do(env: Settings, w: World, s: State, a: Action): Option<State> {
    match a
    case Shutdown => Some(s.(running := false))
    case Listen(succeeds) => ListenerStep(s, succeeds)
    case Work(id, request) => if id in s.workers then WorkerStep(env, w, s, id, request) else None
  }

  /** The state after a run, if no action of it was blocked. */
  function Run(env: Settings, w: World, actions: seq<Action>): Option<State> {
    if actions == [] then Some(Initial())
    else
      var before := Run(env, w, actions[..|actions| - 1]);
      if before.None? then None else Do(env, w, before.value, actions[|actions| - 1])
  }

  // ----- Slots -----

  ghost predicate SlotsConserved(s: State) {
    && s.free + (if s.listener.HoldsSlot() then 1 else 0) + |s.workers| == MAX_THREADS
    && (forall id :: id in s.workers ==> id < s.spawned)
  }

  lemma RemovedSize<T>(m: map<nat, T>, id: nat)
    requires id in m
    ensures |m - {id}| == |m| - 1
  {
    assert (m - {id}).Keys == m.Keys - {id};
    assert |m - {id}| == |(m - {id}).Keys| && |m| == |m.Keys|;
  }

  lemma SlotsListener(s: State, succeeds: bool)
    requires SlotsConserved(s) && ListenerStep(s, succeeds).Some?
    ensures SlotsConserved(ListenerStep(s, succeeds).value)
  {
  }

  lemma SlotsWorker(env: Settings, w: World, s: State, id: nat, request: Request)
    requires SlotsConserved(s) && id in s.workers && WorkerStep(env, w, s, id, request).Some?
    ensures SlotsConserved(WorkerStep(env, w, s, id, request).value)
  {
    hide AgentStep;
    if s.workers[id].Leaving? {
      RemovedSize(s.workers, id);
    }
  }

  lemma SlotsStep(env: Settings, w: World, s: State, a: Action)
    requires SlotsConserved(s) && Do(env, w, s, a).Some?
    ensures SlotsConserved(Do(env, w, s, a).value)
  {
    hide ListenerStep, WorkerStep;
    match a
    case Shutdown =>
    case Listen(succeeds) => SlotsListener(s, succeeds);
    case Work(id, request) => SlotsWorker(env, w, s, id, request);
  }

  /** In every reachable state the free slots, the slot in the listener's hand and the live workers add
      up to the eight slots the semaphore began with, so at most eight workers live at a time and no
      failure or shutdown path loses or doubles a slot. */
  lemma {:induction false} SlotsAreConserved(env: Settings, w: World, actions: seq<Action>)
    requires Run(env, w, actions).Some?
    ensures var s := Run(env, w, actions).value;
            && SlotsConserved(s)
            && |s.workers| <= MAX_THREADS
            && (s.listener.Stopped? && |s.workers| == 0 ==> s.free == MAX_THREADS)
    decreases |actions|
  {
    hide Do;
    if actions != [] {
      var earlier := actions[..|actions| - 1];
      SlotsAreConserved(env, w, earlier);
      SlotsStep(env, w, Run(env, w, earlier).value, actions[|actions| - 1]);
    }
  }

  // ----- The mutex -----

  ghost predicate MutexHeld(s: State) {
    && (forall id :: id in s.workers ==> (s.workers[id].Critical() <==> s.holder == Some(id)))
    && (s.holder.Some? ==> s.holder.value in s.workers)
  }

  lemma MutexListener(s: State, succeeds: bool)
    requires MutexHeld(s) && SlotsConserved(s) && ListenerStep(s, succeeds).Some?
    ensures MutexHeld(ListenerStep(s, succeeds).value)
  {
  }

  lemma MutexWorker(env: Settings, w: World, s: State, id: nat, request: Request)
    requires MutexHeld(s) && id in s.workers && WorkerStep(env, w, s, id, request).Some?
    ensures MutexHeld(WorkerStep(env, w, s, id, request).value)
  {
    hide AgentStep;
    var worker := s.workers[id];
    if worker.HasAgent? || worker.Asking? || worker.Running? {
      AgentStepStaysCritical(env, w, s.h, s.clock, worker);
    }
  }

  lemma MutexStep(env: Settings, w: World, s: State, a: Action)
    requires MutexHeld(s) && SlotsConserved(s) && Do(env, w, s, a).Some?
    ensures MutexHeld(Do(env, w, s, a).value)
  {
    hide ListenerStep, WorkerStep;
    match a
    case Shutdown =>
    case Listen(succeeds) => MutexListener(s, succeeds);
    case Work(id, request) => MutexWorker(env, w, s, id, request);
  }

  lemma AgentStepStaysCritical(env: Settings, w: World, h: seq<Message>, clock: nat, worker: Worker)
    requires worker.HasAgent? || worker.Asking? || worker.Running?
    ensures AgentStep(env, w, h, clock, worker).2.Critical()
  {
  }

  /** At most one worker is between locking and unlocking, and the mutex knows which. */
  lemma {:induction false} MutualExclusion(env: Settings, w: World, actions: seq<Action>)
    requires Run(env, w, actions).Some?
    ensures var s := Run(env, w, actions).value;
            && MutexHeld(s)
            && forall i, j ::
                 i in s.workers && j in s.workers && s.workers[i].Critical() && s.workers[j].Critical() ==> i == j
    decreases |actions|
  {
    hide Do;
    if actions != [] {
      var earlier := actions[..|actions| - 1];
      MutualExclusion(env, w, earlier);
      SlotsAreConserved(env, w, earlier);
      MutexStep(env, w, Run(env, w, earlier).value, actions[|actions| - 1]);
    }
  }

  /** The gateway never deadlocks: until the listener has stopped and every worker has left, the
      listener or some worker can move. */
  lemma NoDeadlock(env: Settings, w: World, actions: seq<Action>)
    requires Run(env, w, actions).Some?
    ensures var s := Run(env, w, actions).value;
            || (s.listener.Stopped? && s.workers == map[])
            || exists a: Action :: !a.Shutdown? && Do(env, w, s, a).Some?
  {
    hide Run, AgentStep;
    var s := Run(env, w, actions).value;
    SlotsAreConserved(env, w, actions);
    MutualExclusion(env, w, actions);
    if s.holder.Some? {
      assert Do(env, w, s, Work(s.holder.value, Other)).Some?;
    } else if s.workers != map[] {
      var id :| id in s.workers;
      assert Do(env, w, s, Work(id, Other)).Some?;
    } else if !s.listener.Stopped? {
      assert Do(env, w, s, Listen(true)).Some?;
    }
  }

  // ----- Serialisability -----

  function Result(o: Outcome): (seq<Message>, nat, Option<string>) {
    (o.h, o.clock, o.reply)
  }

  /** How the turn of a worker in its critical region would end if nothing else ran. */
  function Rest(env: Settings, w: World, h: seq<Message>, clock: nat, worker: Worker)
    : (seq<Message>, nat, Option<string>)
    requires worker.Critical()
  {
    match worker
    case HasAgent(user) => Result(Chat(env, w, h, clock, user))
    case Asking(_, pre, iter, compacted) => Result(Loop(env, w, Turn(h, clock, compacted), pre, iter))
    case Running(_, pre, iter, compacted, calls) =>
      Result(Loop(env, w, RunTools(env, w, Turn(h, clock, compacted), calls), pre, iter + 1))
    case Unlocking(_, reply) => (h, clock, reply)
  }

  /** No step in the critical region changes how the turn will end. */
  lemma RestStep(env: Settings, w: World, h: seq<Message>, clock: nat, worker: Worker)
    requires worker.HasAgent? || worker.Asking? || worker.Running?
    ensures var n := AgentStep(env, w, h, clock, worker);
            n.2.Critical() && n.2.user == worker.user && Rest(env, w, n.0, n.1, n.2) == Rest(env, w, h, clock, worker)
  {
    hide Add, RollBack, StripThinkTags;
    if worker.Asking? && worker.iter < env.maxIterations {
      var t := Turn(h, clock, worker.compacted);
      assert Loop(env, w, t, worker.pre, worker.iter)
          == (var step := Iterate(env, w, t, worker.pre);
              if step.Stop? then step.o else Loop(env, w, step.t, worker.pre, worker.iter + 1));
    }
  }

  /** What the turn with this number ends with when the turns run one after another. */
  function SerialResult(env: Settings, w: World, turns: seq<Event>, turn: nat): (seq<Message>, nat, Option<string>)
    requires turn < |turns| && turns[turn].Say?
  {
    var before := Exec(env, w, turns[..turn]);
    Result(Chat(env, w, before.0, before.1, turns[turn].user))
  }

  ghost predicate RightReply(env: Settings, w: World, turns: seq<Event>, turn: nat, user: string,
                             reply: Option<string>) {
    turn < |turns| && turns[turn] == Say(user) && reply == SerialResult(env, w, turns, turn).2
  }

  /** The agent's state is what the turns taken so far leave when run one after another; while a worker
      is in its turn, that turn is about to end as the serial run does. */
  ghost predicate AgentSerial(env: Settings, w: World, s: State) {
    if s.holder.None? then (s.h, s.clock) == Exec(env, w, s.turns)
    else
      && s.holder.value in s.workers
      && s.turns != []
      && var worker, last := s.workers[s.holder.value], |s.turns| - 1;
         worker.Critical()
         && s.turns[last] == Say(worker.user)
         && Rest(env, w, s.h, s.clock, worker) == SerialResult(env, w, s.turns, last)
  }

  ghost predicate RepliesSerial(env: Settings, w: World, s: State) {
    && (forall id :: id in s.workers && s.workers[id].Answering? ==>
          RightReply(env, w, s.turns, s.workers[id].turn, s.workers[id].user, s.workers[id].reply))
    && (forall k :: 0 <= k < |s.answers| ==>
          RightReply(env, w, s.turns, s.answers[k].turn, s.answers[k].user, s.answers[k].reply))
  }

  lemma RightReplyExtends(env: Settings, w: World, turns: seq<Event>, more: Event, turn: nat, user: string,
                          reply: Option<string>)
    requires RightReply(env, w, turns, turn, user, reply)
    ensures RightReply(env, w, turns + [more], turn, user, reply)
  {
    assert (turns + [more])[..turn] == turns[..turn];
  }

  lemma ExecLast(env: Settings, w: World, turns: seq<Event>)
    requires turns != [] && turns[|turns| - 1].Say?
    ensures var r := SerialResult(env, w, turns, |turns| - 1);
            Exec(env, w, turns) == (r.0, r.1)
  {
  }

  lemma AgentSerialStep(env: Settings, w: World, s: State, a: Action)
    requires AgentSerial(env, w, s) && MutexHeld(s) && SlotsConserved(s) && Do(env, w, s, a).Some?
    ensures AgentSerial(env, w, Do(env, w, s, a).value)
  {
    hide AgentStep, Chat, Exec, Loop;
    if a.Work? {
      var worker := s.workers[a.id];
      if worker.Unlocking? {
        ExecLast(env, w, s.turns);
      } else if worker.Critical() {
        RestStep(env, w, s.h, s.clock, worker);
      } else if worker.WantsAgent? {
        assert (s.turns + [Say(worker.user)])[..|s.turns|] == s.turns;
      }
    }
  }

  lemma RightRepliesExtend(env: Settings, w: World, s: State, more: Event)
    requires RepliesSerial(env, w, s)
    ensures RepliesSerial(env, w, s.(turns := s.turns + [more]))
  {
    hide RightReply;
    forall id | id in s.workers && s.workers[id].Answering?
      ensures RightReply(env, w, s.turns + [more], s.workers[id].turn, s.workers[id].user, s.workers[id].reply)
    {
      RightReplyExtends(env, w, s.turns, more, s.workers[id].turn, s.workers[id].user, s.workers[id].reply);
    }
    forall k | 0 <= k < |s.answers|
      ensures RightReply(env, w, s.turns + [more], s.answers[k].turn, s.answers[k].user, s.answers[k].reply)
    {
      RightReplyExtends(env, w, s.turns, more, s.answers[k].turn, s.answers[k].user, s.answers[k].reply);
    }
  }

  lemma RepliesSerialStep(env: Settings, w: World, s: State, a: Action)
    requires AgentSerial(env, w, s) && RepliesSerial(env, w, s) && MutexHeld(s) && SlotsConserved(s)
    requires Do(env, w, s, a).Some?
    ensures RepliesSerial(env, w, Do(env, w, s, a).value)
  {
    hide Chat, Exec, Loop, SerialResult, AgentStep;
    var s' := Do(env, w, s, a).value;
    if a.Work? {
      var worker := s.workers[a.id];
      if worker.WantsAgent? {
        RightRepliesExtend(env, w, s, Say(worker.user));
      } else if worker.Critical() && !worker.Unlocking? {
        AgentStepStaysCritical(env, w, s.h, s.clock, worker);
      } else if worker.Unlocking? {
        assert RightReply(env, w, s.turns, |s.turns| - 1, worker.user, worker.reply);
      }
    }
  }

  lemma {:induction false} SerialInvariant(env: Settings, w: World, actions: seq<Action>)
    requires Run(env, w, actions).Some?
    ensures var s := Run(env, w, actions).value;
            AgentSerial(env, w, s) && RepliesSerial(env, w, s)
    decreases |actions|
  {
    if actions != [] {
      hide Do, AgentSerial, RepliesSerial;
      var earlier := actions[..|actions| - 1];
      var s := Run(env, w, earlier).value;
      SerialInvariant(env, w, earlier);
      SlotsAreConserved(env, w, earlier);
      MutualExclusion(env, w, earlier);
      AgentSerialStep(env, w, s, actions[|actions| - 1]);
      RepliesSerialStep(env, w, s, actions[|actions| - 1]);
    }
  }

  /** Whatever the interleaving: once the mutex is free, the history is that of the turns run one after
      another in the order in which the mutex was taken, and every reply ever sent is the one that
      turn gets in the serial run. */
  lemma Serialisable(env: Settings, w: World, actions: seq<Action>)
    requires Run(env, w, actions).Some?
    ensures var s := Run(env, w, actions).value;
            && (s.holder.None? ==> (s.h, s.clock) == Exec(env, w, s.turns) && Sound(env, s.h))
            && (forall k :: 0 <= k < |s.answers| ==>
                  RightReply(env, w, s.turns, s.answers[k].turn, s.answers[k].user, s.answers[k].reply))
  {
    hide Run, Exec, RightReply, Sound;
    SerialInvariant(env, w, actions);
    RunSound(env, w, Run(env, w, actions).value.turns);
  }

  // ----- Every turn is answered once -----

  /** The worker with this id, or the k-th reply sent, carries the outcome of the turn. */
  predicate Carries(s: State, id: nat, turn: nat) {
    id in s.workers && s.workers[id].Answering? && s.workers[id].turn == turn
  }

  predicate SentAt(s: State, k: nat, turn: nat) {
    k < |s.answers| && s.answers[k].turn == turn
  }

  ghost predicate Settled(s: State, turn: nat) {
    (exists id: nat :: Carries(s, id, turn)) || (exists k: nat :: SentAt(s, k, turn))
  }

  /** The turns that are over: all but the one the holder of the mutex is in. */
  function Over(s: State): int {
    |s.turns| - (if s.holder.Some? then 1 else 0)
  }

  ghost predicate AnsweredOnce(s: State) {
    && (forall turn: nat :: turn < Over(s) ==> Settled(s, turn))
    && (forall id: nat, turn: nat :: Carries(s, id, turn) ==> turn < Over(s))
    && (forall k: nat, turn: nat :: SentAt(s, k, turn) ==> turn < Over(s))
    && (forall id: nat, id': nat, turn: nat :: Carries(s, id, turn) && Carries(s, id', turn) ==> id == id')
    && (forall k: nat, k': nat, turn: nat :: SentAt(s, k, turn) && SentAt(s, k', turn) ==> k == k')
    && (forall id: nat, k: nat, turn: nat :: Carries(s, id, turn) && SentAt(s, k, turn) ==> false)
  }

  /** How one step moves an outcome on: out of the critical region into a worker's hands, and out of
      its hands onto the record. */
  ghost predicate Unlocks(s: State, s': State, id: nat) {
    && Over(s') == Over(s) + 1 == |s.turns|
    && (forall i: nat, turn: nat :: Carries(s', i, turn) <==> Carries(s, i, turn) || (i == id && turn == Over(s)))
    && (forall k: nat, turn: nat :: SentAt(s', k, turn) <==> SentAt(s, k, turn))
  }

  ghost predicate Sends(s: State, s': State, id: nat, sent: nat) {
    && Over(s') == Over(s) && Carries(s, id, sent)
    && (forall i: nat, turn: nat :: Carries(s', i, turn) <==> Carries(s, i, turn) && i != id)
    && (forall k: nat, turn: nat :: SentAt(s', k, turn) <==> SentAt(s, k, turn) || (k == |s.answers| && turn == sent))
  }

  ghost predicate Keeps(s: State, s': State) {
    && Over(s') == Over(s)
    && (forall i: nat, turn: nat :: Carries(s', i, turn) <==> Carries(s, i, turn))
    && (forall k: nat, turn: nat :: SentAt(s', k, turn) <==> SentAt(s, k, turn))
  }

  lemma ListenerKeeps(s: State, succeeds: bool)
    requires SlotsConserved(s) && ListenerStep(s, succeeds).Some?
    ensures Keeps(s, ListenerStep(s, succeeds).value)
  {
  }

  lemma WorkerMoves(env: Settings, w: World, s: State, id: nat, request: Request)
    requires MutexHeld(s) && id in s.workers && WorkerStep(env, w, s, id, request).Some?
    requires s.holder.Some? ==> s.turns != []
    ensures var s' := WorkerStep(env, w, s, id, request).value;
            if s.workers[id].Unlocking? then Unlocks(s, s', id)
            else if s.workers[id].Answering? then Sends(s, s', id, s.workers[id].turn)
            else Keeps(s, s')
  {
    hide AgentStep;
    var worker := s.workers[id];
    if worker.HasAgent? || worker.Asking? || worker.Running? {
      AgentStepStaysCritical(env, w, s.h, s.clock, worker);
    }
  }

  lemma HowStepsMove(env: Settings, w: World, s: State, a: Action)
    requires MutexHeld(s) && SlotsConserved(s) && Do(env, w, s, a).Some?
    requires s.holder.Some? ==> s.turns != []
    ensures var s' := Do(env, w, s, a).value;
            if a.Work? && s.workers[a.id].Unlocking? then Unlocks(s, s', a.id)
            else if a.Work? && s.workers[a.id].Answering? then Sends(s, s', a.id, s.workers[a.id].turn)
            else Keeps(s, s')
  {
    hide ListenerStep, WorkerStep, Unlocks, Sends;
    match a
    case Shutdown =>
    case Listen(succeeds) => ListenerKeeps(s, succeeds);
    case Work(id, request) => WorkerMoves(env, w, s, id, request);
  }

  lemma AnsweredOnceStep(env: Settings, w: World, s: State, a: Action)
    requires AnsweredOnce(s) && MutexHeld(s) && SlotsConserved(s) && Do(env, w, s, a).Some?
    requires s.holder.Some? ==> s.turns != []
    ensures AnsweredOnce(Do(env, w, s, a).value)
  {
    HowStepsMove(env, w, s, a);
    hide Do, SentAt, Over;
    var s' := Do(env, w, s, a).value;
    forall turn: nat | turn < Over(s')
      ensures Settled(s', turn)
    {
      if turn < Over(s) {
        assert Settled(s, turn);
        if id: nat :| Carries(s, id, turn) {
          assert Carries(s', id, turn) || SentAt(s', |s.answers|, turn);
        } else {
          var k: nat :| SentAt(s, k, turn);
          assert SentAt(s', k, turn);
        }
      } else {
        assert Carries(s', a.id, turn);
      }
    }
  }

  /** No reply is lost and none is sent twice: every turn that has left the critical region either has
      exactly one reply on record or is still in the hands of exactly one worker. */
  lemma {:induction false} EveryTurnAnsweredOnce(env: Settings, w: World, actions: seq<Action>)
    requires Run(env, w, actions).Some?
    ensures AnsweredOnce(Run(env, w, actions).value)
    decreases |actions|
  {
    if actions != [] {
      hide Do, AgentSerial, RepliesSerial, AnsweredOnce;
      var earlier := actions[..|actions| - 1];
      var s := Run(env, w, earlier).value;
      EveryTurnAnsweredOnce(env, w, earlier);
      SlotsAreConserved(env, w, earlier);
      MutualExclusion(env, w, earlier);
      SerialInvariant(env, w, earlier);
      HolderHasTurn(env, w, s);
      AnsweredOnceStep(env, w, s, actions[|actions| - 1]);
    }
  }

  lemma HolderHasTurn(env: Settings, w: World, s: State)
    requires AgentSerial(env, w, s)
    ensures s.holder.Some? ==> s.turns != []
  {
  }
}
