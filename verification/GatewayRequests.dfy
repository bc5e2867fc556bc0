/** Every chat request is taken to the agent and answered, every connection gets its worker, and the gateway
    can always finish. */
module GatewayRequests {
  import opened Text
  import opened Conversation
  import opened Gateway

  // ----- Requests -----

  /** The text of the chat request that an action reads from a connection, if it reads one. */
  function Reads(s: State, a: Action): multiset<string> {
    match a
    case Work(id, Chatting(user)) =>
      if user != "" && id in s.workers && s.workers[id].Reading? then multiset{user} else multiset{}
    case _ => multiset{}
  }

  /** All chat requests that came in during a run. */
  function Requests(env: Settings, w: World, actions: seq<Action>): multiset<string> {
    if actions == [] then multiset{}
    else
      var before := Run(env, w, actions[..|actions| - 1]);
      Requests(env, w, actions[..|actions| - 1])
      + if before.None? then multiset{} else Reads(before.value, actions[|actions| - 1])
  }

  /** The request a worker holds; with `waiting`, only one that has not been taken to the agent yet. */
  function Holding(worker: Worker, waiting: bool): multiset<string> {
    match worker
    case WantsAgent(user) => multiset{user}
    case HasAgent(user) => if waiting then multiset{} else multiset{user}
    case Asking(user, _, _, _) => if waiting then multiset{} else multiset{user}
    case Running(user, _, _, _, _) => if waiting then multiset{} else multiset{user}
    case Unlocking(user, _) => if waiting then multiset{} else multiset{user}
    case Answering(_, user, _) => if waiting then multiset{} else multiset{user}
    case _ => multiset{}
  }

  function HeldBy(workers: map<nat, Worker>, n: nat, waiting: bool): multiset<string> {
    if n == 0 then multiset{}
    else
      HeldBy(workers, n - 1, waiting)
      + if n - 1 in workers then Holding(workers[n - 1], waiting) else multiset{}
  }

  function Spoken(turns: seq<Event>): multiset<string> {
    if turns == [] then multiset{}
    else
      var last := turns[|turns| - 1];
      Spoken(turns[..|turns| - 1]) + if last.Say? then multiset{last.user} else multiset{}
  }

  function Replied(answers: seq<Sent>): multiset<string> {
    if answers == [] then multiset{}
    else Replied(answers[..|answers| - 1]) + multiset{answers[|answers| - 1].user}
  }

  lemma SpokenNext(turns: seq<Event>, user: string)
    ensures Spoken(turns + [Say(user)]) == Spoken(turns) + multiset{user}
  {
    assert (turns + [Say(user)])[..|turns|] == turns;
  }

  lemma RepliedNext(answers: seq<Sent>, sent: Sent)
    ensures Replied(answers + [sent]) == Replied(answers) + multiset{sent.user}
  {
    assert (answers + [sent])[..|answers|] == answers;
  }

  lemma {:induction false} HeldElsewhere(workers: map<nat, Worker>, others: map<nat, Worker>, n: nat, waiting: bool)
    requires forall i: nat :: i < n ==> (i in workers <==> i in others) && (i in workers ==> workers[i] == others[i])
    ensures HeldBy(workers, n, waiting) == HeldBy(others, n, waiting)
  {
    if n > 0 { HeldElsewhere(workers, others, n - 1, waiting); }
  }

  lemma Swap(a: multiset<string>, b: multiset<string>, c: multiset<string>)
    ensures a + b + c == a + c + b
  {
  }

  /** What is gained on one side and lost on the other. */
  lemma Balance(held: multiset<string>, held': multiset<string>, told: multiset<string>, told': multiset<string>,
                before: multiset<string>, after: multiset<string>, added: multiset<string>)
    requires held' + before == held + after && told' + after == told + before + added
    ensures held' + told' == held + told + added
  {
    forall x: string ensures (held' + told')[x] == (held + told + added)[x] {
      assert (held' + before)[x] == (held + after)[x] && (told' + after)[x] == (told + before + added)[x];
    }
  }

  /** A worker that moves on gives its request back and holds another. */
  lemma {:induction false} HeldMoves(workers: map<nat, Worker>, id: nat, worker: Worker, n: nat, waiting: bool)
    requires id < n && id in workers
    ensures HeldBy(workers[id := worker], n, waiting) + Holding(workers[id], waiting)
         == HeldBy(workers, n, waiting) + Holding(worker, waiting)
  {
    hide Holding;
    if id == n - 1 {
      HeldElsewhere(workers[id := worker], workers, n - 1, waiting);
    } else {
      HeldMoves(workers, id, worker, n - 1, waiting);
      var other := if n - 1 in workers then Holding(workers[n - 1], waiting) else multiset{};
      Swap(HeldBy(workers[id := worker], n - 1, waiting), other, Holding(workers[id], waiting));
      Swap(HeldBy(workers, n - 1, waiting), other, Holding(worker, waiting));
    }
  }

  lemma {:induction false} HeldLeaves(workers: map<nat, Worker>, id: nat, n: nat, waiting: bool)
    requires id < n && id in workers
    ensures HeldBy(workers - {id}, n, waiting) + Holding(workers[id], waiting) == HeldBy(workers, n, waiting)
  {
    hide Holding;
    if id == n - 1 {
      HeldElsewhere(workers - {id}, workers, n - 1, waiting);
    } else {
      HeldLeaves(workers, id, n - 1, waiting);
      var other := if n - 1 in workers then Holding(workers[n - 1], waiting) else multiset{};
      Swap(HeldBy(workers - {id}, n - 1, waiting), other, Holding(workers[id], waiting));
    }
  }

  /** What was said to the agent, or what was answered. */
  function Told(s: State, waiting: bool): multiset<string> {
    if waiting then Spoken(s.turns) else Replied(s.answers)
  }

  /** What is held, and what was answered or said. */
  function Accounted(s: State, waiting: bool): multiset<string> {
    HeldBy(s.workers, s.spawned, waiting) + Told(s, waiting)
  }

  lemma WorkerShape(env: Settings, w: World, s: State, id: nat, request: Request)
    requires id in s.workers && WorkerStep(env, w, s, id, request).Some?
    ensures var s' := WorkerStep(env, w, s, id, request).value;
            && s'.spawned == s.spawned
            && if s.workers[id].Leaving? then s'.workers == s.workers - {id}
               else id in s'.workers && s'.workers == s.workers[id := s'.workers[id]]
  {
    hide AgentStep;
  }

  /** A step inside the locked region says and answers nothing, and keeps the request. */
  lemma AgentTells(env: Settings, w: World, s: State, id: nat, request: Request)
    requires id in s.workers && (s.workers[id].HasAgent? || s.workers[id].Asking? || s.workers[id].Running?)
    ensures var next := WorkerStep(env, w, s, id, request);
            && next.Some? && id in next.value.workers
            && next.value.turns == s.turns && next.value.answers == s.answers
            && next.value.workers[id].Critical() && next.value.workers[id].user == s.workers[id].user
  {
    hide AgentStep;
    RestStep(env, w, s.h, s.clock, s.workers[id]);
  }

  lemma HoldsItsUser(worker: Worker, waiting: bool)
    requires worker.Critical()
    ensures Holding(worker, waiting) == if waiting then multiset{} else multiset{worker.user}
  {
  }

  /** The steps outside the locked region. */
  lemma PlainStep(env: Settings, w: World, s: State, id: nat, request: Request)
    requires id in s.workers && WorkerStep(env, w, s, id, request).Some?
    ensures var s' := WorkerStep(env, w, s, id, request).value;
            match s.workers[id]
            case Reading =>
              && s'.turns == s.turns && s'.answers == s.answers && id in s'.workers
              && s'.workers[id] == if request.Chatting? && request.user != "" then WantsAgent(request.user) else Leaving
            case WantsAgent(user) =>
              && s'.turns == s.turns + [Say(user)] && s'.answers == s.answers
              && id in s'.workers && s'.workers[id] == HasAgent(user)
            case Unlocking(user, reply) =>
              && s'.turns == s.turns && s'.answers == s.answers
              && id in s'.workers && s'.workers[id].Answering? && s'.workers[id].user == user
            case Answering(turn, user, reply) =>
              && s'.turns == s.turns && s'.answers == s.answers + [Sent(turn, user, reply)]
              && id in s'.workers && s'.workers[id] == Leaving
            case Leaving => s'.turns == s.turns && s'.answers == s.answers && id !in s'.workers
            case _ => true
  {
    hide AgentStep;
  }

  lemma SaysNothing(s: State, s': State, waiting: bool)
    requires s'.turns == s.turns && s'.answers == s.answers
    ensures Told(s', waiting) == Told(s, waiting)
  {
  }

  lemma Sum(told: multiset<string>, told': multiset<string>, more: multiset<string>, before: multiset<string>,
            after: multiset<string>, request: multiset<string>)
    requires told' == told + more && more + after == before + request
    ensures told' + after == told + before + request
  {
    forall x: string ensures (told' + after)[x] == (told + before + request)[x] {
      assert (more + after)[x] == (before + request)[x];
    }
  }

  lemma Alone(m: multiset<string>)
    ensures m + multiset{} == m && multiset{} + m == m
  {
  }

  lemma PlainSays(env: Settings, w: World, s: State, id: nat, request: Request, waiting: bool)
    requires id in s.workers && WorkerStep(env, w, s, id, request).Some?
    requires !s.workers[id].HasAgent? && !s.workers[id].Asking? && !s.workers[id].Running?
    ensures Told(WorkerStep(env, w, s, id, request).value, waiting)
         == Told(s, waiting) + MoreTold(s.workers[id], waiting)
  {
    hide WorkerStep, Told;
    PlainStep(env, w, s, id, request);
    Alone(Told(s, waiting));
    var s' := WorkerStep(env, w, s, id, request).value;
    match s.workers[id]
    case WantsAgent(user) => Speaks(s, s', user, waiting);
    case Answering(turn, user, reply) => Replies(s, s', Sent(turn, user, reply), waiting);
    case _ => SaysNothing(s, s', waiting);
  }

  /** The request goes from one place to the next: from the connection into the worker's hands, or from there
      to where it is counted. */
  predicate Moves(worker: Worker, next: Option<Worker>, incoming: multiset<string>, waiting: bool) {
    MoreTold(worker, waiting) + (if next.Some? then Holding(next.value, waiting) else multiset{})
    == Holding(worker, waiting) + incoming
  }

  lemma Received(user: string, waiting: bool)
    ensures Moves(Reading, Some(WantsAgent(user)), multiset{user}, waiting)
    ensures Moves(Reading, Some(Leaving), multiset{}, waiting)
  {
  }

  lemma Taken(user: string, waiting: bool)
    ensures Moves(WantsAgent(user), Some(HasAgent(user)), multiset{}, waiting)
  {
    Alone(multiset{user});
  }

  lemma Unlocked(user: string, reply: Option<string>, next: Worker, waiting: bool)
    requires next.Answering? && next.user == user
    ensures Moves(Unlocking(user, reply), Some(next), multiset{}, waiting)
  {
    Alone(multiset{user});
  }

  lemma Answered(turn: nat, user: string, reply: Option<string>, waiting: bool)
    ensures Moves(Answering(turn, user, reply), Some(Leaving), multiset{}, waiting)
    ensures Moves(Leaving, None, multiset{}, waiting)
  {
    Alone(multiset{user});
  }

  lemma PlainMoves(env: Settings, w: World, s: State, id: nat, request: Request, waiting: bool)
    requires id in s.workers && WorkerStep(env, w, s, id, request).Some?
    requires !s.workers[id].HasAgent? && !s.workers[id].Asking? && !s.workers[id].Running?
    ensures var s' := WorkerStep(env, w, s, id, request).value;
            Moves(s.workers[id], if id in s'.workers then Some(s'.workers[id]) else None,
                  Reads(s, Work(id, request)), waiting)
  {
    hide WorkerStep, Moves;
    PlainStep(env, w, s, id, request);
    match s.workers[id]
    case Reading => Received(if request.Chatting? then request.user else "", waiting);
    case WantsAgent(user) => Taken(user, waiting);
    case Unlocking(user, reply) =>
      Unlocked(user, reply, WorkerStep(env, w, s, id, request).value.workers[id], waiting);
    case Answering(turn, user, reply) => Answered(turn, user, reply, waiting);
    case Leaving => Answered(0, "", None, waiting);
  }

  lemma PlainHolds(env: Settings, w: World, s: State, id: nat, request: Request, waiting: bool)
    requires id in s.workers && WorkerStep(env, w, s, id, request).Some?
    requires !s.workers[id].HasAgent? && !s.workers[id].Asking? && !s.workers[id].Running?
    ensures var s' := WorkerStep(env, w, s, id, request).value;
            var after := if id in s'.workers then Holding(s'.workers[id], waiting) else multiset{};
            MoreTold(s.workers[id], waiting) + after == Holding(s.workers[id], waiting) + Reads(s, Work(id, request))
  {
    hide WorkerStep, MoreTold, Holding, Reads;
    PlainMoves(env, w, s, id, request, waiting);
  }

  /** How one step of a worker changes what it holds and what is said or answered. */
  lemma WorkerTells(env: Settings, w: World, s: State, id: nat, request: Request, waiting: bool)
    requires id in s.workers && WorkerStep(env, w, s, id, request).Some?
    ensures var s' := WorkerStep(env, w, s, id, request).value;
            var after := if id in s'.workers then Holding(s'.workers[id], waiting) else multiset{};
            Told(s', waiting) + after
            == Told(s, waiting) + Holding(s.workers[id], waiting) + Reads(s, Work(id, request))
  {
    hide WorkerStep, Told, Holding, Reads, MoreTold;
    var s', worker := WorkerStep(env, w, s, id, request).value, s.workers[id];
    if worker.HasAgent? || worker.Asking? || worker.Running? {
      CriticalTells(env, w, s, id, request, waiting);
    } else {
      PlainSays(env, w, s, id, request, waiting);
      PlainHolds(env, w, s, id, request, waiting);
      Sum(Told(s, waiting), Told(s', waiting), MoreTold(worker, waiting), Holding(worker, waiting),
          if id in s'.workers then Holding(s'.workers[id], waiting) else multiset{}, Reads(s, Work(id, request)));
    }
  }

  function MoreTold(worker: Worker, waiting: bool): multiset<string> {
    if worker.WantsAgent? && waiting then multiset{worker.user}
    else if worker.Answering? && !waiting then multiset{worker.user}
    else multiset{}
  }

  lemma Speaks(s: State, s': State, user: string, waiting: bool)
    requires s'.turns == s.turns + [Say(user)] && s'.answers == s.answers
    ensures Told(s', waiting) == Told(s, waiting) + if waiting then multiset{user} else multiset{}
  {
    hide Spoken;
    SpokenNext(s.turns, user);
  }

  lemma Replies(s: State, s': State, sent: Sent, waiting: bool)
    requires s'.turns == s.turns && s'.answers == s.answers + [sent]
    ensures Told(s', waiting) == Told(s, waiting) + if waiting then multiset{} else multiset{sent.user}
  {
    hide Replied;
    RepliedNext(s.answers, sent);
  }

  lemma CriticalTells(env: Settings, w: World, s: State, id: nat, request: Request, waiting: bool)
    requires id in s.workers && (s.workers[id].HasAgent? || s.workers[id].Asking? || s.workers[id].Running?)
    ensures var next := WorkerStep(env, w, s, id, request);
            && next.Some? && id in next.value.workers
            && Told(next.value, waiting) + Holding(next.value.workers[id], waiting)
               == Told(s, waiting) + Holding(s.workers[id], waiting) + Reads(s, Work(id, request))
  {
    hide Spoken, Replied, WorkerStep, Holding;
    AgentTells(env, w, s, id, request);
    HoldsItsUser(s.workers[id], waiting);
    HoldsItsUser(WorkerStep(env, w, s, id, request).value.workers[id], waiting);
  }

  lemma WorkerAccounts(env: Settings, w: World, s: State, id: nat, request: Request, waiting: bool)
    requires SlotsConserved(s) && id in s.workers && WorkerStep(env, w, s, id, request).Some?
    ensures Accounted(WorkerStep(env, w, s, id, request).value, waiting)
         == Accounted(s, waiting) + Reads(s, Work(id, request))
  {
    hide HeldBy, Told, WorkerStep, Reads, Holding;
    WorkerShape(env, w, s, id, request);
    var s', before := WorkerStep(env, w, s, id, request).value, Holding(s.workers[id], waiting);
    WorkerTells(env, w, s, id, request, waiting);
    var held, held' := HeldBy(s.workers, s.spawned, waiting), HeldBy(s'.workers, s.spawned, waiting);
    var after := if id in s'.workers then Holding(s'.workers[id], waiting) else multiset{};
    if s.workers[id].Leaving? {
      HeldLeaves(s.workers, id, s.spawned, waiting);
    } else {
      HeldMoves(s.workers, id, s'.workers[id], s.spawned, waiting);
    }
    Balance(held, held', Told(s, waiting), Told(s', waiting), before, after, Reads(s, Work(id, request)));
  }

  lemma HeldGrows(workers: map<nat, Worker>, n: nat, waiting: bool)
    requires n !in workers
    ensures HeldBy(workers[n := Reading], n + 1, waiting) == HeldBy(workers, n, waiting)
  {
    HeldElsewhere(workers[n := Reading], workers, n, waiting);
  }

  lemma ListenerAccounts(s: State, succeeds: bool, waiting: bool)
    requires SlotsConserved(s) && ListenerStep(s, succeeds).Some?
    ensures Accounted(ListenerStep(s, succeeds).value, waiting) == Accounted(s, waiting)
  {
    hide HeldBy, Spoken, Replied;
    if s.listener.Spawn? && succeeds { HeldGrows(s.workers, s.spawned, waiting); }
  }

  /** Over every run: the chat requests that came in are those that wait for the agent together with what was
      said to it, and they are those in a worker's hands together with those that were answered. */
  lemma {:induction false} RequestsAreConserved(env: Settings, w: World, actions: seq<Action>, waiting: bool)
    requires Run(env, w, actions).Some?
    ensures Requests(env, w, actions) == Accounted(Run(env, w, actions).value, waiting)
    decreases |actions|
  {
    hide Accounted, Reads, WorkerStep, ListenerStep;
    if actions == [] {
      NothingHeld(waiting);
    } else {
      var earlier, a := actions[..|actions| - 1], actions[|actions| - 1];
      var s := Run(env, w, earlier).value;
      RequestsAreConserved(env, w, earlier, waiting);
      SlotsAreConserved(env, w, earlier);
      match a
      case Shutdown => NoRequest(s, a, waiting);
      case Listen(succeeds) =>
        NoRequest(s, a, waiting);
        ListenerAccounts(s, succeeds, waiting);
      case Work(id, request) => WorkerAccounts(env, w, s, id, request, waiting);
    }
  }

  lemma NothingHeld(waiting: bool)
    ensures Accounted(Initial(), waiting) == multiset{}
  {
  }

  lemma NoRequest(s: State, a: Action, waiting: bool)
    requires !a.Work?
    ensures Reads(s, a) == multiset{} && Accounted(s.(running := false), waiting) == Accounted(s, waiting)
  {
  }

  // ----- Finishing -----

  lemma RunNext(env: Settings, w: World, actions: seq<Action>, a: Action)
    requires Run(env, w, actions).Some?
    ensures Run(env, w, actions + [a]) == Do(env, w, Run(env, w, actions).value, a)
    ensures Requests(env, w, actions + [a]) == Requests(env, w, actions) + Reads(Run(env, w, actions).value, a)
  {
    assert (actions + [a])[..|actions|] == actions;
  }

  function Stage(worker: Worker): nat {
    match worker
    case Reading => 7
    case WantsAgent(_) => 6
    case HasAgent(_) => 5
    case Asking(_, _, _, _) => 4
    case Running(_, _, _, _, _) => 4
    case Unlocking(_, _) => 3
    case Answering(_, _, _) => 2
    case Leaving => 1
  }

  /** What is left of the agent's loop. */
  function Left(env: Settings, worker: Worker): nat {
    match worker
    case Asking(_, _, iter, _) => if iter < env.maxIterations then 2 * (env.maxIterations - iter) else 0
    case Running(_, _, iter, _, _) => if iter < env.maxIterations then 2 * (env.maxIterations - iter) - 1 else 1
    case _ => 0
  }

  function Calls(worker: Worker): nat {
    if worker.Running? then |worker.calls| else 0
  }

  /** A worker that the mutex does not block moves one step nearer to its end, and nobody else moves. */
  lemma WorkerAdvances(env: Settings, w: World, s: State, id: nat)
    requires MutexHeld(s) && id in s.workers && (s.holder.None? || s.holder == Some(id))
    ensures var next := WorkerStep(env, w, s, id, Other);
            && next.Some?
            && var s' := next.value;
               && s'.listener == s.listener && s'.running == s.running && s'.spawned == s.spawned
               && (s'.holder.None? || s'.holder == Some(id))
               && if s.workers[id].Leaving? then s'.workers == s.workers - {id} && s'.holder.None?
                  else
                    && s'.workers == s.workers[id := s'.workers[id]]
                    && var before, after := s.workers[id], s'.workers[id];
                       || Stage(after) < Stage(before)
                       || (Stage(after) == Stage(before)
                           && (Left(env, after) < Left(env, before)
                               || (Left(env, after) == Left(env, before) && Calls(after) < Calls(before))))
  {
    hide Add, Begin, Opening;
  }

  /** A worker that has the agent, or could have it, can go on to its end. */
  lemma {:induction false} WorkerFinishes(env: Settings, w: World, actions: seq<Action>, id: nat, worker: Worker)
    returns (more: seq<Action>)
    requires Run(env, w, actions).Some?
    requires var s := Run(env, w, actions).value;
             id in s.workers && s.workers[id] == worker && (s.holder.None? || s.holder == Some(id))
    ensures Run(env, w, actions + more).Some? && Requests(env, w, actions + more) == Requests(env, w, actions)
    ensures var s, s' := Run(env, w, actions).value, Run(env, w, actions + more).value;
            && s'.workers == s.workers - {id} && s'.holder.None?
            && s'.listener == s.listener && s'.running == s.running && s'.spawned == s.spawned
    decreases Stage(worker), Left(env, worker), Calls(worker)
  {
    hide Run, Requests, WorkerStep, Stage, Left, Calls;
    MutualExclusion(env, w, actions);
    var s, a := Run(env, w, actions).value, Work(id, Other);
    WorkerAdvances(env, w, s, id);
    RunNext(env, w, actions, a);
    if s.workers[id].Leaving? {
      more := [a];
    } else {
      var s' := Run(env, w, actions + [a]).value;
      var rest := WorkerFinishes(env, w, actions + [a], id, s'.workers[id]);
      more := [a] + rest;
      assert actions + [a] + rest == actions + more;
      assert s'.workers - {id} == s.workers - {id};
    }
  }

  /** All workers can go on to their end, one after the other, without a new connection. */
  lemma {:induction false} AllFinish(env: Settings, w: World, actions: seq<Action>) returns (more: seq<Action>)
    requires Run(env, w, actions).Some?
    ensures Run(env, w, actions + more).Some? && Requests(env, w, actions + more) == Requests(env, w, actions)
    ensures var s, s' := Run(env, w, actions).value, Run(env, w, actions + more).value;
            && s'.workers == map[] && s'.holder.None?
            && s'.listener == s.listener && s'.running == s.running && s'.spawned == s.spawned
    decreases |Run(env, w, actions).value.workers|
  {
    hide Run, Requests;
    MutualExclusion(env, w, actions);
    var s := Run(env, w, actions).value;
    if s.workers == map[] {
      more := [];
      assert actions + [] == actions;
    } else {
      var id: nat;
      if s.holder.Some? { id := s.holder.value; } else { id :| id in s.workers; }
      var first := WorkerFinishes(env, w, actions, id, s.workers[id]);
      RemovedSize(s.workers, id);
      var rest := AllFinish(env, w, actions + first);
      more := first + rest;
      assert actions + first + rest == actions + more;
    }
  }

  lemma {:induction false} NobodyHolds(workers: map<nat, Worker>, n: nat, waiting: bool)
    requires workers == map[]
    ensures HeldBy(workers, n, waiting) == multiset{}
  {
    if n > 0 { NobodyHolds(workers, n - 1, waiting); }
  }

  /** From every reachable state the gateway can go on until every chat request that came in has been answered:
      each with one reply, which is the one of its turn in the serial run. */
  lemma EveryRequestIsAnswered(env: Settings, w: World, actions: seq<Action>) returns (more: seq<Action>)
    requires Run(env, w, actions).Some?
    ensures Run(env, w, actions + more).Some? && Requests(env, w, actions + more) == Requests(env, w, actions)
    ensures var s := Run(env, w, actions + more).value;
            && s.workers == map[]
            && Replied(s.answers) == Requests(env, w, actions) == Spoken(s.turns)
            && (forall k :: 0 <= k < |s.answers| ==>
                  RightReply(env, w, s.turns, s.answers[k].turn, s.answers[k].user, s.answers[k].reply))
  {
    hide Run, Requests, HeldBy, RightReply;
    more := AllFinish(env, w, actions);
    var all := actions + more;
    var s := Run(env, w, all).value;
    RequestsAreConserved(env, w, all, false);
    RequestsAreConserved(env, w, all, true);
    NobodyHolds(s.workers, s.spawned, false);
    NobodyHolds(s.workers, s.spawned, true);
    Alone(Replied(s.answers));
    Alone(Spoken(s.turns));
    Serialisable(env, w, all);
  }

  // ----- Connections -----

  /** How many connections were accepted, how many of them were dropped again, and how many were handed to a
      worker of their own. */
  datatype Tally = Tally(accepted: nat, dropped: nat, served: nat)

  function Count(env: Settings, w: World, actions: seq<Action>): Tally {
    if actions == [] then Tally(0, 0, 0)
    else
      var t, before := Count(env, w, actions[..|actions| - 1]), Run(env, w, actions[..|actions| - 1]);
      match actions[|actions| - 1]
      case Listen(succeeds) =>
        if before.None? then t
        else if before.value.listener.Accept? && succeeds then t.(accepted := t.accepted + 1)
        else if before.value.listener.Spawn? && succeeds then t.(served := t.served + 1)
        else if before.value.listener.Allocate? && !succeeds then t.(dropped := t.dropped + 1)
        else if before.value.listener.Spawn? then t.(dropped := t.dropped + 1)
        else t
      case _ => t
  }

  /** Every accepted connection is in the listener's hand, was dropped for want of memory or a thread, or got a
      worker of its own; and the listener stops only when it was told to. */
  lemma {:induction false} ConnectionsAreConserved(env: Settings, w: World, actions: seq<Action>)
    requires Run(env, w, actions).Some?
    ensures var s, t := Run(env, w, actions).value, Count(env, w, actions);
            && t.served == s.spawned
            && t.accepted == t.served + t.dropped + (if s.listener.Allocate? || s.listener.Spawn? then 1 else 0)
            && (s.listener.Stopped? ==> !s.running)
    decreases |actions|
  {
    if actions != [] {
      hide WorkerStep;
      var earlier, a := actions[..|actions| - 1], actions[|actions| - 1];
      ConnectionsAreConserved(env, w, earlier);
      if a.Work? { ListenerStays(env, w, Run(env, w, earlier).value, a.id, a.request); }
    }
  }

  lemma ListenerStays(env: Settings, w: World, s: State, id: nat, request: Request)
    ensures id in s.workers && WorkerStep(env, w, s, id, request).Some? ==>
              var s' := WorkerStep(env, w, s, id, request).value;
              s'.listener == s.listener && s'.running == s.running && s'.spawned == s.spawned
  {
    hide AgentStep;
  }

  function Distance(listener: Listener): nat {
    match listener
    case AcceptFailed => 6
    case LoopTest => 5
    case Wait => 4
    case Recheck => 3
    case Accept => 2
    case Allocate => 1
    case Spawn => 0
    case Stopped => 7
  }

  /** With a free slot a running listener goes on to serve a connection. */
  lemma {:induction false} ListenerServes(env: Settings, w: World, actions: seq<Action>, n: nat)
    returns (more: seq<Action>)
    requires Run(env, w, actions).Some? && n == Distance(Run(env, w, actions).value.listener)
    requires var s := Run(env, w, actions).value; s.running && s.workers == map[]
    ensures Run(env, w, actions + more).Some?
    ensures var s, s' := Run(env, w, actions).value, Run(env, w, actions + more).value;
            s'.spawned == s.spawned + 1 && s'.workers == map[s.spawned := Reading] && s'.running
    decreases n
  {
    hide Run;
    ConnectionsAreConserved(env, w, actions);
    SlotsAreConserved(env, w, actions);
    var s, a := Run(env, w, actions).value, Listen(true);
    RunNext(env, w, actions, a);
    if s.listener.Spawn? {
      more := [a];
    } else {
      var rest := ListenerServes(env, w, actions + [a], Distance(Run(env, w, actions + [a]).value.listener));
      more := [a] + rest;
      assert actions + [a] + rest == actions + more;
    }
  }

  /** As long as the gateway runs, from every reachable state it can go on to serve the next connection, with
      all earlier requests answered. */
  lemma NextConnectionIsServed(env: Settings, w: World, actions: seq<Action>) returns (more: seq<Action>)
    requires Run(env, w, actions).Some? && Run(env, w, actions).value.running
    ensures Run(env, w, actions + more).Some?
    ensures var s, s' := Run(env, w, actions).value, Run(env, w, actions + more).value;
            s'.spawned == s.spawned + 1 && s'.workers == map[s.spawned := Reading] && s'.running
  {
    hide Run, Requests;
    var first := AllFinish(env, w, actions);
    var all := actions + first;
    var rest := ListenerServes(env, w, all, Distance(Run(env, w, all).value.listener));
    more := first + rest;
    assert all + rest == actions + more;
  }

  // ----- After the shutdown -----

  function StopDistance(listener: Listener): nat {
    match listener
    case Stopped => 0
    case LoopTest => 1
    case AcceptFailed => 1
    case Recheck => 1
    case _ => 2
  }

  lemma {:induction false} ListenerStops(env: Settings, w: World, actions: seq<Action>, n: nat)
    returns (more: seq<Action>)
    requires Run(env, w, actions).Some? && n == StopDistance(Run(env, w, actions).value.listener)
    requires var s := Run(env, w, actions).value; !s.running && s.workers == map[]
    ensures Run(env, w, actions + more).Some?
    ensures var s := Run(env, w, actions + more).value; s.listener.Stopped? && s.workers == map[] && s.free == 8
    decreases n
  {
    hide Run;
    SlotsAreConserved(env, w, actions);
    var s, a := Run(env, w, actions).value, Listen(false);
    if s.listener.Stopped? {
      more := [];
      assert actions + [] == actions;
    } else {
      RunNext(env, w, actions, a);
      var rest := ListenerStops(env, w, actions + [a], StopDistance(Run(env, w, actions + [a]).value.listener));
      more := [a] + rest;
      assert actions + [a] + rest == actions + more;
    }
  }

  /** A gateway that was shut down can go on until its listener has stopped and its workers have left, with all
      slots free and every request answered. */
  lemma GatewayStops(env: Settings, w: World, actions: seq<Action>) returns (more: seq<Action>)
    requires Run(env, w, actions).Some? && !Run(env, w, actions).value.running
    ensures Run(env, w, actions + more).Some?
    ensures var s := Run(env, w, actions + more).value; s.listener.Stopped? && s.workers == map[] && s.free == 8
  {
    hide Run, Requests;
    var first := AllFinish(env, w, actions);
    var all := actions + first;
    var rest := ListenerStops(env, w, all, StopDistance(Run(env, w, all).value.listener));
    more := first + rest;
    assert all + rest == actions + more;
  }

  /** Connections that may still get a worker although the gateway was shut down: the one that is being
      accepted. */
  function InHand(s: State): nat {
    if s.listener.Accept? || s.listener.Allocate? || s.listener.Spawn? then 1 else 0
  }

  /** Behind a shutdown at most one more connection gets a worker. */
  lemma {:induction false} OneMoreAtMost(env: Settings, w: World, actions: seq<Action>, more: seq<Action>)
    requires Run(env, w, actions + more).Some? && Run(env, w, actions).Some? && !Run(env, w, actions).value.running
    ensures var s, s' := Run(env, w, actions).value, Run(env, w, actions + more).value;
            !s'.running && s'.spawned + InHand(s') <= s.spawned + InHand(s) <= s.spawned + 1
    decreases |more|
  {
    hide WorkerStep;
    if more == [] {
      assert actions + more == actions;
    } else {
      var earlier, a := more[..|more| - 1], more[|more| - 1];
      assert (actions + more)[..|actions + more| - 1] == actions + earlier;
      OneMoreAtMost(env, w, actions, earlier);
      if a.Work? { ListenerStays(env, w, Run(env, w, actions + earlier).value, a.id, a.request); }
    }
  }
}
