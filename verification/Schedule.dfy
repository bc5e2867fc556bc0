/** The scheduler's task table as a value: what one tick, one added task or one control call does to it,
    and what every run keeps. */
module Schedule {
  import opened Text

  const MAX_TASKS: nat := 64

  datatype Task = Task(id: int, name: Option<string>, command: Option<string>, interval: int, lastRun: int,
                       paused: bool, active: bool)

  /** What happens to a task at a moment: it is added, or its command is run. */
  datatype Mark = Added(id: int, at: int) | Ran(id: int, at: int, command: Option<string>)

  datatype State = State(tasks: seq<Task>, nextId: int)

  /** The three critical regions of the mutex.  `interval` is what parse_interval makes of its text. */
  datatype Event =
    | Tick(now: int)
    | Add(name: Option<string>, command: Option<string>, interval: Option<int>, now: int)
    | Control(id: Option<int>, action: Option<string>)

  datatype Answer = Scheduled(id: int) | ArgumentsMissing | InvalidInterval | MaxTasksReached | Done | NotFound

  // ----- One tick -----

  predicate Due(t: Task, now: int) {
    t.active && !t.paused && now - t.lastRun >= t.interval
  }

  function TickOne(t: Task, now: int): Task {
    if Due(t, now) then t.(lastRun := now) else t
  }

  function TickAll(ts: seq<Task>, now: int): (r: seq<Task>)
    ensures |r| == |ts|
    ensures forall i :: 0 <= i < |ts| ==> r[i] == TickOne(ts[i], now)
  {
    if ts == [] then [] else TickAll(ts[..|ts| - 1], now) + [TickOne(ts[|ts| - 1], now)]
  }

  function Fired(ts: seq<Task>, now: int): seq<Mark> {
    if ts == [] then []
    else
      var t := ts[|ts| - 1];
      Fired(ts[..|ts| - 1], now) + if Due(t, now) then [Ran(t.id, now, t.command)] else []
  }

  // ----- Adding and controlling -----

  function AddAnswer(s: State, e: Event): Answer
    requires e.Add?
  {
    if e.name.None? || e.command.None? || e.interval.None? then ArgumentsMissing
    else if e.interval.value <= 0 then InvalidInterval
    else if |s.tasks| >= MAX_TASKS then MaxTasksReached
    else Scheduled(s.nextId)
  }

  /** The first active task with this id, or the number of tasks. */
  function Position(ts: seq<Task>, id: int): (i: nat)
    ensures i <= |ts|
    ensures i < |ts| ==> ts[i].id == id && ts[i].active
    ensures forall k :: 0 <= k < i ==> !(ts[k].id == id && ts[k].active)
  {
    if ts == [] || (ts[0].id == id && ts[0].active) then 0 else 1 + Position(ts[1..], id)
  }

  function Act(t: Task, action: string): Task {
    if action == "pause" then t.(paused := true)
    else if action == "resume" then t.(paused := false)
    else if action == "delete" then t.(active := false, name := None, command := None)
    else t
  }

  function ControlAnswer(s: State, e: Event): Answer
    requires e.Control?
  {
    if e.id.None? || e.action.None? then ArgumentsMissing
    else if Position(s.tasks, e.id.value) < |s.tasks| then Done
    else NotFound
  }

  function Step(s: State, e: Event): State {
    match e
    case Tick(now) => s.(tasks := TickAll(s.tasks, now))
    case Add(name, command, interval, now) =>
      if AddAnswer(s, e).Scheduled?
      then State(s.tasks + [Task(s.nextId, name, command, interval.value, now, false, true)], s.nextId + 1)
      else s
    case Control(id, action) =>
      if ControlAnswer(s, e).Done?
      then var i := Position(s.tasks, id.value); s.(tasks := s.tasks[i := Act(s.tasks[i], action.value)])
      else s
  }

  function Marks(s: State, e: Event): seq<Mark> {
    match e
    case Tick(now) => Fired(s.tasks, now)
    case Add(_, _, _, now) => if AddAnswer(s, e).Scheduled? then [Added(s.nextId, now)] else []
    case Control(_, _) => []
  }

  /** The state and everything that happened after a run. */
  function Exec(events: seq<Event>): (State, seq<Mark>) {
    if events == [] then (State([], 1), [])
    else
      var before := Exec(events[..|events| - 1]);
      var e := events[|events| - 1];
      (Step(before.0, e), before.1 + Marks(before.0, e))
  }

  // ----- What every run keeps -----

  /** The time of the last mark of a task. */
  function LastAt(marks: seq<Mark>, id: int): Option<int> {
    if marks == [] then None
    else if marks[|marks| - 1].id == id then Some(marks[|marks| - 1].at)
    else LastAt(marks[..|marks| - 1], id)
  }

  function CountAdded(marks: seq<Mark>): nat {
    if marks == [] then 0
    else CountAdded(marks[..|marks| - 1]) + if marks[|marks| - 1].Added? then 1 else 0
  }

  /** Tasks are numbered in the order of the table, and an active one has a command. */
  predicate Table(ts: seq<Task>) {
    forall k :: 0 <= k < |ts| ==> ts[k].id == k + 1 && ts[k].interval > 0 && (ts[k].active ==> ts[k].command.Some?)
  }

  predicate Known(ts: seq<Task>, m: Mark) {
    1 <= m.id <= |ts|
  }

  /** Two marks of one task, one after the other: the later one is a run, and at least the interval has
      passed.  In particular no id is given out twice. */
  predicate Spaced(ts: seq<Task>, m: Mark, later: Mark) {
    m.id == later.id && Known(ts, m) ==> later.Ran? && later.command.Some? && later.at >= m.at + ts[m.id - 1].interval
  }

  ghost predicate Kept(ts: seq<Task>, marks: seq<Mark>) {
    && Table(ts)
    && (forall j :: 0 <= j < |marks| ==> Known(ts, marks[j]) && marks[j].at <= ts[marks[j].id - 1].lastRun)
    && (forall k :: 0 <= k < |ts| ==> LastAt(marks, ts[k].id) == Some(ts[k].lastRun))
    && (forall i, j :: 0 <= i < j < |marks| ==> Spaced(ts, marks[i], marks[j]))
  }

  lemma KeptRun(ts: seq<Task>, marks: seq<Mark>, k: nat, now: int)
    requires Kept(ts, marks) && k < |ts| && Due(ts[k], now)
    ensures Kept(ts[k := ts[k].(lastRun := now)], marks + [Ran(ts[k].id, now, ts[k].command)])
  {
    var ts', m := ts[k := ts[k].(lastRun := now)], Ran(ts[k].id, now, ts[k].command);
    assert (marks + [m])[..|marks|] == marks;
    forall i, j | 0 <= i < j < |marks + [m]| ensures Spaced(ts', (marks + [m])[i], (marks + [m])[j]) {
      assert j < |marks| ==> Spaced(ts, marks[i], marks[j]);
    }
  }

  lemma {:induction false} KeptTick(ts: seq<Task>, marks: seq<Mark>, now: int, n: nat)
    requires Kept(ts, marks) && n <= |ts|
    ensures Kept(TickAll(ts[..n], now) + ts[n..], marks + Fired(ts[..n], now))
    decreases n
  {
    hide Kept;
    if n == 0 {
      assert TickAll(ts[..0], now) + ts[0..] == ts && marks + Fired(ts[..0], now) == marks;
    } else {
      KeptTick(ts, marks, now, n - 1);
      var part := TickAll(ts[..n - 1], now) + ts[n - 1..];
      var sofar := marks + Fired(ts[..n - 1], now);
      assert ts[..n][..n - 1] == ts[..n - 1] && part[n - 1] == ts[n - 1];
      if Due(ts[n - 1], now) {
        KeptRun(part, sofar, n - 1, now);
        assert part[n - 1 := ts[n - 1].(lastRun := now)] == TickAll(ts[..n], now) + ts[n..];
        assert sofar + [Ran(ts[n - 1].id, now, ts[n - 1].command)] == marks + Fired(ts[..n], now);
      } else {
        assert part == TickAll(ts[..n], now) + ts[n..];
        assert sofar == marks + Fired(ts[..n], now);
      }
    }
  }

  lemma KeptAdd(ts: seq<Task>, marks: seq<Mark>, t: Task)
    requires Kept(ts, marks) && t.id == |ts| + 1 && t.interval > 0 && t.command.Some?
    ensures Kept(ts + [t], marks + [Added(t.id, t.lastRun)])
  {
    var all := marks + [Added(t.id, t.lastRun)];
    assert all[..|marks|] == marks;
    forall i, j | 0 <= i < j < |all| ensures Spaced(ts + [t], all[i], all[j]) {
      assert j < |marks| ==> Spaced(ts, marks[i], marks[j]);
    }
  }

  lemma KeptControl(ts: seq<Task>, marks: seq<Mark>, i: nat, action: string)
    requires Kept(ts, marks) && i < |ts|
    ensures Kept(ts[i := Act(ts[i], action)], marks)
  {
    var ts' := ts[i := Act(ts[i], action)];
    forall a, b | 0 <= a < b < |marks| ensures Spaced(ts', marks[a], marks[b]) {
      assert Spaced(ts, marks[a], marks[b]);
    }
  }

  lemma {:induction false} FiredAddsNothing(ts: seq<Task>, now: int, marks: seq<Mark>)
    ensures CountAdded(marks + Fired(ts, now)) == CountAdded(marks)
    decreases |ts|
  {
    if ts == [] {
      assert marks + Fired(ts, now) == marks;
    } else {
      FiredAddsNothing(ts[..|ts| - 1], now, marks);
      var all, earlier := marks + Fired(ts, now), marks + Fired(ts[..|ts| - 1], now);
      assert all == earlier || (|all| == |earlier| + 1 && all[..|earlier|] == earlier && all[|earlier|].Ran?);
    }
  }

  /** In every run, whatever the clock does: two marks of one task are at least its interval apart and
      the later one is a run with a command, so ids are never reused; a task's last_run is the time of
      its last mark; and at most 64 tasks are ever added. */
  lemma {:induction false} RunsAreSpaced(events: seq<Event>)
    ensures var (s, marks) := Exec(events);
            && Kept(s.tasks, marks)
            && s.nextId == |s.tasks| + 1
            && CountAdded(marks) == |s.tasks| <= MAX_TASKS
    decreases |events|
  {
    if events != [] {
      var earlier, e := events[..|events| - 1], events[|events| - 1];
      RunsAreSpaced(earlier);
      var (s, marks) := Exec(earlier);
      hide Kept;
      match e
      case Tick(now) =>
        assert s.tasks[..|s.tasks|] == s.tasks;
        KeptTick(s.tasks, marks, now, |s.tasks|);
        assert TickAll(s.tasks, now) + s.tasks[|s.tasks|..] == TickAll(s.tasks, now);
        FiredAddsNothing(s.tasks, now, marks);
      case Add(name, command, interval, now) =>
        if AddAnswer(s, e).Scheduled? {
          KeptAdd(s.tasks, marks, Task(s.nextId, name, command, interval.value, now, false, true));
          assert (marks + [Added(s.nextId, now)])[..|marks|] == marks;
        } else {
          assert marks + Marks(s, e) == marks;
        }
      case Control(id, action) =>
        assert marks + Marks(s, e) == marks;
        if ControlAnswer(s, e).Done? {
          KeptControl(s.tasks, marks, Position(s.tasks, id.value), action.value);
        }
    }
  }

  // ----- Who runs at a tick -----

  /** A tick runs exactly the tasks that are active, not paused and due, each once, with its own
      command. */
  lemma {:induction false} TickRunsTheDue(ts: seq<Task>, now: int, m: Mark)
    requires Table(ts)
    ensures m in Fired(ts, now)
            <==> exists k :: 0 <= k < |ts| && Due(ts[k], now) && m == Ran(ts[k].id, now, ts[k].command)
    ensures forall i, j :: 0 <= i < j < |Fired(ts, now)| ==> Fired(ts, now)[i].id < Fired(ts, now)[j].id
    ensures forall i :: 0 <= i < |Fired(ts, now)| ==> Fired(ts, now)[i].id <= |ts|
    decreases |ts|
  {
    if ts != [] {
      var rest := ts[..|ts| - 1];
      TickRunsTheDue(rest, now, m);
      forall k | 0 <= k < |ts| && Due(ts[k], now) && m == Ran(ts[k].id, now, ts[k].command)
        ensures m in Fired(ts, now)
      {
        assert k < |rest| ==> rest[k] == ts[k];
      }
    }
  }

  // ----- The gap between runs -----

  predicate Running(ts: seq<Task>, p: nat) {
    p < |ts| ==> ts[p].active && !ts[p].paused
  }

  lemma ExecStep(events: seq<Event>, n: nat)
    requires n < |events|
    ensures var before := Exec(events[..n]);
            Exec(events[..n + 1]) == (Step(before.0, events[n]), before.1 + Marks(before.0, events[n]))
  {
    assert events[..n + 1][..n] == events[..n];
  }

  predicate Fresh(ts: seq<Task>, p: nat, tick: int) {
    p < |ts| ==> tick - ts[p].lastRun < ts[p].interval
  }

  lemma TickFreshens(s: State, now: int, p: nat)
    requires Table(s.tasks) && Running(s.tasks, p)
    ensures Fresh(Step(s, Tick(now)).tasks, p, now)
  {
  }

  lemma FreshStep(s: State, e: Event, p: nat, tick: int)
    requires Table(s.tasks) && Fresh(s.tasks, p, tick) && !e.Tick? && (e.Add? ==> e.now >= tick)
    ensures Fresh(Step(s, e).tasks, p, tick)
  {
  }

  /** From the tick at index j on, with no tick since: a task that was running at that tick, or was added
      after it, last ran less than its interval before that tick. */
  lemma {:induction false} FreshSinceTick(events: seq<Event>, j: nat, k: nat, p: nat)
    requires j < k <= |events| && events[j].Tick? && (forall m :: j < m < k ==> !events[m].Tick?)
    requires forall m :: j < m < k && events[m].Add? ==> events[m].now >= events[j].now
    requires Running(Exec(events[..j]).0.tasks, p)
    ensures Fresh(Exec(events[..k]).0.tasks, p, events[j].now)
    decreases k - j
  {
    hide Exec, Step, Kept, Fresh, Running;
    ExecStep(events, k - 1);
    TableAlways(events[..k - 1]);
    if k - 1 > j {
      FreshSinceTick(events, j, k - 1, p);
      FreshStep(Exec(events[..k - 1]).0, events[k - 1], p, events[j].now);
    } else {
      TickFreshens(Exec(events[..j]).0, events[j].now, p);
    }
  }

  lemma TableAlways(events: seq<Event>)
    ensures var s := Exec(events).0; Table(s.tasks) && s.nextId == |s.tasks| + 1
  {
    RunsAreSpaced(events);
  }

  /** The gap before a run is below the interval plus the gap between the last two ticks, if the task was
      neither paused nor deleted at the earlier tick and the clock did not go back between the two. */
  lemma GapIsBounded(events: seq<Event>, j: nat, k: nat, p: nat)
    requires j < k < |events| && events[j].Tick? && events[k].Tick? && (forall m :: j < m < k ==> !events[m].Tick?)
    requires forall m :: j < m < k && events[m].Add? ==> events[m].now >= events[j].now
    requires Running(Exec(events[..j]).0.tasks, p)
    ensures var (s, marks) := Exec(events[..k]);
            p < |s.tasks| && Due(s.tasks[p], events[k].now) ==>
              && Ran(s.tasks[p].id, events[k].now, s.tasks[p].command) in Marks(s, events[k])
              && var last := LastAt(marks, s.tasks[p].id);
                 last.Some? && events[k].now - last.value < s.tasks[p].interval + (events[k].now - events[j].now)
  {
    FreshSinceTick(events, j, k, p);
    RunsAreSpaced(events[..k]);
    var s := Exec(events[..k]).0;
    if p < |s.tasks| && Due(s.tasks[p], events[k].now) {
      TickRunsTheDue(s.tasks, events[k].now, Ran(s.tasks[p].id, events[k].now, s.tasks[p].command));
    }
  }

  // ----- Pausing and deleting -----

  predicate Stopped(ts: seq<Task>, p: nat) {
    p < |ts| && (!ts[p].active || ts[p].paused)
  }

  lemma StoppedStep(s: State, e: Event, p: nat)
    requires Table(s.tasks) && Stopped(s.tasks, p)
    requires s.tasks[p].active ==> e != Control(Some(p + 1), Some("resume"))
    ensures var ts := Step(s, e).tasks; Stopped(ts, p) && (!s.tasks[p].active ==> !ts[p].active)
  {
  }

  lemma StoppedMakesNoMark(s: State, e: Event, p: nat)
    requires Table(s.tasks) && s.nextId == |s.tasks| + 1 && Stopped(s.tasks, p)
    ensures forall i :: 0 <= i < |Marks(s, e)| ==> Marks(s, e)[i].id != p + 1
  {
    if e.Tick? {
      var fired := Fired(s.tasks, e.now);
      forall i | 0 <= i < |fired| ensures fired[i].id != p + 1 {
        TickRunsTheDue(s.tasks, e.now, fired[i]);
        assert fired[i] in fired;
      }
    }
  }

  /** A deleted task never runs again, and a paused one does not run until it is resumed. */
  lemma {:induction false} StoppedStaysQuiet(events: seq<Event>, k: nat, n: nat, p: nat)
    requires k <= n <= |events| && Stopped(Exec(events[..k]).0.tasks, p)
    requires Exec(events[..k]).0.tasks[p].active ==>
               forall i :: k <= i < n ==> events[i] != Control(Some(p + 1), Some("resume"))
    ensures var (before, after) := (Exec(events[..k]), Exec(events[..n]));
            && before.1 <= after.1
            && (forall i :: |before.1| <= i < |after.1| ==> after.1[i].id != p + 1)
            && Stopped(after.0.tasks, p)
            && (!before.0.tasks[p].active ==> !after.0.tasks[p].active)
    decreases n
  {
    hide Exec, Step, Marks, Table, Stopped;
    if k < n {
      var e := events[n - 1];
      StoppedStaysQuiet(events, k, n - 1, p);
      ExecStep(events, n - 1);
      TableAlways(events[..n - 1]);
      var s := Exec(events[..n - 1]).0;
      StoppedStep(s, e, p);
      StoppedMakesNoMark(s, e, p);
    }
  }
}
