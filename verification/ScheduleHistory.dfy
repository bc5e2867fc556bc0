/** The scheduler's table and everything it ran, told from the calls that were made. */
module ScheduleHistory {
  import opened Text
  import opened Schedule

  // ----- What the calls say -----

  predicate Acceptable(e: Event) {
    e.Add? && e.name.Some? && e.command.Some? && e.interval.Some? && e.interval.value > 0
  }

  /** How many tasks the calls add: all that are acceptable, up to 64. */
  function Accepted(events: seq<Event>): (n: nat)
    ensures n <= 64
  {
    if events == [] then 0
    else
      var before := Accepted(events[..|events| - 1]);
      if Acceptable(events[|events| - 1]) && before < 64 then before + 1 else before
  }

  /** The k-th event adds the task with this id. */
  predicate Adds(events: seq<Event>, k: nat, id: int) {
    k < |events| && Acceptable(events[k]) && Accepted(events[..k]) < 64 && id == Accepted(events[..k]) + 1
  }

  /** A later call deletes the task. */
  predicate Deleted(events: seq<Event>, k: nat, id: int) {
    exists j :: k < j < |events| && events[j] == Control(Some(id), Some("delete"))
  }

  /** Of the later calls that pause or resume the task the last one pauses it. */
  predicate Paused(events: seq<Event>, k: nat, id: int)
    decreases |events|
  {
    if |events| <= k + 1 then false
    else if events[|events| - 1] == Control(Some(id), Some("pause")) then true
    else if events[|events| - 1] == Control(Some(id), Some("resume")) then false
    else Paused(events[..|events| - 1], k, id)
  }

  /** The task in the table is the one that the k-th event added, as the later calls left it. */
  ghost predicate Tells(events: seq<Event>, k: nat, id: int, t: Task)
    requires k < |events| && events[k].Add? && events[k].interval.Some?
  {
    && t.id == id && t.interval == events[k].interval.value
    && (t.active <==> !Deleted(events, k, id))
    && (t.active ==>
          t.name == events[k].name && t.command == events[k].command && t.paused == Paused(events, k, id))
  }

  // ----- Appending an event -----

  lemma AddsEarlier(events: seq<Event>, e: Event, k: nat, id: int)
    requires k < |events|
    ensures Adds(events + [e], k, id) <==> Adds(events, k, id)
  {
    assert (events + [e])[..k] == events[..k];
  }

  lemma AcceptedNext(events: seq<Event>, e: Event)
    ensures Accepted(events + [e]) == Accepted(events) + if Acceptable(e) && Accepted(events) < 64 then 1 else 0
    ensures Adds(events + [e], |events|, Accepted(events) + 1) <==> Acceptable(e) && Accepted(events) < 64
  {
    assert (events + [e])[..|events|] == events;
  }

  lemma DeletedLater(events: seq<Event>, e: Event, k: nat, id: int)
    requires k < |events|
    ensures Deleted(events + [e], k, id) <==> Deleted(events, k, id) || e == Control(Some(id), Some("delete"))
  {
    var all, deletion := events + [e], Control(Some(id), Some("delete"));
    if Deleted(events, k, id) {
      var j :| k < j < |events| && events[j] == deletion;
      assert all[j] == deletion;
    }
    if e == deletion { assert all[|events|] == deletion; }
    if Deleted(all, k, id) && e != deletion {
      var j :| k < j < |all| && all[j] == deletion;
      assert j < |events| && events[j] == deletion;
    }
  }

  lemma LaterCall(events: seq<Event>, e: Event, k: nat, id: int)
    requires k < |events|
    ensures Deleted(events + [e], k, id) <==> Deleted(events, k, id) || e == Control(Some(id), Some("delete"))
    ensures Paused(events + [e], k, id)
            == (e == Control(Some(id), Some("pause"))
                || (e != Control(Some(id), Some("resume")) && Paused(events, k, id)))
  {
    hide Deleted;
    DeletedLater(events, e, k, id);
    assert (events + [e])[..|events|] == events;
  }

  lemma ExecNext(events: seq<Event>, e: Event)
    ensures var before := Exec(events);
            Exec(events + [e]) == (Step(before.0, e), before.1 + Marks(before.0, e))
  {
    assert (events + [e])[..|events|] == events;
  }

  // ----- The table -----

  ghost predicate Told(events: seq<Event>, id: int) {
    exists k :: 0 <= k < |events| && Adds(events, k, id)
  }

  /** Every task of the table was added by a call, and tells of it. */
  ghost predicate TableTells(events: seq<Event>, ts: seq<Task>) {
    && |ts| == Accepted(events)
    && (forall k, id :: 0 <= k < |events| && Adds(events, k, id) ==>
          1 <= id <= |ts| && Tells(events, k, id, ts[id - 1]))
    && (forall id :: 1 <= id <= |ts| ==> Told(events, id))
  }

  lemma ToldLater(events: seq<Event>, e: Event, id: int)
    requires Told(events, id)
    ensures Told(events + [e], id)
  {
    var k :| 0 <= k < |events| && Adds(events, k, id);
    AddsEarlier(events, e, k, id);
  }

  /** What one event does to one task of the table. */
  lemma TellsNext(events: seq<Event>, e: Event, k: nat, id: int, s: State)
    requires Table(s.tasks) && k < |events| && events[k].Add? && events[k].interval.Some?
    requires 1 <= id <= |s.tasks| && Tells(events, k, id, s.tasks[id - 1])
    ensures |Step(s, e).tasks| >= |s.tasks| && Tells(events + [e], k, id, Step(s, e).tasks[id - 1])
  {
    hide Deleted, Paused;
    LaterCall(events, e, k, id);
    if e.Control? && e.id.Some? { OneWithTheId(s.tasks, e.id.value); }
  }

  lemma OneWithTheId(ts: seq<Task>, id: int)
    requires Table(ts)
    ensures Position(ts, id) == if 1 <= id <= |ts| && ts[id - 1].active then id - 1 else |ts|
  {
  }

  /** The table after any run, told from the calls: one task for each accepted call in order, with the name,
      the command and the interval of that call until it is deleted, and paused when that was said last. */
  lemma {:induction false} TableIsTold(events: seq<Event>)
    ensures TableTells(events, Exec(events).0.tasks) && Exec(events).0.nextId == Accepted(events) + 1
    decreases |events|
  {
    if events != [] {
      var earlier, e := events[..|events| - 1], events[|events| - 1];
      assert earlier + [e] == events;
      TableIsTold(earlier);
      TableAlways(earlier);
      ExecNext(earlier, e);
      TableNext(earlier, e, Exec(earlier).0);
    }
  }

  lemma TableNext(events: seq<Event>, e: Event, s: State)
    requires TableTells(events, s.tasks) && Table(s.tasks) && s.nextId == Accepted(events) + 1
    ensures TableTells(events + [e], Step(s, e).tasks) && Step(s, e).nextId == Accepted(events + [e]) + 1
  {
    var all, ts := events + [e], Step(s, e).tasks;
    AcceptedNext(events, e);
    StepSize(s, e);
    hide Step, Tells, Accepted, Table;
    forall id | 1 <= id <= |ts| ensures Told(all, id) {
      if id <= |s.tasks| { ToldLater(events, e, id); } else { assert Adds(all, |events|, id); }
    }
    forall k, id | 0 <= k < |all| && Adds(all, k, id) ensures 1 <= id <= |ts| && Tells(all, k, id, ts[id - 1]) {
      if k < |events| {
        AddsEarlier(events, e, k, id);
        TellsNext(events, e, k, id, s);
      } else {
        assert all[..k] == events;
        NewTaskTells(events, e, s);
      }
    }
  }

  lemma StepSize(s: State, e: Event)
    ensures |Step(s, e).tasks| == |s.tasks| + (if Acceptable(e) && |s.tasks| < 64 then 1 else 0)
    ensures Step(s, e).nextId == s.nextId + (if Acceptable(e) && |s.tasks| < 64 then 1 else 0)
  {
  }

  lemma NewTaskTells(events: seq<Event>, e: Event, s: State)
    requires Acceptable(e) && |s.tasks| == Accepted(events) < 64 && s.nextId == Accepted(events) + 1
    ensures var id := Accepted(events) + 1;
            |Step(s, e).tasks| == id && Tells(events + [e], |events|, id, Step(s, e).tasks[id - 1])
  {
  }

  // ----- What was run -----

  /** A mark is an addition by a call, at its time, or a run of that call's command. */
  ghost predicate Marked(events: seq<Event>, m: Mark) {
    exists k :: 0 <= k < |events| && Adds(events, k, m.id) && if m.Added? then m.at == events[k].now
                                                              else m.command == events[k].command
  }

  lemma MarkedLater(events: seq<Event>, e: Event, m: Mark)
    requires Marked(events, m)
    ensures Marked(events + [e], m)
  {
    var k :| 0 <= k < |events| && Adds(events, k, m.id) && if m.Added? then m.at == events[k].now
                                                           else m.command == events[k].command;
    AddsEarlier(events, e, k, m.id);
    assert (events + [e])[k] == events[k];
  }

  lemma NewMarks(events: seq<Event>, e: Event)
    ensures var marks := Marks(Exec(events).0, e);
            forall i :: 0 <= i < |marks| ==> Marked(events + [e], marks[i])
  {
    hide Exec, Tells;
    TableIsTold(events);
    TableAlways(events);
    var s := Exec(events).0;
    if e.Tick? {
      var fired := Fired(s.tasks, e.now);
      forall i | 0 <= i < |fired| ensures Marked(events + [e], fired[i]) {
        TickRunsTheDue(s.tasks, e.now, fired[i]);
        assert fired[i] in fired;
        var p :| 0 <= p < |s.tasks| && Due(s.tasks[p], e.now)
                 && fired[i] == Ran(s.tasks[p].id, e.now, s.tasks[p].command);
        FiredIsMarked(events, s.tasks, p, e.now);
        MarkedLater(events, e, fired[i]);
      }
    } else if e.Add? {
      AcceptedNext(events, e);
      assert (events + [e])[|events|] == e;
    }
  }

  lemma FiredIsMarked(events: seq<Event>, ts: seq<Task>, p: nat, now: int)
    requires TableTells(events, ts) && Table(ts) && p < |ts| && Due(ts[p], now)
    ensures Marked(events, Ran(ts[p].id, now, ts[p].command))
  {
    hide Deleted, Paused;
    assert Told(events, p + 1);
    var k :| 0 <= k < |events| && Adds(events, k, p + 1);
    assert Tells(events, k, p + 1, ts[p]);
  }

  lemma NothingHappened()
    ensures Exec([]).1 == []
  {
  }

  /** Everything that was ever run was the command of a call that was accepted. */
  lemma {:induction false} MarksAreTold(events: seq<Event>, i: nat)
    requires i < |Exec(events).1|
    ensures Marked(events, Exec(events).1[i])
    decreases |events|
  {
    hide Exec, Marked, Marks, Step;
    NothingHappened();
    if events != [] {
      var earlier, e := events[..|events| - 1], events[|events| - 1];
      assert earlier + [e] == events;
      ExecNext(earlier, e);
      var before, added := Exec(earlier).1, Marks(Exec(earlier).0, e);
      if i < |before| {
        MarksAreTold(earlier, i);
        MarkedLater(earlier, e, before[i]);
      } else {
        NewMarks(earlier, e);
        assert Exec(events).1[i] == added[i - |before|];
      }
    }
  }

  /** Two marks of one task, one after the other, are at least as far apart as the call that added it says,
      and the later one is a run. */
  lemma MarksAreApart(events: seq<Event>, i: nat, j: nat, k: nat)
    requires i < j < |Exec(events).1| && Exec(events).1[i].id == Exec(events).1[j].id
    requires Adds(events, k, Exec(events).1[i].id)
    ensures var marks := Exec(events).1;
            marks[j].Ran? && marks[j].at >= marks[i].at + events[k].interval.value
  {
    hide Exec, Adds;
    TableIsTold(events);
    RunsAreSpaced(events);
    var (s, marks) := Exec(events);
    assert Spaced(s.tasks, marks[i], marks[j]);
    AddsAnAdd(events, k, marks[i].id);
    hide Deleted, Paused;
    assert Tells(events, k, marks[i].id, s.tasks[marks[i].id - 1]);
  }

  lemma AddsAnAdd(events: seq<Event>, k: nat, id: int)
    requires Adds(events, k, id)
    ensures k < |events| && events[k].Add? && events[k].interval.Some?
  {
  }

  /** The call at k added the task, its command is this one, and by what was said since and when it was last
      marked it is to run now. */
  ghost predicate ToRun(events: seq<Event>, k: nat, now: int, id: int, command: Option<string>, marks: seq<Mark>) {
    && Adds(events, k, id) && events[k].command == command && !Deleted(events, k, id) && !Paused(events, k, id)
    && LastAt(marks, id).Some? && now - LastAt(marks, id).value >= events[k].interval.value
  }

  lemma DueIsToRun(events: seq<Event>, ts: seq<Task>, marks: seq<Mark>, p: nat, k: nat, now: int)
    requires TableTells(events, ts) && Kept(ts, marks) && p < |ts| && Adds(events, k, p + 1)
    ensures Due(ts[p], now) <==> ToRun(events, k, now, p + 1, events[k].command, marks)
    ensures Due(ts[p], now) ==> ts[p].command == events[k].command
  {
    hide Deleted, Paused, Accepted, Spaced;
    assert Tells(events, k, p + 1, ts[p]);
    assert ts[p].id == p + 1 && LastAt(marks, ts[p].id) == Some(ts[p].lastRun);
  }

  /** A tick runs exactly the commands of the accepted calls whose task was not deleted, is not paused, and
      was last marked at least its interval ago. */
  lemma TickRunsWhatWasAsked(events: seq<Event>, now: int, id: int, command: Option<string>)
    ensures var marks := Exec(events).1;
            var all := Exec(events + [Tick(now)]).1;
            && marks <= all
            && (Ran(id, now, command) in all[|marks|..]
                <==> exists k :: 0 <= k < |events| && ToRun(events, k, now, id, command, marks))
  {
    hide Exec, Fired, ToRun, Adds, Kept, Due, Tells;
    ExecNext(events, Tick(now));
    TableIsTold(events);
    RunsAreSpaced(events);
    TableAlways(events);
    var (s, marks) := Exec(events);
    var m := Ran(id, now, command);
    assert (marks + Fired(s.tasks, now))[|marks|..] == Fired(s.tasks, now);
    TickRunsTheDue(s.tasks, now, m);
    if p :| 0 <= p < |s.tasks| && Due(s.tasks[p], now) && m == Ran(s.tasks[p].id, now, s.tasks[p].command) {
      assert Told(events, p + 1);
      var k :| 0 <= k < |events| && Adds(events, k, p + 1);
      DueIsToRun(events, s.tasks, marks, p, k, now);
    }
    if k :| 0 <= k < |events| && ToRun(events, k, now, id, command, marks) {
      ToRunAdds(events, k, now, id, command, marks);
      DueIsToRun(events, s.tasks, marks, id - 1, k, now);
      assert m == Ran(s.tasks[id - 1].id, now, s.tasks[id - 1].command);
    }
  }

  lemma ToRunAdds(events: seq<Event>, k: nat, now: int, id: int, command: Option<string>, marks: seq<Mark>)
    requires ToRun(events, k, now, id, command, marks)
    ensures Adds(events, k, id) && events[k].command == command
  {
  }

  // ----- What the calls answer -----

  lemma AddAnswerIsTold(events: seq<Event>, e: Event)
    requires e.Add?
    ensures AddAnswer(Exec(events).0, e)
         == if e.name.None? || e.command.None? || e.interval.None? then ArgumentsMissing
            else if e.interval.value <= 0 then InvalidInterval
            else if Accepted(events) == 64 then MaxTasksReached
            else Scheduled(Accepted(events) + 1)
  {
    hide Exec, Tells, Accepted;
    TableIsTold(events);
  }

  /** A control call is answered as done exactly when its task was added and not deleted, whatever the action. */
  lemma ControlAnswerIsTold(events: seq<Event>, e: Event)
    requires e.Control?
    ensures ControlAnswer(Exec(events).0, e)
         == if e.id.None? || e.action.None? then ArgumentsMissing
            else if exists k :: 0 <= k < |events| && Adds(events, k, e.id.value) && !Deleted(events, k, e.id.value)
            then Done else NotFound
  {
    hide Exec, Adds, Deleted, Paused;
    TableIsTold(events);
    TableAlways(events);
    var ts := Exec(events).0.tasks;
    if e.id.Some? && e.action.Some? {
      var id := e.id.value;
      OneWithTheId(ts, id);
      if 1 <= id <= |ts| && ts[id - 1].active {
        assert Told(events, id);
        var k :| 0 <= k < |events| && Adds(events, k, id);
        AddsAnAdd(events, k, id);
        assert Tells(events, k, id, ts[id - 1]);
      }
      if k :| 0 <= k < |events| && Adds(events, k, id) && !Deleted(events, k, id) {
        AddsAnAdd(events, k, id);
        assert Tells(events, k, id, ts[id - 1]);
      }
    }
  }
}
