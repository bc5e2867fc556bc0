/** The scheduler object: a fixed table of tasks that the tick and the tool functions change in place,
    each under the mutex. */
module SchedulerTable {
  import opened Text
  import opened Schedule

  class Scheduler {
    const tasks: array<Task>
    var taskCount: nat
    var nextId: int
    /** Everything that happened to the tasks. */
    ghost var marks: seq<Mark>

    constructor ()
      ensures Valid() && View() == State([], 1) && marks == [] && fresh(tasks)
    {
      var empty := Task(0, None, None, 0, 0, false, false);
      tasks := new Task[MAX_TASKS](_ => empty);
      taskCount, nextId, marks := 0, 1, [];
    }

    predicate Valid()
      reads this
    {
      tasks.Length == MAX_TASKS && taskCount <= MAX_TASKS
    }

    ghost function View(): State
      reads this, tasks
      requires Valid()
    {
      State(tasks[..taskCount], nextId)
    }

    /** The locked region of scheduler_thread. */
    method RunTick(now: int)
      requires Valid()
      modifies tasks, this`marks
      ensures Valid() && View() == Step(old(View()), Tick(now))
      ensures marks == old(marks) + Marks(old(View()), Tick(now))
    {
      ghost var ts := tasks[..taskCount];
      assert marks + Fired(ts[..0], now) == marks;
      for i := 0 to taskCount
        invariant marks == old(marks) + Fired(ts[..i], now)
        invariant forall k :: 0 <= k < i ==> tasks[k] == TickOne(ts[k], now)
        invariant forall k :: i <= k < taskCount ==> tasks[k] == ts[k]
      {
        assert ts[..i + 1][..i] == ts[..i];
        var task := tasks[i];
        if task.active && !task.paused {
          if now - task.lastRun >= task.interval {
            tasks[i] := task.(lastRun := now);
            marks := marks + [Ran(task.id, now, task.command)];
          }
        }
      }
      assert ts[..taskCount] == ts;
      assert tasks[..taskCount] == TickAll(ts, now);
    }

    /** tool_schedule_add */
    method ScheduleAdd(name: Option<string>, command: Option<string>, interval: Option<int>, now: int)
      returns (answer: Answer)
      requires Valid()
      modifies tasks, this`taskCount, this`nextId, this`marks
      ensures Valid() && View() == Step(old(View()), Add(name, command, interval, now))
      ensures answer == AddAnswer(old(View()), Add(name, command, interval, now))
      ensures marks == old(marks) + Marks(old(View()), Add(name, command, interval, now))
    {
      if name.None? || command.None? || interval.None? { return ArgumentsMissing; }
      if interval.value <= 0 { return InvalidInterval; }
      if taskCount >= MAX_TASKS { return MaxTasksReached; }
      tasks[taskCount] := Task(nextId, name, command, interval.value, now, false, true);
      marks := marks + [Added(nextId, now)];
      answer := Scheduled(nextId);
      taskCount, nextId := taskCount + 1, nextId + 1;
    }

    /** tool_schedule_control */
    method ScheduleControl(id: Option<int>, action: Option<string>) returns (answer: Answer)
      requires Valid()
      modifies tasks
      ensures Valid() && View() == Step(old(View()), Control(id, action))
      ensures answer == ControlAnswer(old(View()), Control(id, action))
      ensures marks == old(marks) + Marks(old(View()), Control(id, action))
    {
      if id.None? || action.None? { return ArgumentsMissing; }
      ghost var ts := tasks[..taskCount];
      assert ts[0..] == ts;
      for i := 0 to taskCount
        invariant tasks[..taskCount] == ts
        invariant i + Position(ts[i..], id.value) == Position(ts, id.value)
      {
        assert ts[i..][1..] == ts[i + 1..];
        var t := tasks[i];
        if t.id == id.value && t.active {
          if action.value == "pause" {
            tasks[i] := t.(paused := true);
          } else if action.value == "resume" {
            tasks[i] := t.(paused := false);
          } else if action.value == "delete" {
            tasks[i] := t.(active := false, name := None, command := None);
          }
          assert tasks[..taskCount] == ts[i := Act(t, action.value)];
          return Done;
        }
      }
      return NotFound;
    }
  }
}
