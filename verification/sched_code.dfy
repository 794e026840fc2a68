/** kernel/sched.c on the task structures themselves: the timer tick, schedule, sleep_on and wake_up. */
module SchedulerCode {

  import M = Machine
  import opened Scheduler
  import W = WaitQueue

  /** The fields of a task structure that the scheduler uses. */
  class TaskStruct {
    var state: int
    var counter: int
    var priority: int

    constructor (state: int, counter: int, priority: int)
      ensures this.state == state && this.counter == counter && this.priority == priority
    {
      this.state, this.counter, this.priority := state, counter, priority;
    }
  }

  function SlotOf(p: TaskStruct?): Slot
    reads p
  {
    if p == null then Empty else Task(p.state, p.counter, p.priority)
  }

  class Sched {
    const task: array<TaskStruct?>
    var current: TaskStruct?

    /** The word at address 4, where the counter of a task structure at address 0 would be: entry 1 of the page
        directory. */
    var wordAt4: int

    /** The static initializers. */
    constructor (initTask: TaskStruct, wordAt4: int)
      ensures Valid() && fresh(task) && current == initTask && this.wordAt4 == wordAt4
      ensures forall i :: 0 <= i < M.NR_TASKS ==> task[i] == if i == 0 then initTask else null
    {
      current := initTask;
      task := new TaskStruct?[M.NR_TASKS](i => if i == 0 then initTask else null);
      this.wordAt4 := wordAt4;
    }

    /** The loop of sched_init: slot 0 is emptied with the others, and from then on task 0 is in no slot. */
    method SchedInit()
      requires task.Length == M.NR_TASKS
      modifies task
      ensures Valid() && forall i :: 0 <= i < M.NR_TASKS ==> task[i] == null
    {
      var i := 0;
      while i < M.NR_TASKS
        invariant 0 <= i <= M.NR_TASKS && forall j :: 0 <= j < i ==> task[j] == null
      {
        task[i] := null;
        i := i + 1;
      }
    }

    /** 64 slots, and no task structure in two of them. */
    ghost predicate Valid()
      reads this, task
    {
      && task.Length == M.NR_TASKS
      && forall i, j :: 0 <= i < j < M.NR_TASKS && task[i] != null ==> task[i] != task[j]
    }

    ghost function Tasks(): set<TaskStruct>
      reads task
    {
      set i | 0 <= i < task.Length && task[i] != null :: task[i]
    }

    ghost function Slots(): (s: Table)
      requires task.Length == M.NR_TASKS
      reads task, Tasks()
      ensures forall i :: 0 <= i < M.NR_TASKS ==> s[i] == SlotOf(task[i])
    {
      seq(M.NR_TASKS, i requires 0 <= i < M.NR_TASKS reads task, Tasks() =>
        assert task[i] != null ==> task[i] in Tasks(); SlotOf(task[i]))
    }

    /** The scan for the task to run. */
    method Scan() returns (c: int, next: int)
      requires Valid()
      ensures (c, next) == Select(Slots(), 1) && 0 <= next < M.NR_TASKS
    {
      c, next := -1, 0;
      var i := M.NR_TASKS - 1;
      while i > 0
        invariant 0 <= i < M.NR_TASKS && 0 <= next < M.NR_TASKS
        invariant (c, next) == Select(Slots(), i + 1)
      {
        var p := task[i];
        assert Slots()[i] == SlotOf(p);
        if p != null && p.state == TASK_RUNNING && p.counter > c {
          c, next := p.counter, i;
        }
        i := i - 1;
      }
    }

    method Schedule() returns (next: int)
      requires Valid() && Decides(Slots())
      modifies `current, Tasks()
      ensures Valid() && task[..] == old(task[..])
      ensures (Slots(), next) == Scheduler.Schedule(old(Slots()))
      ensures 0 <= next < M.NR_TASKS && current == task[next]
    {
      hide Refill, Select;
      ghost var s := Slots();
      ghost var refilled := false;
      while true
        invariant Slots() == if refilled then Refill(s) else s
        invariant refilled ==> Select(s, 1).0 == 0
        decreases !refilled
      {
        var c;
        c, next := Scan();
        if c != 0 {
          break;
        }
        Grant(s);
        refilled := true;
      }
      current := task[next];
    }

    /** With slot 0 empty, schedule leaves no current task exactly when no task is runnable. */
    lemma CurrentLost(s: Table, next: int)
      requires Valid() && task[0] == null && Prioritized(s) && Bounded(s)
      requires (Slots(), next) == Scheduler.Schedule(s) && 0 <= next < M.NR_TASKS
      ensures task[next] == null <==> NoneRunnable(s)
    {
      ScheduleBest(s);
      hide NoneRunnable, Scheduler.Schedule, Bounded, Prioritized;
      if next != 0 { assert Slots()[next] == SlotOf(task[next]); }
    }

    /** The loop that hands out new time slices. */
    method Grant(ghost s: Table)
      requires Valid() && Slots() == s
      modifies Tasks()
      ensures Slots() == Refill(s)
    {
      var i := M.NR_TASKS - 1;
      while i > 0
        invariant 0 <= i < M.NR_TASKS
        invariant forall j :: 0 <= j <= i ==> SlotOf(task[j]) == s[j]
        invariant forall j :: i < j < M.NR_TASKS ==> SlotOf(task[j]) == Refill(s)[j]
      {
        var p := task[i];
        assert SlotOf(p) == s[i];
        if p != null {
          assert p in Tasks();
          p.counter := p.priority / 2 + p.priority;
        }
        i := i - 1;
      }
    }

    /** do_timer while the task in slot cur runs; cpl is the privilege level that the timer interrupted. */
    method DoTimer(cpl: int, ghost cur: int) returns (ghost next: int)
      requires Valid() && 0 <= cur < M.NR_TASKS && task[cur] != null && task[cur] == current
      requires Prioritized(Slots())
      modifies `current, Tasks()
      ensures Valid() && task[..] == old(task[..])
      ensures (Slots(), next) == Tick(old(Slots()), cur, cpl != 0)
      ensures cpl == 0 || old(current.counter) > 1 ==> current == old(current)
      ensures 0 <= next < M.NR_TASKS && current == task[next]
    {
      ghost var s := Slots();
      assert current in Tasks();
      next := cur;
      current.counter := current.counter - 1;
      assert Slots() == s[cur := s[cur].(counter := s[cur].counter - 1)];
      if current.counter > 0 {
        return;
      }
      current.counter := 0;
      assert Slots() == s[cur := s[cur].(counter := s[cur].counter - 1)][cur := s[cur].(counter := 0)];
      if cpl == 0 {
        return;
      }
      LoopsForeverExactlyWhen(Slots());
      next := Schedule();
    }

    /** The counter that do_timer decrements when the current task is in no slot: that of task 0, or, when there is no
        current task, whatever stands at address 4. */
    function StrayCounter(): int
      reads this, current
    {
      if current == null then wordAt4 else current.counter
    }

    /** The decrement. */
    method CountStray() returns (expired: bool)
      requires Valid() && (current == null || forall i :: 0 <= i < M.NR_TASKS ==> task[i] != current)
      modifies `wordAt4, current
      ensures Slots() == old(Slots()) && StrayCounter() == if expired then 0 else old(StrayCounter()) - 1
      ensures expired <==> old(StrayCounter()) <= 1
      ensures current != null ==> wordAt4 == old(wordAt4)
    {
      ghost var s := Slots();
      if current == null {
        wordAt4 := wordAt4 - 1;
        expired := wordAt4 <= 0;
        if expired {
          wordAt4 := 0;
        }
      } else {
        current.counter := current.counter - 1;
        expired := current.counter <= 0;
        if expired {
          current.counter := 0;
        }
      }
      assert Slots() == s;
    }

    /** do_timer while no task in a slot runs: task 0, or after schedule has switched to the emptied slot 0. */
    method DoTimerOutside(cpl: int) returns (ghost next: int)
      requires Valid() && (current == null || forall i :: 0 <= i < M.NR_TASKS ==> task[i] != current)
      requires Prioritized(Slots())
      modifies this, current, Tasks()
      ensures Valid() && task[..] == old(task[..])
      ensures var left := old(StrayCounter()) - 1;
        if left > 0 || cpl == 0 then
          Slots() == old(Slots()) && current == old(current) && StrayCounter() == if left > 0 then left else 0
        else
          (Slots(), next) == Scheduler.Schedule(old(Slots())) && 0 <= next < M.NR_TASKS && current == task[next]
      ensures old(current) != null ==> wordAt4 == old(wordAt4)
    {
      next := 0;
      var expired := CountStray();
      if !expired || cpl == 0 {
        return;
      }
      LoopsForeverExactlyWhen(Slots());
      next := Schedule();
    }
  }

  function Pointer(p: TaskStruct?): W.Option<TaskStruct> {
    if p == null then W.None else W.Some(p)
  }

  /** A wait queue: the pointer *p, and the locals tmp of the callers of __sleep_on that are
      suspended in schedule(). */
  class SleepQueue {
    var head: TaskStruct?
    ghost var tmp: map<TaskStruct, W.Option<TaskStruct>>
    ghost var sleepers: seq<TaskStruct>

    constructor ()
      ensures Valid() && sleepers == []
    {
      head, tmp, sleepers := null, map[], [];
    }

    ghost function Value(): W.Queue<TaskStruct>
      reads this, tmp.Keys
    {
      W.Queue(Pointer(head), tmp, map t | t in tmp :: t.state)
    }

    ghost predicate Valid()
      reads this, tmp.Keys
    {
      W.Chain(Value(), sleepers)
    }

    /** __sleep_on up to schedule(): saved is the caller's tmp while it is suspended. */
    method Enter(current: TaskStruct, state: int) returns (saved: TaskStruct?)
      requires Valid() && current !in tmp
      modifies this, current
      ensures Valid() && current in tmp && Pointer(saved) == tmp[current] && current.state == state
      ensures Value() == W.Step(old(Value()), W.Enter(current, state))
      ensures sleepers == W.Stacked(old(sleepers), W.Enter(current, state))
    {
      ghost var w := Value();
      saved := head;
      head := current;
      current.state := state;
      tmp := tmp[current := Pointer(saved)];
      sleepers := [current] + sleepers;
      assert Value().state == w.state[current := state];
      W.StepKeepsChain(w, old(sleepers), W.Enter(current, state));
    }

    /** Another sleeper is the head: it is woken, and the caller goes on sleeping. */
    method PassOn(current: TaskStruct)
      requires Valid() && current in tmp && current.state == TASK_RUNNING && head != null && head != current
      modifies tmp.Keys
      ensures Valid() && current in tmp
      ensures Value() == W.Step(old(Value()), W.Resume(current))
    {
      ghost var w, e := Value(), W.Resume(current);
      W.StepKeepsChain(w, sleepers, e);
      assert head in sleepers;
      head.state := TASK_RUNNING;
      current.state := W.TASK_UNINTERRUPTIBLE;
      assert Value().state == W.Step(w, e).state;
    }

    /** The caller is the head: it leaves, and wakes the sleeper below it. */
    method Leave(current: TaskStruct, saved: TaskStruct?)
      requires Valid() && current in tmp && tmp[current] == Pointer(saved) && current.state == TASK_RUNNING && head == current
      modifies this, tmp.Keys
      ensures Valid() && current !in tmp
      ensures Value() == W.Step(old(Value()), W.Resume(current))
      ensures sleepers == W.Stacked(old(sleepers), W.Resume(current))
    {
      hide W.Chain;
      ghost var w, e := Value(), W.Resume(current);
      W.StepKeepsChain(w, sleepers, e);
      W.LeavingTop(w, sleepers, current);
      W.NextSleeper(w, sleepers);
      head := saved;
      if head != null {
        saved.state := TASK_RUNNING;
      }
      tmp := tmp - {current};
      sleepers := sleepers[1..];
      assert Value().state == W.Step(w, e).state;
    }

    /** __sleep_on from the return of schedule(): again when it loops back to schedule(). */
    method Resume(current: TaskStruct, saved: TaskStruct?) returns (again: bool, warned: bool)
      requires Valid() && current in tmp && tmp[current] == Pointer(saved) && current.state == TASK_RUNNING
      modifies this, tmp.Keys
      ensures Valid() && !warned && (again <==> current in tmp)
      ensures Value() == W.Step(old(Value()), W.Resume(current))
      ensures sleepers == W.Stacked(old(sleepers), W.Resume(current))
    {
      ghost var q := sleepers;
      W.StepKeepsChain(Value(), q, W.Resume(current));
      again, warned := false, head == null;
      W.ResumeStacks(Value(), q, current);
      if head != null && head != current {
        PassOn(current);
        again := true;
      } else {
        Leave(current, saved);
      }
    }

    method WakeUp()
      requires Valid()
      modifies head
      ensures Valid()
      ensures Value() == W.Step(old(Value()), W.WakeUp)
    {
      ghost var w := Value();
      W.StepKeepsChain(w, sleepers, W.WakeUp);
      if head != null {
        assert head in sleepers;
        head.state := TASK_RUNNING;
        assert Value().state == W.Step(w, W.WakeUp).state;
      }
    }
  }
}
