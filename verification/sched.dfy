/** kernel/sched.c: time slices. schedule picks the runnable task with the largest counter, and
    hands out new slices when every runnable task has used up its own. */
module Scheduler {

  import opened Machine

  const TASK_RUNNING := 0

  /** A slot of task[]. */
  datatype Slot = Empty | Task(state: int, counter: int, priority: int)

  type Table = s: seq<Slot> | |s| == NR_TASKS witness seq(NR_TASKS, _ => Empty)

  predicate Runnable(s: Table, i: int) {
    0 <= i < NR_TASKS && s[i].Task? && s[i].state == TASK_RUNNING
  }

  /** counter = (priority >> 1) + priority */
  function Slice(t: Slot): int
    requires t.Task?
  {
    t.priority / 2 + t.priority
  }

  /** The scan down from slot 63 to slot i: the largest counter so far and where it was found. */
  function Select(s: Table, i: int): (int, int)
    requires 1 <= i <= NR_TASKS
    decreases NR_TASKS - i
  {
    if i == NR_TASKS then (-1, 0)
    else
      var (c, next) := Select(s, i + 1);
      if Runnable(s, i) && s[i].counter > c then (s[i].counter, i) else (c, next)
  }

  /** New slices for slots 1 to 63. */
  function Refill(s: Table): Table {
    seq(NR_TASKS, i => if 0 < i < NR_TASKS && s[i].Task? then s[i].(counter := Slice(s[i])) else if 0 <= i < NR_TASKS then s[i] else Empty)
  }

  /** schedule comes to an end: a second refill would change nothing. */
  predicate Decides(s: Table) {
    Select(s, 1).0 != 0 || Select(Refill(s), 1).0 != 0
  }

  /** The slots after schedule, and the slot switched to. */
  function Schedule(s: Table): (Table, int) {
    if Select(s, 1).0 != 0 then (s, Select(s, 1).1) else (Refill(s), Select(Refill(s), 1).1)
  }

  /** do_timer, with slot cur current. Kernel mode is never preempted. */
  function Tick(s: Table, cur: int, user: bool): (Table, int)
    requires 0 <= cur < NR_TASKS && s[cur].Task?
  {
    var t := s[cur := s[cur].(counter := s[cur].counter - 1)];
    if t[cur].counter > 0 then (t, cur)
    else
      var u := t[cur := t[cur].(counter := 0)];
      if user then Schedule(u) else (u, cur)
  }

  // What the scan finds

  /** Of the slots from i on, n holds the runnable task with the largest counter, and is the highest such. */
  predicate Best(s: Table, n: int, i: int) {
    && Runnable(s, n)
    && (forall j :: i <= j < NR_TASKS && Runnable(s, j) ==> s[j].counter <= s[n].counter)
    && (forall j :: n < j < NR_TASKS && Runnable(s, j) ==> s[j].counter < s[n].counter)
  }

  lemma {:induction false} SelectBest(s: Table, i: int)
    requires 1 <= i <= NR_TASKS
    ensures var (c, next) := Select(s, i);
      && (next == 0 ==> c == -1 && forall j :: i <= j < NR_TASKS && Runnable(s, j) ==> s[j].counter < 0)
      && (next != 0 ==> i <= next && Best(s, next, i) && s[next].counter == c >= 0)
    decreases NR_TASKS - i
  {
    if i < NR_TASKS { SelectBest(s, i + 1); }
  }

  /** Every occupied slot from 1 on has a positive priority. */
  predicate Prioritized(s: Table) {
    forall i :: 1 <= i < NR_TASKS && s[i].Task? ==> s[i].priority >= 1
  }

  /** No counter is negative or above one slice: one and a half times the priority. */
  predicate Bounded(s: Table) {
    forall i :: 1 <= i < NR_TASKS && s[i].Task? ==> 0 <= 2 * s[i].counter <= 3 * s[i].priority
  }

  /** t is s with new slices: every task from slot 1 on, runnable or not, has one and a half times its priority,
      rounded down. */
  predicate Refilled(s: Table, t: Table) {
    forall i :: 0 <= i < NR_TASKS ==>
      if i > 0 && s[i].Task? then
        && t[i].Task? && t[i].state == s[i].state && t[i].priority == s[i].priority
        && 3 * s[i].priority - 1 <= 2 * t[i].counter <= 3 * s[i].priority
      else
        t[i] == s[i]
  }

  lemma RefillExactly(s: Table, t: Table)
    ensures t == Refill(s) <==> Refilled(s, t)
  {
    if Refilled(s, t) {
      forall i | 0 <= i < NR_TASKS ensures t[i] == Refill(s)[i] {}
    }
  }

  /** The runnable tasks have used up their time, or owe some, and one of them owes none. */
  predicate AllUsed(s: Table) {
    && (exists j :: 1 <= j < NR_TASKS && Runnable(s, j) && s[j].counter == 0)
    && forall j :: 1 <= j < NR_TASKS && Runnable(s, j) ==> s[j].counter <= 0
  }

  /** No runnable task would get time, and one of them would get none. */
  predicate NoSlices(s: Table) {
    && (exists j :: 1 <= j < NR_TASKS && Runnable(s, j) && s[j].priority == 0)
    && forall j :: 1 <= j < NR_TASKS && Runnable(s, j) ==> s[j].priority <= 0
  }

  lemma SelectZero(s: Table)
    ensures Select(s, 1).0 == 0 <==> AllUsed(s)
  {
    SelectBest(s, 1);
    hide Select;
  }

  /** schedule loops for ever exactly when all time is used up and none would be handed out: every
      further refill leaves the slots as the first one did. */
  lemma LoopsForeverExactlyWhen(s: Table)
    ensures !Decides(s) <==> AllUsed(s) && NoSlices(s)
    ensures Refill(Refill(s)) == Refill(s)
    ensures Prioritized(s) ==> Decides(s)
  {
    assert forall i :: 0 <= i < NR_TASKS ==> Refill(Refill(s))[i] == Refill(s)[i];
    SelectZero(s);
    SelectZero(Refill(s));
    RefillUses(s);
    hide Select, Refill, AllUsed;
  }

  lemma RefillUses(s: Table)
    ensures AllUsed(Refill(s)) <==> NoSlices(s)
  {
    assert forall j :: Runnable(Refill(s), j) <==> Runnable(s, j);
    assert forall j :: 1 <= j < NR_TASKS && Runnable(s, j) ==>
      (Refill(s)[j].counter == 0 <==> s[j].priority == 0) && (Refill(s)[j].counter <= 0 <==> s[j].priority <= 0);
    hide Refill;
  }

  predicate NoneRunnable(s: Table) {
    forall j :: 1 <= j < NR_TASKS ==> !Runnable(s, j)
  }

  predicate AllSpent(s: Table) {
    forall j :: 1 <= j < NR_TASKS && Runnable(s, j) ==> s[j].counter == 0
  }

  lemma RefillBounded(s: Table)
    requires Prioritized(s)
    ensures Bounded(Refill(s)) && Prioritized(Refill(s))
    ensures forall j :: Runnable(Refill(s), j) <==> Runnable(s, j)
    ensures forall j :: 1 <= j < NR_TASKS && Runnable(s, j) ==> Refill(s)[j].counter >= 1
  {
  }

  /** schedule gives out slices at most once, and only when no runnable task has time left. It picks
      slot 0 only if nothing is runnable; otherwise a runnable task with time left, of largest
      counter and then of highest number. */
  lemma ScheduleBest(s: Table)
    requires Prioritized(s) && Bounded(s)
    ensures var (t, next) := Schedule(s);
      && Prioritized(t) && Bounded(t) && (t == s || (t == Refill(s) && Refilled(s, t) && AllSpent(s)))
      && (next == 0 <==> NoneRunnable(s))
      && (next != 0 ==> 1 <= next < NR_TASKS && Best(t, next, 1) && t[next].counter >= 1)
  {
    SelectBest(s, 1);
    SelectBest(Refill(s), 1);
    RefillBounded(s);
    RefillExactly(s, Refill(s));
    hide Refill, Refilled, Select;
  }

  lemma TickBounded(s: Table, cur: int, user: bool)
    requires Prioritized(s) && Bounded(s) && 1 <= cur < NR_TASKS && s[cur].Task?
    ensures Prioritized(Tick(s, cur, user).0) && Bounded(Tick(s, cur, user).0)
  {
    var t := s[cur := s[cur].(counter := s[cur].counter - 1)];
    var u := t[cur := t[cur].(counter := 0)];
    if t[cur].counter <= 0 {
      assert Prioritized(u) && Bounded(u);
      ScheduleBest(u);
    }
  }

  /** In kernel mode a tick takes one from the counter of the current task, if it has time left, and does
      nothing else: no task is switched to, whether time is used up or not. */
  lemma KernelTick(s: Table, cur: int)
    requires 0 <= cur < NR_TASKS && s[cur].Task?
    ensures var (t, next) := Tick(s, cur, false);
      && next == cur && (forall i :: 0 <= i < NR_TASKS && i != cur ==> t[i] == s[i])
      && t[cur] == s[cur].(counter := if s[cur].counter > 0 then s[cur].counter - 1 else 0)
  {
  }

  /** In user mode schedule is called after that, exactly when no time is left; so no tick in either mode
      switches away from a task that has time left. */
  lemma UserTick(s: Table, cur: int)
    requires 0 <= cur < NR_TASKS && s[cur].Task?
    ensures s[cur].counter > 1 ==> Tick(s, cur, true) == Tick(s, cur, false)
    ensures s[cur].counter <= 1 ==> Tick(s, cur, true) == Schedule(Tick(s, cur, false).0)
    ensures forall user :: Tick(s, cur, user).1 != cur ==> user && s[cur].counter <= 1
  {
    hide Schedule;
  }

  // Nobody starves

  /** The time left to the runnable tasks from slot i on. */
  function TimeLeft(s: Table, i: int): int
    requires 1 <= i <= NR_TASKS
    decreases NR_TASKS - i
  {
    if i == NR_TASKS then 0 else (if Runnable(s, i) then s[i].counter else 0) + TimeLeft(s, i + 1)
  }

  lemma {:induction false} TimeLeftChanged(s: Table, t: Table, j: int, i: int)
    requires 1 <= i <= NR_TASKS && 1 <= j < NR_TASKS && Runnable(s, j) && Runnable(t, j)
    requires t == s[j := t[j]]
    ensures TimeLeft(t, i) == TimeLeft(s, i) + if i <= j then t[j].counter - s[j].counter else 0
    decreases NR_TASKS - i
  {
    if i < NR_TASKS {
      assert i != j ==> t[i] == s[i];
      TimeLeftChanged(s, t, j, i + 1);
    }
  }

  lemma {:induction false} TimeLeftAtLeast(s: Table, j: int, i: int)
    requires Bounded(s) && 1 <= i <= NR_TASKS && 1 <= j < NR_TASKS
    ensures TimeLeft(s, i) >= if i <= j && Runnable(s, j) then s[j].counter else 0
    decreases NR_TASKS - i
  {
    if i < NR_TASKS { TimeLeftAtLeast(s, j, i + 1); }
  }

  lemma {:induction false} NoTimeLeft(s: Table, i: int)
    requires 1 <= i <= NR_TASKS && forall j :: 1 <= j < NR_TASKS && Runnable(s, j) ==> s[j].counter == 0
    ensures TimeLeft(s, i) == 0
    decreases NR_TASKS - i
  {
    if i < NR_TASKS { NoTimeLeft(s, i + 1); }
  }

  lemma {:induction false} SlicesKept(s: Table, t: Table, i: int)
    requires 1 <= i <= NR_TASKS
    requires forall j :: 1 <= j < NR_TASKS ==> s[j].Task? == t[j].Task? && (s[j].Task? ==> s[j].state == t[j].state && s[j].priority == t[j].priority)
    ensures TimeLeft(Refill(t), i) == TimeLeft(Refill(s), i)
    decreases NR_TASKS - i
  {
    if i < NR_TASKS { SlicesKept(s, t, i + 1); }
  }

  /** The slots and the current slot after n timer ticks in user mode. */
  function Ticks(s: Table, cur: int, n: nat): (Table, int)
    requires 0 <= cur < NR_TASKS
    decreases n
  {
    if n == 0 || s[cur].Empty? then (s, cur)
    else
      var (t, next) := Tick(s, cur, true);
      if 0 <= next < NR_TASKS then Ticks(t, next, n - 1) else (t, cur)
  }

  /** How long task k may still have to wait: the time left to all, and one more round of slices
      if k has used up its own. */
  function Wait(s: Table, cur: int, k: int): int
    requires 0 <= k < NR_TASKS && s[k].Task? && 0 <= cur < NR_TASKS && s[cur].Task?
  {
    TimeLeft(s, 1) + (if s[k].counter == 0 then TimeLeft(Refill(s), 1) else 0) + (if s[cur].counter == 0 then 1 else 0)
  }

  /** The current task's tick, before schedule is called. */
  function Spend(s: Table, cur: int): Table
    requires 0 <= cur < NR_TASKS && s[cur].Task?
  {
    s[cur := s[cur].(counter := if s[cur].counter > 0 then s[cur].counter - 1 else 0)]
  }

  lemma TickIs(s: Table, cur: int)
    requires 0 <= cur < NR_TASKS && s[cur].Task? && s[cur].counter >= 0
    ensures Tick(s, cur, true) == if s[cur].counter > 1 then (Spend(s, cur), cur) else Schedule(Spend(s, cur))
  {
    var t := s[cur := s[cur].(counter := s[cur].counter - 1)];
    assert t[cur := t[cur].(counter := 0)] == s[cur := s[cur].(counter := 0)];
    assert s[cur].counter <= 1 ==> Spend(s, cur) == t[cur := t[cur].(counter := 0)];
  }

  lemma SpendTime(s: Table, cur: int)
    requires Prioritized(s) && Bounded(s) && 1 <= cur < NR_TASKS && Runnable(s, cur)
    ensures var u := Spend(s, cur);
      && Prioritized(u) && Bounded(u) && (forall j :: Runnable(u, j) <==> Runnable(s, j))
      && TimeLeft(u, 1) == TimeLeft(s, 1) - (if s[cur].counter > 0 then 1 else 0)
      && TimeLeft(Refill(u), 1) == TimeLeft(Refill(s), 1)
  {
    TimeLeftChanged(s, Spend(s, cur), cur, 1);
    SlicesKept(s, Spend(s, cur), 1);
  }

  /** The table that schedule leaves, the current task having spent its tick in s. */
  lemma ScheduleShortensWait(s: Table, u: Table, t: Table, cur: int, next: int, k: int)
    requires 1 <= cur < NR_TASKS && 1 <= k < NR_TASKS && 1 <= next < NR_TASKS && cur != k
    requires s[cur].Task? && s[k].Task? && t[k].Task? && t[next].Task? && u[k] == s[k]
    requires TimeLeft(u, 1) == TimeLeft(s, 1) - (if s[cur].counter > 0 then 1 else 0)
    requires s[cur].counter >= 0 && TimeLeft(Refill(u), 1) == TimeLeft(Refill(s), 1) && t[next].counter >= 1
    requires t == u || (t == Refill(u) && TimeLeft(u, 1) == 0 && u[k].counter == 0 && t[k].counter >= 1)
    ensures Wait(t, next, k) < Wait(s, cur, k)
  {
    hide TimeLeft, Refill;
  }

  lemma WaitNonNegative(s: Table, cur: int, k: int)
    requires Prioritized(s) && Bounded(s) && 1 <= k < NR_TASKS && s[k].Task? && 0 <= cur < NR_TASKS && s[cur].Task?
    ensures 0 <= Wait(s, cur, k) <= TimeLeft(s, 1) + TimeLeft(Refill(s), 1) + 1
  {
    TimeLeftAtLeast(s, k, 1);
    RefillBounded(s);
    TimeLeftAtLeast(Refill(s), k, 1);
    assert 0 <= TimeLeft(s, 1) && 0 <= TimeLeft(Refill(s), 1);
    hide TimeLeft, Refill, Bounded, Prioritized;
  }

  lemma TickShortensWait(s: Table, cur: int, k: int)
    requires Prioritized(s) && Bounded(s) && 1 <= cur < NR_TASKS && 1 <= k < NR_TASKS && cur != k
    requires Runnable(s, cur) && Runnable(s, k)
    ensures var (t, next) := Tick(s, cur, true);
      && Prioritized(t) && Bounded(t) && 1 <= next < NR_TASKS && Runnable(t, next) && Runnable(t, k)
      && 0 <= Wait(t, next, k) < Wait(s, cur, k)
  {
    var u := Spend(s, cur);
    var (t, next) := Tick(s, cur, true);
    TickIs(s, cur);
    SpendTime(s, cur);
    ScheduleBest(u);
    RefillBounded(u);
    if AllSpent(u) { NoTimeLeft(u, 1); }
    assert u[k] == s[k] && s[cur].counter >= 0;
    hide TimeLeft, Refill, Schedule, Tick, Bounded, Prioritized, Wait, Slice;
    ScheduleShortensWait(s, u, t, cur, next, k);
    WaitNonNegative(t, next, k);
  }

  lemma TicksStep(s: Table, cur: int, n: nat)
    requires 0 <= cur < NR_TASKS && s[cur].Task?
    requires 0 <= Tick(s, cur, true).1 < NR_TASKS
    ensures Ticks(s, cur, n + 1) == Ticks(Tick(s, cur, true).0, Tick(s, cur, true).1, n)
  {
    hide Tick;
  }

  lemma TicksNone(s: Table, cur: int)
    requires 0 <= cur < NR_TASKS
    ensures Ticks(s, cur, 0) == (s, cur)
  {
  }

  lemma RunnableTask(s: Table, i: int)
    requires Runnable(s, i)
    ensures 0 <= i < NR_TASKS && s[i].Task?
  {
  }

  /** With the runnable tasks fixed and the timer ticking in user mode, a runnable task k is current
      after at most Wait(s, cur, k) ticks, which is at most the time left to the runnable tasks
      and one round of slices together, and one tick. */
  lemma {:induction false} NoStarvation(s: Table, cur: int, k: int) returns (n: nat)
    requires Prioritized(s) && Bounded(s) && 1 <= cur < NR_TASKS && 1 <= k < NR_TASKS
    requires Runnable(s, cur) && Runnable(s, k)
    ensures n <= Wait(s, cur, k) <= TimeLeft(s, 1) + TimeLeft(Refill(s), 1) + 1
    ensures Ticks(s, cur, n).1 == k
    decreases Wait(s, cur, k)
  {
    hide *;
    RunnableTask(s, cur);
    RunnableTask(s, k);
    WaitNonNegative(s, cur, k);
    if cur == k {
      n := 0;
      TicksNone(s, cur);
    } else {
      var (t, next) := Tick(s, cur, true);
      TickShortensWait(s, cur, k);
      var m := NoStarvation(t, next, k);
      n := m + 1;
      TicksStep(s, cur, m);
    }
  }
}
