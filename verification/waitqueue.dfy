/** kernel/sched.c: sleep_on and wake_up. A wait queue is one head pointer; the rest of it exists only
    as the local tmp of each caller of __sleep_on that is suspended in schedule(). */
module WaitQueue {

  import S = Scheduler

  const TASK_UNINTERRUPTIBLE := 2

  datatype Option<+T> = None | Some(value: T)

  /** head is *p; tmp holds the saved tmp of every suspended sleeper; state their task states. */
  datatype Queue<T> = Queue(head: Option<T>, tmp: map<T, Option<T>>, state: map<T, int>)

  /** What can happen to one queue. Enter runs __sleep_on up to schedule(); Resume is the return from
      schedule() until the next call of it, or until the caller leaves; Poke is any other code that
      changes the state of a sleeper. */
  datatype Event<T> = Enter(t: T, state: int) | Resume(t: T) | WakeUp | Poke(t: T, state: int)

  /** Only a task outside the queue calls sleep_on, and schedule() resumes only a runnable task. */
  predicate Legal<T(==)>(w: Queue<T>, e: Event<T>) {
    match e
    case Enter(t, _) => t !in w.tmp
    case Resume(t) => t in w.tmp && t in w.state && w.state[t] == S.TASK_RUNNING
    case WakeUp => true
    case Poke(t, _) => t in w.tmp
  }

  /** Resumed, t is not the head and must go on waiting. */
  predicate Blocked<T(==)>(w: Queue<T>, t: T) {
    w.head.Some? && w.head.value != t
  }

  /** The branch that prints the warning "*p = NULL". */
  predicate Warns<T(==)>(w: Queue<T>, e: Event<T>) {
    e.Resume? && w.head.None?
  }

  function Awake<T(==)>(state: map<T, int>, p: Option<T>): map<T, int> {
    if p.Some? then state[p.value := S.TASK_RUNNING] else state
  }

  function Step<T(==)>(w: Queue<T>, e: Event<T>): Queue<T>
    requires Legal(w, e)
  {
    match e
    case Enter(t, state) => Queue(Some(t), w.tmp[t := w.head], w.state[t := state])
    case Resume(t) =>
      if Blocked(w, t) then w.(state := Awake(w.state, w.head)[t := TASK_UNINTERRUPTIBLE])
      else Queue(w.tmp[t], w.tmp - {t}, Awake(w.state, w.tmp[t]) - {t})
    case WakeUp => w.(state := Awake(w.state, w.head))
    case Poke(t, state) => w.(state := w.state[t := state])
  }

  predicate LegalRun<T(==)>(w: Queue<T>, es: seq<Event<T>>)
    decreases |es|
  {
    es == [] || (Legal(w, es[0]) && LegalRun(Step(w, es[0]), es[1..]))
  }

  function Run<T(==)>(w: Queue<T>, es: seq<Event<T>>): Queue<T>
    requires LegalRun(w, es)
    decreases |es|
  {
    if es == [] then w else Run(Step(w, es[0]), es[1..])
  }

  // The queue is a stack

  function At<T>(q: seq<T>, i: nat): Option<T> {
    if i < |q| then Some(q[i]) else None
  }

  /** What the i-th sleeper from the head saved is the sleeper below it. */
  predicate Linked<T(==)>(w: Queue<T>, q: seq<T>, i: nat) {
    i < |q| && q[i] in w.tmp && w.tmp[q[i]] == At(q, i + 1)
  }

  predicate Distinct<T(==)>(q: seq<T>) {
    forall i, j :: 0 <= i < j < |q| ==> q[i] != q[j]
  }

  /** From the head, the saved pointers link the sleepers q, all of them, once each. */
  ghost predicate Chain<T>(w: Queue<T>, q: seq<T>) {
    && w.head == At(q, 0)
    && (forall i :: 0 <= i < |q| ==> Linked(w, q, i))
    && Distinct(q)
    && (forall t :: t in w.tmp ==> t in q)
    && (forall t :: t in q ==> t in w.tmp)
    && w.state.Keys == w.tmp.Keys
  }

  /** The stack of sleepers: who calls sleep_on is pushed, who resumes on top is popped. */
  function Stacked<T(==)>(q: seq<T>, e: Event<T>): seq<T> {
    match e
    case Enter(t, _) => [t] + q
    case Resume(t) => if q != [] && q[0] == t then q[1..] else q
    case WakeUp => q
    case Poke(_, _) => q
  }

  function StackRun<T(==)>(q: seq<T>, es: seq<Event<T>>): seq<T>
    decreases |es|
  {
    if es == [] then q else StackRun(Stacked(q, es[0]), es[1..])
  }

  /** sleep_on puts its caller into the state asked for, and touches no other sleeper. */
  lemma EnterSleeps<T>(w: Queue<T>, q: seq<T>, t: T, state: int)
    requires Chain(w, q) && t !in w.tmp
    ensures var v := Step(w, Enter(t, state));
      && t in v.state && v.state[t] == state && v.head == Some(t)
      && forall u :: u in q ==> u != t && u in v.state && v.state[u] == w.state[u]
  {
  }

  /** Resumed behind another head, the sleeper hands the wake-up to the head and sleeps uninterruptibly; as the head,
      it leaves, and the sleeper below it becomes runnable. No other state changes. */
  lemma ResumeStates<T>(w: Queue<T>, q: seq<T>, t: T)
    requires Chain(w, q) && Legal(w, Resume(t))
    ensures q != [] && var v := Step(w, Resume(t));
      if t == q[0] then
        && t !in v.state && (|q| > 1 ==> q[1] in v.state && v.state[q[1]] == S.TASK_RUNNING)
        && forall i :: 2 <= i < |q| ==> q[i] in v.state && v.state[q[i]] == w.state[q[i]]
      else
        && t in v.state && v.state[t] == TASK_UNINTERRUPTIBLE && q[0] in v.state && v.state[q[0]] == S.TASK_RUNNING
        && forall u :: u in q && u != t && u != q[0] ==> u in v.state && v.state[u] == w.state[u]
  {
    assert t in q && w.head == Some(q[0]);
    if t == q[0] { LeavingTop(w, q, t); }
  }

  lemma EnterKeepsChain<T>(w: Queue<T>, q: seq<T>, e: Event<T>)
    requires Chain(w, q) && Legal(w, e) && e.Enter?
    ensures Chain(Step(w, e), Stacked(q, e))
  {
    var v, r := Step(w, e), Stacked(q, e);
    forall i | 0 <= i < |r| ensures Linked(v, r, i) {
      if i > 0 { assert Linked(w, q, i - 1); }
    }
  }

  lemma LeavingTop<T>(w: Queue<T>, q: seq<T>, t: T)
    requires Chain(w, q) && t in w.tmp && !Blocked(w, t)
    ensures q != [] && q[0] == t && w.tmp[t] == At(q, 1)
  {
    assert t in q;
    assert Linked(w, q, 0);
  }

  lemma NextSleeper<T>(w: Queue<T>, q: seq<T>)
    requires Chain(w, q) && q != []
    ensures At(q, 1).Some? ==> At(q, 1).value in w.tmp && At(q, 1).value != q[0]
  {
    if |q| > 1 { assert q[1] in q; }
  }

  /** Resumed while another sleeper is the head, nothing is popped. */
  lemma ResumeStacks<T>(w: Queue<T>, q: seq<T>, t: T)
    requires Chain(w, q) && t in w.tmp
    ensures w.head.Some? && (w.head.value != t ==> Stacked(q, Resume(t)) == q)
  {
    assert t in q;
  }

  lemma PopKeepsChain<T>(w: Queue<T>, q: seq<T>, state: map<T, int>)
    requires Chain(w, q) && q != [] && state.Keys == w.tmp.Keys - {q[0]}
    ensures Chain(Queue(At(q, 1), w.tmp - {q[0]}, state), q[1..])
  {
    var v, r := Queue(At(q, 1), w.tmp - {q[0]}, state), q[1..];
    forall i | 0 <= i < |r| ensures Linked(v, r, i) {
      assert Linked(w, q, i + 1);
    }
    forall t | t in v.tmp ensures t in r {
      var i :| 0 <= i < |q| && q[i] == t;
      assert r[i - 1] == t;
    }
    forall t | t in r ensures t in v.tmp {
      var i :| 0 <= i < |r| && r[i] == t;
      assert q[i + 1] == t && t in q;
    }
  }

  lemma LeavingKeepsChain<T>(w: Queue<T>, q: seq<T>, e: Event<T>)
    requires Chain(w, q) && Legal(w, e) && e.Resume? && !Blocked(w, e.t)
    ensures Chain(Step(w, e), Stacked(q, e))
  {
    LeavingTop(w, q, e.t);
    var state := Awake(w.state, w.tmp[e.t]) - {e.t};
    assert state.Keys == w.tmp.Keys - {e.t} by {
      if |q| > 1 { assert q[1] in w.tmp; }
    }
    assert Step(w, e) == Queue(At(q, 1), w.tmp - {q[0]}, state) && Stacked(q, e) == q[1..];
    hide *;
    PopKeepsChain(w, q, state);
  }

  lemma SameLinks<T>(w: Queue<T>, v: Queue<T>, q: seq<T>)
    requires Chain(w, q) && v.tmp == w.tmp && v.head == w.head && v.state.Keys == w.state.Keys
    ensures Chain(v, q)
  {
    assert forall i :: 0 <= i < |q| && Linked(w, q, i) ==> Linked(v, q, i);
  }

  /** Whatever happens, the saved pointers go on being a stack of the sleepers, a sleeper leaves only
      from its top, and the warning is never printed. */
  lemma StepKeepsChain<T>(w: Queue<T>, q: seq<T>, e: Event<T>)
    requires Chain(w, q) && Legal(w, e)
    ensures Chain(Step(w, e), Stacked(q, e)) && !Warns(w, e)
    ensures e.Resume? ==> (e.t !in Step(w, e).tmp <==> q != [] && q[0] == e.t)
  {
    match e
    case Enter(_, _) => EnterKeepsChain(w, q, e);
    case Resume(t) =>
      assert t in q;
      if Blocked(w, t) {
        assert Step(w, e).tmp == w.tmp && q[0] in w.tmp;
        SameLinks(w, Step(w, e), q);
      } else {
        LeavingTop(w, q, t);
        LeavingKeepsChain(w, q, e);
      }
    case WakeUp =>
      if q != [] { assert q[0] in w.tmp; }
      SameLinks(w, Step(w, e), q);
    case Poke(_, _) => SameLinks(w, Step(w, e), q);
  }

  /** Over every run: the queue is the stack that the arrivals and departures make. */
  lemma {:induction false} RunIsStack<T>(w: Queue<T>, q: seq<T>, es: seq<Event<T>>)
    requires Chain(w, q) && LegalRun(w, es)
    ensures Chain(Run(w, es), StackRun(q, es))
    decreases |es|
  {
    if es != [] {
      StepKeepsChain(w, q, es[0]);
      RunIsStack(Step(w, es[0]), Stacked(q, es[0]), es[1..]);
    }
  }

  lemma {:induction false} StackRunAppend<T>(q: seq<T>, es: seq<Event<T>>, fs: seq<Event<T>>)
    ensures StackRun(q, es + fs) == StackRun(StackRun(q, es), fs)
    decreases |es|
  {
    if es == [] {
      assert es + fs == fs;
    } else {
      assert (es + fs)[0] == es[0] && (es + fs)[1..] == es[1..] + fs;
      StackRunAppend(Stacked(q, es[0]), es[1..], fs);
    }
  }

  /** t calls sleep_on somewhere in es. */
  predicate Arrives<T(==)>(es: seq<Event<T>>, t: T) {
    exists i :: 0 <= i < |es| && es[i].Enter? && es[i].t == t
  }

  /** The queue r consists of arrivals in es above the sleepers b. */
  predicate Above<T(==)>(r: seq<T>, b: seq<T>, es: seq<Event<T>>) {
    |b| <= |r| && r[|r| - |b|..] == b && forall i :: 0 <= i < |r| - |b| ==> Arrives(es, r[i])
  }

  lemma ArrivesLater<T>(front: seq<Event<T>>, last: Event<T>, t: T)
    requires Arrives(front, t) || (last.Enter? && last.t == t)
    ensures Arrives(front + [last], t)
  {
    var es := front + [last];
    if last.Enter? && last.t == t {
      assert es[|front|] == last;
    } else {
      var i :| 0 <= i < |front| && front[i].Enter? && front[i].t == t;
      assert es[i] == front[i];
    }
  }

  lemma StackedAbove<T>(r: seq<T>, b: seq<T>, front: seq<Event<T>>, last: Event<T>)
    requires Above(r, b, front)
    ensures var v, es := Stacked(r, last), front + [last]; Above(v, b, es) || (b != [] && Above(v, b[1..], es))
  {
    var v, es, top := Stacked(r, last), front + [last], |r| - |b|;
    forall i | 0 <= i < top ensures Arrives(es, r[i]) {
      ArrivesLater(front, last, r[i]);
    }
    if last.Enter? {
      ArrivesLater(front, last, last.t);
      assert v[0] == last.t && forall i :: 0 < i < top + 1 ==> v[i] == r[i - 1];
    } else if last.Resume? && r != [] && r[0] == last.t {
      assert forall i :: 0 <= i < top - 1 ==> v[i] == r[i + 1];
    }
    hide Arrives;
  }

  /** Last in, first out: what is left of the queue q after any run is what it was from some sleeper
      down, with only later arrivals above it. */
  lemma {:induction false} LastInFirstOut<T>(q: seq<T>, es: seq<Event<T>>) returns (k: nat)
    ensures k <= |q| && Above(StackRun(q, es), q[k..], es)
    decreases |es|
  {
    if es == [] {
      k := 0;
    } else {
      var last, front := es[|es| - 1], es[..|es| - 1];
      assert es == front + [last];
      StackRunAppend(q, front, [last]);
      assert StackRun(q, es) == Stacked(StackRun(q, front), last) by { assert [last][1..] == []; }
      k := LastInFirstOut(q, front);
      hide Above, StackRun, Stacked;
      StackedAbove(StackRun(q, front), q[k..], front, last);
      if k < |q| { assert q[k..][1..] == q[k + 1..]; }
      if !Above(StackRun(q, es), q[k..], es) {
        k := k + 1;
      }
    }
  }

  // Waking one sleeper wakes them all

  predicate Ready<T(==)>(state: map<T, int>, t: T) {
    t in state && state[t] == S.TASK_RUNNING
  }

  /** How many of q are runnable. */
  function ReadyIn<T(==)>(state: map<T, int>, q: seq<T>): nat {
    if q == [] then 0 else (if Ready(state, q[0]) then 1 else 0) + ReadyIn(state, q[1..])
  }

  /** How many more times sleepers can be resumed: each leaves once, and a runnable one below the
      head may first find that it is not its turn. */
  function Measure<T(==)>(w: Queue<T>, q: seq<T>): nat {
    if q == [] then 0 else |q| + ReadyIn(w.state, q[1..])
  }

  /** Somebody in the queue is runnable, if there is anybody in it. */
  ghost predicate Lively<T>(w: Queue<T>, q: seq<T>) {
    q == [] || exists i :: 0 <= i < |q| && Ready(w.state, q[i])
  }

  lemma {:induction false} ReadyInAtMost<T>(state: map<T, int>, q: seq<T>)
    ensures ReadyIn(state, q) <= |q|
  {
    if q != [] { ReadyInAtMost(state, q[1..]); }
  }

  lemma {:induction false} SameReady<T>(s: map<T, int>, s': map<T, int>, q: seq<T>)
    requires forall i :: 0 <= i < |q| ==> (Ready(s, q[i]) <==> Ready(s', q[i]))
    ensures ReadyIn(s, q) == ReadyIn(s', q)
  {
    if q != [] {
      assert forall i :: 0 <= i < |q[1..]| ==> q[1..][i] == q[i + 1];
      SameReady(s, s', q[1..]);
    }
  }

  lemma {:induction false} OneChanged<T>(s: map<T, int>, s': map<T, int>, q: seq<T>, k: nat)
    requires k < |q|
    requires forall i :: 0 <= i < |q| && i != k ==> (Ready(s, q[i]) <==> Ready(s', q[i]))
    ensures ReadyIn(s', q) == ReadyIn(s, q) + (if Ready(s', q[k]) then 1 else 0) - (if Ready(s, q[k]) then 1 else 0)
  {
    assert forall i :: 0 <= i < |q[1..]| ==> q[1..][i] == q[i + 1];
    if k == 0 {
      SameReady(s, s', q[1..]);
    } else {
      OneChanged(s, s', q[1..], k - 1);
    }
  }

  /** A blocked resume takes one runnable sleeper out of those below the head. */
  lemma BlockedMeasure<T>(w: Queue<T>, q: seq<T>, t: T)
    requires Chain(w, q) && Legal(w, Resume(t)) && Blocked(w, t)
    ensures Measure(Step(w, Resume(t)), q) == Measure(w, q) - 1
    ensures Lively(Step(w, Resume(t)), q)
  {
    var v := Step(w, Resume(t));
    var i :| 0 <= i < |q| && q[i] == t;
    assert i > 0 && w.head == Some(q[0]) && v.state == w.state[q[0] := S.TASK_RUNNING][t := TASK_UNINTERRUPTIBLE];
    assert Ready(v.state, q[0]);
    var r := q[1..];
    assert r[i - 1] == t && forall j :: 0 <= j < |r| ==> r[j] == q[j + 1];
    OneChanged(w.state, v.state, r, i - 1);
  }

  lemma LeavingMeasure<T>(w: Queue<T>, q: seq<T>, t: T)
    requires Chain(w, q) && Legal(w, Resume(t)) && !Blocked(w, t)
    ensures Measure(Step(w, Resume(t)), Stacked(q, Resume(t))) < Measure(w, q)
    ensures Lively(Step(w, Resume(t)), Stacked(q, Resume(t)))
  {
    LeavingTop(w, q, t);
    var v, r := Step(w, Resume(t)), q[1..];
    assert Stacked(q, Resume(t)) == r;
    if |q| > 1 {
      assert w.tmp[t] == Some(q[1]) && v.state == w.state[q[1] := S.TASK_RUNNING] - {t};
      assert r[0] == q[1] && Ready(v.state, r[0]);
      assert forall j :: 0 <= j < |r[1..]| ==> r[1..][j] == q[j + 2];
      SameReady(w.state, v.state, r[1..]);
    }
  }

  /** What an event may add to the measure. */
  function Cost<T>(e: Event<T>): int {
    match e
    case Enter(_, _) => 2
    case Resume(_) => -1
    case WakeUp => 0
    case Poke(_, _) => 1
  }

  lemma EnterMeasure<T>(w: Queue<T>, q: seq<T>, t: T, state: int)
    requires Chain(w, q) && t !in w.tmp
    ensures Measure(Step(w, Enter(t, state)), Stacked(q, Enter(t, state))) <= Measure(w, q) + 2
    ensures q != [] && Lively(w, q) ==> Lively(Step(w, Enter(t, state)), Stacked(q, Enter(t, state)))
  {
    var v, r := Step(w, Enter(t, state)), [t] + q;
    assert r[1..] == q;
    SameReady(w.state, v.state, q);
    if q != [] && Lively(w, q) {
      var i :| 0 <= i < |q| && Ready(w.state, q[i]);
      assert r[i + 1] == q[i] && Ready(v.state, q[i]);
    }
  }

  lemma PokeMeasure<T>(w: Queue<T>, q: seq<T>, t: T, state: int)
    requires Chain(w, q) && t in w.tmp
    ensures Measure(w.(state := w.state[t := state]), q) <= Measure(w, q) + 1
    ensures state == S.TASK_RUNNING && Lively(w, q) ==> Lively(w.(state := w.state[t := state]), q)
    ensures w.head == Some(t) ==> Measure(w.(state := w.state[t := state]), q) == Measure(w, q)
  {
    var v := w.state[t := state];
    var i :| 0 <= i < |q| && q[i] == t;
    var r := q[1..];
    assert forall j :: 0 <= j < |r| ==> r[j] == q[j + 1];
    if i == 0 {
      SameReady(w.state, v, r);
    } else {
      OneChanged(w.state, v, r, i - 1);
    }
    if state == S.TASK_RUNNING { assert Ready(v, q[i]); }
  }

  lemma WakeUpMeasure<T>(w: Queue<T>, q: seq<T>)
    requires Chain(w, q)
    ensures Measure(Step(w, WakeUp), q) == Measure(w, q) && Lively(Step(w, WakeUp), q)
  {
    if q != [] {
      assert q[0] in w.tmp;
      PokeMeasure(w, q, q[0], S.TASK_RUNNING);
      assert Ready(Step(w, WakeUp).state, q[0]);
    }
  }

  /** Nothing but another arrival or a change of state from outside can put the end off. */
  lemma StepMeasure<T>(w: Queue<T>, q: seq<T>, e: Event<T>)
    requires Chain(w, q) && Legal(w, e)
    ensures Measure(Step(w, e), Stacked(q, e)) <= Measure(w, q) + Cost(e)
  {
    match e
    case Enter(t, state) => EnterMeasure(w, q, t, state);
    case Resume(t) =>
      if Blocked(w, t) {
        StepKeepsChain(w, q, e);
        BlockedMeasure(w, q, t);
      } else {
        LeavingMeasure(w, q, t);
      }
    case WakeUp => WakeUpMeasure(w, q);
    case Poke(t, state) => PokeMeasure(w, q, t, state);
  }

  /** Somebody stays runnable until the queue is empty, unless code outside puts a sleeper back to
      sleep. */
  lemma StepKeepsLively<T>(w: Queue<T>, q: seq<T>, e: Event<T>)
    requires Chain(w, q) && Legal(w, e) && Lively(w, q)
    requires (e.Poke? ==> e.state == S.TASK_RUNNING) && (e.Enter? ==> q != [])
    ensures Lively(Step(w, e), Stacked(q, e))
  {
    match e
    case Enter(t, state) => EnterMeasure(w, q, t, state);
    case Resume(t) =>
      if Blocked(w, t) {
        StepKeepsChain(w, q, e);
        BlockedMeasure(w, q, t);
      } else {
        LeavingMeasure(w, q, t);
      }
    case WakeUp => WakeUpMeasure(w, q);
    case Poke(t, state) => PokeMeasure(w, q, t, state);
  }

  function TotalCost<T>(es: seq<Event<T>>): int {
    if es == [] then 0 else Cost(es[0]) + TotalCost(es[1..])
  }

  lemma {:induction false} RunMeasure<T>(w: Queue<T>, q: seq<T>, es: seq<Event<T>>)
    requires Chain(w, q) && LegalRun(w, es)
    ensures Measure(Run(w, es), StackRun(q, es)) <= Measure(w, q) + TotalCost(es)
    decreases |es|
  {
    if es != [] {
      StepKeepsChain(w, q, es[0]);
      StepMeasure(w, q, es[0]);
      RunMeasure(Step(w, es[0]), Stacked(q, es[0]), es[1..]);
    }
  }

  /** Only resumes and wake-ups: nobody new arrives. */
  predicate Closing<T>(es: seq<Event<T>>) {
    forall i :: 0 <= i < |es| ==> es[i].Resume? || es[i].WakeUp?
  }

  function Resumes<T>(es: seq<Event<T>>): nat {
    if es == [] then 0 else (if es[0].Resume? then 1 else 0) + Resumes(es[1..])
  }

  lemma {:induction false} ClosingRun<T>(w: Queue<T>, q: seq<T>, es: seq<Event<T>>)
    requires Chain(w, q) && LegalRun(w, es) && Closing(es) && Lively(w, q)
    ensures Lively(Run(w, es), StackRun(q, es))
    ensures TotalCost(es) == 0 - Resumes(es)
    decreases |es|
  {
    if es != [] {
      assert es[0].Resume? || es[0].WakeUp?;
      assert forall i :: 0 <= i < |es[1..]| ==> es[1..][i] == es[i + 1];
      StepKeepsChain(w, q, es[0]);
      StepKeepsLively(w, q, es[0]);
      ClosingRun(Step(w, es[0]), Stacked(q, es[0]), es[1..]);
    }
  }

  /** One wake_up drains the queue: of n sleepers, whichever runnable one is resumed each time, at
      most 2n - 1 resumes follow, and as long as anybody is left, somebody is runnable. */
  lemma WakeUpDrains<T>(w: Queue<T>, q: seq<T>, es: seq<Event<T>>)
    requires Chain(w, q) && q != [] && LegalRun(Step(w, WakeUp), es) && Closing(es)
    ensures Resumes(es) <= 2 * |q| - 1
    ensures var v := Run(Step(w, WakeUp), es);
      (v.head.None? && v.tmp == map[]) || exists t :: t in v.tmp && Legal(v, Resume(t))
    ensures Resumes(es) == 2 * |q| - 1 ==> Run(Step(w, WakeUp), es).tmp == map[]
  {
    var u := Step(w, WakeUp);
    StepKeepsChain(w, q, WakeUp);
    WakeUpMeasure(w, q);
    RunIsStack(u, q, es);
    RunMeasure(u, q, es);
    ClosingRun(u, q, es);
    ReadyInAtMost(w.state, q[1..]);
    var v, r := Run(u, es), StackRun(q, es);
    if r != [] {
      var i :| 0 <= i < |r| && Ready(v.state, r[i]);
      assert r[i] in v.tmp && Legal(v, Resume(r[i]));
    }
  }

  /** The sleepers of q below position k resumed in turn, the lowest first: none of them gets its turn. */
  lemma {:induction false} BottomUp<T>(w: Queue<T>, q: seq<T>, k: nat) returns (es: seq<Event<T>>)
    requires Chain(w, q) && 1 <= k <= |q| && forall i :: 0 <= i < k ==> Ready(w.state, q[i])
    ensures LegalRun(w, es) && Closing(es) && Resumes(es) == k - 1
    ensures Chain(Run(w, es), q) && Ready(Run(w, es).state, q[0])
    decreases k
  {
    if k == 1 {
      es := [];
    } else {
      var t := q[k - 1];
      var e := Resume(t);
      assert t in q && w.head == Some(q[0]) && q[0] != t;
      assert Legal(w, e) && Blocked(w, t);
      StepKeepsChain(w, q, e);
      var v := Step(w, e);
      assert Stacked(q, e) == q;
      assert v.state == w.state[q[0] := S.TASK_RUNNING][t := TASK_UNINTERRUPTIBLE];
      assert forall i :: 0 <= i < k - 1 ==> Ready(v.state, q[i]);
      var rest := BottomUp(v, q, k - 1);
      es := [e] + rest;
      RunFirst(w, e, rest);
    }
  }

  /** The head resumed, again and again: everybody leaves. */
  lemma {:induction false} TopDown<T>(w: Queue<T>, q: seq<T>) returns (es: seq<Event<T>>)
    requires Chain(w, q) && (q != [] ==> Ready(w.state, q[0]))
    ensures LegalRun(w, es) && Closing(es) && Resumes(es) == |q| && Run(w, es).tmp == map[]
    decreases |q|
  {
    if q == [] {
      es := [];
    } else {
      var e := Resume(q[0]);
      assert q[0] in q && w.head == Some(q[0]);
      assert Legal(w, e) && !Blocked(w, q[0]);
      StepKeepsChain(w, q, e);
      var v := Step(w, e);
      assert Stacked(q, e) == q[1..];
      LeavingTop(w, q, q[0]);
      if |q| > 1 { assert Ready(v.state, q[1]); }
      var rest := TopDown(v, q[1..]);
      es := [e] + rest;
      RunFirst(w, e, rest);
    }
  }

  lemma RunFirst<T>(w: Queue<T>, e: Event<T>, rest: seq<Event<T>>)
    requires Legal(w, e) && e.Resume? && LegalRun(Step(w, e), rest) && Closing(rest)
    ensures LegalRun(w, [e] + rest) && Closing([e] + rest) && Run(w, [e] + rest) == Run(Step(w, e), rest)
    ensures Resumes([e] + rest) == 1 + Resumes(rest)
  {
    var es := [e] + rest;
    assert es[0] == e && es[1..] == rest;
    forall i | 0 <= i < |es| ensures es[i].Resume? || es[i].WakeUp? {
      if i > 0 { assert es[i] == rest[i - 1]; }
    }
  }

  lemma {:induction false} RunJoin<T>(w: Queue<T>, a: seq<Event<T>>, b: seq<Event<T>>)
    requires LegalRun(w, a) && Closing(a) && LegalRun(Run(w, a), b) && Closing(b)
    ensures LegalRun(w, a + b) && Closing(a + b) && Run(w, a + b) == Run(Run(w, a), b)
    ensures Resumes(a + b) == Resumes(a) + Resumes(b)
    decreases |a|
  {
    if a == [] {
      assert a + b == b;
    } else {
      assert (a + b)[0] == a[0] && (a + b)[1..] == a[1..] + b;
      assert a[0].Resume? || a[0].WakeUp?;
      assert forall i :: 0 <= i < |a[1..]| ==> a[1..][i] == a[i + 1];
      RunJoin(Step(w, a[0]), a[1..], b);
      forall i | 0 <= i < |a + b| ensures (a + b)[i].Resume? || (a + b)[i].WakeUp? {
        assert (a + b)[i] == if i < |a| then a[i] else b[i - |a|];
      }
    }
  }

  /** The bound is tight for every number of sleepers: if they have all been made runnable, 2n - 1 resumes may be needed,
      from the bottom up to the one below the head and then from the top down. */
  lemma BoundReached<T>(w: Queue<T>, q: seq<T>) returns (es: seq<Event<T>>)
    requires Chain(w, q) && q != [] && forall i :: 0 <= i < |q| ==> Ready(w.state, q[i])
    ensures LegalRun(Step(w, WakeUp), es) && Closing(es) && Resumes(es) == 2 * |q| - 1 && Run(Step(w, WakeUp), es).tmp == map[]
  {
    assert q[0] in w.tmp && w.head == Some(q[0]) && w.state[q[0] := S.TASK_RUNNING] == w.state;
    assert Step(w, WakeUp) == w;
    var up := BottomUp(w, q, |q|);
    var down := TopDown(Run(w, up), q);
    es := up + down;
    RunJoin(w, up, down);
  }

  /** A task goes to sleep behind the others, and other code makes it runnable. */
  lemma OneMoreReady<T>(v: Queue<T>, r: seq<T>, t: T) returns (w: Queue<T>)
    requires Chain(v, r) && t !in r && forall i :: 0 <= i < |r| ==> Ready(v.state, r[i])
    ensures Chain(w, [t] + r) && forall i :: 0 <= i < |r| + 1 ==> Ready(w.state, ([t] + r)[i])
  {
    var e, f := Enter(t, TASK_UNINTERRUPTIBLE), Poke(t, S.TASK_RUNNING);
    StepKeepsChain(v, r, e);
    var u := Step(v, e);
    assert t in u.tmp;
    StepKeepsChain(u, [t] + r, f);
    w := Step(u, f);
    forall i | 0 <= i < |r| + 1 ensures Ready(w.state, ([t] + r)[i]) {
      if i > 0 { assert Ready(v.state, r[i - 1]); }
    }
  }

  /** There are such queues: n tasks that went to sleep one after the other, each made runnable by other code. */
  lemma {:induction false} SleepersReady(n: nat) returns (w: Queue<int>, q: seq<int>)
    ensures Chain(w, q) && |q| == n && (forall i :: 0 <= i < n ==> Ready(w.state, q[i])) && forall t :: t in q ==> t < n
  {
    if n == 0 {
      w, q := Queue(None, map[], map[]), [];
    } else {
      var v, r := SleepersReady(n - 1);
      w := OneMoreReady(v, r, n - 1);
      q := [n - 1] + r;
    }
  }
}
