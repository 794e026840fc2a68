/** Runs of the tasks: forks, stores through a task's own segment, and stores through the segment at the
    video memory that harm nobody. */
module Runs {
  import opened Words
  import opened Machine
  import opened Invariant
  import opened Steps
  import opened Copying
  import opened Fork
  import opened Refinement
  import opened Video

  /** What tasks do to memory: task p forks, task t stores w at offset o of its own segment, or task t stores w
      at linear address a through the segment at the video memory. */
  datatype Command = ForkBy(p: int) | StoreBy(t: int, o: int, w: int) | PokeBy(t: int, a: int, w: int)

  /** Offset o lies within the limit of a task's own segment, on a word. */
  predicate InSegment(o: int) {
    0 <= o < 0x100_0000 && o % 4 == 0
  }

  /** The store is served: the page is absent, so that it faults for ever, or t may write to it, or the fault can
      be served. */
  ghost predicate Served(s: State, t: int, o: int) {
    var a := t * TASK_SIZE + o;
    Target(s, Walk(a)) >= 0 && !CanWrite(s, Walk(a)) ==> CanSplit(s, a)
  }

  /** A task in a slot acts. A store that faults on a shared page needs a free frame, and a store through the
      video segment must be one that harms nobody. */
  ghost predicate May(s: State, c: Command) {
    match c
    case ForkBy(p) => Live(s, p)
    case StoreBy(t, o, _) => Live(s, t) && InSegment(o) && Served(s, t, o)
    case PokeBy(t, a, _) => Live(s, t) && InVideo(a) && MayPoke(s, t, a)
  }

  function Do(s: State, c: Command): State {
    match c
    case ForkBy(p) => SysFork(s, p).0
    case StoreBy(t, o, w) => UserStore(s, t * TASK_SIZE + o, w)
    case PokeBy(_, a, w) => UserStore(s, a, w)
  }

  function Observe(s: State, c: Command): Event {
    match c
    case ForkBy(p) => if SysFork(s, p).1 > 0 then Spawned(p, EmptySlot(s, 1)) else Nothing
    case StoreBy(t, o, w) => Stored(t, o / 0x1000, o / 4 % 0x400, w, LowMemory(s))
    case PokeBy(t, a, w) => PokeEvent(s, t, a, w)
  }

  function Run(s: State, cs: seq<Command>): State {
    if cs == [] then s else Do(Run(s, cs[..|cs| - 1]), cs[|cs| - 1])
  }

  ghost predicate MayRun(s: State, cs: seq<Command>) {
    cs != [] ==> MayRun(s, cs[..|cs| - 1]) && May(Run(s, cs[..|cs| - 1]), cs[|cs| - 1])
  }

  function Trace(s: State, cs: seq<Command>): seq<Event> {
    if cs == [] then []
    else Trace(s, cs[..|cs| - 1]) + [Observe(Run(s, cs[..|cs| - 1]), cs[|cs| - 1])]
  }

  // One step

  lemma FoundSlots(s: State, p: int)
    requires Good(s) && Live(s, p)
    ensures Live(Found(s), p) && MayFork(s, p)
    ensures EmptySlot(s, 1) > 0 ==> EmptySlot(s, 1) < NR_TASKS && Slot(Found(s), EmptySlot(s, 1)) == 0
  {
    assert forall u :: Slot(Found(s), u) == Slot(s, u);
    hide Inv, Tasks, Pids;
  }

  lemma ForkStepRefines(s: State, p: int)
    requires Good(s) && Live(s, p)
    ensures var t := Do(s, ForkBy(p));
      Good(t) && MapKept(s, t) && Spaces(t) == CopyingStep(Spaces(s), Observe(s, ForkBy(p)))
  {
    hide Inv, Tasks, Forked, RolledBack, SysFork, Spaces, Pids, NextPid, Pristine, Found, Slot, EmptySlot, MapKept;
    var (t, r) := SysFork(s, p);
    var n, u := EmptySlot(s, 1), Found(s);
    FoundSlots(s, p);
    SysForkStep(s, p);
    FoundSpaces(s);
    FoundMap(s);
    if r > 0 {
      ForkRefines(u, t, p, n);
      ForkedGood(u, t, p, n);
      ForkedMap(u, t, p, n);
    } else {
      RollbackRefines(u, t);
      RolledBackGood(u, t);
      RolledBackMap(u, t);
    }
    MapTransitive(s, u, t);
  }

  lemma FoundMap(s: State)
    requires Good(s)
    ensures MapKept(s, Found(s))
  {
  }

  lemma ForkedMap(u: State, t: State, p: int, n: int)
    requires Forked(u, t, p, n) && p > 0
    ensures MapKept(u, t)
  {
  }

  lemma RolledBackMap(u: State, t: State)
    requires RolledBack(u, t)
    ensures MapKept(u, t)
  {
  }

  lemma StoreStepRefines(s: State, t: int, o: int, w: int)
    requires Good(s) && May(s, StoreBy(t, o, w))
    ensures var c := StoreBy(t, o, w); var u := Do(s, c);
      Good(u) && MapKept(s, u) && Spaces(u) == CopyingStep(Spaces(s), Observe(s, c))
  {
    hide Inv, Tasks, UserStore, CopyingStep, Spaces, Target, Walk, CanWrite, CanSplit, LowMemory, MapKept;
    StoreRefines(s, t, o, w);
    StoreMap(s, t, o, w);
  }

  lemma StoreMap(s: State, t: int, o: int, w: int)
    requires Good(s) && 1 <= t < NR_TASKS && InSlice(o) && Served(s, t, o)
    ensures MapKept(s, UserStore(s, t * TASK_SIZE + o, w))
  {
    var a := t * TASK_SIZE + o;
    hide Inv, Tasks, Walk, Target, CanWrite, CanSplit, MapKept;
    WalkIsPage(t, o);
    if Target(s, Walk(a)) >= 0 {
      StoreEffect(s, a, w);
    } else {
      MapItself(s);
    }
  }

  /** One step: the invariant is kept, in particular nothing panics, the identity map is untouched, and the tasks
      see what they would see if fork copied. */
  lemma StepRefines(s: State, c: Command)
    requires Good(s) && May(s, c)
    ensures Good(Do(s, c)) && MapKept(s, Do(s, c)) && Spaces(Do(s, c)) == CopyingStep(Spaces(s), Observe(s, c))
  {
    hide Good, Spaces, CopyingStep, Harmless, MapKept, UserStore, SysFork, PokeEvent, LowMemory, MayPoke, InVideo, Live, Served;
    match c
    case ForkBy(p) => ForkStepRefines(s, p);
    case StoreBy(t, o, w) => StoreStepRefines(s, t, o, w);
    case PokeBy(t, a, w) =>
      PokeRefines(s, t, a, w);
      HarmlessGood(s, UserStore(s, a, w), t);
  }

  lemma HarmlessGood(s: State, u: State, t: int)
    requires Harmless(s, u, t)
    ensures Good(u)
  {
  }

  // Every run

  /** Every run: sharing and splitting is a refinement of copying. */
  lemma {:induction false} RunRefines(s: State, cs: seq<Command>)
    requires Good(s) && MayRun(s, cs)
    ensures Good(Run(s, cs)) && MapKept(s, Run(s, cs)) && Spaces(Run(s, cs)) == CopyingRun(Spaces(s), Trace(s, cs))
    decreases |cs|
  {
    hide Good, Do, Spaces, May, Observe, CopyingStep, MapKept;
    if cs != [] {
      var before := cs[..|cs| - 1];
      RunRefines(s, before);
      StepRefines(Run(s, before), cs[|cs| - 1]);
      MapTransitive(s, Run(s, before), Run(s, cs));
      assert Trace(s, cs)[..|Trace(s, cs)| - 1] == Trace(s, before);
    } else {
      GoodMap(s);
    }
  }

  /** A run can be cut after its first command. */
  lemma {:induction false} RunCons(s: State, c: Command, cs: seq<Command>)
    requires May(s, c) && MayRun(Do(s, c), cs)
    ensures MayRun(s, [c] + cs) && Run(s, [c] + cs) == Run(Do(s, c), cs)
    decreases |cs|
  {
    hide May, Do;
    var all := [c] + cs;
    assert all[|all| - 1] == if cs == [] then c else cs[|cs| - 1];
    if cs == [] {
      assert all[..|all| - 1] == [];
      assert MayRun(s, []) && Run(s, []) == s;
    } else {
      assert all[..|all| - 1] == [c] + cs[..|cs| - 1];
      RunCons(s, c, cs[..|cs| - 1]);
    }
  }

  // Isolation

  /** An event that neither stores to page v of task t nor creates task t. */
  predicate Elsewhere(ev: Event, t: int, v: int) {
    !(ev.Stored? && ev.t == t && ev.v == v) && !(ev.Spawned? && ev.n == t)
  }

  lemma CopyingElsewhere(e: map<int, Space>, ev: Event, t: int, v: int)
    requires t in e && 0 <= v < |e[t]| && Elsewhere(ev, t, v)
    ensures var f := CopyingStep(e, ev); t in f && |f[t]| == |e[t]| && f[t][v] == e[t][v]
  {
  }

  /** Command c, in state s, is no store of t to its page v. */
  predicate Spares(s: State, c: Command, t: int, v: int) {
    var ev := Observe(s, c);
    !(ev.Stored? && ev.t == t && ev.v == v)
  }

  /** A command of another task spares every page of t. */
  lemma OthersSpare(s: State, c: Command, t: int, v: int)
    requires match c case ForkBy(_) => true case StoreBy(u, _, _) => u != t case PokeBy(u, _, _) => u != t
    ensures Spares(s, c, t, v)
  {
    hide SysFork, LowMemory, PageNaming, Walk, Target;
  }

  lemma ObservedElsewhere(s: State, c: Command, t: int, v: int)
    requires Live(s, t) && Spares(s, c, t, v)
    ensures Elsewhere(Observe(s, c), t, v)
  {
    hide SysFork, LowMemory, PageNaming, Walk, Target;
  }

  lemma StepIsolates(s: State, c: Command, t: int, v: int)
    requires Good(s) && May(s, c) && Live(s, t) && 0 <= v < PAGES && Spares(s, c, t, v)
    ensures Live(Do(s, c), t) && SpaceOf(Do(s, c), t)[v] == SpaceOf(s, t)[v]
  {
    hide *;
    StepRefines(s, c);
    SpacesAt(s, t);
    ObservedElsewhere(s, c, t, v);
    CopyingElsewhere(Spaces(s), Observe(s, c), t, v);
    SpacesAt(Do(s, c), t);
  }

  lemma SpacesAt(s: State, t: int)
    ensures t in Spaces(s) <==> Live(s, t)
    ensures Live(s, t) ==> Spaces(s)[t] == SpaceOf(s, t)
    ensures |SpaceOf(s, t)| == PAGES
  {
    hide Slot;
  }

  /** No command of the run stores to page v of task t. */
  predicate SparedBy(s: State, cs: seq<Command>, t: int, v: int) {
    cs == [] || (SparedBy(s, cs[..|cs| - 1], t, v) && Spares(Run(s, cs[..|cs| - 1]), cs[|cs| - 1], t, v))
  }

  /** In any run, a page that its task does not store to keeps its contents, whatever the others do. */
  lemma {:induction false} Isolation(s: State, cs: seq<Command>, t: int, v: int)
    requires Good(s) && MayRun(s, cs) && Live(s, t) && 0 <= v < PAGES && SparedBy(s, cs, t, v)
    ensures Live(Run(s, cs), t) && SpaceOf(Run(s, cs), t)[v] == SpaceOf(s, t)[v]
    decreases |cs|
  {
    hide Good, May, Do, Spares, Live, SpaceOf, Spaces, MapKept;
    if cs != [] {
      var before, c := cs[..|cs| - 1], cs[|cs| - 1];
      Isolation(s, before, t, v);
      RunRefines(s, before);
      StepIsolates(Run(s, before), c, t, v);
    }
  }

  // After a fork that ran out of frames

  /** Everything names what it named, with the same counts, and the identity map is untouched. */
  ghost predicate Restored(s: State, t: State) {
    && Inv(t) && t.memMap == s.memMap && t.task == s.task && MapKept(s, t)
    && (forall k :: 0 <= k < 1024 ==> Dir(t, k) == Dir(s, k))
    && forall r :: IsRef(r) ==> Target(t, r) == Target(s, r)
  }

  lemma RestoredFacts(s: State, t: State)
    requires Restored(s, t)
    ensures Inv(t) && t.memMap == s.memMap && t.task == s.task && MapKept(s, t)
    ensures forall k :: 0 <= k < 1024 ==> Dir(t, k) == Dir(s, k)
    ensures forall r :: IsRef(r) ==> Target(t, r) == Target(s, r)
  {
  }

  lemma RolledBackRestored(s: State, t: State)
    requires RolledBack(s, t)
    ensures Restored(s, t)
  {
    hide Inv, Tasks, Target, Contents, MapKept, Dir;
  }

  lemma FoundRestored(s: State)
    requires Good(s)
    ensures Restored(s, Found(s))
  {
    FoundTasks(s);
    FoundMap(s);
    SameMem(s, Found(s));
    hide Inv, Tasks, Target, Contents, MapKept, Dir;
  }

  lemma RestoredTransitive(s: State, u: State, t: State)
    requires Restored(s, u) && Restored(u, t)
    ensures Restored(s, t)
  {
    MapTransitive(s, u, t);
    hide Inv, Target, MapKept, Dir;
  }

  /** A fork that fails takes nothing from anybody: every command that was possible before is possible after it. In
      particular every store that could be served before can be served after. */
  lemma FailedForkServes(s: State, p: int, c: Command)
    requires Good(s) && May(s, ForkBy(p)) && SysFork(s, p).1 <= 0 && May(s, c)
    ensures Good(Do(s, ForkBy(p))) && Spaces(Do(s, ForkBy(p))) == Spaces(s) && May(Do(s, ForkBy(p)), c)
  {
    hide *;
    var t := Do(s, ForkBy(p));
    FailedFork(s, p);
    StepRefines(s, ForkBy(p));
    FoundRestored(s);
    RolledBackRestored(Found(s), t);
    RestoredTransitive(s, Found(s), t);
    RestoredServes(s, t, c);
  }

  lemma FailedFork(s: State, p: int)
    requires Good(s) && May(s, ForkBy(p)) && SysFork(s, p).1 <= 0
    ensures RolledBack(Found(s), Do(s, ForkBy(p)))
    ensures CopyingStep(Spaces(s), Observe(s, ForkBy(p))) == Spaces(s)
  {
    hide Inv, Tasks, RolledBack, Forked, SysFork, Found, Spaces;
    FoundSlots(s, p);
    SysForkStep(s, p);
  }

  /** After the rollback, every command that was possible is possible. */
  lemma RollbackServes(s: State, t: State, c: Command)
    requires Good(s) && RolledBack(s, t) && May(s, c)
    ensures May(t, c)
  {
    hide *;
    RolledBackRestored(s, t);
    RestoredServes(s, t, c);
  }

  /** What a task could do before, it can do afterwards: pages that the attempt made read-only are granted back or
      split when they are next stored to. */
  lemma RestoredServes(s: State, t: State, c: Command)
    requires Good(s) && Restored(s, t) && May(s, c)
    ensures May(t, c)
  {
    hide Inv, Tasks, Restored, MayPoke, CanWrite, CanSplit, Target, Live, Served, InVideo;
    match c
    case ForkBy(p) => StillLive(s, t, p);
    case StoreBy(u, o, _) =>
      StillLive(s, t, u);
      OwnStillServed(s, t, u, o);
    case PokeBy(u, a, _) =>
      StillLive(s, t, u);
      StillPokes(s, t, u, a);
  }

  lemma StillLive(s: State, t: State, u: int)
    requires Restored(s, t) && Live(s, u)
    ensures Live(t, u) && 1 <= u < NR_TASKS
  {
    hide Restored;
    RestoredFacts(s, t);
  }

  lemma OwnStillServed(s: State, t: State, u: int, o: int)
    requires Inv(s) && Restored(s, t) && 1 <= u < NR_TASKS && InSegment(o) && Served(s, u, o)
    ensures Served(t, u, o)
  {
    hide Inv, Restored, CanWrite, CanSplit, Target, Walk, PageRef;
    WalkIsPage(u, o);
    PageRefInSlice(u, o / 0x1000);
    StillServed(s, t, u * TASK_SIZE + o);
  }

  /** Who could write was alone, so the fault that may follow needs no frame. */
  lemma WriterAlone(s: State, r: Ref)
    requires Inv(s) && IsRef(r) && CanWrite(s, r)
    ensures r.Entry? && Alone(s, r.k, r.i)
  {
    var f := Target(s, r);
    assert f >= FIRST_FREE && f < FRAMES;
    forall q | q in Refs(s, f) ensures q == r {
      assert CanWrite(s, r) && Target(s, q) == Target(s, r);
    }
    assert r in Refs(s, f);
    assert Refs(s, f) == {r};
  }

  lemma StillServed(s: State, t: State, a: int)
    requires Inv(s) && Restored(s, t) && IsRef(Walk(a))
    requires Target(s, Walk(a)) >= 0 && !CanWrite(s, Walk(a)) ==> CanSplit(s, a)
    ensures Target(t, Walk(a)) == Target(s, Walk(a))
    ensures Target(t, Walk(a)) >= 0 && !CanWrite(t, Walk(a)) ==> CanSplit(t, a)
  {
    hide Inv, Restored, CanWrite, Target;
    RestoredFacts(s, t);
    if CanWrite(s, Walk(a)) { WriterAlone(s, Walk(a)); }
    assert forall f :: Count(t, f) == Count(s, f);
  }

  lemma StillPokes(s: State, t: State, u: int, a: int)
    requires Good(s) && Restored(s, t) && InVideo(a) && 1 <= u < NR_TASKS && MayPoke(s, u, a)
    ensures MayPoke(t, u, a)
  {
    hide Inv, Tasks, Restored, CanWrite, CanSplit, Target, Walk, Private;
    RestoredFacts(s, t);
    if a < TASK_SIZE {
      LowWalk(s, a);
      LowWalk(t, a);
      if Target(s, Walk(a)) >= 0 {
        LowWriters(s, t, a);
        StillPrivate(s, t, u, a / PAGE_SIZE);
      }
    } else {
      OwnSlice(a / TASK_SIZE, a);
      WalkIsPage(a / TASK_SIZE, a - a / TASK_SIZE * TASK_SIZE);
      PageRefInSlice(a / TASK_SIZE, (a - a / TASK_SIZE * TASK_SIZE) / 0x1000);
      if Target(s, Walk(a)) >= 0 {
        StillServed(s, t, a);
      } else {
        assert Target(t, Walk(a)) == Target(s, Walk(a));
      }
    }
  }

  /** The identity map grants what it granted as long as its tables are untouched. */
  lemma LowWriters(s: State, t: State, a: int)
    requires Inv(s) && Inv(t) && MapKept(s, t) && 0 <= a < HIGH_MEMORY && (forall k :: 0 <= k < 1024 ==> Dir(t, k) == Dir(s, k))
    ensures CanWrite(t, Walk(a)) == CanWrite(s, Walk(a))
  {
    LowWalk(s, a);
    LowWalk(t, a);
    LowTable(s, t, a);
    hide Inv, Target, MapKept, Writable;
  }

  lemma LowTable(s: State, t: State, a: int)
    requires Inv(s) && MapKept(s, t) && 0 <= a < HIGH_MEMORY && (forall k :: 0 <= k < 1024 ==> Dir(t, k) == Dir(s, k))
    ensures Pte(t, Walk(a).k, Walk(a).i) == Pte(s, Walk(a).k, Walk(a).i)
  {
    SplitPage(a);
    UserWordNames(Walk(a).k + 1);
    hide FrameOf, UserWord, Present;
    assert Dir(s, Walk(a).k) == UserWord((Walk(a).k + 1) * PAGE_SIZE);
  }

  lemma StillPrivate(s: State, t: State, u: int, f: int)
    requires Private(s, u, f) && t.memMap == s.memMap && 1 <= u < NR_TASKS && forall r :: IsRef(r) ==> Target(t, r) == Target(s, r)
    ensures Private(t, u, f)
  {
    hide Target, PageNaming;
    LastPage(s, u, f, PAGES);
    LastPage(t, u, f, PAGES);
    var v := PageNaming(s, u, f, PAGES);
    if v >= 0 {
      PageRefInSlice(u, v);
      assert Target(t, PageRef(u, v)) == f;
    }
    assert Count(t, f) == Count(s, f);
  }
}
