/** The kernel shares pages between tasks and splits them on write faults. Seen from the tasks,
    it is a machine in which fork copies every page at once and nothing is ever shared. */
module Refinement {
  import opened Words
  import opened Machine
  import opened Invariant
  import opened Steps
  import opened Copying
  import opened Fork

  // A user store, and the fault it may raise

  /** do_wp_page */
  function DoWpPage(s: State, a: int): (t: State)
    ensures SameRest(s, t)
  {
    if a < TASK_SIZE then Panic(s)
    else UnWp(s, FrameOf(Word(s, 0, DirOffset(a) / 4)), TableOffset(a) / 4)
  }

  /** The entry that the hardware walk finds for a linear address. */
  function Walk(a: int): Ref {
    Entry(a / 0x40_0000, a / 0x1000 % 0x400)
  }

  /** A store of w to the word at linear address a in user mode. On a page that is not present
      page_fault returns at once and the store faults again, so memory does not change. */
  function UserStore(s: State, a: int, w: int): State {
    if Target(s, Walk(a)) < 0 then s
    else
      var t := if CanWrite(s, Walk(a)) then s else DoWpPage(s, a);
      Put(t, FrameOf(Pte(t, Walk(a).k, Walk(a).i)), a / 4 % 0x400, w)
  }

  // What the tasks see

  const PAGES := 0x4000

  /** A page of an address space: absent, a window on a frame of the kernel's first megabyte,
      or memory of the task's own. */
  datatype Page = Unmapped | Window(frame: int) | Own(words: Frame)
  type Space = seq<Page>

  function View(s: State, r: Ref): Page {
    if Target(s, r) < 0 then Unmapped
    else if Target(s, r) < LOW_FRAMES then Window(Target(s, r))
    else Own(Contents(s, r))
  }

  /** Page v of task t. */
  function PageRef(t: int, v: int): Ref {
    Entry(16 * t + v / 1024, v % 1024)
  }

  function SpaceOf(s: State, t: int): Space {
    seq(PAGES, v => View(s, PageRef(t, v)))
  }

  predicate Live(s: State, t: int) {
    1 <= t < NR_TASKS && Slot(s, t) != 0
  }

  function Spaces(s: State): map<int, Space> {
    map t | 1 <= t < NR_TASKS && Live(s, t) :: SpaceOf(s, t)
  }

  // The machine that copies

  /** What happened: task p forked task n; nothing the tasks can see; or task t stored w in word o
      of page v, while the kernel's first megabyte held what low says. */
  datatype Event = Spawned(p: int, n: int) | Nothing | Stored(t: int, v: int, o: int, w: int, low: seq<Frame>)

  function StoreIn(page: Page, o: int, w: int, low: seq<Frame>): Page {
    match page
    case Unmapped => Unmapped
    case Window(f) => if 0 <= f < |low| && 0 <= o < |low[f]| then Own(low[f][o := w]) else page
    case Own(words) => if 0 <= o < |words| then Own(words[o := w]) else page
  }

  /** The kernel's first megabyte. */
  function LowMemory(s: State): seq<Frame> {
    if |s.mem| >= LOW_FRAMES then s.mem[..LOW_FRAMES] else []
  }

  /** fork copies the whole space; a store changes one page of one task. */
  function CopyingStep(e: map<int, Space>, ev: Event): map<int, Space> {
    match ev
    case Spawned(p, n) => if p in e then e[n := e[p]] else e
    case Nothing => e
    case Stored(t, v, o, w, low) =>
      if t in e && 0 <= v < |e[t]| then e[t := e[t][v := StoreIn(e[t][v], o, w, low)]] else e
  }

  function CopyingRun(e: map<int, Space>, evs: seq<Event>): map<int, Space> {
    if evs == [] then e else CopyingStep(CopyingRun(e, evs[..|evs| - 1]), evs[|evs| - 1])
  }

  lemma PageRefInSlice(t: int, v: int)
    requires 1 <= t < NR_TASKS && 0 <= v < PAGES
    ensures PageRef(t, v).Entry? && IsRef(PageRef(t, v)) && Owner(PageRef(t, v)) == t
    ensures 16 * t <= PageRef(t, v).k < 16 * t + 16 && 0 <= PageRef(t, v).i < 1024
  {
  }

  lemma PageRefInjective(t: int, v: int, u: int)
    requires 0 <= v < PAGES && 0 <= u < PAGES && PageRef(t, v) == PageRef(t, u)
    ensures v == u
  {
    assert v == v / 1024 * 1024 + v % 1024 && u == u / 1024 * 1024 + u % 1024;
  }

  /** Places that name the same frame with the same contents look the same. */
  lemma SameSpace(s: State, u: State, t: int)
    requires 1 <= t < NR_TASKS
    requires forall r :: IsRef(r) && Owner(r) == t ==> Target(u, r) == Target(s, r) && Contents(u, r) == Contents(s, r)
    ensures SpaceOf(u, t) == SpaceOf(s, t)
  {
    hide Target, Contents;
    forall v | 0 <= v < PAGES ensures View(u, PageRef(t, v)) == View(s, PageRef(t, v)) {
      PageRefInSlice(t, v);
    }
  }

  // fork

  lemma ForkedEntry(s: State, t: State, p: int, n: int, k: int, i: int)
    requires Forked(s, t, p, n) && p >= 1 && 16 * n <= k < 16 * n + 16 && 0 <= i < 1024
    ensures Target(t, Entry(k, i)) == Target(s, Entry(k - 16 * n + 16 * p, i))
  {
    hide Inv, Tasks, SameRest, Keeps, Same, Slot, PcbWord, Target;
  }

  lemma ForkedSame(s: State, t: State, p: int, n: int, r: Ref)
    requires Forked(s, t, p, n) && IsRef(r) && Owner(r) != n
    ensures Target(t, r) == Target(s, r) && Contents(t, r) == Contents(s, r)
  {
    hide Inv, Tasks, SameRest, Keeps, Slot, PcbWord, Target, Contents, Owner, IsRef;
  }

  lemma SameFrame(t: State, r: Ref, q: Ref)
    requires r.Entry? && q.Entry? && Target(t, r) == Target(t, q)
    ensures Contents(t, r) == Contents(t, q)
  {
    hide Target;
  }

  /** The child's space is the parent's. */
  lemma ChildSees(s: State, t: State, p: int, n: int)
    requires Forked(s, t, p, n) && 1 <= p < NR_TASKS && 1 <= n < NR_TASKS && p != n
    ensures SpaceOf(t, n) == SpaceOf(s, p)
  {
    hide Forked, Target, Contents;
    forall v | 0 <= v < PAGES ensures View(t, PageRef(n, v)) == View(s, PageRef(p, v)) {
      var r, q := PageRef(n, v), PageRef(p, v);
      PageRefInSlice(n, v);
      PageRefInSlice(p, v);
      ForkedEntry(s, t, p, n, r.k, r.i);
      ForkedSame(s, t, p, n, q);
      SameFrame(t, r, q);
    }
  }

  lemma OthersSee(s: State, t: State, p: int, n: int, u: int)
    requires Forked(s, t, p, n) && 1 <= u < NR_TASKS && u != n
    ensures SpaceOf(t, u) == SpaceOf(s, u)
  {
    hide Forked, Target, Contents, SpaceOf, IsRef, Owner;
    forall r | IsRef(r) && Owner(r) == u ensures Target(t, r) == Target(s, r) && Contents(t, r) == Contents(s, r) {
      ForkedSame(s, t, p, n, r);
    }
    SameSpace(s, t, u);
  }

  lemma ForkedSlots(s: State, t: State, p: int, n: int)
    requires Forked(s, t, p, n)
    ensures Slot(t, n) != 0 && forall u :: u != n ==> Slot(t, u) == Slot(s, u)
  {
    hide Inv, Tasks, SameRest, Keeps, Same, PcbWord, Target;
  }

  lemma ForkRefines(s: State, t: State, p: int, n: int)
    requires Forked(s, t, p, n) && Live(s, p) && 1 <= n < NR_TASKS && Slot(s, n) == 0
    ensures Spaces(t) == CopyingStep(Spaces(s), Spawned(p, n))
  {
    hide Forked, SpaceOf, Slot;
    ForkedSlots(s, t, p, n);
    ChildSees(s, t, p, n);
    forall u | 1 <= u < NR_TASKS && u != n ensures SpaceOf(t, u) == SpaceOf(s, u) { OthersSee(s, t, p, n, u); }
  }

  lemma RollbackRefines(s: State, t: State)
    requires RolledBack(s, t)
    ensures Spaces(t) == Spaces(s)
  {
    hide RolledBack, Target, Contents, SpaceOf, Slot;
    RolledBackFacts(s, t);
    forall u | 1 <= u < NR_TASKS ensures SpaceOf(t, u) == SpaceOf(s, u) { SameSpace(s, t, u); }
  }

  lemma RolledBackFacts(s: State, t: State)
    requires RolledBack(s, t)
    ensures forall u :: Slot(t, u) == Slot(s, u)
    ensures forall r :: IsRef(r) ==> Target(t, r) == Target(s, r) && Contents(t, r) == Contents(s, r)
  {
    hide Inv, Tasks, Target, Contents, MapKept, IsRef, Dir;
  }

  // A store

  /** A write fault at a can be served: the page is not shared, or a frame is free for the copy. */
  ghost predicate CanSplit(s: State, a: int) {
    Alone(s, Walk(a).k, Walk(a).i) || HasFree(s)
  }

  /** do_wp_page panics exactly for addresses below the first task. */
  lemma FaultPanicsExactlyWhen(s: State, a: int)
    ensures DoWpPage(s, a).panicked <==> s.panicked || a < TASK_SIZE
    ensures a < TASK_SIZE ==> DoWpPage(s, a) == Panic(s)
  {
    hide DirOffset, TableOffset, FrameOf, SetWrite, UserWord, HighestFree;
  }

  lemma FaultEntry(s: State, a: int)
    requires IsWord(a) && a >= TASK_SIZE
    ensures IsRef(Walk(a)) && DoWpPage(s, a) == UnWp(s, FrameOf(Dir(s, Walk(a).k)), Walk(a).i)
  {
    FaultAddressWalk(a);
    hide DirOffset, TableOffset, UnWp;
  }

  /** A served fault gives the task a writable page with the same contents, and disturbs no one. */
  lemma FaultServed(s: State, a: int)
    requires Inv(s) && IsWord(a) && a >= TASK_SIZE && Target(s, Walk(a)) >= 0 && CanSplit(s, a)
    ensures var t := DoWpPage(s, a); var r := Walk(a);
      && Inv(t) && Undisturbed(s, t, r) && t.task == s.task && CanWrite(t, r)
      && Target(t, r) >= FIRST_FREE && Contents(t, r) == s.mem[Target(s, r)]
  {
    var r := Walk(a);
    var t := DoWpPage(s, a);
    FaultEntry(s, a);
    if Alone(s, r.k, r.i) {
      GrantStep(s, r.k, r.i);
    } else {
      FreeFrameFacts(s);
      SplitStep(s, t, r.k, r.i, GetFree(s).1);
    }
    WriterPlaced(t, r);
  }

  lemma WriterPlaced(t: State, r: Ref)
    requires Inv(t) && IsRef(r) && CanWrite(t, r)
    ensures FIRST_FREE <= Target(t, r) < FRAMES && Contents(t, r) == t.mem[Target(t, r)] && |Contents(t, r)| == 1024
  {
  }

  lemma NotSplit(s: State, a: int)
    requires Inv(s) && IsWord(a) && a >= TASK_SIZE && Target(s, Walk(a)) >= 0 && !CanSplit(s, a)
    ensures var r, u := Walk(a), if Target(s, Walk(a)) >= LOW_FRAMES then SetCount(s, Target(s, Walk(a)), Count(s, Target(s, Walk(a))) - 1) else s;
      && DoWpPage(s, a) == Put(PutFrame(u, 0, s.mem[Target(s, r)]), FrameOf(Dir(s, r.k)), r.i, 7)
      && 1 <= FrameOf(Dir(s, r.k)) < FRAMES && |s.mem| == |u.mem| == FRAMES && |s.mem[FrameOf(Dir(s, r.k))]| == 1024
  {
    hide Inv, GetFree, Refs, DoWpPage, SetWrite, Present, FrameOf, Walk;
    FaultEntry(s, a);
    WalkSlice(a);
    TargetPlace(s, Walk(a));
    DirNamesTable(s, Walk(a).k);
    FreeFrameFacts(s);
    UserWordZero();
  }

  /** un_wp_page does not look at whether a frame was found. It serves the fault exactly when the
      page is not shared or a frame is free; otherwise the entry ends up granting write access to
      frame 0, the page directory, which has been overwritten with the page. */
  lemma FaultServedExactlyWhen(s: State, a: int)
    requires Inv(s) && IsWord(a) && a >= TASK_SIZE && Target(s, Walk(a)) >= 0
    ensures var t := DoWpPage(s, a); var w := Word(t, FrameOf(Dir(s, Walk(a).k)), Walk(a).i);
      && (FrameOf(w) >= FIRST_FREE <==> CanSplit(s, a))
      && (!CanSplit(s, a) ==> w == 7 && t.mem[0] == s.mem[Target(s, Walk(a))])
  {
    hide Inv, DoWpPage, CanSplit, Target, CanWrite, Undisturbed, Contents, Walk, Dir;
    if CanSplit(s, a) {
      FaultServed(s, a);
      ServedDirs(s, a);
    } else {
      NotSplit(s, a);
      WalkSlice(a);
    }
  }

  lemma UserWordZero()
    ensures UserWord(0) == 7
  {
  }

  lemma WalkSlice(a: int)
    requires IsWord(a) && a >= TASK_SIZE
    ensures IsRef(Walk(a)) && Walk(a).Entry? && 16 <= Walk(a).k < 1024 && 0 <= Walk(a).i < 1024
  {
  }

  lemma TargetPlace(s: State, r: Ref)
    requires Inv(s) && IsRef(r) && r.Entry? && Target(s, r) >= 0
    ensures Present(Dir(s, r.k)) && Target(s, r) == FrameOf(Pte(s, r.k, r.i)) && 0 <= Target(s, r) < FRAMES && |s.mem| == FRAMES
  {
  }

  lemma DirNamesTable(s: State, k: int)
    requires Inv(s) && 16 <= k < 1024 && Present(Dir(s, k))
    ensures 1 <= FrameOf(Dir(s, k)) < FRAMES && |s.mem[FrameOf(Dir(s, k))]| == 1024
  {
  }

  /** The directory still names the same table after a served fault. */
  lemma ServedDirs(s: State, a: int)
    requires Inv(s) && IsWord(a) && a >= TASK_SIZE && Target(s, Walk(a)) >= 0 && CanSplit(s, a)
    ensures var t := DoWpPage(s, a);
      Target(t, Walk(a)) == FrameOf(Word(t, FrameOf(Dir(s, Walk(a).k)), Walk(a).i))
  {
    var r, t := Walk(a), DoWpPage(s, a);
    FaultEntry(s, a);
    FaultServed(s, a);
    assert IsRef(Table(r.k)) && Target(t, Table(r.k)) == Target(s, Table(r.k));
  }

  // What one store does

  /** The page that the store is about to change, after the fault if there is one. */
  lemma PageReady(s: State, a: int)
    requires Inv(s) && IsWord(a) && a >= TASK_SIZE && Target(s, Walk(a)) >= 0
    requires CanWrite(s, Walk(a)) || CanSplit(s, a)
    ensures var u := if CanWrite(s, Walk(a)) then s else DoWpPage(s, a); var r := Walk(a);
      && Inv(u) && Undisturbed(s, u, r) && u.task == s.task && SameRest(s, u) && IsRef(r) && CanWrite(u, r)
      && FIRST_FREE <= Target(u, r) < FRAMES && 0 <= Target(s, r) < FRAMES && |s.mem| == |u.mem| == FRAMES
      && u.mem[Target(u, r)] == s.mem[Target(s, r)] && |u.mem[Target(u, r)]| == 1024
      && FrameOf(Pte(u, r.k, r.i)) == Target(u, r) && MapKept(s, u)
  {
    var r := Walk(a);
    var u := if CanWrite(s, r) then s else DoWpPage(s, a);
    FaultEntry(s, a);
    if !CanWrite(s, r) {
      FaultServed(s, a);
      ServedMap(s, a);
    }
    WriterPlaced(u, r);
  }

  lemma GrantMap(s: State, k: int, i: int)
    requires Inv(s) && IsRef(Entry(k, i)) && Alone(s, k, i)
    ensures MapKept(s, UnWp(s, FrameOf(Dir(s, k)), i))
  {
    hide UnWp, Present, FrameOf, SetWrite;
    GrantForm(s, k, i);
    TableAbove(s, k);
  }

  lemma SplitMap(s: State, t: State, k: int, i: int, f: int)
    requires Inv(s) && IsRef(Entry(k, i)) && Split(s, t, k, i, f)
    ensures MapKept(s, t)
  {
    hide Split, Present, FrameOf, UserWord, Refs, Target;
    SplitForm(s, t, k, i, f);
    SplitAbove(s, t, k, i, f);
  }

  lemma TableAbove(s: State, k: int)
    requires Inv(s) && 16 <= k < 1024 && Present(Dir(s, k))
    ensures 5 <= FrameOf(Dir(s, k)) < FRAMES && |s.mem| == FRAMES
  {
    hide Present;
    TableFrame(s, k);
    assert IsRef(Table(k));
  }

  lemma SplitAbove(s: State, t: State, k: int, i: int, f: int)
    requires Inv(s) && IsRef(Entry(k, i)) && Split(s, t, k, i, f)
    ensures 5 <= FrameOf(Dir(s, k)) < FRAMES && 5 <= f < FRAMES && |s.mem| == FRAMES
  {
    hide Present, FrameOf, UnWp;
    TableAbove(s, k);
  }

  /** A served fault leaves task 0's tables alone. */
  lemma ServedMap(s: State, a: int)
    requires Inv(s) && IsWord(a) && a >= TASK_SIZE && Target(s, Walk(a)) >= 0 && CanSplit(s, a)
    ensures MapKept(s, DoWpPage(s, a))
  {
    hide Inv, DoWpPage, UnWp, Target, Walk, GetFree, MapKept, Refs, Dir, FrameOf;
    FaultEntry(s, a);
    WalkSlice(a);
    var r := Walk(a);
    if Alone(s, r.k, r.i) {
      GrantMap(s, r.k, r.i);
    } else {
      FreeFrameFacts(s);
      SplitMap(s, DoWpPage(s, a), r.k, r.i, GetFree(s).1);
    }
  }

  lemma PutMap(s: State, f: int, o: int, w: int)
    requires Inv(s) && f >= 5
    ensures MapKept(s, Put(s, f, o, w))
  {
  }

  lemma StoreEffect(s: State, a: int, w: int)
    requires Inv(s) && IsWord(a) && a >= TASK_SIZE && Target(s, Walk(a)) >= 0
    requires CanWrite(s, Walk(a)) || CanSplit(s, a)
    ensures var t := UserStore(s, a, w); var r := Walk(a); var f := Target(s, r);
      && Inv(t) && Undisturbed(s, t, r) && t.task == s.task && SameRest(s, t) && MapKept(s, t)
      && 0 <= f < |s.mem| && |s.mem[f]| == 1024 && View(t, r) == Own(s.mem[f][a / 4 % 0x400 := w]) && CanWrite(t, r)
  {
    var r, o := Walk(a), a / 4 % 0x400;
    var u := if CanWrite(s, r) then s else DoWpPage(s, a);
    PageReady(s, a);
    assert UserStore(s, a, w) == Put(u, Target(u, r), o, w);
    hide Inv, DoWpPage, CanSplit, UserStore, CanWrite, Target, Walk, Pte, MapKept;
    PutMap(u, Target(u, r), o, w);
    MapTransitive(s, u, UserStore(s, a, w));
    StoreStep(u, r.k, r.i, o, w);
    WriterPlaced(UserStore(s, a, w), r);
  }

  /** Offset o lies within a task's 64 MB, on a word. */
  predicate InSlice(o: int) {
    0 <= o < TASK_SIZE && o % 4 == 0
  }

  lemma SliceQuotients(t: int, o: int)
    ensures var a := t * TASK_SIZE + o;
      a / 0x40_0000 == 16 * t + o / 0x40_0000 && a / 0x1000 == 0x400 * (16 * t) + o / 0x1000 && a / 4 == 0x400 * (0x4000 * t) + o / 4
    ensures o / 0x40_0000 == o / 0x1000 / 0x400
  {
  }

  lemma ModUnit(m: int, x: int)
    ensures (0x400 * m + x) % 0x400 == x % 0x400
  {
  }

  lemma WalkIsPage(t: int, o: int)
    requires 1 <= t < NR_TASKS && InSlice(o)
    ensures var a := t * TASK_SIZE + o;
      IsWord(a) && a >= TASK_SIZE && Walk(a) == PageRef(t, o / 0x1000) && a / 4 % 0x400 == o / 4 % 0x400
    ensures 0 <= o / 0x1000 < PAGES
  {
    var a := t * TASK_SIZE + o;
    SliceQuotients(t, o);
    ModUnit(16 * t, o / 0x1000);
    ModUnit(0x4000 * t, o / 4);
  }

  lemma StoreAbsent(s: State, t: int, v: int, o: int, w: int, low: seq<Frame>)
    requires Live(s, t) && 0 <= v < PAGES && Target(s, PageRef(t, v)) < 0
    ensures Spaces(s) == CopyingStep(Spaces(s), Stored(t, v, o, w, low))
  {
    assert SpaceOf(s, t)[v := Unmapped] == SpaceOf(s, t);
    assert Spaces(s)[t := SpaceOf(s, t)] == Spaces(s);
    hide Target, Slot;
  }

  lemma StorePresent(s: State, u: State, t: int, v: int, o: int, w: int)
    requires Inv(s) && Live(s, t) && 0 <= v < PAGES && 0 <= o < 0x400 && Target(s, PageRef(t, v)) >= 0
    requires u.task == s.task && Undisturbed(s, u, PageRef(t, v))
    requires Target(s, PageRef(t, v)) < |s.mem| && o < |s.mem[Target(s, PageRef(t, v))]|
    requires View(u, PageRef(t, v)) == Own(s.mem[Target(s, PageRef(t, v))][o := w])
    ensures Spaces(u) == CopyingStep(Spaces(s), Stored(t, v, o, w, LowMemory(s)))
  {
    StoreSpaces(s, u, t, v);
    StoredPage(s, t, v, o, w);
    hide Inv, Undisturbed, View, Target, StoreIn, PageRef, Slot;
  }

  lemma StoreRefines(s: State, t: int, o: int, w: int)
    requires Inv(s) && Tasks(s) && Live(s, t) && InSlice(o)
    requires var a := t * TASK_SIZE + o; Target(s, Walk(a)) >= 0 && !CanWrite(s, Walk(a)) ==> CanSplit(s, a)
    ensures var u := UserStore(s, t * TASK_SIZE + o, w);
      && Inv(u) && Tasks(u) && u.task == s.task
      && Spaces(u) == CopyingStep(Spaces(s), Stored(t, o / 0x1000, o / 4 % 0x400, w, LowMemory(s)))
  {
    var a, v := t * TASK_SIZE + o, o / 0x1000;
    var u := UserStore(s, a, w);
    assert Inv(s) && |s.mem| == FRAMES && 1 <= t < NR_TASKS;
    if Target(s, Walk(a)) < 0 {
      assert u == s;
      hide Inv, Tasks, UserStore, Walk, PageRef, CanSplit, Spaces, CopyingStep, Target, InSlice, Live;
      WalkIsPage(t, o);
      StoreAbsent(s, t, v, o / 4 % 0x400, w, LowMemory(s));
    } else {
      hide Inv, Tasks, UserStore, Walk, PageRef, CanSplit, Undisturbed, View, Target, Spaces, CopyingStep, InSlice, CanWrite, Live;
      WalkIsPage(t, o);
      StoreEffect(s, a, w);
      StoreTasks(s, u, t, v);
      StorePresent(s, u, t, v, o / 4 % 0x400, w);
    }
  }

  lemma StoreTasks(s: State, u: State, t: int, v: int)
    requires Inv(s) && Tasks(s) && Inv(u) && SameRest(s, u) && u.task == s.task && Undisturbed(s, u, PageRef(t, v))
    ensures Tasks(u)
  {
    assert forall n :: 1 <= n < NR_TASKS ==> IsRef(Pcb(n)) && Pcb(n) != PageRef(t, v);
    hide Inv, Tasks, Target, Contents;
    TasksKept(s, u);
  }

  lemma StoredPage(s: State, t: int, v: int, o: int, w: int)
    requires Inv(s) && Live(s, t) && 0 <= v < PAGES && 0 <= o < 0x400 && Target(s, PageRef(t, v)) >= 0
    ensures StoreIn(View(s, PageRef(t, v)), o, w, LowMemory(s)) == Own(s.mem[Target(s, PageRef(t, v))][o := w])
  {
    PageRefInSlice(t, v);
    assert Target(s, PageRef(t, v)) < FRAMES;
  }

  lemma StoreSpaces(s: State, u: State, t: int, v: int)
    requires Inv(s) && Live(s, t) && 0 <= v < PAGES && u.task == s.task && Undisturbed(s, u, PageRef(t, v))
    ensures Spaces(u) == Spaces(s)[t := SpaceOf(s, t)[v := View(u, PageRef(t, v))]]
  {
    hide Inv, Target, Contents, PageRef, Owner;
    assert forall n :: Slot(u, n) == Slot(s, n);
    PageRefInSlice(t, v);
    forall n | 1 <= n < NR_TASKS && n != t ensures SpaceOf(u, n) == SpaceOf(s, n) { SameSpace(s, u, n); }
    forall x | 0 <= x < PAGES && x != v ensures View(u, PageRef(t, x)) == View(s, PageRef(t, x)) {
      PageRefInSlice(t, x);
      if PageRef(t, x) == PageRef(t, v) { PageRefInjective(t, x, v); }
    }
    assert SpaceOf(u, t) == SpaceOf(s, t)[v := View(u, PageRef(t, v))];
  }

  // The whole kernel state between two commands

  ghost predicate Good(s: State) {
    Inv(s) && Tasks(s)
  }

  lemma GoodInv(t: State)
    requires Good(t)
    ensures Inv(t) && Tasks(t)
  {
  }

  lemma ForkedGood(u: State, t: State, p: int, n: int)
    requires Forked(u, t, p, n)
    ensures Good(t)
  {
    hide Inv, Tasks, Same, Keeps;
  }

  lemma RolledBackGood(u: State, t: State)
    requires RolledBack(u, t)
    ensures Good(t)
  {
    hide Inv, Tasks;
  }

  lemma FoundSpaces(s: State)
    requires Good(s)
    ensures Spaces(Found(s)) == Spaces(s)
  {
    FoundTasks(s);
    hide Inv, Tasks, Target, Contents, SpaceOf;
    assert forall u :: Slot(Found(s), u) == Slot(s, u);
    forall u | 1 <= u < NR_TASKS ensures SpaceOf(Found(s), u) == SpaceOf(s, u) { SameSpace(s, Found(s), u); }
  }
}
