/** From power-on to the first fork, and what holds in every run after it. */
module Boot {
  import opened Words
  import opened Machine
  import opened Segments
  import opened Invariant
  import opened Steps
  import opened Copying
  import opened Fork
  import opened Refinement
  import opened Video
  import opened Runs
  import opened Shield

  /** The words of INIT_TASK that name segments. */
  const INIT_LIMIT := 0xfff
  const INIT_CODE := 0xc0fa00
  const INIT_DATA := 0xc0f200

  /** 16 MB of memory after setup_paging, mem_init(4 MB, 16 MB) and sched_init. */
  ghost predicate Booted(s: State) {
    && Shape(s) && !s.panicked && s.lastPid == 0
    && (forall j :: 0 <= j < PAGING_PAGES ==> s.memMap[j] == if j < FIRST_FREE - LOW_FRAMES then USED else 0)
    && (forall t :: 0 <= t < NR_TASKS ==> s.task[t] == 0)
    && (forall k :: 0 <= k < 1024 ==> s.mem[0][k] == if k < 4 then IdentityEntry(k + 1) else 0)
    && (forall f, i :: 1 <= f <= 4 && 0 <= i < 1024 ==> s.mem[f][i] == IdentityEntry(1024 * (f - 1) + i))
    && |s.initTask| == TASK_STRUCT
    && s.initTask[CODE..CODE + 2] == [INIT_LIMIT, INIT_CODE] && s.initTask[DATA..DATA + 2] == [INIT_LIMIT, INIT_DATA]
  }

  /** An identity entry is present, writable and names its frame. */
  lemma IdentityEntryNames(f: int)
    requires 0 <= f < FRAMES
    ensures var w := IdentityEntry(f); Present(w) && FrameOf(w) == f && PteWord(w) && w == UserWord(f * PAGE_SIZE)
  {
    UserWordNames(f);
    hide UserWord, FrameOf, Present;
  }

  lemma BootedDir(s: State, k: int)
    requires Booted(s) && 0 <= k < 1024
    ensures Dir(s, k) == if k < 4 then UserWord((k + 1) * PAGE_SIZE) else 0
  {
    if k < 4 { IdentityEntryNames(k + 1); }
  }

  lemma BootedPte(s: State, k: int, i: int)
    requires Booted(s) && 0 <= k < 4 && 0 <= i < 1024
    ensures Pte(s, k, i) == IdentityEntry(1024 * k + i) && Target(s, Entry(k, i)) == 1024 * k + i
  {
    BootedDir(s, k);
    IdentityEntryNames(k + 1);
    IdentityEntryNames(1024 * k + i);
    assert Pte(s, k, i) == s.mem[k + 1][i];
    hide Present, FrameOf, UserWord, IdentityEntry;
  }

  lemma BootedDirs(s: State)
    requires Booted(s)
    ensures forall k :: 0 <= k < 1024 ==> Dir(s, k) == if k < 4 then UserWord((k + 1) * PAGE_SIZE) else 0
    ensures forall k, i :: 0 <= k < 4 && 0 <= i < 1024 ==> Pte(s, k, i) == IdentityEntry(1024 * k + i) && Target(s, Entry(k, i)) == 1024 * k + i
    ensures forall t :: Slot(s, t) == 0
  {
    assert forall t :: Slot(s, t) == 0;
    hide Booted, Dir, Pte, Target, UserWord, IdentityEntry;
    forall k | 0 <= k < 1024 ensures Dir(s, k) == if k < 4 then UserWord((k + 1) * PAGE_SIZE) else 0 { BootedDir(s, k); }
    forall k, i | 0 <= k < 4 && 0 <= i < 1024
      ensures Pte(s, k, i) == IdentityEntry(1024 * k + i) && Target(s, Entry(k, i)) == 1024 * k + i
    {
      BootedPte(s, k, i);
    }
  }

  lemma BootedUnmapped(s: State)
    requires Booted(s)
    ensures forall r :: IsRef(r) ==> Target(s, r) == -1
  {
    BootedDirs(s);
    hide Booted;
  }

  lemma BootedStructured(s: State)
    requires Booted(s)
    ensures Structured(s) && OncePerTask(s)
  {
    assert Shape(s) && !s.panicked;
    BootedDirs(s);
    hide Booted;
    assert forall k, i :: 4 <= k < 1024 && 0 <= i < 1024 ==> Target(s, Entry(k, i)) == -1;
  }

  lemma BootedGood(s: State)
    requires Booted(s)
    ensures Good(s) && Pristine(s) && MayFork(s, 0)
  {
    BootedStructured(s);
    BootedUnmapped(s);
    forall f | LOW_FRAMES <= f < FRAMES ensures Count(s, f) == |Refs(s, f)| + Base(f) {
      assert Refs(s, f) == {};
    }
    assert TopFree(s, 0);
    BootedTasks(s);
    BootedDirs(s);
    hide Booted, Target, CanWrite, Structured, Tasks, OncePerTask, Count, Refs, TopFree;
  }

  /** The segments of INIT_TASK start at 0 and span 16 MB. */
  lemma InitSegments()
    ensures var c := Descriptor(INIT_LIMIT, INIT_CODE); var d := Descriptor(INIT_LIMIT, INIT_DATA);
      && IsDescriptor(c) && GetBase(c) == 0 && GetLimit(c) == 0x100_0000
      && IsDescriptor(d) && GetBase(d) == 0 && GetLimit(d) == 0x100_0000
  {
  }

  lemma BootedTasks(s: State)
    requires Booted(s)
    ensures Tasks(s)
  {
    BootedDirs(s);
    InitSegments();
    assert Segment(s, 0, CODE) == Descriptor(INIT_LIMIT, INIT_CODE) by {
      assert s.initTask[CODE] == s.initTask[CODE..CODE + 2][0] && s.initTask[CODE + 1] == s.initTask[CODE..CODE + 2][1];
    }
    assert Segment(s, 0, DATA) == Descriptor(INIT_LIMIT, INIT_DATA) by {
      assert s.initTask[DATA] == s.initTask[DATA..DATA + 2][0] && s.initTask[DATA + 1] == s.initTask[DATA..DATA + 2][1];
    }
    assert s.lastPid == 0 && |s.initTask| == TASK_STRUCT;
    hide Booted, Segment, GetBase, GetLimit, IsDescriptor, Slot, PcbWord;
  }

  /** The space of task 1 after the first fork: a window on the first 640 KB, and the first 640 KB
      of each further 4 MB as it was. */
  function FirstPage(s: State, v: int): Page {
    var f := v;
    if v % 1024 >= 0xa0 || f >= FRAMES then Unmapped
    else if f < LOW_FRAMES then Window(f)
    else Own(if 0 <= f < |s.mem| then s.mem[f] else [])
  }

  function FirstSpace(s: State): Space {
    seq(PAGES, v => FirstPage(s, v))
  }

  /** The first fork cannot fail: it makes task 1, with process id 1. */
  lemma FirstFork(s: State)
    requires Booted(s)
    ensures var (t, pid) := SysFork(s, 0);
      && pid == 1 && Good(t) && Shielded(t) && (forall u :: Live(t, u) <==> u == 1)
      && SpaceOf(t, 1) == FirstSpace(s)
  {
    hide Booted, Inv, Tasks, Good, MayFork, Forked, RolledBack, View, FirstPage, SysFork, Found, Slot, EmptySlot, Shielded, Pristine, Target, PageRef;
    var (t, pid) := SysFork(s, 0);
    BootedGood(s);
    SysForkStep(s, 0);
    FirstPid(s);
    forall v | 0 <= v < PAGES ensures View(t, PageRef(1, v)) == FirstPage(s, v) {
      FirstView(s, t, v);
    }
    BootedSlots(s);
    ForkedSlots(Found(s), t, 0, 1);
    ForkedGood(Found(s), t, 0, 1);
    BootedShielded(s);
  }

  lemma BootedSlots(s: State)
    requires Booted(s)
    ensures forall u :: Slot(Found(s), u) == 0
  {
    hide Booted, NextPid, Pids;
    BootedDirs(s);
    TaskSlots(s, Found(s));
  }

  lemma BootedClosed(s: State)
    requires Booted(s)
    ensures Closed(s, 0)
  {
    hide IdentityEntry;
  }

  lemma BootedShielded(s: State)
    requires Booted(s) && SysFork(s, 0).1 > 0
    ensures Shielded(SysFork(s, 0).0)
  {
    hide Booted, Inv, Tasks, ForkReady, CopyProcess, Shielded, Closed, Found, SysFork;
    BootedGood(s);
    FirstPid(s);
    FoundReady(s, 0);
    BootedClosed(s);
    ForkShields(s, EmptySlot(s, 1));
  }

  lemma FirstPid(s: State)
    requires Booted(s)
    ensures Found(s).lastPid == 1 && EmptySlot(s, 1) == 1
  {
    BootedDirs(s);
    assert Pids(s) == {};
    hide Booted;
  }

  lemma FirstView(s: State, t: State, v: int)
    requires Booted(s) && Forked(Found(s), t, 0, 1) && 0 <= v < PAGES
    ensures View(t, PageRef(1, v)) == FirstPage(s, v)
  {
    hide Booted, Target, Forked, Found, PageRef;
    PageRefInSlice(1, v);
    BootedTarget(s, v);
    BootedFound(s);
    FirstTarget(Found(s), t, v);
    FirstKept(Found(s), t);
    FirstSizes(s);
  }

  lemma BootedTarget(s: State, v: int)
    requires Booted(s) && 0 <= v < PAGES
    ensures Target(s, Entry(v / 1024, v % 1024)) == if v < FRAMES then v else -1
  {
    hide Booted, Target, FrameOf, IdentityEntry, UserWord;
    BootedDirs(s);
    if v >= FRAMES { AbsentEntry(s, v / 1024, v % 1024); }
  }

  lemma AbsentEntry(s: State, k: int, i: int)
    requires Dir(s, k) == 0
    ensures Target(s, Entry(k, i)) == -1
  {
    ZeroAbsent();
  }

  lemma BootedFound(s: State)
    requires Booted(s)
    ensures forall x :: Target(Found(s), x) == Target(s, x)
  {
    hide *;
    BootedGood(s);
    GoodInv(s);
    FoundTasks(s);
  }

  lemma FirstSizes(s: State)
    requires Booted(s)
    ensures Found(s).mem == s.mem && |s.mem| == FRAMES
  {
    hide NextPid, Pids;
  }

  lemma FirstTarget(s: State, t: State, v: int)
    requires Forked(s, t, 0, 1) && 0 <= v < PAGES
    ensures Target(t, PageRef(1, v)) == if v % 1024 < 0xa0 then Target(s, Entry(v / 1024, v % 1024)) else -1
    ensures PageRef(1, v).Entry?
  {
    hide Inv, Tasks, Same, SameRest, Target, Keeps;
    var r := PageRef(1, v);
    PageRefInSlice(1, v);
    assert Entry(r.k - 16 * 1 + 16 * 0, r.i) == Entry(v / 1024, v % 1024);
  }

  lemma FirstKept(s: State, t: State)
    requires Forked(s, t, 0, 1)
    ensures KeepsLow(s, t)
  {
    hide Inv, Tasks, Same, SameRest, Target;
  }

  // The segments of every task, in every good state

  /** INIT_TASK's segments, with 4 * t in the top byte: the base is t times TASK_SIZE. */
  lemma TaskSegments(s: State, t: int)
    requires Good(s) && Live(s, t)
    ensures Segment(s, t, CODE) == Descriptor(INIT_LIMIT, INIT_CODE + t * TASK_SIZE)
    ensures Segment(s, t, DATA) == Descriptor(INIT_LIMIT, INIT_DATA + t * TASK_SIZE)
  {
    hide Inv, Slot, PcbWord, Segment, GetBase, GetLimit, Attributes;
    SegmentWords(Segment(s, t, CODE), t, INIT_CODE);
    SegmentWords(Segment(s, t, DATA), t, INIT_DATA);
  }

  lemma SegmentWords(d: Descriptor, t: int, init: int)
    requires IsDescriptor(d) && GetBase(d) == t * TASK_SIZE && GetLimit(d) == 0x100_0000 && 1 <= t < NR_TASKS
    requires (init == INIT_CODE && Attributes(d) == CODE_ATTRIBUTES) || (init == INIT_DATA && Attributes(d) == DATA_ATTRIBUTES)
    ensures d == Descriptor(INIT_LIMIT, init + t * TASK_SIZE)
  {
    hide GetBase, GetLimit, Attributes;
    LimitLow(d);
    TaskBytes(d, t);
    AttributeBytes(d);
  }

  lemma LimitLow(d: Descriptor)
    requires IsDescriptor(d) && GetLimit(d) == 0x100_0000 && Attributes(d) in {CODE_ATTRIBUTES, DATA_ATTRIBUTES}
    ensures d.a % 0x1_0000 == INIT_LIMIT
  {
    MiddleBits(d.b);
  }

  lemma TaskBytes(d: Descriptor, t: int)
    requires IsDescriptor(d) && GetBase(d) == t * TASK_SIZE && 1 <= t < NR_TASKS
    ensures d.a / 0x1_0000 == 0 && d.b % 0x100 == 0 && d.b / 0x100_0000 == 4 * t
  {
    BaseBytes(d.a / 0x1_0000, d.b % 0x100, d.b / 0x100_0000);
  }

  lemma AttributeBytes(d: Descriptor)
    ensures d.b == d.b % 0x100 + Attributes(d) * 0x100 + d.b / 0x100_0000 * 0x100_0000
  {
    ByteByByte(d.b);
  }

  // Every run after the boot

  lemma OnlySpace(s: State, t: int, e: Space)
    requires (forall u :: Live(s, u) <==> u == t) && SpaceOf(s, t) == e
    ensures Spaces(s) == map[t := e]
  {
    hide SpaceOf, Slot;
    assert Live(s, t);
  }

  lemma NoPanic(s: State)
    ensures Good(s) ==> !s.panicked
  {
  }

  /** Whatever tasks 1 and up do after the first fork, in any order, as long as their stores through the video segment
      are permitted ones and their write faults can be served: the invariants hold, nothing panics, the identity
      map stays as the first fork left it, and the tasks see a machine in which fork copies. */
  lemma EveryRunRefines(s: State, cs: seq<Command>)
    requires Booted(s) && MayRun(SysFork(s, 0).0, cs)
    ensures var first := SysFork(s, 0).0;
      && Good(Run(first, cs)) && !Run(first, cs).panicked && Shielded(Run(first, cs))
      && Spaces(Run(first, cs)) == CopyingRun(map[1 := FirstSpace(s)], Trace(first, cs))
  {
    hide Booted, SysFork, Spaces, SpaceOf, FirstSpace, CopyingRun, MapKept, Shielded, Inv, Tasks, Live;
    var first := SysFork(s, 0).0;
    FirstFork(s);
    OnlySpace(first, 1, FirstSpace(s));
    NoPanic(Run(first, cs));
    RunRefines(first, cs);
    ShieldedKept(first, Run(first, cs));
  }
}
