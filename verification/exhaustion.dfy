/** What the guards of the run theorems keep out does happen: from power-on the tasks can use up all frames, so that
    a write fault or a fork runs out of them, and can do harm through the video segment. */
module Exhaustion {
  import opened Words
  import opened Machine
  import opened Invariant
  import opened Steps
  import opened Copying
  import opened Fork
  import opened Refinement
  import opened Video
  import opened Runs
  import opened Shield
  import opened Boot

  // Free frames

  ghost function FreeSet(s: State): set<int> {
    set f | LOW_FRAMES <= f < FRAMES && Count(s, f) == 0
  }

  lemma FreeMeans(s: State)
    requires Shape(s)
    ensures HasFree(s) <==> FreeSet(s) != {}
  {
    if HasFree(s) {
      var j :| 0 <= j < |s.memMap| && s.memMap[j] == 0;
      assert LOW_FRAMES + j in FreeSet(s);
    }
    if f :| f in FreeSet(s) { assert s.memMap[f - LOW_FRAMES] == 0; }
  }

  lemma FreeUnnamed(s: State, f: int)
    requires Inv(s) && LOW_FRAMES <= f < FRAMES
    ensures f in FreeSet(s) <==> f >= FIRST_FREE && forall r :: IsRef(r) ==> Target(s, r) != f
  {
    assert Count(s, f) == |Refs(s, f)| + Base(f);
    if f in FreeSet(s) {
      assert Refs(s, f) == {};
      forall r | IsRef(r) ensures Target(s, r) != f { assert r !in Refs(s, f); }
    } else if f >= FIRST_FREE {
      assert Refs(s, f) != {};
    }
  }

  /** Only the frames in taken have got a name. */
  ghost predicate Taken(s: State, t: State, taken: set<int>) {
    forall r :: IsRef(r) && Target(t, r) >= LOW_FRAMES && Target(t, r) !in taken ==>
      exists q :: IsRef(q) && Target(s, q) == Target(t, r)
  }

  lemma FewerFree(s: State, t: State, taken: set<int>)
    requires Inv(s) && Inv(t) && Taken(s, t, taken)
    ensures |FreeSet(t)| >= |FreeSet(s)| - |taken|
  {
    hide Inv, Target;
    forall f | f in FreeSet(s) && f !in taken ensures f in FreeSet(t) {
      FreeUnnamed(s, f);
      FreeUnnamed(t, f);
    }
    hide FreeSet;
    assert FreeSet(s) - taken <= FreeSet(t);
    SizeOfPart(FreeSet(s), FreeSet(t), taken);
  }

  lemma SizeOfPart(a: set<int>, b: set<int>, taken: set<int>)
    requires a - taken <= b
    ensures |b| >= |a| - |taken|
  {
    SubsetSize(a - taken, b);
    assert a <= (a - taken) + taken;
    SubsetSize(a, (a - taken) + taken);
  }

  lemma SubsetSize(a: set<int>, b: set<int>)
    requires a <= b
    ensures |a| <= |b|
  {
    assert b == a + (b - a);
    assert |a + (b - a)| == |a| + |b - a|;
  }

  // A fork needs at most five frames

  function NewFrames(t: State, n: int): set<int> {
    {Target(t, Pcb(n)), Target(t, Table(16 * n)), Target(t, Table(16 * n + 1)), Target(t, Table(16 * n + 2)), Target(t, Table(16 * n + 3))}
  }

  lemma ChildTakes(s: State, t: State, p: int, n: int)
    requires Inv(s) && Inv(t) && 1 <= p < NR_TASKS && 1 <= n < NR_TASKS && Same(s, t, n)
    requires forall k, i :: 16 * n <= k < 16 * n + 16 && 0 <= i < 1024 && Target(t, Entry(k, i)) >= 0 ==>
      Target(t, Entry(k, i)) == Target(s, Entry(k - 16 * n + 16 * p, i))
    ensures |FreeSet(t)| >= |FreeSet(s)| - 5
  {
    hide Inv, Target, FreeSet, NewFrames, Same, IsRef;
    forall r | IsRef(r) && Target(t, r) >= LOW_FRAMES && Target(t, r) !in NewFrames(t, n)
      ensures exists q :: IsRef(q) && Target(s, q) == Target(t, r)
    {
      var q := ChildName(s, t, p, n, r);
    }
    NewFramesSize(t, n);
    FewerFree(s, t, NewFrames(t, n));
  }

  lemma NewFramesSize(t: State, n: int)
    ensures |NewFrames(t, n)| <= 5
  {
    hide Target;
  }

  lemma ChildName(s: State, t: State, p: int, n: int, r: Ref) returns (q: Ref)
    requires Inv(t) && 1 <= p < NR_TASKS && 1 <= n < NR_TASKS && Same(s, t, n)
    requires forall k, i :: 16 * n <= k < 16 * n + 16 && 0 <= i < 1024 && Target(t, Entry(k, i)) >= 0 ==>
      Target(t, Entry(k, i)) == Target(s, Entry(k - 16 * n + 16 * p, i))
    requires IsRef(r) && Target(t, r) >= LOW_FRAMES && Target(t, r) !in NewFrames(t, n)
    ensures IsRef(q) && Target(s, q) == Target(t, r)
  {
    hide Inv, Target;
    q := r;
    if Owner(r) == n {
      if r.Entry? {
        q := Entry(r.k - 16 * n + 16 * p, r.i);
      } else if r.Table? {
        HighTable(t, n, r.k);
      }
    }
  }

  lemma HighTable(t: State, n: int, k: int)
    requires Inv(t) && 1 <= n < NR_TASKS && 16 <= k < 1024 && k / 16 == n && Target(t, Table(k)) >= 0
    ensures k == 16 * n || k == 16 * n + 1 || k == 16 * n + 2 || k == 16 * n + 3
  {
    ZeroAbsent();
    assert k % 16 < 4;
  }

  /** With six frames free a fork succeeds. */
  lemma RoomForFork(s: State, p: int)
    requires Good(s) && Live(s, p) && EmptySlot(s, 1) > 0 && |FreeSet(s)| >= 6
    ensures SysFork(s, p).1 > 0
  {
    var n, f := EmptySlot(s, 1), Found(s);
    hide Inv, Tasks, CopyProcess, NextPid, Pids, FreeSet, ForkReady, Found;
    FoundSlots(s, p);
    FoundReady(s, p);
    SameSlots(s, f, 1) by { assert f.task == s.task by { FoundTask(s); } }
    FoundFree(s);
    ForkReadyFacts(f, p, n);
    CopyWorks(f, p, n);
    ForkSucceeds(f, p, n);
    PidPositive(f, p, n);
  }

  lemma FoundTask(s: State)
    ensures Found(s).task == s.task && Found(s).memMap == s.memMap && Found(s).mem == s.mem
  {
  }

  lemma PidPositive(f: State, p: int, n: int)
    requires ForkReady(f, p, n)
    ensures f.lastPid >= 1
  {
  }

  lemma FoundFree(s: State)
    ensures FreeSet(Found(s)) == FreeSet(s)
  {
    FoundTask(s);
    assert forall f :: Count(Found(s), f) == Count(s, f);
  }

  lemma CopyWorks(s: State, p: int, n: int)
    requires ForkReady(s, p, n) && 1 <= p < NR_TASKS && |FreeSet(s)| >= 6
    ensures HasFree(s) && CopyTables(Started(s, p, n), 16 * p, 16 * n, 4, EntriesCopied(p)).1
  {
    hide *;
    var u := Started(s, p, n);
    var (t, ok) := CopyTables(u, 16 * p, 16 * n, 4, EntriesCopied(p));
    ForkReadyFacts(s, p, n);
    ForkReadyApart(s, p, n);
    InvShape(s);
    FreeMeans(s);
    StartedForking(s, p, n);
    StartedDirs(s, u, p, n);
    CopyTablesAll(u, p, n, 4);
    if !ok {
      StoppedNames(u, t, p, n);
      SameTransitive(s, u, t, n);
      forall k, i | 16 * n <= k < 16 * n + 16 && 0 <= i < 1024 && Target(t, Entry(k, i)) >= 0
        ensures Target(t, Entry(k, i)) == Target(s, Entry(k - 16 * n + 16 * p, i))
      {
        ParentEntry(p, n, k, i);
      }
      ChildTakes(s, t, p, n);
      InvShape(t);
      FreeMeans(t);
    }
  }

  lemma ParentEntry(p: int, n: int, k: int, i: int)
    requires 1 <= p < NR_TASKS && 16 * n <= k < 16 * n + 16 && 0 <= i < 1024
    ensures IsEntry(Entry(k - 16 * n + 16 * p, i))
  {
  }

  lemma ForkReadyApart(s: State, p: int, n: int)
    requires ForkReady(s, p, n)
    ensures p != n
  {
  }

  lemma StoppedNames(u: State, t: State, p: int, n: int)
    requires TablesDone(u, t, false, p, n, 4) && 1 <= p < NR_TASKS && p != n
    ensures Inv(t) && !HasFree(t) && Same(u, t, n)
    ensures forall k, i :: 16 * n <= k < 16 * n + 16 && 0 <= i < 1024 && Target(t, Entry(k, i)) >= 0 ==>
      Target(t, Entry(k, i)) == Target(u, Entry(k - 16 * n + 16 * p, i))
  {
    assert Inv(t) && Follows(t, p, n) && 1 <= n < NR_TASKS;
    hide Inv, Target, Same, Keeps, Room, Shared;
    forall k, i | 16 * n <= k < 16 * n + 16 && 0 <= i < 1024 && Target(t, Entry(k, i)) >= 0
      ensures Target(t, Entry(k, i)) == Target(u, Entry(k - 16 * n + 16 * p, i))
    {
      var q := Entry(k - 16 * n + 16 * p, i);
      assert IsEntry(q) && Owner(q) == p;
    }
  }

  // The first fork leaves frames free

  /** The n numbers from a on. */
  lemma {:induction false} Interval(a: int, n: nat) returns (r: set<int>)
    ensures |r| == n && forall x :: x in r <==> a <= x < a + n
  {
    if n == 0 {
      r := {};
    } else {
      var rest := Interval(a, n - 1);
      r := rest + {a + n - 1};
    }
  }

  /** Above the pages that task 1 shares, only its control block and its tables are taken. */
  lemma FirstNames(s: State, t: State, r: Ref)
    requires Booted(s) && Forked(Found(s), t, 0, 1) && IsRef(r) && Target(t, r) >= BOOT_TOP
    ensures Target(t, r) in NewFrames(t, 1)
  {
    hide *;
    assert BOOT_TOP > 0 by { TopConstant(); }
    if Owner(r) == 1 {
      ForkedInv(Found(s), t, 1);
      if r.Entry? {
        FirstEntry(s, t, r);
      } else {
        OwnerOne(t, r);
      }
    } else {
      FirstOthers(s, t, r);
    }
  }

  lemma TopConstant()
    ensures BOOT_TOP == 0xca0 && TASKS == 5
  {
  }

  lemma ForkedInv(u: State, t: State, n: int)
    requires Forked(u, t, 0, n)
    ensures Inv(t)
  {
  }

  lemma FirstOthers(s: State, t: State, r: Ref)
    requires Booted(s) && Forked(Found(s), t, 0, 1) && IsRef(r) && Owner(r) != 1
    ensures Target(t, r) == -1
  {
    hide Inv, Tasks, Booted, Found, Keeps, Target, Contents;
    BootedGood(s);
    FoundTasks(s);
    BootedUnmapped(s);
    assert Target(t, r) == Target(Found(s), r) == Target(s, r);
  }

  lemma FirstEntry(s: State, t: State, r: Ref)
    requires Booted(s) && Forked(Found(s), t, 0, 1) && IsRef(r) && r.Entry? && Owner(r) == 1
    ensures Target(t, r) < BOOT_TOP
  {
    hide Booted, Found, Forked, Target;
    BootedFound(s);
    FirstName(Found(s), t, r.k, r.i);
    if r.i < 0xa0 { IdentityBelow(s, r.k - 16, r.i); }
  }

  lemma FirstName(s: State, t: State, k: int, i: int)
    requires Forked(s, t, 0, 1) && 16 <= k < 32 && 0 <= i < 1024
    ensures Target(t, Entry(k, i)) == if i < 0xa0 then Target(s, Entry(k - 16, i)) else -1
  {
    hide Inv, Tasks, SameRest, Keeps, Same, Slot, PcbWord, Target;
    assert Entry(k - 16 * 1 + 16 * 0, i) == Entry(k - 16, i);
  }

  lemma OwnerOne(t: State, r: Ref)
    requires Inv(t) && IsRef(r) && Owner(r) == 1 && !r.Entry? && Target(t, r) >= 0
    ensures Target(t, r) in NewFrames(t, 1)
  {
    hide Inv, Target;
    if r.Table? { HighTable(t, 1, r.k); }
  }

  lemma IdentityBelow(s: State, k: int, i: int)
    requires Booted(s) && 0 <= k < 16 && 0 <= i < 0xa0
    ensures Target(s, Entry(k, i)) < BOOT_TOP
  {
    BootedDirs(s);
    ZeroAbsent();
    hide Booted;
  }

  lemma FirstFree(s: State)
    requires Booted(s)
    ensures |FreeSet(SysFork(s, 0).0)| >= 30
  {
    var t := SysFork(s, 0).0;
    var high := Interval(BOOT_TOP, 35);
    hide Booted, Inv, Tasks, SysFork, FreeSet, NewFrames, Forked, Found, Target;
    BootedGood(s);
    SysForkStep(s, 0);
    FirstPid(s);
    ForkedGood(Found(s), t, 0, 1);
    forall f | f in high && f !in NewFrames(t, 1) ensures f in FreeSet(t) {
      FreeUnnamed(t, f);
      forall r | IsRef(r) ensures Target(t, r) != f {
        if Target(t, r) >= BOOT_TOP { FirstNames(s, t, r); }
      }
    }
    NewFramesSize(t, 1);
    SizeOfPart(high, FreeSet(t), NewFrames(t, 1));
  }

  // Five tasks

  /** Tasks 1 to m live, and all see what task 1 saw after the first fork. */
  ghost predicate Alike(s: State, m: int, space: Space) {
    && Good(s) && (forall u :: Live(s, u) <==> 1 <= u <= m)
    && forall u :: 1 <= u <= m ==> SpaceOf(s, u) == space
  }

  lemma NextSlot(s: State, m: int, u: nat)
    requires 1 <= m < 63 && (forall v :: Live(s, v) <==> 1 <= v <= m) && 1 <= u <= m + 1
    ensures EmptySlot(s, u) == m + 1
    decreases NR_TASKS - u
  {
    assert Live(s, u) <==> u <= m;
    if u <= m { NextSlot(s, m, u + 1); }
  }

  /** Task 1 forks once more. */
  lemma Spawn(s: State, m: int, space: Space)
    requires Alike(s, m, space) && 1 <= m < 63 && |FreeSet(s)| >= 6
    ensures var t := Do(s, ForkBy(1));
      May(s, ForkBy(1)) && Alike(t, m + 1, space) && |FreeSet(t)| >= |FreeSet(s)| - 5
  {
    hide *;
    var (t, r) := SysFork(s, 1);
    var u := Found(s);
    AlikeFacts(s, m, space);
    NextSlot(s, m, 1);
    RoomForFork(s, 1);
    FoundSlots(s, 1);
    SysForkStep(s, 1);
    FoundTask(s);
    FoundFree(s);
    FoundSpaces(s);
    SpawnGood(s);
    SpawnTakes(u, t, 1, m + 1);
    SpawnLives(s, u, t, m);
    ForkRefines(u, t, 1, m + 1);
    SpawnSpaces(s, t, m, space);
    ForkedGood(u, t, 1, m + 1);
    AlikeNow(t, m + 1, space);
    DoesFork(s);
  }

  lemma AlikeFacts(s: State, m: int, space: Space)
    requires Alike(s, m, space)
    ensures Good(s) && (forall u :: Live(s, u) <==> 1 <= u <= m) && forall u :: 1 <= u <= m ==> SpaceOf(s, u) == space
  {
  }

  lemma AlikeNow(s: State, m: int, space: Space)
    requires Good(s) && (forall u :: Live(s, u) <==> 1 <= u <= m) && forall u :: 1 <= u <= m ==> SpaceOf(s, u) == space
    ensures Alike(s, m, space)
  {
  }

  lemma DoesFork(s: State)
    ensures Do(s, ForkBy(1)) == SysFork(s, 1).0 && (May(s, ForkBy(1)) <==> Live(s, 1))
  {
  }

  lemma SpawnGood(s: State)
    requires Good(s)
    ensures Good(Found(s)) && MayFork(s, 1) == (Slot(s, 1) != 0) && (Live(s, 1) <==> Slot(s, 1) != 0)
  {
    FoundTasks(s);
  }

  lemma SpawnTakes(u: State, t: State, p: int, n: int)
    requires Good(u) && Forked(u, t, p, n) && 1 <= p < NR_TASKS && 1 <= n < NR_TASKS
    ensures |FreeSet(t)| >= |FreeSet(u)| - 5
  {
    hide Inv, Tasks, Target, FreeSet, Same, Keeps;
    ChildTakes(u, t, p, n);
  }

  lemma SpawnLives(s: State, u: State, t: State, m: int)
    requires 1 <= m < 63 && Forked(u, t, 1, m + 1) && u.task == s.task && (forall v :: Live(s, v) <==> 1 <= v <= m)
    ensures forall v :: Live(t, v) <==> 1 <= v <= m + 1
  {
    assert forall v :: Slot(u, v) == Slot(s, v);
    assert forall v :: v != m + 1 ==> Slot(t, v) == Slot(u, v);
    assert Slot(t, m + 1) != 0;
    hide Forked;
    assert forall v :: Live(t, v) <==> v == m + 1 || Live(s, v);
  }

  lemma SpawnSpaces(s: State, t: State, m: int, space: Space)
    requires 1 <= m < 63 && (forall v :: Live(s, v) <==> 1 <= v <= m) && (forall v :: Live(t, v) <==> 1 <= v <= m + 1)
    requires forall v :: 1 <= v <= m ==> SpaceOf(s, v) == space
    requires Spaces(t) == CopyingStep(Spaces(s), Spawned(1, m + 1))
    ensures forall v :: 1 <= v <= m + 1 ==> SpaceOf(t, v) == space
  {
    hide SpaceOf, Live;
    assert Live(s, 1);
    forall v | 1 <= v <= m + 1 ensures SpaceOf(t, v) == space {
      assert Live(t, v) && Spaces(t)[v] == SpaceOf(t, v);
      assert Spaces(s)[1] == SpaceOf(s, 1);
      if v <= m { assert Live(s, v) && Spaces(s)[v] == SpaceOf(s, v); }
    }
  }

  /** So many more forks by task 1, and then what follows. */
  lemma {:induction false} Family(s: State, m: int, space: Space, more: nat) returns (cs: seq<Command>)
    requires Alike(s, m, space) && 1 <= m && m + more < 64 && |FreeSet(s)| >= 6 + 5 * more
    ensures MayRun(s, cs) && Alike(Run(s, cs), m + more, space) && |FreeSet(Run(s, cs))| >= 6
    ensures |cs| == more && forall i :: 0 <= i < more ==> cs[i] == ForkBy(1)
    decreases more
  {
    hide *;
    if more == 0 {
      cs := [];
      RunNone(s);
    } else {
      Spawn(s, m, space);
      var rest := Family(Do(s, ForkBy(1)), m + 1, space, more - 1);
      cs := [ForkBy(1)] + rest;
      RunCons(s, ForkBy(1), rest);
    }
  }

  lemma RunNone(s: State)
    ensures MayRun(s, []) && Run(s, []) == s
  {
  }

  lemma FirstAlike(s: State)
    requires Booted(s)
    ensures var t := SysFork(s, 0).0; Alike(t, 1, FirstSpace(s)) && |FreeSet(t)| >= 30
  {
    hide *;
    FirstFork(s);
    FirstFree(s);
    AlikeNow(SysFork(s, 0).0, 1, FirstSpace(s));
  }

  // Five tasks store to all their pages

  const TASKS := 5
  const TOUCHED := 3200

  /** The j-th of the 5 * 640 pages: its task, its number, and its entry. */
  function TaskAt(j: nat): int {
    1 + j / 640
  }

  function NumberAt(j: nat): int {
    j % 640 / 160 * 1024 + j % 160
  }

  function At(j: nat): Ref {
    PageRef(TaskAt(j), NumberAt(j))
  }

  lemma AtIs(j: nat)
    requires j < TOUCHED
    ensures 1 <= TaskAt(j) <= TASKS && 0 <= NumberAt(j) < FRAMES && NumberAt(j) % 1024 < 0xa0
    ensures IsRef(At(j)) && At(j).Entry?
    ensures var o := NumberAt(j) * 0x1000; var a := TaskAt(j) * TASK_SIZE + o;
      InSegment(o) && InSlice(o) && o / 0x1000 == NumberAt(j) && Walk(a) == At(j) && IsWord(a) && a >= TASK_SIZE
  {
    hide Walk, PageRef, IsRef, InSegment, InSlice;
    NumberBounds(j);
    var n, o := NumberAt(j), NumberAt(j) * 0x1000;
    PageOffset(n);
    WalkIsPage(TaskAt(j), o);
    PageRefInSlice(TaskAt(j), n);
  }

  lemma NumberBounds(j: nat)
    requires j < TOUCHED
    ensures 1 <= TaskAt(j) <= TASKS && 0 <= NumberAt(j) < FRAMES && NumberAt(j) % 1024 < 0xa0
  {
    assert 0 <= j % 640 / 160 < 4 && NumberAt(j) % 1024 == j % 160;
  }

  lemma PageOffset(n: nat)
    requires n < FRAMES
    ensures InSegment(n * 0x1000) && InSlice(n * 0x1000) && n * 0x1000 / 0x1000 == n
  {
    assert n * 0x1000 == 4 * (n * 0x400);
  }


  lemma AtApart(i: nat, j: nat)
    requires i < TOUCHED && j < TOUCHED && At(i) == At(j)
    ensures i == j
  {
    AtIs(i);
    AtIs(j);
    PageRefInSlice(TaskAt(i), NumberAt(i));
    PageRefInSlice(TaskAt(j), NumberAt(j));
    SameSlice(TaskAt(i), TaskAt(j), NumberAt(i), NumberAt(j));
    PageRefInjective(TaskAt(i), NumberAt(i), NumberAt(j));
    SameNumber(i, j);
  }

  lemma SameSlice(t: int, u: int, v: int, w: int)
    requires PageRef(t, v) == PageRef(u, w) && 0 <= v < PAGES && 0 <= w < PAGES
    ensures t == u
  {
  }

  lemma SameNumber(i: nat, j: nat)
    requires TaskAt(i) == TaskAt(j) && NumberAt(i) == NumberAt(j)
    ensures i == j
  {
    Parts(i);
    Parts(j);
    hide *;
  }

  lemma Parts(j: nat)
    ensures j == 640 * (TaskAt(j) - 1) + 160 * (NumberAt(j) / 1024) + NumberAt(j) % 1024
  {
    var x := j % 640;
    Inside160(j / 640, x);
    assert NumberAt(j) == x / 160 * 1024 + x % 160;
    NumberParts(x / 160, x % 160);
  }

  lemma Inside160(t: nat, x: nat)
    requires x < 640
    ensures (640 * t + x) % 160 == x % 160 && x == 160 * (x / 160) + x % 160
  {
    var g, h := x / 160, x % 160;
    Digit160(4 * t + g, h);
  }

  lemma Digit160(g: nat, h: nat)
    requires h < 160
    ensures (160 * g + h) % 160 == h
  {
  }

  lemma NumberParts(g: nat, h: nat)
    requires h < 160
    ensures (g * 1024 + h) / 1024 == g && (g * 1024 + h) % 1024 == h
  {
  }

  /** All five live, all pages are mapped, and the first m have been stored to: each is alone at a frame. */
  ghost predicate Touched(s: State, m: nat) {
    && Good(s) && m <= TOUCHED && (forall u :: Live(s, u) <==> 1 <= u <= TASKS)
    && (forall j :: 0 <= j < TOUCHED ==> Target(s, At(j)) >= 0)
    && forall j :: 0 <= j < m ==> Sole(s, At(j))
  }

  ghost predicate Sole(s: State, r: Ref) {
    FIRST_FREE <= Target(s, r) < FRAMES && forall q :: IsRef(q) && Target(s, q) == Target(s, r) ==> q == r
  }

  /** There are not so many frames. */
  lemma {:induction false} SoleFrames(s: State, m: nat) returns (frames: set<int>)
    requires m <= TOUCHED && forall j :: 0 <= j < m ==> Sole(s, At(j))
    ensures |frames| == m && forall f :: f in frames ==> FIRST_FREE <= f < FRAMES
    ensures forall f :: f in frames ==> exists j :: 0 <= j < m && Target(s, At(j)) == f
  {
    hide Target, At, Sole;
    if m == 0 {
      frames := {};
    } else {
      var rest := SoleFrames(s, m - 1);
      var f := Target(s, At(m - 1));
      SoleInRange(s, At(m - 1));
      forall x | x in rest ensures x != f {
        var j :| 0 <= j < m - 1 && Target(s, At(j)) == x;
        FramesApart(s, j, m - 1);
      }
      frames := rest + {f};
    }
  }

  lemma SoleInRange(s: State, r: Ref)
    requires Sole(s, r)
    ensures FIRST_FREE <= Target(s, r) < FRAMES
  {
    hide Target;
  }

  lemma FramesApart(s: State, j: nat, m: nat)
    requires j < m < TOUCHED && Sole(s, At(m))
    ensures Target(s, At(j)) != Target(s, At(m))
  {
    hide Target, At, IsRef;
    AtIs(j);
    if At(j) == At(m) { AtApart(j, m); }
  }

  lemma NotAllTouched(s: State)
    ensures !Touched(s, TOUCHED)
  {
    if Touched(s, TOUCHED) {
      hide Target, At, Sole, Good, Live;
      TouchedFacts(s, TOUCHED);
      var frames := SoleFrames(s, TOUCHED);
      var all := Interval(FIRST_FREE, FRAMES - FIRST_FREE);
      assert forall f :: f in frames ==> f in all;
      SubsetSize(frames, all);
    }
  }

  /** The store to the j-th page. */
  function Touch(j: nat): Command {
    StoreBy(TaskAt(j), NumberAt(j) * 0x1000, 0)
  }

  lemma TouchServed(s: State, m: nat)
    requires Touched(s, m) && m < TOUCHED && May(s, Touch(m))
    ensures Touched(Do(s, Touch(m)), m + 1)
    ensures |FreeSet(Do(s, Touch(m)))| >= |FreeSet(s)| - 1
  {
    var a := TaskAt(m) * TASK_SIZE + NumberAt(m) * 0x1000;
    var t, r := Do(s, Touch(m)), At(m);
    hide *;
    AtIs(m);
    TouchFacts(s, m);
    StoreEffect(s, a, 0);
    StepRefines(s, Touch(m));
    TouchTakes(s, t, r);
    StillTouched(s, t, m);
  }

  lemma TouchFacts(s: State, m: nat)
    requires Touched(s, m) && m < TOUCHED && May(s, Touch(m))
    ensures var a := TaskAt(m) * TASK_SIZE + NumberAt(m) * 0x1000;
      && Good(s) && Inv(s) && Target(s, At(m)) >= 0 && Do(s, Touch(m)) == UserStore(s, a, 0)
      && (Walk(a) == At(m) ==> CanWrite(s, Walk(a)) || CanSplit(s, a))
  {
    hide *;
    TouchedFacts(s, m);
    GoodInv(s);
    TouchMeans(s, m);
  }

  lemma TouchMeans(s: State, m: nat)
    requires May(s, Touch(m))
    ensures var a := TaskAt(m) * TASK_SIZE + NumberAt(m) * 0x1000;
      && Do(s, Touch(m)) == UserStore(s, a, 0) && (Target(s, Walk(a)) >= 0 ==> CanWrite(s, Walk(a)) || CanSplit(s, a))
  {
    hide UserStore, CanWrite, CanSplit, Target, Walk, Live, InSegment, TaskAt, NumberAt;
  }

  lemma TouchTakes(s: State, t: State, r: Ref)
    requires Inv(s) && Inv(t) && Undisturbed(s, t, r) && IsRef(r)
    ensures |FreeSet(t)| >= |FreeSet(s)| - 1
  {
    hide Inv, Target, FreeSet, Contents;
    assert Taken(s, t, {Target(t, r)}) by {
      forall q | IsRef(q) && Target(t, q) >= LOW_FRAMES && Target(t, q) !in {Target(t, r)}
        ensures exists x :: IsRef(x) && Target(s, x) == Target(t, q)
      {
        assert q != r && Target(s, q) == Target(t, q);
      }
    }
    FewerFree(s, t, {Target(t, r)});
  }

  lemma StillTouched(s: State, t: State, m: nat)
    requires Touched(s, m) && m < TOUCHED && Good(t) && t.task == s.task && Undisturbed(s, t, At(m)) && CanWrite(t, At(m))
    ensures Touched(t, m + 1)
  {
    hide *;
    TouchedFacts(s, m);
    GoodInv(t);
    SameLive(s, t);
    AtIs(m);
    WriterSole(t, At(m));
    SoleMapped(t, At(m));
    forall j | 0 <= j < TOUCHED ensures Target(t, At(j)) >= 0 {
      AtIs(j);
      if At(j) != At(m) { UndisturbedAt(s, t, At(m), At(j)); }
    }
    forall j | 0 <= j < m ensures Sole(t, At(j)) {
      AtIs(j);
      if At(j) == At(m) { AtApart(j, m); }
      SoleStays(s, t, At(j), At(m));
    }
    TouchedNow(t, m + 1);
  }

  lemma TouchedFacts(s: State, m: nat)
    requires Touched(s, m)
    ensures Good(s) && m <= TOUCHED && (forall u :: Live(s, u) <==> 1 <= u <= TASKS)
    ensures (forall j :: 0 <= j < TOUCHED ==> Target(s, At(j)) >= 0) && forall j :: 0 <= j < m ==> Sole(s, At(j))
  {
  }

  lemma TouchedNow(s: State, m: nat)
    requires Good(s) && m <= TOUCHED && (forall u :: Live(s, u) <==> 1 <= u <= TASKS)
    requires (forall j :: 0 <= j < TOUCHED ==> Target(s, At(j)) >= 0) && forall j :: 0 <= j < m ==> Sole(s, At(j))
    ensures Touched(s, m)
  {
  }

  lemma SameLive(s: State, t: State)
    requires t.task == s.task
    ensures forall u :: Live(t, u) <==> Live(s, u)
  {
    assert forall u :: Slot(t, u) == Slot(s, u);
  }

  lemma SoleMapped(t: State, r: Ref)
    requires Sole(t, r)
    ensures Target(t, r) >= 0
  {
  }

  lemma UndisturbedAt(s: State, t: State, r0: Ref, r: Ref)
    requires Undisturbed(s, t, r0) && IsRef(r) && r != r0
    ensures Target(t, r) == Target(s, r)
  {
  }

  lemma WriterSole(t: State, r: Ref)
    requires Inv(t) && IsRef(r) && CanWrite(t, r)
    ensures Sole(t, r)
  {
    assert Target(t, r) >= FIRST_FREE;
  }

  lemma SoleStays(s: State, t: State, r: Ref, r0: Ref)
    requires Sole(s, r) && IsRef(r) && r != r0 && Undisturbed(s, t, r0) && IsRef(r0) && Sole(t, r0)
    ensures Sole(t, r)
  {
    hide Target, Contents;
    forall q | IsRef(q) && Target(t, q) == Target(t, r) ensures q == r {
      if q != r0 { assert Target(s, q) == Target(s, r); }
    }
  }

  lemma FiveTouched(s: State, t: State)
    requires Booted(s) && Alike(t, TASKS, FirstSpace(s))
    ensures Touched(t, 0)
  {
    forall j | 0 <= j < TOUCHED ensures Target(t, At(j)) >= 0 {
      AtIs(j);
      var u, v := TaskAt(j), NumberAt(j);
      assert SpaceOf(t, u)[v] == View(t, PageRef(u, v)) == FirstPage(s, v) != Unmapped;
    }
  }

  // Until a fault cannot be served

  /** From such a state some store is not served. */
  lemma {:induction false} Exhaust(s: State, m: nat) returns (cs: seq<Command>, j: nat)
    requires Touched(s, m)
    ensures MayRun(s, cs) && j < TOUCHED && Touched(Run(s, cs), j) && !Served(Run(s, cs), TaskAt(j), NumberAt(j) * 0x1000)
    decreases TOUCHED - m
  {
    hide *;
    TouchedBound(s, m);
    if m == TOUCHED {
      NotAllTouched(s);
      assert false;
    } else if !Served(s, TaskAt(m), NumberAt(m) * 0x1000) {
      cs, j := [], m;
      RunNone(s);
    } else {
      MayTouch(s, m);
      TouchServed(s, m);
      var rest;
      rest, j := Exhaust(Do(s, Touch(m)), m + 1);
      cs := [Touch(m)] + rest;
      RunCons(s, Touch(m), rest);
    }
  }

  lemma TouchedBound(s: State, m: nat)
    requires Touched(s, m)
    ensures m <= TOUCHED && Good(s)
  {
  }

  lemma MayTouch(s: State, m: nat)
    requires Touched(s, m) && m < TOUCHED && Served(s, TaskAt(m), NumberAt(m) * 0x1000)
    ensures May(s, Touch(m))
  {
    AtIs(m);
    hide Target, At, Served, Good;
  }

  /** The same, but only until one frame is left. */
  lemma {:induction false} Drain(s: State, m: nat) returns (cs: seq<Command>, j: nat)
    requires Touched(s, m) && |FreeSet(s)| >= 1
    ensures MayRun(s, cs) && Touched(Run(s, cs), j) && |FreeSet(Run(s, cs))| == 1
    decreases TOUCHED - m
  {
    hide *;
    TouchedBound(s, m);
    if |FreeSet(s)| == 1 {
      cs, j := [], m;
      RunNone(s);
    } else if m == TOUCHED {
      NotAllTouched(s);
      assert false;
    } else {
      FreeServes(s, TaskAt(m), NumberAt(m) * 0x1000);
      MayTouch(s, m);
      TouchServed(s, m);
      var rest;
      rest, j := Drain(Do(s, Touch(m)), m + 1);
      cs := [Touch(m)] + rest;
      RunCons(s, Touch(m), rest);
    }
  }

  lemma FreeServes(s: State, t: int, o: int)
    requires Good(s) && |FreeSet(s)| >= 1
    ensures Served(s, t, o)
  {
    hide Inv, Tasks, FreeSet, Target, Walk, CanWrite;
    InvShape(s);
    FreeMeans(s);
  }

  // From power-on

  /** The tasks' part of the way there: four forks, so that five tasks live. */
  lemma FiveTasks(s: State) returns (cs: seq<Command>)
    requires Booted(s)
    ensures var first := SysFork(s, 0).0; var t := Run(first, cs);
      MayRun(first, cs) && Touched(t, 0) && |FreeSet(t)| >= 6
  {
    hide *;
    var first := SysFork(s, 0).0;
    FirstAlike(s);
    TopConstant();
    cs := Family(first, 1, FirstSpace(s), 4);
    FiveTouched(s, Run(first, cs));
  }

  lemma {:induction false} RunAppend(s: State, a: seq<Command>, b: seq<Command>)
    requires MayRun(s, a) && MayRun(Run(s, a), b)
    ensures MayRun(s, a + b) && Run(s, a + b) == Run(Run(s, a), b)
    decreases |b|
  {
    hide May, Do;
    if b == [] {
      assert a + b == a;
    } else {
      assert (a + b)[..|a + b| - 1] == a + b[..|b| - 1] && (a + b)[|a + b| - 1] == b[|b| - 1];
      RunAppend(s, a, b[..|b| - 1]);
    }
  }

  /** What a fault that is not served leaves: the page directory has been overwritten with the page, and the entry
      grants write access to it. */
  ghost predicate Overwritten(v: State, a: int) {
    var u, f := DoWpPage(v, a), Target(v, Walk(a));
    0 <= f < |v.mem| && |u.mem| > 0 && u.mem[0] == v.mem[f] && Word(u, FrameOf(Dir(v, Walk(a).k)), Walk(a).i) == 7
  }

  /** From power-on, the tasks can reach a state in which a store within a task's segment is not served. */
  lemma FaultUnserved(s: State) returns (cs: seq<Command>, t: int, o: int)
    requires Booted(s)
    ensures var first := SysFork(s, 0).0; var v := Run(first, cs);
      && MayRun(first, cs) && Good(v) && Live(v, t) && InSegment(o) && !Served(v, t, o)
      && Overwritten(v, t * TASK_SIZE + o)
  {
    hide *;
    var first := SysFork(s, 0).0;
    var family := FiveTasks(s);
    var stores, j := Exhaust(Run(first, family), 0);
    cs := family + stores;
    RunAppend(first, family, stores);
    t, o := TaskAt(j), NumberAt(j) * 0x1000;
    AtIs(j);
    TouchedFacts(Run(first, cs), j);
    NotServed(Run(first, cs), t, o);
  }

  lemma NotServed(v: State, t: int, o: int)
    requires Good(v) && InSegment(o) && !Served(v, t, o) && IsWord(t * TASK_SIZE + o) && t * TASK_SIZE + o >= TASK_SIZE
    ensures Overwritten(v, t * TASK_SIZE + o)
  {
    var a := t * TASK_SIZE + o;
    InvShape(v);
    hide Inv, Tasks, Target, CanWrite, CanSplit, DoWpPage, Walk;
    UnservedShape(v, a);
    FaultEntry(v, a);
    TargetInside(v, Walk(a));
    FaultServedExactlyWhen(v, a);
  }

  /** From power-on, the tasks can reach a state in which a fork gets a frame for the control block but not for the tables:
      it is rolled back half way. */
  lemma ForkHalfWay(s: State) returns (cs: seq<Command>)
    requires Booted(s)
    ensures var first := SysFork(s, 0).0; var v := Run(first, cs);
      && MayRun(first, cs) && Good(v) && Live(v, 1) && EmptySlot(v, 1) > 0 && HasFree(v)
      && SysFork(v, 1).1 == -EAGAIN && RolledBack(Found(v), SysFork(v, 1).0)
  {
    hide *;
    TopConstant();
    var first := SysFork(s, 0).0;
    var family := FiveTasks(s);
    var stores, j := Drain(Run(first, family), 0);
    cs := family + stores;
    RunAppend(first, family, stores);
    var v := Run(first, cs);
    TouchedFacts(v, j);
    NextSlot(v, 5, 1);
    GoodInv(v);
    InvShape(v);
    FreeMeans(v);
    SpawnGood(v);
    SysForkStep(v, 1);
    AtZero();
    if SysFork(v, 1).1 > 0 {
      SixthFree(v);
      TwoTaken(v, SysFork(v, 1).0);
    }
  }

  lemma AtZero()
    ensures At(0) == Entry(16, 0) && 0 < TOUCHED
  {
  }

  lemma SixthFree(v: State)
    requires EmptySlot(v, 1) == 6
    ensures Slot(v, 6) == 0
  {
  }

  /** A sixth task takes at least a frame for its control block and one for a table. */
  lemma TwoTaken(v: State, t: State)
    requires Good(v) && Target(v, Entry(16, 0)) >= 0 && Slot(v, 6) == 0 && Forked(Found(v), t, 1, 6)
    ensures |FreeSet(v)| >= 2
  {
    hide *;
    var x, y := Target(t, Pcb(6)), Target(t, Table(96));
    FoundTasks(v) by { GoodInv(v); GoodTasks(v); }
    GoodInv(v);
    TakenApart(Found(v), t);
    FreedBefore(v, t, Pcb(6), x);
    FreedBefore(v, t, Table(96), y);
    TwoElements(FreeSet(v), x, y);
  }

  lemma GoodTasks(v: State)
    requires Good(v)
    ensures Tasks(v)
  {
  }

  lemma TwoElements(xs: set<int>, x: int, y: int)
    requires x in xs && y in xs && x != y
    ensures |xs| >= 2
  {
    assert xs == {x, y} + (xs - {x, y});
  }

  lemma TakenApart(u: State, t: State)
    requires Forked(u, t, 1, 6) && Target(u, Entry(16, 0)) >= 0
    ensures IsRef(Pcb(6)) && Owner(Pcb(6)) == 6 && IsRef(Table(96)) && Owner(Table(96)) == 6
    ensures Inv(t) && Target(t, Pcb(6)) >= FIRST_FREE && Target(t, Table(96)) >= FIRST_FREE && Target(t, Pcb(6)) != Target(t, Table(96))
  {
    assert Target(t, Entry(16 * 6, 0)) == Target(u, Entry(16, 0));
    assert Inv(t) && IsRef(Pcb(6)) && IsRef(Table(96));
    hide Tasks, Same, Keeps;
  }

  /** The frame of the new control block, or of a new table, was nobody's. */
  lemma FreedBefore(v: State, t: State, r: Ref, x: int)
    requires Inv(v) && Slot(v, 6) == 0 && Forked(Found(v), t, 1, 6) && Inv(t)
    requires forall q :: Target(Found(v), q) == Target(v, q)
    requires IsRef(r) && !r.Entry? && Owner(r) == 6 && x == Target(t, r) >= FIRST_FREE
    ensures x in FreeSet(v)
  {
    assert Same(Found(v), t, 6);
    NothingMapped(v, 6);
    forall q | IsRef(q) ensures Target(v, q) != x {
      OnlyName(t, r, q);
      assert Owner(q) != 6 ==> Target(t, q) == Target(v, q);
    }
    TargetInside(t, r);
    FreeUnnamed(v, x);
  }

  lemma OnlyName(t: State, r: Ref, q: Ref)
    requires Inv(t) && IsRef(r) && IsRef(q) && !r.Entry? && Target(t, r) >= 0
    ensures Target(t, q) == Target(t, r) ==> q == r
  {
  }

  // Harm through the video segment

  /** Right after the first fork, task 1 can make the kernel panic: it stores to a page of its own through the identity
      map, which the fork has write-protected. */
  lemma PanicReached(s: State, w: int)
    requires Booted(s)
    ensures var first := SysFork(s, 0).0; var a := 0x40_0000;
      Good(first) && Live(first, 1) && InVideo(a) && !MayPoke(first, 1, a) && UserStore(first, a, w).panicked
  {
    var first, a := SysFork(s, 0).0, 0x40_0000;
    hide Booted, Inv, Tasks, SysFork, Shielded, UserStore, CanWrite, Target, Walk;
    FirstFork(s);
    GoodInv(first);
    LowWalk(first, a);
    ShieldedWrites(first, a);
    LockedBreaks(first, 1, a, w);
  }

  /** One fork later, task 2 can change a page of task 1, which lies in the segment as well. */
  lemma IsolationBroken(s: State) returns (w: int)
    requires Booted(s)
    ensures var first := SysFork(s, 0).0; var v := Run(first, [ForkBy(1)]); var a := TASK_SIZE + 0x40_0000;
      && MayRun(first, [ForkBy(1)]) && Good(v) && Live(v, 1) && Live(v, 2)
      && InVideo(a) && !MayPoke(v, 2, a) && IsWord(w)
      && SpaceOf(UserStore(v, a, w), 1)[0x400] != SpaceOf(v, 1)[0x400]
  {
    hide *;
    var first, a := SysFork(s, 0).0, TASK_SIZE + 0x40_0000;
    FirstAlike(s);
    var cs := Family(first, 1, FirstSpace(s), 1);
    assert cs == [ForkBy(1)];
    var v := Run(first, cs);
    AlikeFacts(v, 2, FirstSpace(s));
    GoodInv(v);
    InvShape(v);
    FreeMeans(v);
    PageMapped(s, v);
    w := PageChanged(v);
  }

  lemma PageMapped(s: State, v: State)
    requires Booted(s) && Good(v) && SpaceOf(v, 1) == FirstSpace(s)
    ensures Target(v, PageRef(1, 0x400)) >= LOW_FRAMES
  {
    hide Booted, Inv, Tasks, Target, Contents;
    assert SpaceOf(v, 1)[0x400] == View(v, PageRef(1, 0x400)) == FirstPage(s, 0x400);
  }

  lemma PageChanged(v: State) returns (w: int)
    requires Good(v) && Target(v, PageRef(1, 0x400)) >= LOW_FRAMES && HasFree(v)
    ensures var a := TASK_SIZE + 0x40_0000;
      InVideo(a) && !MayPoke(v, 2, a) && IsWord(w) && SpaceOf(UserStore(v, a, w), 1)[0x400] != SpaceOf(v, 1)[0x400]
  {
    hide *;
    var a, r := TASK_SIZE + 0x40_0000, PageRef(1, 0x400);
    PagePlace();
    PageRefInSlice(1, 0x400);
    FreeSplits(v, a);
    GoodInv(v);
    StoreEffect(v, a, 0);
    var f := Target(v, r);
    w := OtherWord(v.mem[f][0]);
    StoreEffect(v, a, w);
    NotSlice2(v, a);
    OtherView(v, UserStore(v, a, w), r, f, w);
  }

  lemma PagePlace()
    ensures var a := TASK_SIZE + 0x40_0000;
      InVideo(a) && IsWord(a) && Walk(a) == PageRef(1, 0x400) && a / 4 % 0x400 == 0 && a / TASK_SIZE == 1 && a >= TASK_SIZE
    ensures 0x400 < PAGES && LOW_FRAMES >= 0 && 2 < NR_TASKS
  {
  }

  lemma FreeSplits(v: State, a: int)
    requires HasFree(v)
    ensures CanSplit(v, a)
  {
  }

  lemma NotSlice2(v: State, a: int)
    requires Target(v, Walk(a)) >= 0 && a >= TASK_SIZE && a / TASK_SIZE == 1
    ensures !MayPoke(v, 2, a)
  {
  }

  lemma OtherView(v: State, u: State, r: Ref, f: int, w: int)
    requires r == PageRef(1, 0x400) && f == Target(v, r) && LOW_FRAMES <= f < |v.mem| && |v.mem[f]| == 1024 && w != v.mem[f][0]
    requires View(u, r) == Own(v.mem[f][0 := w])
    ensures SpaceOf(u, 1)[0x400] != SpaceOf(v, 1)[0x400]
  {
    assert v.mem[f][0 := w][0] == w;
    assert View(v, r) == Own(v.mem[f]) != View(u, r);
    hide Target;
  }
}
