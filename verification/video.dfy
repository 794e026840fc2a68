/** Stores through the segment at the video memory, selector 0x1b. It gives every task a second way to
    linear memory: below TASK_SIZE through the identity map of task 0, above into the slices of tasks
    1 to 4. This module says exactly which of these stores harm nobody. */
module Video {
  import opened Words
  import opened Machine
  import opened Segments
  import opened Invariant
  import opened Steps
  import opened Copying
  import opened Fork
  import opened Refinement

  const VIDEO_BASE := 0xb_8000
  const VIDEO_END := 0x100b_8000

  /** Linear address a is a word that the segment reaches. */
  predicate InVideo(a: int) {
    VIDEO_BASE <= a < VIDEO_END && a % 4 == 0
  }

  lemma InVideoIs(a: int)
    ensures InVideo(a) <==> GetBase(VIDEO) <= a < GetBase(VIDEO) + GetLimit(VIDEO) && a % 4 == 0
  {
    VideoSegment();
  }

  /** The last page before page n of task t that names frame f, or -1. */
  function PageNaming(s: State, t: int, f: int, n: nat): int {
    if n == 0 then -1 else if Target(s, PageRef(t, n - 1)) == f then n - 1 else PageNaming(s, t, f, n - 1)
  }

  lemma {:induction false} LastPage(s: State, t: int, f: int, n: nat)
    ensures var v := PageNaming(s, t, f, n);
      && -1 <= v < n && (v >= 0 ==> Target(s, PageRef(t, v)) == f)
      && forall u :: v < u < n ==> Target(s, PageRef(t, u)) != f
  {
    hide Target, PageRef;
    if n > 0 { LastPage(s, t, f, n - 1); }
  }

  /** Frame f belongs to nobody but perhaps, as one page, to task t. */
  predicate Private(s: State, t: int, f: int) {
    f < FIRST_FREE || Count(s, f) == 0 || (Count(s, f) == 1 && PageNaming(s, t, f, PAGES) >= 0)
  }

  /** Task t may store at linear address a: nothing is mapped there, so that the store faults for ever; or
      the identity map lets it through to a frame that is nobody else's; or it is t's own slice, and the
      store can be served. */
  ghost predicate MayPoke(s: State, t: int, a: int) {
    || Target(s, Walk(a)) < 0
    || (if a < TASK_SIZE then CanWrite(s, Walk(a)) && Private(s, t, a / PAGE_SIZE)
        else a / TASK_SIZE == t && (CanWrite(s, Walk(a)) || CanSplit(s, a)))
  }

  /** Nothing is lost: the kernel's data is in order, and control blocks, page tables and what the other
      tasks see are as before. */
  ghost predicate Harmless(s: State, u: State, t: int) {
    && Good(u) && u.task == s.task && (forall k :: 0 <= k < 1024 ==> Dir(u, k) == Dir(s, k))
    && forall r :: IsRef(r) && !(r.Entry? && Owner(r) == t) ==> Target(u, r) == Target(s, r) && Contents(u, r) == Contents(s, r)
  }

  /** What the tasks can see of the store. */
  function PokeEvent(s: State, t: int, a: int, w: int): Event {
    var o, f := a / 4 % 0x400, a / PAGE_SIZE;
    if Target(s, Walk(a)) < 0 then Nothing
    else if a >= TASK_SIZE then Stored(t, (a - t * TASK_SIZE) / 0x1000, o, w, LowMemory(s))
    else
      var v := PageNaming(s, t, f, PAGES);
      if f >= FIRST_FREE && v >= 0 then Stored(t, v, o, w, LowMemory(s)) else Nothing
  }

  // Through the identity map

  /** Below TASK_SIZE the walk finds the frame with the number of the page, up to 16 MB. */
  lemma LowWalk(s: State, a: int)
    requires Inv(s) && 0 <= a < TASK_SIZE
    ensures IsEntry(Walk(a)) && Walk(a).k < 16
    ensures Target(s, Walk(a)) == if a < HIGH_MEMORY then a / PAGE_SIZE else -1
    ensures a < HIGH_MEMORY ==> 0 <= a / PAGE_SIZE < FRAMES && FrameOf(Pte(s, Walk(a).k, Walk(a).i)) == a / PAGE_SIZE
  {
    var f := a / PAGE_SIZE;
    SplitPage(a);
    if a < HIGH_MEMORY {
      assert Target(s, Entry(Walk(a).k, Walk(a).i)) == 1024 * Walk(a).k + Walk(a).i == f;
      hide Inv;
    } else {
      ZeroAbsent();
      assert Dir(s, Walk(a).k) == 0;
    }
  }

  lemma SplitPage(a: int)
    requires 0 <= a < TASK_SIZE
    ensures 0 <= a / 0x40_0000 < 16 && 1024 * (a / 0x40_0000) + a / 0x1000 % 0x400 == a / PAGE_SIZE
    ensures a < HIGH_MEMORY <==> a / 0x40_0000 < 4
    ensures a < HIGH_MEMORY ==> a / PAGE_SIZE < FRAMES
  {
    assert a / 0x40_0000 == a / 0x1000 / 0x400;
  }

  /** A frame that is private to t is named by one page of t at most. */
  lemma PrivateNames(s: State, t: int, f: int, r: Ref)
    requires Inv(s) && Private(s, t, f) && LOW_FRAMES <= f < FRAMES && IsRef(r) && Target(s, r) == f && 1 <= t < NR_TASKS
    ensures f >= FIRST_FREE && PageNaming(s, t, f, PAGES) >= 0 && r == PageRef(t, PageNaming(s, t, f, PAGES))
  {
    hide Inv, Target, Count, Refs, PageNaming;
    NamedCount(s, f, r);
    LastPage(s, t, f, PAGES);
    var v := PageNaming(s, t, f, PAGES);
    PageRefInSlice(t, v);
    NamedIn(s, f, r);
    NamedIn(s, f, PageRef(t, v));
    OneElement(Refs(s, f), r, PageRef(t, v));
  }

  lemma NoTableHere(s: State, t: int, f: int)
    requires Inv(s) && 5 <= f < FRAMES && 1 <= t < NR_TASKS && Private(s, t, f)
    ensures forall j :: 0 <= j < 1024 && Present(Dir(s, j)) ==> FrameOf(Dir(s, j)) != f
  {
    forall j | 0 <= j < 1024 && Present(Dir(s, j)) ensures FrameOf(Dir(s, j)) != f {
      if j >= 16 {
        TableFrame(s, j);
        assert IsRef(Table(j)) && Target(s, Table(j)) >= FIRST_FREE;
        if FrameOf(Dir(s, j)) == f {
          PrivateNames(s, t, f, Table(j));
          assert false;
        }
      } else if j < 4 {
        UserWordNames(j + 1);
      } else {
        ZeroAbsent();
      }
    }
  }

  /** A store to such a frame keeps the invariant, and all names. */
  lemma LowPokeNames(s: State, t: int, f: int, o: int, w: int)
    requires Inv(s) && 5 <= f < FRAMES && 0 <= o < 1024 && 1 <= t < NR_TASKS && Private(s, t, f)
    ensures var u := Put(s, f, o, w);
      && Inv(u) && u.task == s.task && SameRest(s, u) && MapKept(s, u)
      && |s.mem| == |u.mem| == FRAMES && |s.mem[f]| == 1024 && u.mem == s.mem[f := s.mem[f][o := w]]
      && (forall j :: 0 <= j < 1024 ==> Dir(u, j) == Dir(s, j))
      && forall r :: IsRef(r) ==> Target(u, r) == Target(s, r)
  {
    InvShape(s);
    hide Inv, Structured, Target, CanWrite, Private, Present, FrameOf;
    NoTableHere(s, t, f);
    PutTargets(s, f, o, w);
    SameNames(s, Put(s, f, o, w));
  }

  /** Only the contents of that page of t change. */
  lemma LowPokeContents(s: State, t: int, f: int, o: int, w: int)
    requires Inv(s) && 5 <= f < FRAMES && 0 <= o < 1024 && 1 <= t < NR_TASKS && Private(s, t, f)
    ensures var u := Put(s, f, o, w); var v := PageNaming(s, t, f, PAGES);
      forall r :: IsRef(r) && !(f >= FIRST_FREE && v >= 0 && r == PageRef(t, v)) ==> Contents(u, r) == Contents(s, r)
  {
    var u := Put(s, f, o, w);
    LowPokeNames(s, t, f, o, w);
    hide Inv, Private, Target, Put;
    forall r | IsRef(r) && !(f >= FIRST_FREE && PageNaming(s, t, f, PAGES) >= 0 && r == PageRef(t, PageNaming(s, t, f, PAGES)))
      ensures Contents(u, r) == Contents(s, r)
    {
      if f >= LOW_FRAMES && Target(s, r) == f {
        PrivateNames(s, t, f, r);
        assert false;
      }
    }
  }

  lemma LowPokeForm(s: State, a: int, w: int)
    requires Inv(s) && InVideo(a) && a < TASK_SIZE && Target(s, Walk(a)) >= 0 && CanWrite(s, Walk(a))
    ensures 5 <= a / PAGE_SIZE < FRAMES && UserStore(s, a, w) == Put(s, a / PAGE_SIZE, a / 4 % 0x400, w)
  {
    LowWalk(s, a);
  }

  lemma SameAll(s: State, u: State)
    requires Good(s) && Inv(u) && u.task == s.task && SameRest(s, u)
    requires forall r :: IsRef(r) ==> Target(u, r) == Target(s, r) && Contents(u, r) == Contents(s, r)
    ensures Good(u) && Spaces(u) == Spaces(s)
  {
    hide Inv, Tasks, Target, Contents, SpaceOf, Slot;
    TaskSlots(s, u);
    TasksKept(s, u);
    forall n | 1 <= n < NR_TASKS ensures SpaceOf(u, n) == SpaceOf(s, n) { SameSpace(s, u, n); }
  }

  lemma LowPoke(s: State, t: int, a: int, w: int)
    requires Good(s) && Live(s, t) && InVideo(a) && a < TASK_SIZE && Target(s, Walk(a)) >= 0
    requires CanWrite(s, Walk(a)) && Private(s, t, a / PAGE_SIZE)
    ensures var u := UserStore(s, a, w);
      Harmless(s, u, t) && MapKept(s, u) && Spaces(u) == CopyingStep(Spaces(s), PokeEvent(s, t, a, w))
  {
    hide Inv, Tasks, Target, Contents, Private, UserStore, CanWrite, Walk, Spaces, Slot, Put, MapKept, PageRef, InVideo, Dir, SameRest, PageNaming;
    var f, o, u := a / PAGE_SIZE, a / 4 % 0x400, UserStore(s, a, w);
    var v := PageNaming(s, t, f, PAGES);
    LastPage(s, t, f, PAGES);
    LowPokeForm(s, a, w);
    LowPokeNames(s, t, f, o, w);
    LowPokeContents(s, t, f, o, w);
    if f >= FIRST_FREE && v >= 0 {
      LowPokePage(s, t, f, o, w);
      PageRefInSlice(t, v);
    } else {
      SameAll(s, u);
    }
  }

  lemma ViewAt(u: State, r: Ref, f: int)
    requires r.Entry? && Target(u, r) == f && LOW_FRAMES <= f < |u.mem|
    ensures View(u, r) == Own(u.mem[f])
  {
  }

  /** The store reaches t's own page v. */
  lemma LowPokePage(s: State, t: int, f: int, o: int, w: int)
    requires Good(s) && Live(s, t) && FIRST_FREE <= f < FRAMES && 0 <= o < 1024 && Private(s, t, f)
    requires PageNaming(s, t, f, PAGES) >= 0
    ensures var u := Put(s, f, o, w);
      Good(u) && Spaces(u) == CopyingStep(Spaces(s), Stored(t, PageNaming(s, t, f, PAGES), o, w, LowMemory(s)))
  {
    hide Inv, Tasks, Target, Contents, Private, Spaces, Slot, Put, MapKept, PageRef, CopyingStep, View, Dir, PageNaming;
    var u, v := Put(s, f, o, w), PageNaming(s, t, f, PAGES);
    LastPage(s, t, f, PAGES);
    LowPokeNames(s, t, f, o, w);
    LowPokeContents(s, t, f, o, w);
    PageRefInSlice(t, v);
    ViewAt(u, PageRef(t, v), f);
    StoreTasks(s, u, t, v);
    StorePresent(s, u, t, v, o, w);
  }

  // Through the task's own slice

  lemma OwnSlice(t: int, a: int)
    requires InVideo(a) && a >= TASK_SIZE && a / TASK_SIZE == t
    ensures 1 <= t < NR_TASKS && InSlice(a - t * TASK_SIZE) && IsWord(a)
    ensures (a - t * TASK_SIZE) / 4 % 0x400 == a / 4 % 0x400
  {
    var o := a - t * TASK_SIZE;
    assert a / 4 == 0x400 * (0x4000 * t) + o / 4;
  }

  lemma DirsKept(s: State, u: State, r: Ref)
    requires Inv(s) && Inv(u) && u.task == s.task && Undisturbed(s, u, r) && r.Entry?
    ensures forall k :: 0 <= k < 1024 ==> Dir(u, k) == Dir(s, k)
  {
    forall k | 0 <= k < 1024 ensures Dir(u, k) == Dir(s, k) {
      if k >= 16 {
        assert IsRef(Table(k)) && Target(u, Table(k)) == Target(s, Table(k));
        SameDirWord(Dir(u, k), Dir(s, k));
      }
    }
  }

  lemma SameDirWord(w: int, x: int)
    requires DirWord(w) && DirWord(x)
    requires (if Present(w) then FrameOf(w) else -1) == if Present(x) then FrameOf(x) else -1
    ensures w == x
  {
    assert w == w / 0x1000 * 0x1000 + w % 0x1000 && x == x / 0x1000 * 0x1000 + x % 0x1000;
  }

  lemma OwnPoke(s: State, t: int, a: int, w: int)
    requires Good(s) && Live(s, t) && InVideo(a) && a >= TASK_SIZE && a / TASK_SIZE == t && Target(s, Walk(a)) >= 0
    requires CanWrite(s, Walk(a)) || CanSplit(s, a)
    ensures var u := UserStore(s, a, w);
      Harmless(s, u, t) && MapKept(s, u) && Spaces(u) == CopyingStep(Spaces(s), PokeEvent(s, t, a, w))
  {
    var o, u := a - t * TASK_SIZE, UserStore(s, a, w);
    hide Inv, Tasks, Target, Contents, Private, UserStore, CanWrite, CanSplit, Walk, Spaces, Live, MapKept, PageRef, Undisturbed, View,
      CopyingStep, PageNaming;
    OwnSlice(t, a);
    WalkIsPage(t, o);
    PageRefInSlice(t, o / 0x1000);
    StoreRefines(s, t, o, w);
    StoreEffect(s, a, w);
    DirsKept(s, u, Walk(a));
    OthersKept(s, u, Walk(a), t);
  }

  lemma OthersKept(s: State, u: State, r0: Ref, t: int)
    requires Undisturbed(s, u, r0) && r0.Entry? && Owner(r0) == t
    ensures forall r :: IsRef(r) && !(r.Entry? && Owner(r) == t) ==> Target(u, r) == Target(s, r) && Contents(u, r) == Contents(s, r)
  {
    hide Target, Contents;
  }

  /** A permitted store harms nobody, and the tasks see no more of it than a store of t to a page of its own. */
  lemma PokeRefines(s: State, t: int, a: int, w: int)
    requires Good(s) && Live(s, t) && InVideo(a) && MayPoke(s, t, a)
    ensures var u := UserStore(s, a, w);
      Harmless(s, u, t) && MapKept(s, u) && Spaces(u) == CopyingStep(Spaces(s), PokeEvent(s, t, a, w))
  {
    hide Inv, Tasks, CanWrite, CanSplit, Private, Walk, Spaces, Target, Contents, Live;
    if Target(s, Walk(a)) < 0 {
      GoodMap(s);
    } else if a < TASK_SIZE {
      LowPoke(s, t, a, w);
    } else {
      OwnPoke(s, t, a, w);
    }
  }

  lemma GoodMap(s: State)
    requires Good(s)
    ensures MapKept(s, s)
  {
    MapItself(s);
  }

  // The other stores do harm

  /** What stands at the word now; storing anything else is a change. */
  function OtherWord(w: int): (x: int)
    ensures IsWord(x) && x != w
  {
    if w == 0 then 1 else 0
  }

  /** A page of task 0 that it may not write: do_wp_page panics. */
  lemma LockedBreaks(s: State, t: int, a: int, w: int)
    requires Inv(s) && InVideo(a) && a < TASK_SIZE && Target(s, Walk(a)) >= 0 && !CanWrite(s, Walk(a))
    ensures UserStore(s, a, w).panicked && !Harmless(s, UserStore(s, a, w), t)
  {
  }

  /** A frame that is somebody's and not just one page of t. */
  lemma SharedNamed(s: State, t: int, f: int) returns (r: Ref)
    requires Inv(s) && FIRST_FREE <= f < FRAMES && 1 <= t < NR_TASKS && !Private(s, t, f)
    ensures IsRef(r) && Target(s, r) == f && !(r.Entry? && Owner(r) == t)
  {
    assert Count(s, f) == |Refs(s, f)| != 0;
    if q :| IsRef(q) && Target(s, q) == f && !(q.Entry? && Owner(q) == t) {
      r := q;
    } else {
      r :| r in Refs(s, f);
      hide Inv, Target, Count, Private;
      OnlyPage(s, t, f, r);
      assert false;
    }
  }

  /** Of one task, one page at most names a frame. */
  lemma OnlyPage(s: State, t: int, f: int, r: Ref)
    requires Inv(s) && FIRST_FREE <= f < FRAMES && 1 <= t < NR_TASKS && r in Refs(s, f)
    requires forall q :: IsRef(q) && Target(s, q) == f ==> q.Entry? && Owner(q) == t
    ensures Private(s, t, f)
  {
    hide Inv, Target, PageNaming, PageRef;
    assert IsRef(r) && Target(s, r) == f && r.Entry? && Owner(r) == t;
    forall q | q in Refs(s, f) ensures q == r { OnceAt(s, r, q); }
    assert Refs(s, f) == {r};
    NamedCount(s, f, r);
    PageOf(t, r);
    LastPage(s, t, f, PAGES);
    assert Target(s, PageRef(t, 1024 * (r.k - 16 * t) + r.i)) == f;
  }

  lemma PageOf(t: int, r: Ref)
    requires IsRef(r) && r.Entry? && Owner(r) == t
    ensures var v := 1024 * (r.k - 16 * t) + r.i; 0 <= v < PAGES && PageRef(t, v) == r
  {
  }

  lemma NamedBreaks(s: State, t: int, a: int, r: Ref) returns (w: int)
    requires Good(s) && InVideo(a) && a < TASK_SIZE && Target(s, Walk(a)) >= 0 && CanWrite(s, Walk(a))
    requires a / PAGE_SIZE >= FIRST_FREE && IsRef(r) && Target(s, r) == a / PAGE_SIZE && !(r.Entry? && Owner(r) == t)
    ensures IsWord(w) && !Harmless(s, UserStore(s, a, w), t)
  {
    var f, o := a / PAGE_SIZE, a / 4 % 0x400;
    LowPokeForm(s, a, 1);
    InvShape(s);
    if r.Table? {
      w := 1;
      LowPokeForm(s, a, w);
      TableBreaks(s, r.k, f, o);
    } else {
      w := OtherWord(s.mem[f][o]);
      LowPokeForm(s, a, w);
      assert Contents(s, r) == s.mem[f];
      ContentsChanged(s, Put(s, f, o, w), r, f, o, w);
    }
  }

  lemma ContentsChanged(s: State, u: State, r: Ref, f: int, o: int, w: int)
    requires IsRef(r) && !r.Table? && LOW_FRAMES <= f < |s.mem| && Target(s, r) == f && 0 <= o < |s.mem[f]|
    requires u == Put(s, f, o, w) && w != s.mem[f][o]
    ensures !(Target(u, r) == Target(s, r) && Contents(u, r) == Contents(s, r))
  {
    if Target(u, r) == f { assert Contents(u, r)[o] == w; }
  }

  /** In a table, 1 is no entry that the kernel writes. */
  lemma TableBreaks(s: State, k: int, f: int, o: int)
    requires Inv(s) && 16 <= k < 1024 && Target(s, Table(k)) == f && 5 <= f < FRAMES && 0 <= o < 1024
    ensures !Good(Put(s, f, o, 1))
  {
    var u := Put(s, f, o, 1);
    assert Present(Dir(s, k)) && Dir(u, k) == Dir(s, k);
    assert Pte(u, k, o) == 1 && !PteWord(1);
    hide Inv, Tasks, Present, FrameOf;
    BadEntry(u, k, o);
  }

  lemma BadEntry(u: State, k: int, o: int)
    requires 0 <= k < 1024 && 0 <= o < 1024 && Present(Dir(u, k)) && !PteWord(Pte(u, k, o))
    ensures !Inv(u)
  {
  }

  /** A page of another task changes. */
  lemma OtherSliceBreaks(s: State, t: int, a: int) returns (w: int)
    requires Good(s) && InVideo(a) && a >= TASK_SIZE && a / TASK_SIZE != t && Target(s, Walk(a)) >= 0
    requires CanWrite(s, Walk(a)) || CanSplit(s, a)
    ensures IsWord(w) && !Harmless(s, UserStore(s, a, w), t)
  {
    hide Tasks, UserStore, CanWrite, CanSplit, Walk, Target, Inv, Harmless, View, MapKept, Undisturbed, Contents, PageRef;
    var n, f, r, o := a / TASK_SIZE, Target(s, Walk(a)), Walk(a), a / 4 % 0x400;
    OwnSlice(n, a);
    StoreEffect(s, a, 0);
    w := OtherWord(s.mem[f][o]);
    StoreEffect(s, a, w);
    WalkIsPage(n, a - n * TASK_SIZE);
    PageRefInSlice(n, (a - n * TASK_SIZE) / 0x1000);
    ViewChanged(s, UserStore(s, a, w), r, f, o, w);
    Harmed(s, UserStore(s, a, w), t, r);
  }

  lemma Harmed(s: State, u: State, t: int, r: Ref)
    requires IsRef(r) && !(r.Entry? && Owner(r) == t) && !(Target(u, r) == Target(s, r) && Contents(u, r) == Contents(s, r))
    ensures !Harmless(s, u, t)
  {
    hide Target, Contents, Good;
  }

  lemma ViewChanged(s: State, u: State, r: Ref, f: int, o: int, w: int)
    requires IsRef(r) && r.Entry? && 0 <= f == Target(s, r) < |s.mem| && 0 <= o < |s.mem[f]|
    requires View(u, r) == Own(s.mem[f][o := w]) && w != s.mem[f][o]
    ensures !(Target(u, r) == Target(s, r) && Contents(u, r) == Contents(s, r))
  {
    assert Contents(u, r)[o] == w;
  }

  /** No frame for the copy: either the directory is not what it was, or an entry lets a task write to it. */
  lemma UnservedBreaks(s: State, t: int, a: int) returns (w: int)
    requires Good(s) && InVideo(a) && a >= TASK_SIZE && Target(s, Walk(a)) >= 0
    requires !CanWrite(s, Walk(a)) && !CanSplit(s, a)
    ensures IsWord(w) && !Harmless(s, UserStore(s, a, w), t)
  {
    var r, o := Walk(a), a / 4 % 0x400;
    OwnSlice(a / TASK_SIZE, a);
    InvShape(s);
    w := OtherWord(Dir(s, o));
    FaultServedExactlyWhen(s, a);
    var x, u := DoWpPage(s, a), UserStore(s, a, w);
    UnservedShape(s, a);
    var g := FrameOf(Pte(x, r.k, r.i));
    assert u == Put(x, g, o, w);
    hide Good, DoWpPage, UserStore, FrameOf, Present;
    SevenNamesZero();
    if g == 0 {
      assert Dir(u, o) == w;
    } else {
      assert Dir(u, r.k) == Dir(x, r.k);
    }
  }

  lemma SevenNamesZero()
    ensures FrameOf(7) == 0
  {
  }

  lemma UnservedShape(s: State, a: int)
    requires Inv(s) && IsWord(a) && a >= TASK_SIZE && Target(s, Walk(a)) >= 0 && !CanSplit(s, a)
    ensures var x := DoWpPage(s, a); |x.mem| == FRAMES && |x.mem[0]| == 1024
  {
    InvShape(s);
    hide Inv, DoWpPage, CanSplit, Target;
    FaultEntry(s, a);
    UnWpSize(s, FrameOf(Dir(s, Walk(a).k)), Walk(a).i);
    FaultServedExactlyWhen(s, a);
    TargetInside(s, Walk(a));
  }

  lemma TargetInside(s: State, r: Ref)
    requires Inv(s) && IsRef(r) && Target(s, r) >= 0
    ensures Target(s, r) < FRAMES
  {
  }

  lemma UnWpSize(s: State, f: int, i: int)
    ensures |UnWp(s, f, i).mem| == |s.mem|
  {
    hide FrameOf, UserWord, SetWrite, HighestFree;
  }

  lemma PokeBreaks(s: State, t: int, a: int) returns (w: int)
    requires Good(s) && Live(s, t) && InVideo(a) && !MayPoke(s, t, a)
    ensures IsWord(w) && !Harmless(s, UserStore(s, a, w), t)
  {
    hide Tasks, CanSplit, Contents, UserStore, Harmless;
    if a < TASK_SIZE {
      LowWalk(s, a);
      hide Inv, CanWrite, Walk, Target;
      if CanWrite(s, Walk(a)) {
        var r := SharedNamed(s, t, a / PAGE_SIZE);
        w := NamedBreaks(s, t, a, r);
      } else {
        w := 0;
        LockedBreaks(s, t, a, w);
      }
    } else if CanWrite(s, Walk(a)) || CanSplit(s, a) {
      w := OtherSliceBreaks(s, t, a);
    } else {
      w := UnservedBreaks(s, t, a);
    }
  }

  /** The stores through the video segment that harm nobody, whatever is stored, are exactly the permitted ones. */
  lemma PokeHarmlessExactlyWhen(s: State, t: int, a: int)
    requires Good(s) && Live(s, t) && InVideo(a)
    ensures (forall w :: IsWord(w) ==> Harmless(s, UserStore(s, a, w), t)) <==> MayPoke(s, t, a)
  {
    hide *;
    if MayPoke(s, t, a) {
      forall w | IsWord(w) ensures Harmless(s, UserStore(s, a, w), t) { PokeRefines(s, t, a, w); }
    } else {
      var w := PokeBreaks(s, t, a);
    }
  }
}
