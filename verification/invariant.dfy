/** What every frame of physical memory is used for, and the invariant of the reference
    counts: who may share a frame, who may write it, and what mem_map says about it. */
module Invariant {
  import opened Words
  import opened Machine

  /** A place that can name a frame: entry i of the table of directory entry k, directory
      entry k itself, or slot t of task[]. Directory entry k belongs to task k / 16. */
  datatype Ref = Entry(k: int, i: int) | Table(k: int) | Pcb(t: int)

  predicate IsEntry(r: Ref) {
    r.Entry? && 0 <= r.k < 1024 && 0 <= r.i < 1024
  }

  /** The places that mem_map counts: those of tasks 1 to 63. */
  predicate IsRef(r: Ref) {
    match r
    case Entry(k, i) => 16 <= k < 1024 && 0 <= i < 1024
    case Table(k) => 16 <= k < 1024
    case Pcb(t) => 1 <= t < NR_TASKS
  }

  function Owner(r: Ref): int {
    match r
    case Entry(k, _) => k / 16
    case Table(k) => k / 16
    case Pcb(t) => t
  }

  ghost function AllRefs(): (rs: set<Ref>)
    ensures forall r :: r in rs <==> IsRef(r)
  {
    (set k, i | 16 <= k < 1024 && 0 <= i < 1024 :: Entry(k, i))
    + (set k | 16 <= k < 1024 :: Table(k))
    + (set t | 1 <= t < NR_TASKS :: Pcb(t))
  }

  /** The frame named at r, or -1. */
  function Target(s: State, r: Ref): int {
    match r
    case Entry(k, i) => if Present(Dir(s, k)) && Present(Pte(s, k, i)) then FrameOf(Pte(s, k, i)) else -1
    case Table(k) => if Present(Dir(s, k)) then FrameOf(Dir(s, k)) else -1
    case Pcb(t) => if Slot(s, t) != 0 then FrameOf(Slot(s, t)) else -1
  }

  predicate CanWrite(s: State, r: Ref) {
    r.Entry? && Target(s, r) >= 0 && Writable(Pte(s, r.k, r.i))
  }

  ghost function Refs(s: State, f: int): set<Ref> {
    set r | r in AllRefs() && Target(s, r) == f
  }

  function Base(f: int): int {
    if LOW_FRAMES <= f < FIRST_FREE then USED else 0
  }

  predicate DirWord(w: int) {
    w == 0 || (w % 0x1000 == 7 && 1 <= w / 0x1000 < FRAMES)
  }

  predicate PteWord(w: int) {
    w == 0 || ((w % 0x1000 == 5 || w % 0x1000 == 7) && 0 <= w / 0x1000 < FRAMES)
  }

  ghost predicate Shape(s: State) {
    && |s.memMap| == PAGING_PAGES && |s.mem| == FRAMES && |s.task| == NR_TASKS
    && forall f :: 0 <= f < FRAMES ==> |s.mem[f]| == 1024
  }

  /** Every entry is absent, or names a frame of physical memory with flags 5 or 7. */
  ghost predicate Formed(s: State) {
    && Shape(s) && !s.panicked
    && (forall k :: 0 <= k < 1024 ==> DirWord(Dir(s, k)))
    && forall k, i :: 0 <= k < 1024 && 0 <= i < 1024 && Present(Dir(s, k)) ==> PteWord(Pte(s, k, i))
  }

  /** Task 0 keeps the identity map of the 16 MB that setup_paging built. */
  ghost predicate Identity(s: State) {
    && (forall k :: 0 <= k < 16 ==> Dir(s, k) == if k < 4 then UserWord((k + 1) * PAGE_SIZE) else 0)
    && forall k, i :: 0 <= k < 4 && 0 <= i < 1024 ==> Target(s, Entry(k, i)) == 1024 * k + i
  }

  /** Task slots hold page addresses, and only a task in a slot has page tables: four of them. */
  ghost predicate Slots(s: State) {
    && Slot(s, 0) == 0
    && (forall t :: 1 <= t < NR_TASKS ==> Slot(s, t) == 0 || (Slot(s, t) % PAGE_SIZE == 0 && Slot(s, t) >= PAGE_SIZE))
    && forall k :: 16 <= k < 1024 && (k % 16 >= 4 || Slot(s, k / 16) == 0) ==> Dir(s, k) == 0
  }

  ghost predicate Placed(s: State) {
    forall r :: IsRef(r) && Target(s, r) >= 0 ==>
      Target(s, r) < FRAMES && (FIRST_FREE <= Target(s, r) || (r.Entry? && Target(s, r) < LOW_FRAMES))
  }

  /** mem_map counts the places that name a frame, exactly. */
  ghost predicate Counted(s: State) {
    forall f :: LOW_FRAMES <= f < FRAMES ==> Count(s, f) == |Refs(s, f)| + Base(f)
  }

  /** A frame that holds a page table or a process control block has no other use. */
  ghost predicate Exclusive(s: State) {
    forall r, q :: IsRef(r) && IsRef(q) && !r.Entry? && Target(s, r) >= 0 && Target(s, q) == Target(s, r) ==> q == r
  }

  /** No address space maps a frame above 1 MB twice. */
  ghost predicate OncePerTask(s: State) {
    forall r, q ::
      IsEntry(r) && IsEntry(q) && Owner(r) == Owner(q) && Target(s, q) == Target(s, r) >= LOW_FRAMES ==> q == r
  }

  /** An entry that grants write access is the only place that names its frame, and the frame
      is not the kernel's. */
  ghost predicate SoleWriter(s: State) {
    && (forall r :: IsRef(r) && CanWrite(s, r) ==> Target(s, r) >= FIRST_FREE)
    && forall r, q :: IsRef(r) && IsRef(q) && CanWrite(s, r) && Target(s, q) == Target(s, r) ==> q == r
  }

  ghost predicate Structured(s: State) {
    Formed(s) && Identity(s) && Slots(s)
  }

  ghost predicate Inv(s: State) {
    && Structured(s) && Placed(s)
    && Counted(s) && Exclusive(s) && OncePerTask(s) && SoleWriter(s)
  }

  // One place changes its target, and mem_map follows

  lemma CountAfter(s: State, t: State, r0: Ref, f: int)
    requires IsRef(r0) && forall r :: IsRef(r) && r != r0 ==> Target(t, r) == Target(s, r)
    ensures |Refs(t, f)| == |Refs(s, f)| - (if Target(s, r0) == f then 1 else 0) + (if Target(t, r0) == f then 1 else 0)
  {
    assert Refs(t, f) - {r0} == Refs(s, f) - {r0};
    assert r0 in Refs(s, f) <==> Target(s, r0) == f;
    assert r0 in Refs(t, f) <==> Target(t, r0) == f;
    assert r0 !in Refs(s, f) ==> Refs(s, f) - {r0} == Refs(s, f);
    assert r0 !in Refs(t, f) ==> Refs(t, f) - {r0} == Refs(t, f);
  }

  /** The frame now named at r0 is free, or shared by entries of other tasks only. */
  ghost predicate Fits(s: State, r0: Ref, f: int) {
    || f == -1
    || (r0.Entry? && 0 <= f < LOW_FRAMES)
    || (FIRST_FREE <= f < FRAMES
        && forall r :: IsRef(r) && r != r0 && Target(s, r) == f ==> r.Entry? && r0.Entry? && Owner(r) != Owner(r0))
  }

  /** mem_map follows the change of r0. */
  ghost predicate CountsFollow(s: State, t: State, r0: Ref) {
    forall f :: LOW_FRAMES <= f < FRAMES ==>
      Count(t, f) == Count(s, f) - (if Target(s, r0) == f then 1 else 0) + (if Target(t, r0) == f then 1 else 0)
  }

  /** Only r0 names another frame in t than in s, and mem_map differs by that change. */
  ghost predicate Moved(s: State, t: State, r0: Ref) {
    && IsRef(r0) && CountsFollow(s, t, r0)
    && forall r :: (IsRef(r) || IsEntry(r)) && r != r0 ==> Target(t, r) == Target(s, r)
  }

  /** What grants write access in t did so in s and is not at the frame of r0, or is r0 alone at its frame. */
  ghost predicate WritersKept(s: State, t: State, r0: Ref) {
    forall r :: IsRef(r) && CanWrite(t, r) ==>
      if r == r0 then Target(t, r0) >= FIRST_FREE && (forall q :: IsRef(q) && q != r0 ==> Target(s, q) != Target(t, r0))
      else CanWrite(s, r) && Target(s, r) != Target(t, r0)
  }

  lemma Retarget(s: State, t: State, r0: Ref)
    requires Inv(s) && Structured(t)
    requires Moved(s, t, r0) && Fits(s, r0, Target(t, r0)) && WritersKept(s, t, r0)
    ensures Inv(t)
  {
    forall f | LOW_FRAMES <= f < FRAMES ensures Count(t, f) == |Refs(t, f)| + Base(f) {
      CountAfter(s, t, r0, f);
    }
    assert Placed(t);
    RetargetExclusive(s, t, r0);
    RetargetOnce(s, t, r0);
    RetargetWriters(s, t, r0);
  }

  lemma RetargetExclusive(s: State, t: State, r0: Ref)
    requires Inv(s) && Moved(s, t, r0) && Fits(s, r0, Target(t, r0))
    ensures Exclusive(t)
  {
    hide Target, Structured, Counted, SoleWriter;
    forall r, q | IsRef(r) && IsRef(q) && !r.Entry? && Target(t, r) >= 0 && Target(t, q) == Target(t, r)
      ensures q == r
    {
    }
  }

  lemma RetargetOnce(s: State, t: State, r0: Ref)
    requires Inv(s) && Moved(s, t, r0) && Fits(s, r0, Target(t, r0))
    ensures OncePerTask(t)
  {
    hide Target, Structured, Counted, SoleWriter, Exclusive;
    forall r, q | IsEntry(r) && IsEntry(q) && Owner(r) == Owner(q) && Target(t, r) >= LOW_FRAMES && Target(t, q) == Target(t, r)
      ensures q == r
    {
    }
  }

  lemma RetargetWriters(s: State, t: State, r0: Ref)
    requires Inv(s) && Moved(s, t, r0) && WritersKept(s, t, r0)
    ensures SoleWriter(t)
  {
    forall r, q | IsRef(r) && IsRef(q) && CanWrite(t, r) && Target(t, q) == Target(t, r)
      ensures q == r
    {
    }
  }

  // No count overflows its byte

  lemma {:induction false} OwnersSize(rs: set<Ref>)
    requires forall r, q :: r in rs && q in rs && Owner(r) == Owner(q) ==> q == r
    ensures |rs| == |set r | r in rs :: Owner(r)|
  {
    if rs != {} {
      var r :| r in rs;
      OwnersSize(rs - {r});
      assert (set q | q in rs :: Owner(q)) == (set q | q in rs - {r} :: Owner(q)) + {Owner(r)};
    }
  }

  lemma {:induction false} RangeSize(xs: set<int>, n: nat)
    requires forall x :: x in xs ==> 1 <= x <= n
    ensures |xs| <= n
  {
    if n == 0 {
      assert forall x :: x !in xs;
    } else {
      RangeSize(xs - {n}, n - 1);
      assert n !in xs ==> xs - {n} == xs;
    }
  }

  /** At most 63 places name a frame above 1 MB: one in each address space. */
  lemma FewRefs(s: State, f: int)
    requires Exclusive(s) && OncePerTask(s) && f >= LOW_FRAMES
    ensures |Refs(s, f)| <= 63
  {
    if r :| r in Refs(s, f) && !r.Entry? {
      assert Refs(s, f) == {r};
    } else {
      OwnersSize(Refs(s, f));
      RangeSize(set r | r in Refs(s, f) :: Owner(r), 63);
    }
  }

  /** No byte of mem_map overflows: none exceeds 100, and 63 outside the reserved frames. */
  lemma CountsFit(s: State, f: int)
    requires Inv(s) && LOW_FRAMES <= f < FRAMES
    ensures 0 <= Count(s, f) <= if f < FIRST_FREE then USED else 63
  {
    FewRefs(s, f);
    if f < FIRST_FREE { assert Refs(s, f) == {}; }
  }
}
