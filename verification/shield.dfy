/** What the first fork does to the identity map: the pages that task 1 shares are write-protected in task 0's
    tables too, and stay so. */
module Shield {
  import opened Words
  import opened Machine
  import opened Invariant
  import opened Steps
  import opened Copying
  import opened Fork
  import opened Refinement
  import opened Video
  import opened Runs

  /** Task 0's tables, frames 1 to 4, after n of them have been copied: the entries that task 1 shares, but for
      those of the first megabyte, have lost their write bit. */
  ghost predicate Closed(s: State, n: int) {
    && |s.mem| == FRAMES && (forall f :: 1 <= f < 5 ==> |s.mem[f]| == 1024)
    && forall f, i :: 1 <= f < 5 && 0 <= i < 1024 ==> s.mem[f][i] == ClosedEntry(f, i, f <= n)
  }

  function ClosedEntry(f: int, i: int, copied: bool): int {
    IdentityEntry(1024 * (f - 1) + i) - if copied && f > 1 && i < 0xa0 then 2 else 0
  }

  /** Task 0's tables from the first fork on. */
  ghost predicate Shielded(s: State) {
    Closed(s, 4)
  }

  lemma ClosedKept(s: State, t: State, n: int)
    requires Closed(s, n) && MapKept(s, t)
    ensures Closed(t, n)
  {
    hide ClosedEntry;
    assert forall f :: 1 <= f < 5 ==> t.mem[f] == s.mem[f];
  }

  lemma ShieldedKept(s: State, t: State)
    requires Shielded(s) && MapKept(s, t)
    ensures Shielded(t)
  {
    ClosedKept(s, t, 4);
  }

  // One entry, one table, four tables

  lemma ClosedBits(f: int, i: int)
    requires 1 <= f < 5 && 0 <= i < 1024
    ensures var w := IdentityEntry(1024 * (f - 1) + i);
      Writable(w) && ClearWrite(w) == w - 2 && Present(w) && FrameOf(w) == 1024 * (f - 1) + i
  {
    UserWordNames(1024 * (f - 1) + i);
  }

  lemma IdentityTable(s: State, f: int)
    requires Inv(s) && 1 <= f < 5
    ensures Present(Dir(s, f - 1)) && FrameOf(Dir(s, f - 1)) == f && |s.mem| == FRAMES && |s.mem[f]| == 1024
    ensures forall i :: 0 <= i < 1024 ==> Pte(s, f - 1, i) == s.mem[f][i]
  {
    UserWordNames(f);
  }

  lemma CloseOne(s: State, c: int, f: int, to: int, i: int)
    requires CopyingTable(s, 0, c, f - 1, to) && 1 <= f < 5 && 0 <= i < 0xa0 && Pte(s, to, i) == 0
    requires |s.mem| == FRAMES && |s.mem[f]| == 1024 && s.mem[f][i] == ClosedEntry(f, i, false)
    ensures var t := CopyEntry(s, f - 1, to, i);
      |t.mem| == FRAMES && t.mem[f] == s.mem[f][i := ClosedEntry(f, i, true)]
  {
    hide Inv, Forking, CopyReady, Target, Present, FrameOf, Writable, ClearWrite, Shareable, CopyEntry, IdentityEntry, CopyingTable;
    CloseReady(s, c, f, to, i);
    ClosedBits(f, i);
    CopyEntryForm(s, f - 1, to, i);
    CloseForm(s, f, to, i, ClearWrite(Pte(s, f - 1, i)));
  }

  lemma CloseReady(s: State, c: int, f: int, to: int, i: int)
    requires CopyingTable(s, 0, c, f - 1, to) && 1 <= f < 5 && 0 <= i < 0xa0 && Pte(s, to, i) == 0
    ensures Inv(s) && CopyReady(s, f - 1, to, i) && Target(s, Entry(f - 1, i)) == 1024 * (f - 1) + i
    ensures FrameOf(Dir(s, f - 1)) == f && FrameOf(Dir(s, to)) >= FIRST_FREE && Pte(s, f - 1, i) == s.mem[f][i]
  {
    hide Inv, Forking, Shareable, Present, FrameOf, Target, Dir, Pte, Shape;
    CopyingFacts(s, 0, c, f - 1, to);
    EmptyEntry(s, to, i);
    IdentityTable(s, f);
    ForkingShareable(s, 0, c, f - 1, i);
    TablePlaces(s, 0, c, f - 1, to);
    IdentityTarget(s, f - 1, i);
  }

  lemma IdentityTarget(s: State, k: int, i: int)
    requires Inv(s) && 0 <= k < 4 && 0 <= i < 1024
    ensures Target(s, Entry(k, i)) == 1024 * k + i
  {
  }

  lemma CloseForm(s: State, f: int, to: int, i: int, r: int)
    requires |s.mem| == FRAMES && 1 <= f < 5 && FrameOf(Dir(s, f - 1)) == f && FrameOf(Dir(s, to)) >= 5 && 0 <= i < 1024
    requires |s.mem[f]| == 1024
    ensures var t := SetPte(s, to, i, r);
      && t.mem[f] == s.mem[f] && |t.mem| == FRAMES && Dir(t, f - 1) == Dir(s, f - 1)
      && SetPte(t, f - 1, i, r).mem[f] == s.mem[f][i := r] && |SetPte(t, f - 1, i, r).mem| == FRAMES
  {
    hide FrameOf;
  }

  lemma {:induction false} EntriesClosed(u: State, c: int, f: int, to: int, n: nat)
    requires CopyingTable(u, 0, c, f - 1, to) && 1 <= f < 5 && n <= 0xa0 && |u.mem| == FRAMES && |u.mem[f]| == 1024
    requires forall i :: 0 <= i < 1024 ==> u.mem[f][i] == ClosedEntry(f, i, false)
    requires forall i :: 0 <= i < 1024 ==> Pte(u, to, i) == 0
    ensures var t := CopyEntries(u, f - 1, to, n);
      && |t.mem| == FRAMES && |t.mem[f]| == 1024
      && forall i :: 0 <= i < 1024 ==> t.mem[f][i] == ClosedEntry(f, i, i < n)
  {
    hide CopyingTable, CopyEntry, IdentityEntry, Pte;
    if n > 0 {
      CopyEntriesSafe(u, 0, c, f - 1, to, n - 1);
      EntriesClosed(u, c, f, to, n - 1);
      CloseOne(CopyEntries(u, f - 1, to, n - 1), c, f, to, n - 1);
      SharedOnly(f);
    } else {
      SharedOnly(f);
    }
  }

  lemma SharedOnly(f: int)
    ensures forall i, b :: i >= 0xa0 ==> ClosedEntry(f, i, b) == IdentityEntry(1024 * (f - 1) + i)
  {
  }

  lemma TableClosed(u: State, c: int, f: int, to: int)
    requires CopyingTable(u, 0, c, f - 1, to) && 1 <= f < 5 && Closed(u, f - 1)
    requires to == 16 * c + f - 1 && forall i :: 0 <= i < 1024 ==> Pte(u, to, i) == 0
    ensures Closed(CopyEntries(u, f - 1, to, 0xa0), f)
  {
    hide Forking, CopyEntry, IdentityEntry, Pte, Inv, Dir, FrameOf, ClosedEntry, CopyEntries, CopyingTable;
    var t := CopyEntries(u, f - 1, to, 0xa0);
    CopyingInv(u, c, f - 1, to);
    IdentityTable(u, f);
    TablePlaces(u, 0, c, f - 1, to);
    EntriesClosed(u, c, f, to, 0xa0);
    CopyEntriesSafe(u, 0, c, f - 1, to, 0xa0);
    SharedOnly(f);
    forall g, i | 1 <= g < 5 && 0 <= i < 1024 ensures |t.mem[g]| == 1024 && t.mem[g][i] == ClosedEntry(g, i, g <= f) {
      if g != f { assert t.mem[g] == u.mem[g]; }
    }
  }

  lemma CopyingInv(u: State, c: int, from: int, to: int)
    requires CopyingTable(u, 0, c, from, to)
    ensures Inv(u)
  {
  }

  lemma AllocClosed(s: State, n: int, to: int)
    requires Inv(s) && Closed(s, n) && HasFree(s)
    ensures Closed(AllocTable(s, to).0, n)
  {
    FreeFrameFacts(s);
    hide Inv, IdentityEntry;
  }

  lemma OneTableClosed(s: State, c: int, f: int)
    requires Forking(s, 0, c) && 1 <= f < 5 && Closed(s, f - 1) && Room(s, 0, f) && Dir(s, 16 * c + f - 1) == 0
    ensures Closed(CopyTable(s, f - 1, 16 * c + f - 1, 0xa0).0, f)
  {
    hide Forking, Closed, Room, HasFree, AllocTable, CopyEntries, Inv, Present, FrameOf;
    var to := 16 * c + f - 1;
    var (u, _) := AllocTable(s, to);
    ForkingInv(s, 0, c);
    InvShape(s);
    RoomFree(s, f);
    IdentityTable(s, f);
    ZeroAbsent();
    assert CopySlot(0, c, f - 1, to);
    ForkingAlloc(s, 0, c, f - 1, to, f);
    AllocClosed(s, f - 1, to);
    ForkingInv(u, 0, c);
    IdentityTable(u, f);
    TableClosed(u, c, f, to);
  }

  lemma RoomFree(s: State, n: nat)
    requires Shape(s) && Room(s, 0, n) && n < 8
    ensures HasFree(s)
  {
    RoomIsFree(s, n);
  }

  lemma ForkingInv(u: State, p: int, c: int)
    requires Forking(u, p, c)
    ensures Inv(u)
  {
  }

  lemma {:induction false} TablesClosed(s: State, c: int, n: nat)
    requires Forking(s, 0, c) && Room(s, 0, 1) && n <= 4 && Closed(s, 0)
    requires forall j :: 16 * c <= j < 16 * c + 4 ==> Dir(s, j) == 0
    ensures var (t, ok) := CopyTables(s, 0, 16 * c, n, 0xa0); ok ==> Closed(t, n)
  {
    hide Forking, Room, Closed, CopyTable, TablesDone, Dir;
    if n > 0 {
      TablesClosed(s, c, n - 1);
      assert 16 * 0 == 0;
      CopyTablesAll(s, 0, c, n - 1);
      var (u, ok) := CopyTables(s, 0, 16 * c, n - 1, 0xa0);
      if ok {
        assert Dir(s, 16 * c + n - 1) == 0;
        TablesDoneSoFar(s, u, 0, c, n - 1);
        OneTableClosed(u, c, n);
      }
    }
  }

  lemma ForkingFrom(s: State, n: int)
    requires ForkReady(Found(s), 0, n) && Closed(s, 0) && n == EmptySlot(s, 1)
    ensures SysFork(s, 0) == CopyProcess(Found(s), 0, n) && Closed(Found(s), 0) && Inv(Found(s)) && n >= 1
  {
    hide Inv, Tasks, Pids, NextPid, CopyProcess;
    SameSlots(s, Found(s), 1);
  }

  /** The first fork shields the identity map. */
  lemma ForkShields(s: State, n: int)
    requires ForkReady(Found(s), 0, n) && Closed(s, 0) && n == EmptySlot(s, 1) && SysFork(s, 0).1 > 0
    ensures Shielded(SysFork(s, 0).0)
  {
    hide ForkReady, CopyProcess, CopyTables, Started, Found, Closed, SysFork, Forking, Room, Inv, GetFree, PcbAdded, Same, EmptySlot,
      Target, Contents, Slot, Dir, GoodSegments, PcbWord, Keeps;
    var f := Found(s);
    var u := Started(f, 0, n);
    var (_, g) := GetFree(f);
    ForkingFrom(s, n);
    FirstForkWorks(f, n);
    CopyProcessForm(f, 0, n);
    StartedForking(f, 0, n);
    StartedWords(f, 0, n);
    StartedDirs(f, u, 0, n);
    AddedMap(f, u, n, g, u.mem[g]);
    ClosedKept(f, u, 0);
    TablesClosed(u, n, 4);
  }

  lemma SameSlots(s: State, t: State, n: nat)
    requires t.task == s.task
    ensures EmptySlot(t, n) == EmptySlot(s, n)
    decreases NR_TASKS - n
  {
    assert Slot(t, n) == Slot(s, n);
    if n < NR_TASKS { SameSlots(s, t, n + 1); }
  }

  // What the shield lets through

  /** The frames that every task may store to directly: those below 4 MB, and in each further 4 MB those above the
      first 640 KB. */
  predicate Open(f: int) {
    f < FIRST_FREE || f % 1024 >= 0xa0
  }

  lemma ShieldedWrites(s: State, a: int)
    requires Inv(s) && Shielded(s) && 0 <= a < HIGH_MEMORY
    ensures CanWrite(s, Walk(a)) <==> Open(a / PAGE_SIZE)
  {
    var f, i := Walk(a).k + 1, Walk(a).i;
    LowWalk(s, a);
    SplitPage(a);
    IdentityTable(s, f);
    ClosedBits(f, i);
    assert Pte(s, f - 1, i) == ClosedEntry(f, i, true);
    hide Inv, Target, Present, FrameOf, IdentityEntry, Pte, Dir, Walk;
    ReadOnlyEntry(IdentityEntry(1024 * (f - 1) + i));
  }

  lemma ReadOnlyEntry(w: int)
    requires Writable(w)
    ensures !Writable(w - 2)
  {
  }

  /** After the first fork the guard is a matter of the address and of mem_map. */
  lemma ShieldedMayPoke(s: State, t: int, a: int)
    requires Inv(s) && Shielded(s) && InVideo(a) && a < HIGH_MEMORY
    ensures MayPoke(s, t, a) <==> Open(a / PAGE_SIZE) && Private(s, t, a / PAGE_SIZE)
  {
    hide Inv, Shielded, CanWrite, Walk, Private, Open;
    LowWalk(s, a);
    ShieldedWrites(s, a);
  }

  /** Stores to the video memory itself, and up to 4 MB, are always permitted. */
  lemma VideoMemoryOpen(s: State, t: int, a: int)
    requires Inv(s) && Shielded(s) && InVideo(a) && a < 0x40_0000
    ensures MayPoke(s, t, a)
  {
    assert a / PAGE_SIZE < FIRST_FREE;
    hide Inv, Shielded, CanWrite, Walk;
    ShieldedMayPoke(s, t, a);
  }
}
