/** The loops of copy_page_tables and free_page_tables: a whole address space is shared with a
    new task, or given back. */
module Copying {
  import opened Words
  import opened Machine
  import opened Invariant
  import opened Steps

  /** Only what belongs to task n differs. */
  ghost predicate Same(s: State, t: State, n: int) {
    forall r :: IsRef(r) && Owner(r) != n ==> Target(t, r) == Target(s, r) && Contents(t, r) == Contents(s, r)
  }

  /** Only the entries of directory entry k differ. */
  ghost predicate SameButTable(s: State, t: State, k: int) {
    forall r :: IsRef(r) && !(r.Entry? && r.k == k) ==> Target(t, r) == Target(s, r) && Contents(t, r) == Contents(s, r)
  }

  /** The four tables of task 0. */
  ghost predicate MapKept(s: State, t: State) {
    |s.mem| == |t.mem| == FRAMES && forall g :: 1 <= g < 5 ==> t.mem[g] == s.mem[g]
  }

  lemma MapTransitive(s: State, u: State, t: State)
    requires MapKept(s, u) && MapKept(u, t)
    ensures MapKept(s, t)
  {
  }

  lemma SameTransitive(s: State, t: State, u: State, n: int)
    requires Same(s, t, n) && Same(t, u, n)
    ensures Same(s, u, n)
  {
    hide Target, Contents;
  }

  // Giving back

  lemma FreeEntryMap(s: State, k: int, i: int)
    requires Inv(s) && 16 <= k < 1024 && Present(Dir(s, k))
    ensures MapKept(s, FreeEntry(s, k, i))
  {
    assert FrameOf(Dir(s, k)) == Target(s, Table(k)) >= FIRST_FREE;
  }

  lemma DropTableMap(s: State, k: int)
    requires Inv(s)
    ensures MapKept(s, DropTable(s, k))
  {
    hide Present, FrameOf;
  }

  lemma {:induction false} FreeEntriesAll(s: State, k: int, n: nat)
    requires Inv(s) && 16 <= k < 1024 && Present(Dir(s, k)) && n <= 1024
    ensures var t := FreeEntries(s, k, n);
      && Inv(t) && SameButTable(s, t, k) && t.task == s.task && MapKept(s, t)
      && (forall j :: 0 <= j < 1024 ==> Dir(t, j) == Dir(s, j))
      && (forall i :: 0 <= i < n ==> Pte(t, k, i) == 0)
  {
    hide Inv, Target, Contents, Dir, Pte, FreeEntry, MapKept;
    if n > 0 {
      FreeEntriesAll(s, k, n - 1);
      var u := FreeEntries(s, k, n - 1);
      FreeEntryStep(u, k, n - 1);
      FreeEntryMap(u, k, n - 1);
      MapTransitive(s, u, FreeEntry(u, k, n - 1));
    } else {
      MapItself(s);
    }
  }

  lemma MapItself(s: State)
    requires Inv(s)
    ensures MapKept(s, s)
  {
  }

  lemma FreeTableAll(s: State, k: int)
    requires Inv(s) && 16 <= k < 1024
    ensures var t := FreeTable(s, k);
      && Inv(t) && Same(s, t, k / 16) && t.task == s.task && MapKept(s, t) && Dir(t, k) == 0
      && (forall j :: 0 <= j < 1024 && j != k ==> Dir(t, j) == Dir(s, j))
  {
    hide Inv, MapKept, Dir, Pte, Present, Target, Contents, SameButTable, Undisturbed, FreeEntries, DropTable;
    EmptyDir(s, k);
    MapItself(s);
    if Present(Dir(s, k)) {
      var u := FreeEntries(s, k, 1024);
      FreeEntriesAll(s, k, 1024);
      DropTableStep(u, k);
      DropTableMap(u, k);
      MapTransitive(s, u, DropTable(u, k));
      SameAfterTable(s, u, DropTable(u, k), k);
    }
  }

  lemma EmptyDir(s: State, k: int)
    requires Inv(s) && 0 <= k < 1024
    ensures !Present(Dir(s, k)) ==> Dir(s, k) == 0
  {
  }

  lemma SameAfterTable(s: State, u: State, t: State, k: int)
    requires SameButTable(s, u, k) && Undisturbed(u, t, Table(k))
    ensures Same(s, t, k / 16)
  {
    hide Target, Contents;
  }

  lemma {:induction false} FreeTablesAll(s: State, c: int, n: nat)
    requires Inv(s) && 1 <= c < NR_TASKS && n <= 16
    ensures var t := FreeTables(s, 16 * c, n);
      && Inv(t) && Same(s, t, c) && t.task == s.task && MapKept(s, t)
      && (forall j :: 16 * c <= j < 16 * c + n ==> Dir(t, j) == 0)
      && (forall j :: 0 <= j < 1024 && !(16 * c <= j < 16 * c + n) ==> Dir(t, j) == Dir(s, j))
  {
    hide Inv, Target, Contents, Dir, FreeTable, MapKept;
    if n > 0 {
      FreeTablesAll(s, c, n - 1);
      var u := FreeTables(s, 16 * c, n - 1);
      FreeTableAll(u, 16 * c + n - 1);
      MapTransitive(s, u, FreeTable(u, 16 * c + n - 1));
    } else {
      MapItself(s);
    }
  }

  /** Tables of several tasks may be freed in one go. */
  lemma {:induction false} FreeRangeInv(s: State, k: int, n: nat)
    requires Inv(s) && 16 <= k && k + n <= 1024
    ensures Inv(FreeTables(s, k, n))
  {
    hide Inv, FreeTable;
    if n > 0 {
      FreeRangeInv(s, k, n - 1);
      FreeTableAll(FreeTables(s, k, n - 1), k + n - 1);
    }
  }

  // Sharing

  /** How many entries of each table are copied: the first 640 KB of each 4 MB for task 0. */
  function EntriesCopied(p: int): nat {
    if p == 0 then 0xa0 else 1024
  }

  const BOOT_TOP := 0xca0

  /** When task 0 forks: nobody has write access, and page tables lie above the pages it shares. */
  ghost predicate Booting(s: State, c: int) {
    && (forall r :: IsRef(r) ==> !CanWrite(s, r))
    && (forall r :: IsRef(r) && Owner(r) != c ==> Target(s, r) == -1)
    && (forall r :: IsRef(r) && !r.Entry? && Target(s, r) >= 0 ==> Target(s, r) >= BOOT_TOP)
  }

  /** Task c, in the middle of being forked by task p: what c maps, p maps at the same place. */
  ghost predicate Forking(s: State, p: int, c: int) {
    && Inv(s) && 0 <= p < NR_TASKS && 1 <= c < NR_TASKS && p != c && Slot(s, c) != 0
    && Follows(s, p, c) && (p == 0 ==> Booting(s, c))
  }

  ghost predicate Follows(s: State, p: int, c: int) {
    forall k, i :: 16 * c <= k < 16 * c + 16 && 0 <= i < 1024 && Target(s, Entry(k, i)) >= 0 ==>
      Target(s, Entry(k, i)) == Target(s, Entry(k - 16 * c + 16 * p, i))
  }

  /** Nothing of task c names the frame of an entry of p that c has not got yet. */
  lemma NotYetMapped(s: State, p: int, c: int, from: int, i: int, k: int, j: int)
    requires Forking(s, p, c) && 16 * p <= from < 16 * p + 16 && 0 <= i < 1024
    requires Target(s, Entry(from - 16 * p + 16 * c, i)) == -1 && Target(s, Entry(from, i)) >= LOW_FRAMES
    requires 16 * c <= k < 16 * c + 16 && 0 <= j < 1024
    ensures Target(s, Entry(k, j)) != Target(s, Entry(from, i))
  {
    hide Inv, Target, Follows, Booting, IsEntry, Owner, Slot;
    var at := Entry(k - 16 * c + 16 * p, j);
    FollowsAt(s, p, c, k, j);
    EntryOf(p, at.k, j);
    EntryOf(p, from, i);
    OnceAt(s, at, Entry(from, i));
  }

  lemma FollowsAt(s: State, p: int, c: int, k: int, j: int)
    requires Follows(s, p, c) && 16 * c <= k < 16 * c + 16 && 0 <= j < 1024
    ensures Target(s, Entry(k, j)) >= 0 ==> Target(s, Entry(k, j)) == Target(s, Entry(k - 16 * c + 16 * p, j))
  {
    hide Target;
  }

  lemma EntryOf(t: int, k: int, i: int)
    requires 0 <= t < NR_TASKS && 16 * t <= k < 16 * t + 16 && 0 <= i < 1024
    ensures IsEntry(Entry(k, i)) && Owner(Entry(k, i)) == t && (t > 0 ==> IsRef(Entry(k, i)))
  {
  }

  lemma OnceAt(s: State, r: Ref, q: Ref)
    requires Inv(s) && IsEntry(r) && IsEntry(q) && Owner(r) == Owner(q) && Target(s, q) >= LOW_FRAMES
    ensures Target(s, q) == Target(s, r) ==> q == r
  {
  }

  lemma ForkingShareable(s: State, p: int, c: int, from: int, i: int)
    requires Forking(s, p, c) && 16 * p <= from < 16 * p + 16 && 0 <= i < EntriesCopied(p)
    requires Target(s, Entry(from - 16 * p + 16 * c, i)) == -1
    ensures Shareable(s, Entry(from, i), c)
  {
    var r := Entry(from, i);
    var f := Target(s, r);
    if f >= LOW_FRAMES {
      if p == 0 { BootTarget(s, from, i); } else { assert IsRef(r); }
      forall q | IsRef(q) && Target(s, q) == f ensures q.Entry? && Owner(q) != c {
        assert q.Entry?;
        if 16 * c <= q.k < 16 * c + 16 { NotYetMapped(s, p, c, from, i, q.k, q.i); }
      }
    }
  }

  lemma BootTarget(s: State, k: int, i: int)
    requires Inv(s) && 0 <= k < 16 && 0 <= i < 0xa0 && Target(s, Entry(k, i)) >= LOW_FRAMES
    ensures 1 <= k < 4 && FIRST_FREE <= Target(s, Entry(k, i)) == 1024 * k + i < BOOT_TOP
  {
  }

  ghost predicate CopyingTable(s: State, p: int, c: int, from: int, to: int) {
    && Forking(s, p, c) && 16 * p <= from < 16 * p + 16 && to == from - 16 * p + 16 * c
    && Present(Dir(s, from)) && Present(Dir(s, to))
  }

  lemma ForkingBounds(s: State, p: int, c: int)
    requires Forking(s, p, c)
    ensures 0 <= p < NR_TASKS && 1 <= c < NR_TASKS && p != c
  {
    hide Inv, Follows, Booting;
  }

  lemma CopyingFacts(s: State, p: int, c: int, from: int, to: int)
    requires CopyingTable(s, p, c, from, to)
    ensures Inv(s) && Shape(s) && 0 <= p < NR_TASKS && 1 <= c < NR_TASKS && p != c
    ensures 0 <= from < 1024 && 16 <= to < 1024 && from != to && from / 16 == p && to / 16 == c
    ensures Present(Dir(s, from)) && Present(Dir(s, to)) && |s.mem| == FRAMES && IsRef(Table(to))
  {
    hide Follows, Booting, Dir, Present;
    OwnerOfSlot(p, from - 16 * p);
    OwnerOfSlot(c, to - 16 * c);
  }

  lemma EmptyEntry(s: State, k: int, i: int)
    requires 16 <= k < 1024 && 0 <= i < 1024 && Pte(s, k, i) == 0
    ensures IsRef(Entry(k, i)) && Target(s, Entry(k, i)) == -1
  {
    hide Dir, Pte;
  }

  lemma FollowsKept(s: State, t: State, p: int, c: int, from: int, to: int, i: int)
    requires Follows(s, p, c) && 0 <= p < NR_TASKS && 1 <= c < NR_TASKS && p != c
    requires 16 * p <= from < 16 * p + 16 && to == from - 16 * p + 16 * c && 0 <= i < 1024
    requires Target(t, Entry(to, i)) == Target(s, Entry(from, i))
    requires forall r :: (IsRef(r) || IsEntry(r)) && r != Entry(to, i) ==> Target(t, r) == Target(s, r)
    ensures Follows(t, p, c)
  {
    hide Target;
    forall k, j | 16 * c <= k < 16 * c + 16 && 0 <= j < 1024 && Target(t, Entry(k, j)) >= 0
      ensures Target(t, Entry(k, j)) == Target(t, Entry(k - 16 * c + 16 * p, j))
    {
      var mirror := Entry(k - 16 * c + 16 * p, j);
      assert IsEntry(mirror) && mirror != Entry(to, i);
      if Entry(k, j) != Entry(to, i) { assert Target(t, Entry(k, j)) == Target(s, Entry(k, j)); }
    }
  }

  lemma BootingKept(s: State, t: State, c: int, r0: Ref)
    requires Booting(s, c) && r0.Entry? && Owner(r0) == c && !CanWrite(t, r0)
    requires forall r :: (IsRef(r) || IsEntry(r)) && r != r0 ==> Target(t, r) == Target(s, r) && (CanWrite(t, r) ==> CanWrite(s, r))
    ensures Booting(t, c)
  {
    hide Target, CanWrite;
  }

  lemma CopyOne(s: State, p: int, c: int, from: int, to: int, i: int)
    requires CopyingTable(s, p, c, from, to) && 0 <= i < EntriesCopied(p) && Pte(s, to, i) == 0
    ensures var t := CopyEntry(s, from, to, i);
      && CopyingTable(t, p, c, from, to) && Shape(t) && SameButTable(s, t, to) && t.task == s.task
      && Target(t, Entry(to, i)) == Target(s, Entry(from, i))
      && (forall j :: 0 <= j < 1024 ==> Dir(t, j) == Dir(s, j))
      && (forall j :: 0 <= j < 1024 && j != i ==> Pte(t, to, j) == Pte(s, to, j))
      && (forall r :: (IsRef(r) || IsEntry(r)) && r != Entry(to, i) ==> Target(t, r) == Target(s, r))
      && (forall g :: 0 <= g < FRAMES && g != FrameOf(Dir(s, from)) && g != FrameOf(Dir(s, to)) ==> t.mem[g] == s.mem[g])
      && (forall g :: BOOT_TOP <= g < FRAMES && p == 0 ==> Count(t, g) == Count(s, g))
  {
    hide Inv, Shape, Booting, Follows, Target, Pte, CanWrite, Dir, Present, Shareable, Contents, CopyEntry;
    CopyingFacts(s, p, c, from, to);
    EmptyEntry(s, to, i);
    ForkingShareable(s, p, c, from, i);
    if p == 0 && Target(s, Entry(from, i)) >= LOW_FRAMES { BootTarget(s, from, i); }
    CopyEntryStep(s, from, to, i);
    var t := CopyEntry(s, from, to, i);
    InvShape(t);
    FollowsKept(s, t, p, c, from, to, i);
    if p == 0 { BootingKept(s, t, c, Entry(to, i)); }
  }

  lemma {:induction false} CopyEntriesSafe(s: State, p: int, c: int, from: int, to: int, n: nat)
    requires CopyingTable(s, p, c, from, to) && n <= EntriesCopied(p) && forall i :: 0 <= i < 1024 ==> Pte(s, to, i) == 0
    ensures var t := CopyEntries(s, from, to, n);
      && CopyingTable(t, p, c, from, to) && t.task == s.task
      && (forall i :: n <= i < 1024 ==> Pte(t, to, i) == 0)
      && (forall j :: 0 <= j < 1024 ==> Dir(t, j) == Dir(s, j))
      && (forall g :: BOOT_TOP <= g < FRAMES && p == 0 ==> Count(t, g) == Count(s, g))
      && Shape(t)
      && (forall g :: 0 <= g < FRAMES && g != FrameOf(Dir(s, from)) && g != FrameOf(Dir(s, to)) ==> t.mem[g] == s.mem[g])
  {
    hide CopyingTable, CopyEntry, SameButTable, Target, Inv, Dir, Pte, FrameOf, Count, Present;
    CopyingFacts(s, p, c, from, to);
    if n > 0 {
      CopyEntriesSafe(s, p, c, from, to, n - 1);
      var u := CopyEntries(s, from, to, n - 1);
      CopyOne(u, p, c, from, to, n - 1);
      assert CopyEntries(s, from, to, n) == CopyEntry(u, from, to, n - 1);
    }
  }

  lemma {:induction false} CopyEntriesApart(s: State, p: int, c: int, from: int, to: int, n: nat)
    requires CopyingTable(s, p, c, from, to) && n <= EntriesCopied(p) && forall i :: 0 <= i < 1024 ==> Pte(s, to, i) == 0
    ensures SameButTable(s, CopyEntries(s, from, to, n), to)
    ensures forall r :: IsEntry(r) && r.k != to ==> Target(CopyEntries(s, from, to, n), r) == Target(s, r)
  {
    hide CopyingTable, CopyEntry, Target;
    if n > 0 {
      CopyEntriesSafe(s, p, c, from, to, n - 1);
      CopyEntriesApart(s, p, c, from, to, n - 1);
      var u := CopyEntries(s, from, to, n - 1);
      CopyOne(u, p, c, from, to, n - 1);
    }
  }

  /** The first n entries of one table name the frames that those of the other name. */
  ghost predicate Mirrored(s: State, from: int, to: int, n: nat) {
    forall i :: 0 <= i < n ==> Target(s, Entry(to, i)) == Target(s, Entry(from, i))
  }

  lemma MirroredStep(s: State, t: State, from: int, to: int, n: nat)
    requires Mirrored(s, from, to, n) && 16 <= to < 1024 && 0 <= from < 1024 && from != to && n < 1024
    requires Target(t, Entry(to, n)) == Target(s, Entry(from, n))
    requires forall r :: (IsRef(r) || IsEntry(r)) && r != Entry(to, n) ==> Target(t, r) == Target(s, r)
    ensures Mirrored(t, from, to, n + 1)
  {
    hide Target;
    forall i | 0 <= i < n + 1 ensures Target(t, Entry(to, i)) == Target(t, Entry(from, i)) {
      assert IsEntry(Entry(to, i)) && IsEntry(Entry(from, i));
    }
  }

  lemma {:induction false} CopyEntriesMirrored(s: State, p: int, c: int, from: int, to: int, n: nat)
    requires CopyingTable(s, p, c, from, to) && n <= EntriesCopied(p) && forall i :: 0 <= i < 1024 ==> Pte(s, to, i) == 0
    ensures Mirrored(CopyEntries(s, from, to, n), from, to, n)
  {
    hide Inv, Forking, CopyingTable, CopyEntry, Target, SameButTable, Dir, Pte;
    CopyingFacts(s, p, c, from, to);
    if n > 0 {
      CopyEntriesSafe(s, p, c, from, to, n - 1);
      CopyEntriesMirrored(s, p, c, from, to, n - 1);
      var u := CopyEntries(s, from, to, n - 1);
      CopyOne(u, p, c, from, to, n - 1);
      MirroredStep(u, CopyEntry(u, from, to, n - 1), from, to, n - 1);
    }
  }

  lemma {:induction false} CopyEntriesNoPanic(s: State, from: int, to: int, n: nat)
    ensures CopyEntries(s, from, to, n).panicked == s.panicked
  {
    hide Present, FrameOf, ClearWrite;
    if n > 0 { CopyEntriesNoPanic(s, from, to, n - 1); }
  }

  /** Copying one table panics exactly when the child has one there already. */
  lemma CopyTablePanicsExactlyWhen(s: State, from: int, to: int, entries: nat)
    ensures CopyTable(s, from, to, entries).0.panicked <==> s.panicked || Present(Dir(s, to))
    ensures Present(Dir(s, to)) ==> CopyTable(s, from, to, entries) == (Panic(s), true)
  {
    hide CopyEntries, Present, HighestFree;
    var (t, ok) := AllocTable(s, to);
    CopyEntriesNoPanic(t, from, to, entries);
  }

  // One table, then a whole address space

  /** The frames above the pages that task 0 shares are free, but for the topmost n. */
  ghost predicate TopFree(s: State, n: nat) {
    forall f :: BOOT_TOP <= f < FRAMES - n ==> Count(s, f) == 0
  }

  /** Task 0 forks before anything else, so its child's tables come from the top of memory. */
  ghost predicate Room(s: State, p: int, n: nat) {
    p == 0 ==> TopFree(s, n)
  }

  ghost predicate KeepsLow(s: State, t: State) {
    |s.mem| == |t.mem| == FRAMES && forall g :: LOW_FRAMES <= g < BOOT_TOP ==> t.mem[g] == s.mem[g]
  }

  /** What a fork by task p leaves alone: the pages that task 0 shares, or its tables. */
  ghost predicate Keeps(s: State, t: State, p: int) {
    if p == 0 then KeepsLow(s, t) else MapKept(s, t)
  }

  lemma KeepsItself(s: State, p: int)
    requires |s.mem| == FRAMES
    ensures Keeps(s, s, p)
  {
  }

  lemma TopFreeTaken(s: State, n: nat)
    requires Shape(s) && TopFree(s, n) && n < 8
    ensures var (t, f) := GetFree(s); f >= FRAMES - n - 1 && TopFree(t, n + 1)
  {
    assert Count(s, FRAMES - n - 1) == 0;
    var j := HighestFree(s.memMap, |s.memMap|);
    assert j >= FRAMES - n - 1 - LOW_FRAMES;
    var t := PutFrame(SetCount(s, LOW_FRAMES + j, 1), LOW_FRAMES + j, ZeroFrame());
    assert forall f :: BOOT_TOP <= f < FRAMES - n - 1 ==> Count(t, f) == Count(s, f);
  }

  /** Only directory entry k, and the table it names, differ. */
  ghost predicate SameButDir(s: State, t: State, k: int) {
    && (forall r :: IsRef(r) && r != Table(k) && !(r.Entry? && r.k == k) ==> Target(t, r) == Target(s, r) && Contents(t, r) == Contents(s, r))
    && (forall r :: IsEntry(r) && r.k != k ==> Target(t, r) == Target(s, r))
    && (forall j :: 0 <= j < 1024 && j != k ==> Dir(t, j) == Dir(s, j))
  }

  /** The child's table names what the parent's table named, as far as it is copied. */
  ghost predicate Shared(s: State, t: State, p: int, c: int, to: int) {
    forall i :: 0 <= i < 1024 ==>
      Target(t, Entry(to, i)) == if i < EntriesCopied(p) then Target(s, Entry(to - 16 * c + 16 * p, i)) else -1
  }

  ghost predicate CopySlot(p: int, c: int, from: int, to: int) {
    16 * p <= from < 16 * p + 4 && to == from - 16 * p + 16 * c
  }

  lemma FollowsSame(s: State, t: State, p: int, c: int)
    requires Follows(s, p, c) && 0 <= p < NR_TASKS && 1 <= c < NR_TASKS
    requires forall r :: IsEntry(r) ==> Target(t, r) == Target(s, r)
    ensures Follows(t, p, c)
  {
    hide Target;
    forall k, i | 16 * c <= k < 16 * c + 16 && 0 <= i < 1024 && Target(t, Entry(k, i)) >= 0
      ensures Target(t, Entry(k, i)) == Target(t, Entry(k - 16 * c + 16 * p, i))
    {
      assert IsEntry(Entry(k, i)) && IsEntry(Entry(k - 16 * c + 16 * p, i));
      assert Target(t, Entry(k, i)) == Target(s, Entry(k, i));
    }
  }

  lemma AllocKeepsFollows(s: State, t: State, p: int, c: int, to: int, f: int)
    requires Forking(s, p, c) && TableAdded(s, t, to, f) && to / 16 == c && (p == 0 ==> f >= BOOT_TOP)
    ensures Follows(t, p, c) && (p == 0 ==> Booting(t, c)) && SameButDir(s, t, to)
    ensures Keeps(s, t, p)
  {
    TableAddedTargets(s, t, to, f);
    TableAddedWords(s, t, to, f);
    TableAddedMoved(s, t, to, f);
    FollowsSame(s, t, p, c);
    assert MapKept(s, t);
    hide Inv, TableAdded, Target, CanWrite, Dir, Pte, Contents, Moved, Fits, WritersKept, Follows;
  }

  lemma AllocKeepsRoom(s: State, p: int, to: int, n: nat)
    requires Shape(s) && Room(s, p, n) && n < 8 && HasFree(s)
    ensures Room(AllocTable(s, to).0, p, n + 1) && (p == 0 ==> GetFree(s).1 >= BOOT_TOP)
  {
    var (t, _) := AllocTable(s, to);
    var (u, f) := GetFree(s);
    if p == 0 {
      TopFreeTaken(s, n);
      assert forall g :: Count(t, g) == Count(u, g);
    }
  }

  lemma OwnerOfSlot(c: int, n: int)
    requires 0 <= n < 16
    ensures (16 * c + n) / 16 == c
  {
  }

  lemma ForkingContinues(s: State, t: State, p: int, c: int)
    requires Forking(s, p, c) && Inv(t) && t.task == s.task && Follows(t, p, c) && (p == 0 ==> Booting(t, c))
    ensures Forking(t, p, c)
  {
    assert Slot(t, c) == Slot(s, c);
    hide Inv, Follows, Booting, Slot;
  }

  lemma ForkingSlot(s: State, p: int, c: int, from: int, to: int)
    requires Forking(s, p, c) && CopySlot(p, c, from, to)
    ensures Inv(s) && Shape(s) && 16 <= to < 1024 && to % 16 < 4 && to / 16 == c && Slot(s, c) != 0
  {
    OwnerOfSlot(c, to - 16 * c);
    assert Inv(s);
    hide Follows, Booting;
  }

  lemma ForkingAlloc(s: State, p: int, c: int, from: int, to: int, n: nat)
    requires Forking(s, p, c) && CopySlot(p, c, from, to) && Dir(s, to) == 0 && Room(s, p, n) && n < 8 && HasFree(s)
    ensures var (t, ok) := AllocTable(s, to);
      && ok && Forking(t, p, c) && SameButDir(s, t, to) && t.task == s.task && Room(t, p, n + 1)
      && Present(Dir(t, to)) && (forall i :: 0 <= i < 1024 ==> Pte(t, to, i) == 0)
      && Keeps(s, t, p)
  {
    var (t, _) := AllocTable(s, to);
    var (_, f) := GetFree(s);
    hide Inv, Forking, Target, CanWrite, Follows, Booting, SameButDir, Undisturbed, Room, AllocTable, Keeps,
      Slot, Dir, Pte, HasFree, GetFree, CopySlot, TableAdded, Shape, Present, FrameOf;
    ForkingSlot(s, p, c, from, to);
    AllocTableStep(s, to);
    TableAddedWords(s, t, to, f);
    AllocKeepsRoom(s, p, to, n);
    AllocKeepsFollows(s, t, p, c, to, f);
    ForkingContinues(s, t, p, c);
  }

  lemma AllEntriesShared(u: State, t: State, p: int, c: int, from: int, to: int)
    requires to == from - 16 * p + 16 * c && 16 <= to < 1024 && 0 <= from < 1024 && from != to
    requires Mirrored(t, from, to, EntriesCopied(p)) && forall i :: EntriesCopied(p) <= i < 1024 ==> Pte(t, to, i) == 0
    requires forall r :: IsEntry(r) && r.k != to ==> Target(t, r) == Target(u, r)
    ensures Shared(u, t, p, c, to)
  {
    forall i | 0 <= i < 1024
      ensures Target(t, Entry(to, i)) == if i < EntriesCopied(p) then Target(u, Entry(from, i)) else -1
    {
      if i < EntriesCopied(p) { assert IsEntry(Entry(from, i)); }
    }
  }

  lemma TablePlaces(u: State, p: int, c: int, from: int, to: int)
    requires CopyingTable(u, p, c, from, to)
    ensures p == 0 ==> FrameOf(Dir(u, from)) < LOW_FRAMES && FrameOf(Dir(u, to)) >= BOOT_TOP
    ensures p > 0 ==> FrameOf(Dir(u, from)) >= FIRST_FREE && FrameOf(Dir(u, to)) >= FIRST_FREE
  {
    assert IsRef(Table(to)) && Target(u, Table(to)) == FrameOf(Dir(u, to));
    assert p > 0 ==> IsRef(Table(from)) && Target(u, Table(from)) == FrameOf(Dir(u, from));
  }

  lemma EntriesAll(u: State, p: int, c: int, from: int, to: int, n: nat)
    requires CopyingTable(u, p, c, from, to) && Room(u, p, n) && forall i :: 0 <= i < 1024 ==> Pte(u, to, i) == 0
    ensures var t := CopyEntries(u, from, to, EntriesCopied(p));
      && Forking(t, p, c) && SameButDir(u, t, to) && t.task == u.task && Shared(u, t, p, c, to) && Room(t, p, n)
      && Keeps(u, t, p)
  {
    hide Inv, Forking, Target, Contents, Pte, Dir, CopyEntries, Count, Mirrored, Shared, FrameOf, Present;
    var e := EntriesCopied(p);
    var t := CopyEntries(u, from, to, e);
    CopyingFacts(u, p, c, from, to);
    TablePlaces(u, p, c, from, to);
    CopyEntriesSafe(u, p, c, from, to, e);
    CopyEntriesApart(u, p, c, from, to, e);
    CopyEntriesMirrored(u, p, c, from, to, e);
    AllEntriesShared(u, t, p, c, from, to);
  }

  /** What copying one table does to state s, with n frames taken so far. */
  ghost predicate TableDone(s: State, t: State, ok: bool, p: int, c: int, from: int, to: int, n: nat) {
    && Forking(t, p, c) && SameButDir(s, t, to) && t.task == s.task
    && (ok ==> Shared(s, t, p, c, to)) && Room(t, p, n + 1)
    && (!ok ==> t == s && !HasFree(s))
    && Keeps(s, t, p)
  }

  lemma TableDoneAbsent(s: State, p: int, c: int, from: int, to: int, n: nat)
    requires Forking(s, p, c) && CopySlot(p, c, from, to) && Dir(s, to) == 0 && !Present(Dir(s, from)) && Room(s, p, n)
    ensures TableDone(s, s, true, p, c, from, to, n)
  {
    assert forall i :: Target(s, Entry(to, i)) == -1 && Target(s, Entry(from, i)) == -1;
    assert |s.mem| == FRAMES;
    KeepsItself(s, p);
    hide Forking, Target, Keeps;
  }

  lemma SameButDirTransitive(s: State, u: State, t: State, k: int)
    requires SameButDir(s, u, k) && SameButDir(u, t, k)
    ensures SameButDir(s, t, k)
  {
    hide Target, Contents, Dir;
  }

  lemma KeepsTransitive(s: State, u: State, t: State, p: int)
    requires Keeps(s, u, p) && Keeps(u, t, p)
    ensures Keeps(s, t, p)
  {
  }

  /** A change that leaves the parent's table alone does not matter to what the child gets. */
  lemma SharedFrom(s: State, u: State, t: State, p: int, c: int, to: int)
    requires Shared(u, t, p, c, to) && 0 <= to - 16 * c + 16 * p < 1024
    requires forall r :: IsEntry(r) && r.k == to - 16 * c + 16 * p ==> Target(u, r) == Target(s, r)
    ensures Shared(s, t, p, c, to)
  {
    hide Target;
    forall i | 0 <= i < 1024
      ensures Target(t, Entry(to, i)) == if i < EntriesCopied(p) then Target(s, Entry(to - 16 * c + 16 * p, i)) else -1
    {
      assert IsEntry(Entry(to - 16 * c + 16 * p, i));
    }
  }

  /** A change to other tables does not matter to what the child has got. */
  lemma SharedStays(s: State, u: State, t: State, p: int, c: int, to: int)
    requires Shared(s, u, p, c, to) && 0 <= to < 1024
    requires forall r :: IsEntry(r) && r.k == to ==> Target(t, r) == Target(u, r)
    ensures Shared(s, t, p, c, to)
  {
    hide Target;
    forall i | 0 <= i < 1024
      ensures Target(t, Entry(to, i)) == if i < EntriesCopied(p) then Target(s, Entry(to - 16 * c + 16 * p, i)) else -1
    {
      assert IsEntry(Entry(to, i));
    }
  }

  lemma TableDonePresent(s: State, p: int, c: int, from: int, to: int, n: nat)
    requires Forking(s, p, c) && CopySlot(p, c, from, to) && Dir(s, to) == 0 && Present(Dir(s, from))
    requires Room(s, p, n) && n < 8 && HasFree(s)
    ensures TableDone(s, CopyEntries(AllocTable(s, to).0, from, to, EntriesCopied(p)), true, p, c, from, to, n)
  {
    var (u, _) := AllocTable(s, to);
    var t := CopyEntries(u, from, to, EntriesCopied(p));
    assert 0 <= from < 1024 && from != to && from == to - 16 * c + 16 * p;
    assert Dir(s, from) == Dir(u, from) by { ForkingAlloc(s, p, c, from, to, n); }
    hide Forking, Target, Contents, Pte, AllocTable, CopyEntries, Room, Shared, Keeps;
    ForkingAlloc(s, p, c, from, to, n);
    EntriesAll(u, p, c, from, to, n + 1);
    SharedFrom(s, u, t, p, c, to);
    SameButDirTransitive(s, u, t, to);
    hide SameButDir;
    KeepsTransitive(s, u, t, p);
  }

  lemma TableDoneStopped(s: State, p: int, c: int, from: int, to: int, n: nat)
    requires Forking(s, p, c) && Room(s, p, n) && !HasFree(s)
    ensures TableDone(s, s, false, p, c, from, to, n)
  {
    assert |s.mem| == FRAMES;
    KeepsItself(s, p);
    hide Forking, Target, Contents, Dir, HasFree, Keeps;
  }

  lemma CopyTableAll(s: State, p: int, c: int, from: int, to: int, n: nat)
    requires Forking(s, p, c) && CopySlot(p, c, from, to) && Dir(s, to) == 0 && Room(s, p, n) && n < 8
    ensures var (t, ok) := CopyTable(s, from, to, EntriesCopied(p));
      TableDone(s, t, ok, p, c, from, to, n)
  {
    assert Slot(s, to / 16) != 0;
    AllocTableStep(s, to);
    if !Present(Dir(s, from)) {
      TableDoneAbsent(s, p, c, from, to, n);
    } else if HasFree(s) {
      TableDonePresent(s, p, c, from, to, n);
    } else {
      TableDoneStopped(s, p, c, from, to, n);
      hide Forking;
    }
  }

  /** What copying n tables does to state s. */
  ghost predicate TablesDone(s: State, t: State, ok: bool, p: int, c: int, n: nat) {
    && Forking(t, p, c) && Same(s, t, c) && t.task == s.task
    && Target(t, Pcb(c)) == Target(s, Pcb(c)) && Contents(t, Pcb(c)) == Contents(s, Pcb(c))
    && (forall r :: IsEntry(r) && Owner(r) != c ==> Target(t, r) == Target(s, r))
    && (forall j :: 0 <= j < 1024 && !(16 * c <= j < 16 * c + n) ==> Dir(t, j) == Dir(s, j))
    && (ok ==> forall j :: 16 * c <= j < 16 * c + n ==> Shared(s, t, p, c, j)) && Room(t, p, n + 1)
    && (!ok ==> !HasFree(t))
    && Keeps(s, t, p)
  }

  lemma SameThrough(s: State, u: State, t: State, c: int, k: int)
    requires Same(s, u, c) && SameButDir(u, t, k) && k / 16 == c && 1 <= c < NR_TASKS
    requires forall r :: IsEntry(r) && Owner(r) != c ==> Target(u, r) == Target(s, r)
    ensures Same(s, t, c)
    ensures forall r :: IsEntry(r) && Owner(r) != c ==> Target(t, r) == Target(s, r)
    ensures Target(t, Pcb(c)) == Target(u, Pcb(c)) && Contents(t, Pcb(c)) == Contents(u, Pcb(c))
  {
    assert IsRef(Pcb(c));
    hide Target, Contents, Dir;
  }

  lemma TablesDoneNone(s: State, p: int, c: int)
    requires Forking(s, p, c) && Room(s, p, 1)
    ensures TablesDone(s, s, true, p, c, 0)
  {
    assert |s.mem| == FRAMES;
    KeepsItself(s, p);
    hide Forking, Target, Contents, Dir, Room, Keeps;
  }

  lemma TablesDoneNext(s: State, u: State, t: State, ok: bool, p: int, c: int, n: nat)
    requires TablesDone(s, u, true, p, c, n) && n < 4
    requires TableDone(u, t, ok, p, c, 16 * p + n, 16 * c + n, n + 1)
    ensures TablesDone(s, t, ok, p, c, n + 1)
  {
    hide Forking, Target, Contents, Dir, Room, Shared, Keeps, Same, Owner;
    var to := 16 * c + n;
    OwnerOfSlot(c, n);
    OwnerOfSlot(p, n);
    ForkingBounds(u, p, c);
    SameThrough(s, u, t, c, to);
    TablesDoneShared(s, u, t, ok, p, c, n);
    KeepsTransitive(s, u, t, p);
  }

  lemma TablesDoneShared(s: State, u: State, t: State, ok: bool, p: int, c: int, n: nat)
    requires TablesDone(s, u, true, p, c, n) && n < 4 && 0 <= p < NR_TASKS && 1 <= c < NR_TASKS && p != c
    requires TableDone(u, t, ok, p, c, 16 * p + n, 16 * c + n, n + 1)
    ensures ok ==> forall j :: 16 * c <= j < 16 * c + n + 1 ==> Shared(s, t, p, c, j)
  {
    hide *;
    if ok {
      SharedNow(s, u, t, p, c, n);
      forall j | 16 * c <= j < 16 * c + n ensures Shared(s, t, p, c, j) { SharedBefore(s, u, t, p, c, n, j); }
    }
  }

  lemma SharedNow(s: State, u: State, t: State, p: int, c: int, n: nat)
    requires TablesDone(s, u, true, p, c, n) && n < 4 && 0 <= p < NR_TASKS && p != c
    requires TableDone(u, t, true, p, c, 16 * p + n, 16 * c + n, n + 1)
    ensures Shared(s, t, p, c, 16 * c + n)
  {
    hide Forking, Target, Contents, Dir, Room, Shared, Keeps, Same, SameButDir;
    OwnerOfSlot(p, n);
    SharedFrom(s, u, t, p, c, 16 * c + n);
  }

  lemma SharedBefore(s: State, u: State, t: State, p: int, c: int, n: nat, j: int)
    requires TablesDone(s, u, true, p, c, n) && n < 4 && 1 <= c < NR_TASKS && 16 * c <= j < 16 * c + n
    requires TableDone(u, t, true, p, c, 16 * p + n, 16 * c + n, n + 1)
    ensures Shared(s, t, p, c, j)
  {
    hide Forking, Target, Contents, Dir, Room, Shared, Keeps, Same, Owner;
    SharedStays(s, u, t, p, c, j);
  }

  lemma TablesDoneStopped(s: State, t: State, p: int, c: int, n: nat)
    requires TablesDone(s, t, false, p, c, n)
    ensures TablesDone(s, t, false, p, c, n + 1)
  {
    hide Forking, Target, Contents, Dir, Keeps, Same, Owner, Count;
  }

  lemma TablesDoneSoFar(s: State, u: State, p: int, c: int, n: nat)
    requires TablesDone(s, u, true, p, c, n) && n < 4 && Dir(s, 16 * c + n) == 0
    ensures Forking(u, p, c) && Room(u, p, n + 1) && Dir(u, 16 * c + n) == 0
  {
    assert 1 <= c < NR_TASKS;
    hide Target, Contents, Shared, Same, Keeps;
  }

  lemma {:induction false} CopyTablesAll(s: State, p: int, c: int, n: nat)
    requires Forking(s, p, c) && Room(s, p, 1) && n <= 4
    requires forall j :: 16 * c <= j < 16 * c + 4 ==> Dir(s, j) == 0
    ensures var (t, ok) := CopyTables(s, 16 * p, 16 * c, n, EntriesCopied(p));
      TablesDone(s, t, ok, p, c, n)
  {
    hide TablesDone, Forking, Room, CopyTable, TableDone;
    if n == 0 {
      TablesDoneNone(s, p, c);
    } else {
      CopyTablesAll(s, p, c, n - 1);
      var (u, ok) := CopyTables(s, 16 * p, 16 * c, n - 1, EntriesCopied(p));
      if ok {
        var (t, done) := CopyTable(u, 16 * p + n - 1, 16 * c + n - 1, EntriesCopied(p));
        assert Dir(s, 16 * c + n - 1) == 0;
        TablesDoneSoFar(s, u, p, c, n - 1);
        CopyTableAll(u, p, c, 16 * p + n - 1, 16 * c + n - 1, n);
        TablesDoneNext(s, u, t, done, p, c, n - 1);
      } else {
        TablesDoneStopped(s, u, p, c, n - 1);
      }
    }
  }
}
