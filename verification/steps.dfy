/** Each elementary change that the paging code makes keeps the invariant, and disturbs
    nothing that other places see. */
module Steps {
  import opened Words
  import opened Machine
  import opened Invariant

  /** Every place but r0 names the same frame as before, with the same contents. */
  ghost predicate Undisturbed(s: State, t: State, r0: Ref) {
    forall r :: IsRef(r) && r != r0 ==> Target(t, r) == Target(s, r) && Contents(t, r) == Contents(s, r)
  }

  /** What the frame named at r holds, for frames above 1 MB that are not page tables. */
  function Contents(s: State, r: Ref): Frame {
    if !r.Table? && LOW_FRAMES <= Target(s, r) < |s.mem| then s.mem[Target(s, r)] else []
  }

  /** The frame that r names in s holds the same in t. */
  ghost predicate SameContents(s: State, t: State, r: Ref) {
    !r.Table? && LOW_FRAMES <= Target(s, r) < |s.mem| ==>
      Target(s, r) < |t.mem| && t.mem[Target(s, r)] == s.mem[Target(s, r)]
  }

  lemma FreeFrameFacts(s: State)
    requires Inv(s)
    ensures var (t, f) := GetFree(s);
      && (f == 0 <==> !HasFree(s))
      && (f == 0 ==> t == s)
      && (f != 0 ==> FIRST_FREE <= f < FRAMES && Refs(s, f) == {} && Count(s, f) == 0
                     && t == PutFrame(SetCount(s, f, 1), f, ZeroFrame()))
  {
    var (t, f) := GetFree(s);
    var j := HighestFree(s.memMap, |s.memMap|);
    if j >= 0 {
      assert f == LOW_FRAMES + j && Count(s, f) == 0;
    }
  }

  /** A frame with no count is named nowhere. */
  lemma Unnamed(s: State, f: int, r: Ref)
    requires Inv(s) && LOW_FRAMES <= f < FRAMES && Refs(s, f) == {} && IsRef(r)
    ensures Target(s, r) != f
  {
    assert r !in Refs(s, f);
  }

  // A frame becomes the empty table of directory entry k

  ghost predicate TableAdded(s: State, t: State, k: int, f: int) {
    && FIRST_FREE <= f < FRAMES && Refs(s, f) == {}
    && t == Put(PutFrame(SetCount(s, f, 1), f, ZeroFrame()), 0, k, UserWord(f * PAGE_SIZE))
    && 16 <= k < 1024 && k % 16 < 4 && Slot(s, k / 16) != 0 && Dir(s, k) == 0
  }

  lemma TableAddedWords(s: State, t: State, k: int, f: int)
    requires Inv(s) && TableAdded(s, t, k, f)
    ensures forall j :: 0 <= j < 1024 && j != k ==> Dir(t, j) == Dir(s, j)
    ensures FrameOf(Dir(t, k)) == f && Dir(t, k) % 0x1000 == 7 && Present(Dir(t, k))
    ensures forall j, i :: 0 <= j < 1024 && j != k && Present(Dir(s, j)) ==> Pte(t, j, i) == Pte(s, j, i)
    ensures forall i :: 0 <= i < 1024 ==> Pte(t, k, i) == 0
    ensures forall g :: LOW_FRAMES <= g < FRAMES && g != f ==> t.mem[g] == s.mem[g]
  {
    forall j | 0 <= j < 1024 && Present(Dir(s, j)) ensures FrameOf(Dir(s, j)) != f {
      if j >= 16 { Unnamed(s, f, Table(j)); }
    }
    UserWordNames(f);
    assert |s.memMap| == PAGING_PAGES && |s.mem| == FRAMES && |s.mem[0]| == |s.mem[f]| == 1024;
    hide Inv, Present, FrameOf, UserWord, Refs;
  }

  lemma TableAddedStructured(s: State, t: State, k: int, f: int)
    requires Inv(s) && TableAdded(s, t, k, f)
    ensures Structured(t)
  {
    TableAddedWords(s, t, k, f);
    assert forall j :: Slot(t, j) == Slot(s, j);
    assert forall r :: IsEntry(r) && r.k < 16 ==> Target(t, r) == Target(s, r);
  }

  lemma TableAddedTargets(s: State, t: State, k: int, f: int)
    requires Inv(s) && TableAdded(s, t, k, f)
    ensures forall r :: (IsRef(r) || IsEntry(r)) && r != Table(k) ==> Target(t, r) == Target(s, r) && CanWrite(t, r) == CanWrite(s, r)
    ensures Target(s, Table(k)) == -1 && Target(t, Table(k)) == f
  {
    TableAddedWords(s, t, k, f);
    assert forall j :: Slot(t, j) == Slot(s, j);
    hide Inv, TableAdded, Refs;
  }

  lemma TableAddedMoved(s: State, t: State, k: int, f: int)
    requires Inv(s) && TableAdded(s, t, k, f)
    ensures Moved(s, t, Table(k)) && Fits(s, Table(k), f) && Target(t, Table(k)) == f && WritersKept(s, t, Table(k))
    ensures Undisturbed(s, t, Table(k))
  {
    TableAddedTargets(s, t, k, f);
    TableAddedWords(s, t, k, f);
    forall r | IsRef(r) ensures Target(s, r) != f { Unnamed(s, f, r); }
    assert forall g :: LOW_FRAMES <= g < FRAMES ==> Count(t, g) == Count(s, g) + if g == f then 1 else 0;
    assert |s.mem| == |t.mem| == FRAMES && FIRST_FREE <= f < FRAMES && IsRef(Table(k));
    hide Inv, TableAdded, Target, CanWrite, Count, Pte, Dir, Refs;
  }

  lemma AllocTableStep(s: State, k: int)
    requires Inv(s) && 16 <= k < 1024 && k % 16 < 4 && Slot(s, k / 16) != 0 && Dir(s, k) == 0
    ensures var (t, ok) := AllocTable(s, k);
      && Inv(t) && Undisturbed(s, t, Table(k)) && t.task == s.task && (ok <==> HasFree(s))
      && (ok ==> TableAdded(s, t, k, GetFree(s).1))
      && (!ok ==> t == s)
  {
    var (t, ok) := AllocTable(s, k);
    var (_, f) := GetFree(s);
    FreeFrameFacts(s);
    if ok {
      assert TableAdded(s, t, k, f);
      TableAddedWords(s, t, k, f);
      TableAddedStructured(s, t, k, f);
      TableAddedMoved(s, t, k, f);
      Retarget(s, t, Table(k));
    }
  }

  // A page table entry is rewritten

  /** No two directory entries name the same table, and none names the directory. */
  ghost predicate TablesApart(s: State) {
    && Shape(s)
    && (forall j :: 0 <= j < 1024 && Present(Dir(s, j)) ==> 1 <= FrameOf(Dir(s, j)) < FRAMES)
    && forall j, k :: 0 <= j < k < 1024 && Present(Dir(s, j)) && Present(Dir(s, k)) ==> FrameOf(Dir(s, j)) != FrameOf(Dir(s, k))
  }

  lemma InvTablesApart(s: State)
    requires Inv(s)
    ensures TablesApart(s)
  {
    forall j, k | 0 <= j < k < 1024 && Present(Dir(s, j)) && Present(Dir(s, k))
      ensures FrameOf(Dir(s, j)) != FrameOf(Dir(s, k))
    {
      if k >= 16 {
        assert Target(s, Table(k)) >= FIRST_FREE;
        if j >= 16 { assert Target(s, Table(j)) != Target(s, Table(k)); }
      }
    }
  }

  lemma SetPteWords(s: State, k: int, i: int, w: int)
    requires TablesApart(s) && 0 <= k < 1024 && Present(Dir(s, k)) && 0 <= i < 1024
    ensures var t := SetPte(s, k, i, w);
      && TablesApart(t)
      && (forall j :: 0 <= j < 1024 ==> Dir(t, j) == Dir(s, j))
      && Pte(t, k, i) == w
      && (forall j, l :: 0 <= j < 1024 && Present(Dir(s, j)) && (j != k || l != i) ==> Pte(t, j, l) == Pte(s, j, l))
      && (forall g :: 0 <= g < FRAMES && g != FrameOf(Dir(s, k)) ==> t.mem[g] == s.mem[g])
      && t.memMap == s.memMap && t.task == s.task && t.panicked == s.panicked
  {
    var t := SetPte(s, k, i, w);
    assert forall j :: 0 <= j < 1024 ==> Dir(t, j) == Dir(s, j);
  }

  /** A frame that an entry or a task slot names is not a table. */
  lemma NotATable(s: State, r: Ref, k: int)
    requires Inv(s) && IsRef(r) && !r.Table? && Target(s, r) >= LOW_FRAMES && 0 <= k < 1024 && Present(Dir(s, k))
    ensures FrameOf(Dir(s, k)) != Target(s, r)
  {
    if k >= 16 { assert Target(s, Table(k)) == FrameOf(Dir(s, k)); }
  }

  /** Entry (k, i) is rewritten, and entry (from, i) may lose its write bit. */
  ghost predicate PteChange(s: State, t: State, from: int, k: int, i: int) {
    && Shape(t) && t.task == s.task && t.panicked == s.panicked
    && 16 <= k < 1024 && 0 <= i < 1024 && Present(Dir(s, k)) && PteWord(Pte(t, k, i))
    && (forall j :: 0 <= j < 1024 ==> Dir(t, j) == Dir(s, j))
    && (forall j, l :: 0 <= j < 1024 && Present(Dir(s, j)) && (j != k || l != i) ==>
          Pte(t, j, l) == Pte(s, j, l) || (j == from && l == i && Pte(t, j, l) == ClearWrite(Pte(s, j, l))))
    && forall r :: IsRef(r) ==> SameContents(s, t, r)
  }

  lemma ClearWriteKeeps(w: int)
    requires PteWord(w)
    ensures var r := ClearWrite(w);
      PteWord(r) && !Writable(r) && Present(r) == Present(w) && FrameOf(r) == FrameOf(w)
  {
  }

  lemma PteChangeTargets(s: State, t: State, from: int, k: int, i: int)
    requires Inv(s) && PteChange(s, t, from, k, i)
    ensures Structured(t)
    ensures forall r :: (IsRef(r) || IsEntry(r)) && r != Entry(k, i) ==> Target(t, r) == Target(s, r) && (CanWrite(t, r) ==> CanWrite(s, r))
    ensures Undisturbed(s, t, Entry(k, i))
  {
    hide Present, FrameOf, Writable, ClearWrite, UserWord;
    assert forall j :: Slot(t, j) == Slot(s, j);
    forall r | (IsRef(r) || IsEntry(r)) && r != Entry(k, i)
      ensures Target(t, r) == Target(s, r) && (CanWrite(t, r) ==> CanWrite(s, r))
    {
      if r.Entry? && Present(Dir(s, r.k)) { ClearWriteKeeps(Pte(s, r.k, r.i)); }
    }
    forall j, l | 0 <= j < 1024 && 0 <= l < 1024 && Present(Dir(t, j)) ensures PteWord(Pte(t, j, l)) {
      ClearWriteKeeps(Pte(s, j, l));
    }
  }

  lemma SameMem(s: State, t: State)
    requires t.mem == s.mem
    ensures forall j :: Dir(t, j) == Dir(s, j)
    ensures forall j, i :: Pte(t, j, i) == Pte(s, j, i)
  {
  }

  lemma CountsApart(s: State, t: State, u: State, from: int, k: int, i: int)
    requires PteChange(s, t, from, k, i) && u == t.(memMap := u.memMap) && |u.memMap| == PAGING_PAGES
    ensures PteChange(s, u, from, k, i)
  {
    assert forall j, l :: Word(u, j, l) == Word(t, j, l);
  }

  lemma PteStep(s: State, t: State, from: int, k: int, i: int)
    requires Inv(s) && PteChange(s, t, from, k, i) && CountsFollow(s, t, Entry(k, i))
    requires Fits(s, Entry(k, i), Target(t, Entry(k, i))) && WritersKept(s, t, Entry(k, i))
    ensures Inv(t) && Undisturbed(s, t, Entry(k, i))
  {
    PteChangeTargets(s, t, from, k, i);
    Retarget(s, t, Entry(k, i));
  }

  // Entry i of one table is shared with another task

  /** A frame above 1 MB may be shared with task n: it is user data, n does not map it yet,
      and nothing but r may write it. */
  ghost predicate Shareable(s: State, r: Ref, n: int) {
    Target(s, r) >= LOW_FRAMES ==>
      && FIRST_FREE <= Target(s, r) < FRAMES
      && (forall q :: IsRef(q) && Target(s, q) == Target(s, r) ==> q.Entry? && Owner(q) != n)
      && (forall q :: IsRef(q) && CanWrite(s, q) && Target(s, q) == Target(s, r) ==> q == r)
  }

  ghost predicate CopyReady(s: State, from: int, to: int, i: int) {
    && 0 <= from < 1024 && 16 <= to < 1024 && from / 16 != to / 16 && 0 <= i < 1024
    && Present(Dir(s, from)) && Present(Dir(s, to)) && Pte(s, to, i) == 0
    && Shareable(s, Entry(from, i), to / 16)
  }

  lemma CopyEntryForm(s: State, from: int, to: int, i: int)
    requires Inv(s) && CopyReady(s, from, to, i) && Target(s, Entry(from, i)) >= 0
    ensures var f := Target(s, Entry(from, i)); var r := ClearWrite(Pte(s, from, i));
      && PteWord(r) && !Writable(r) && FrameOf(r) == f
      && (var t := SetPte(s, to, i, r);
          CopyEntry(s, from, to, i) ==
          if f >= LOW_FRAMES then SetCount(SetPte(t, from, i, r), f, Count(s, f) + 1) else t)
      && (f >= LOW_FRAMES ==> f < FRAMES && 0 <= Count(s, f) < 255)
  {
    var w := Pte(s, from, i);
    assert PteWord(w);
    ClearWriteKeeps(w);
    var f, r := FrameOf(w), ClearWrite(w);
    assert r > LOW_MEM <==> f >= LOW_FRAMES;
    if f >= LOW_FRAMES { CountsFit(s, f); }
    hide Inv;
  }

  lemma CopyEntryWords(s: State, from: int, to: int, i: int)
    requires Inv(s) && CopyReady(s, from, to, i) && Target(s, Entry(from, i)) >= 0
    ensures var t := CopyEntry(s, from, to, i); var f := Target(s, Entry(from, i));
      && PteChange(s, t, from, to, i)
      && Pte(t, to, i) == ClearWrite(Pte(s, from, i))
      && (f >= LOW_FRAMES ==> Pte(t, from, i) == Pte(t, to, i) && t.mem[f] == s.mem[f])
      && (forall g :: 0 <= g < FRAMES && g != FrameOf(Dir(s, from)) && g != FrameOf(Dir(s, to)) ==> t.mem[g] == s.mem[g])
      && forall g :: LOW_FRAMES <= g < FRAMES ==> Count(t, g) == Count(s, g) + if g == f then 1 else 0
  {
    hide Inv, PteChange, TablesApart, CopyReady, CopyEntry, ClearWrite, Target, Pte, Dir, SetPte;
    InvShape(s);
    InvTablesApart(s);
    CopyEntryForm(s, from, to, i);
    var r := ClearWrite(Pte(s, from, i));
    var f := FrameOf(r);
    CopySetsChild(s, from, to, i, r);
    if f >= LOW_FRAMES {
      var t := SetPte(s, to, i, r);
      var u := SetPte(t, from, i, r);
      CopySetsParent(s, t, from, to, i, r);
      SameMem(u, SetCount(u, f, Count(s, f) + 1));
      CountsApart(s, u, SetCount(u, f, Count(s, f) + 1), from, to, i);
    } else {
      PteChangeFrom(s, SetPte(s, to, i, r), from, to, i);
    }
  }

  lemma PteChangeFrom(s: State, t: State, from: int, k: int, i: int)
    requires PteChange(s, t, k, k, i)
    ensures PteChange(s, t, from, k, i)
  {
  }

  lemma CopySetsChild(s: State, from: int, to: int, i: int, r: int)
    requires Inv(s) && TablesApart(s) && CopyReady(s, from, to, i) && PteWord(r)
    ensures var t := SetPte(s, to, i, r); var f := Target(s, Entry(from, i));
      && PteChange(s, t, to, to, i) && TablesApart(t) && Pte(t, to, i) == r && t.memMap == s.memMap
      && (f >= LOW_FRAMES ==> t.mem[f] == s.mem[f])
      && forall g :: 0 <= g < FRAMES && g != FrameOf(Dir(s, to)) ==> t.mem[g] == s.mem[g]
  {
    SetPteWords(s, to, i, r);
    forall q | IsRef(q) && !q.Table? && Target(s, q) >= LOW_FRAMES ensures FrameOf(Dir(s, to)) != Target(s, q) {
      NotATable(s, q, to);
    }
    if Target(s, Entry(from, i)) >= LOW_FRAMES { SharedNotATable(s, from, to, i, to); }
  }

  lemma CopySetsParent(s: State, t: State, from: int, to: int, i: int, r: int)
    requires Inv(s) && CopyReady(s, from, to, i) && Target(s, Entry(from, i)) >= LOW_FRAMES
    requires PteChange(s, t, to, to, i) && TablesApart(t) && Pte(t, to, i) == r == ClearWrite(Pte(s, from, i))
    requires t.mem[Target(s, Entry(from, i))] == s.mem[Target(s, Entry(from, i))]
    ensures var u := SetPte(t, from, i, r);
      && PteChange(s, u, from, to, i) && Pte(u, to, i) == r == Pte(u, from, i) && u.memMap == t.memMap
      && u.mem[Target(s, Entry(from, i))] == s.mem[Target(s, Entry(from, i))]
      && forall g :: 0 <= g < FRAMES && g != FrameOf(Dir(s, from)) ==> u.mem[g] == t.mem[g]
  {
    SetPteWords(t, from, i, r);
    forall q | IsRef(q) && !q.Table? && Target(s, q) >= LOW_FRAMES ensures FrameOf(Dir(s, from)) != Target(s, q) {
      NotATable(s, q, from);
    }
    SharedNotATable(s, from, to, i, from);
  }

  lemma SharedNotATable(s: State, from: int, to: int, i: int, k: int)
    requires Inv(s) && CopyReady(s, from, to, i) && Target(s, Entry(from, i)) >= LOW_FRAMES
    requires 0 <= k < 1024 && Present(Dir(s, k))
    ensures FrameOf(Dir(s, k)) != Target(s, Entry(from, i))
  {
    if k >= 16 { assert Target(s, Table(k)) == FrameOf(Dir(s, k)); }
  }

  lemma CopyEntryStep(s: State, from: int, to: int, i: int)
    requires Inv(s) && CopyReady(s, from, to, i)
    ensures var t := CopyEntry(s, from, to, i); var f := Target(s, Entry(from, i));
      && Inv(t) && Undisturbed(s, t, Entry(to, i)) && t.task == s.task
      && Target(t, Entry(to, i)) == f && !CanWrite(t, Entry(to, i))
      && (LOW_FRAMES <= f < FRAMES ==> t.mem[f] == s.mem[f])
      && (forall g :: 0 <= g < FRAMES && g != FrameOf(Dir(s, from)) && g != FrameOf(Dir(s, to)) ==> t.mem[g] == s.mem[g])
      && (forall g :: LOW_FRAMES <= g < FRAMES && g != f ==> Count(t, g) == Count(s, g))
      && (forall j :: 0 <= j < 1024 ==> Dir(t, j) == Dir(s, j))
      && (forall j :: 0 <= j < 1024 && j != i ==> Pte(t, to, j) == Pte(s, to, j))
      && (forall r :: (IsRef(r) || IsEntry(r)) && r != Entry(to, i) ==> Target(t, r) == Target(s, r) && (CanWrite(t, r) ==> CanWrite(s, r)))
  {
    var t, f := CopyEntry(s, from, to, i), Target(s, Entry(from, i));
    if f >= 0 {
      CopyEntryWords(s, from, to, i);
      PteChangeTargets(s, t, from, to, i);
      ClearWriteKeeps(Pte(s, from, i));
      CopyKeepsWriters(s, from, to, i);
      PteStep(s, t, from, to, i);
    }
  }

  lemma CopyKeepsWriters(s: State, from: int, to: int, i: int)
    requires Inv(s) && CopyReady(s, from, to, i) && Target(s, Entry(from, i)) >= 0
    ensures WritersKept(s, CopyEntry(s, from, to, i), Entry(to, i))
  {
    var t, f := CopyEntry(s, from, to, i), Target(s, Entry(from, i));
    CopyEntryWords(s, from, to, i);
    PteChangeTargets(s, t, from, to, i);
    ClearWriteKeeps(Pte(s, from, i));
    assert !CanWrite(t, Entry(to, i));
    forall r | IsRef(r) && CanWrite(t, r) ensures CanWrite(s, r) && Target(s, r) != f {
      assert Target(s, r) == f ==> r == Entry(from, i);
    }
  }

  // An entry is freed, then its table

  /** free_page panics exactly on memory that is not there and on a frame that is already free; otherwise it takes one
      from the count of a managed frame, and changes nothing else. */
  lemma FreeFrameExactly(s: State, f: int)
    requires Shape(s) && !s.panicked && 0 <= f && 0 <= Count(s, f) < 256
    ensures var t := FreeFrame(s, f);
      && (t.panicked <==> f >= FRAMES || (f >= LOW_FRAMES && Count(s, f) == 0))
      && t == s.(memMap := t.memMap, panicked := t.panicked)
      && forall g :: LOW_FRAMES <= g < FRAMES ==> Count(t, g) == Count(s, g) - if g == f && Count(s, f) > 0 then 1 else 0
  {
  }

  lemma FreeFrameCounts(s: State, r: Ref)
    requires Inv(s) && IsRef(r) && Target(s, r) >= 0
    ensures var t := FreeFrame(s, Target(s, r));
      && t == s.(memMap := t.memMap) && |t.memMap| == PAGING_PAGES
      && forall g :: LOW_FRAMES <= g < FRAMES ==> Count(t, g) == Count(s, g) - if g == Target(s, r) then 1 else 0
  {
    var f := Target(s, r);
    if f >= LOW_FRAMES {
      assert r in Refs(s, f);
      CountsFit(s, f);
    }
  }

  lemma FreeEntryStep(s: State, k: int, i: int)
    requires Inv(s) && 16 <= k < 1024 && Present(Dir(s, k)) && 0 <= i < 1024
    ensures var t := FreeEntry(s, k, i);
      && Inv(t) && Undisturbed(s, t, Entry(k, i)) && t.task == s.task && Pte(t, k, i) == 0
      && (forall j :: 0 <= j < 1024 ==> Dir(t, j) == Dir(s, j))
      && forall j :: 0 <= j < 1024 && j != i ==> Pte(t, k, j) == Pte(s, k, j)
  {
    hide Inv, Target, CanWrite, Count, Contents, PteChange, FreeEntry, Dir, Pte, Present, Shape;
    if Pte(s, k, i) == 0 {
      assert FreeEntry(s, k, i) == s by { EmptyFreed(s, k, i); }
    } else {
      var t := FreeEntry(s, k, i);
      FreedWords(s, k, i);
      PteChangeTargets(s, t, k, k, i);
      ReleaseStep(s, t, Entry(k, i));
    }
  }

  lemma EmptyFreed(s: State, k: int, i: int)
    requires Pte(s, k, i) == 0
    ensures FreeEntry(s, k, i) == s
  {
    hide Pte;
  }

  /** The entry is gone, and the count of the frame that it named has gone down by one. */
  lemma FreedWords(s: State, k: int, i: int)
    requires Inv(s) && 16 <= k < 1024 && Present(Dir(s, k)) && 0 <= i < 1024 && Pte(s, k, i) != 0
    ensures var t := FreeEntry(s, k, i);
      && PteChange(s, t, k, k, i) && Pte(t, k, i) == 0 && Target(t, Entry(k, i)) == -1 && t.task == s.task
      && (forall j :: 0 <= j < 1024 ==> Dir(t, j) == Dir(s, j))
      && (forall j :: 0 <= j < 1024 && j != i ==> Pte(t, k, j) == Pte(s, k, j))
      && forall g :: LOW_FRAMES <= g < FRAMES ==> Count(t, g) == Count(s, g) - if g == Target(s, Entry(k, i)) then 1 else 0
  {
    hide Inv, Target, Count, Contents, Present, FrameOf, FreeEntry, FreeFrame, SetPte, Writable, Dir, Pte;
    var r := Entry(k, i);
    var u := FreeFrame(s, Target(s, r));
    FullEntry(s, k, i);
    FreeFrameCounts(s, r);
    InvTablesApart(s);
    SetPteWords(s, k, i, 0);
    PagesApart(s, k);
    SetPteCounts(s, u, k, i);
    SameMem(SetPte(s, k, i, 0), FreeEntry(s, k, i));
    CountsApart(s, SetPte(s, k, i, 0), FreeEntry(s, k, i), k, k, i);
    GoneEntry(FreeEntry(s, k, i), k, i);
  }

  lemma FullEntry(s: State, k: int, i: int)
    requires Inv(s) && 16 <= k < 1024 && Present(Dir(s, k)) && 0 <= i < 1024 && Pte(s, k, i) != 0
    ensures Target(s, Entry(k, i)) == FrameOf(Pte(s, k, i)) >= 0
    ensures FreeEntry(s, k, i) == SetPte(FreeFrame(s, FrameOf(Pte(s, k, i))), k, i, 0)
  {
    hide FreeFrame, Dir, Pte, SetPte;
    assert PteWord(Pte(s, k, i));
  }

  lemma GoneEntry(t: State, k: int, i: int)
    requires Pte(t, k, i) == 0
    ensures Target(t, Entry(k, i)) == -1
  {
    hide Dir, Pte;
  }

  lemma PagesApart(s: State, k: int)
    requires Inv(s) && 0 <= k < 1024 && Present(Dir(s, k))
    ensures forall q :: IsRef(q) && !q.Table? && Target(s, q) >= LOW_FRAMES ==> FrameOf(Dir(s, k)) != Target(s, q)
  {
    hide *;
    forall q | IsRef(q) && !q.Table? && Target(s, q) >= LOW_FRAMES ensures FrameOf(Dir(s, k)) != Target(s, q) {
      NotATable(s, q, k);
    }
  }

  lemma SetPteCounts(s: State, u: State, k: int, i: int)
    requires u == s.(memMap := u.memMap)
    ensures SetPte(u, k, i, 0) == SetPte(s, k, i, 0).(memMap := u.memMap)
    ensures forall g :: Count(SetPte(u, k, i, 0), g) == Count(u, g)
  {
    hide FrameOf;
  }

  lemma DropTableWords(s: State, k: int)
    requires Inv(s) && 16 <= k < 1024 && Present(Dir(s, k)) && forall i :: 0 <= i < 1024 ==> Pte(s, k, i) == 0
    ensures var t := DropTable(s, k);
      && Structured(t) && Dir(t, k) == 0 && t.task == s.task
      && (forall j :: 0 <= j < 1024 && j != k ==> Dir(t, j) == Dir(s, j))
      && (forall g :: 1 <= g < FRAMES ==> t.mem[g] == s.mem[g])
      && (forall j, i :: 0 <= j < 1024 && j != k && Present(Dir(s, j)) ==> Pte(t, j, i) == Pte(s, j, i))
      && forall g :: LOW_FRAMES <= g < FRAMES ==> Count(t, g) == Count(s, g) - if g == FrameOf(Dir(s, k)) then 1 else 0
  {
    DropTableForm(s, k);
    var t := DropTable(s, k);
    FreeFrameCounts(s, Table(k));
    hide Present, FrameOf, Writable, UserWord, DropTable, Target, Refs;
    TableFrame(s, k);
    InvTablesApart(s);
    ZeroAbsent();
    assert forall j :: 0 <= j < 1024 && j != k ==> Dir(t, j) == Dir(s, j);
    assert forall j, i :: 0 <= j < 1024 && j != k && Present(Dir(s, j)) ==> Pte(t, j, i) == Pte(s, j, i);
    assert forall j :: Slot(t, j) == Slot(s, j);
    DropTableTargets(s, t, k);
  }

  lemma TableFrame(s: State, k: int)
    requires Present(Dir(s, k))
    ensures Target(s, Table(k)) == FrameOf(Dir(s, k))
  {
  }

  lemma DropTableForm(s: State, k: int)
    requires Inv(s) && 16 <= k < 1024 && Present(Dir(s, k))
    ensures DropTable(s, k) == Put(FreeFrame(s, FrameOf(Dir(s, k))), 0, k, 0)
    ensures FreeFrame(s, FrameOf(Dir(s, k))).mem == s.mem && FreeFrame(s, FrameOf(Dir(s, k))).task == s.task
  {
  }

  lemma DropTableTargets(s: State, t: State, k: int)
    requires Dir(t, k) == 0 && 16 <= k < 1024 && t.task == s.task
    requires forall j :: 0 <= j < 1024 && j != k ==> Dir(t, j) == Dir(s, j)
    requires forall j, i :: 0 <= j < 1024 && j != k && Present(Dir(s, j)) ==> Pte(t, j, i) == Pte(s, j, i)
    requires forall i :: 0 <= i < 1024 ==> Pte(s, k, i) == 0
    ensures Target(t, Table(k)) == -1
    ensures forall r :: (IsRef(r) || IsEntry(r)) && r != Table(k) ==> Target(t, r) == Target(s, r) && (CanWrite(t, r) ==> CanWrite(s, r))
  {
    assert forall j :: Slot(t, j) == Slot(s, j);
    ZeroAbsent();
    hide Present, FrameOf, Writable, Pte, Dir, Slot;
  }

  lemma ZeroAbsent()
    ensures !Present(0)
  {
  }

  /** A place that named a frame names none any more. */
  lemma ReleaseStep(s: State, t: State, r0: Ref)
    requires Inv(s) && Structured(t) && IsRef(r0) && Target(t, r0) == -1
    requires forall r :: (IsRef(r) || IsEntry(r)) && r != r0 ==> Target(t, r) == Target(s, r) && (CanWrite(t, r) ==> CanWrite(s, r))
    requires forall g :: LOW_FRAMES <= g < FRAMES ==> Count(t, g) == Count(s, g) - if g == Target(s, r0) then 1 else 0
    ensures Inv(t)
  {
    assert !CanWrite(t, r0);
    assert forall r :: IsRef(r) ==> Target(s, r) >= -1 by { TargetsFrom(s); }
    hide Inv, Target, CanWrite, Count, Structured;
    assert forall r :: IsRef(r) && CanWrite(t, r) ==> r != r0 && CanWrite(s, r);
    WritersNamed(s);
    assert WritersKept(s, t, r0);
    Retarget(s, t, r0);
  }

  lemma TargetsFrom(s: State)
    requires Inv(s)
    ensures forall r :: IsRef(r) ==> Target(s, r) >= -1
  {
  }

  lemma WritersNamed(s: State)
    requires Inv(s)
    ensures forall r :: IsRef(r) && CanWrite(s, r) ==> Target(s, r) >= 0
  {
  }

  lemma DropTableStep(s: State, k: int)
    requires Inv(s) && 16 <= k < 1024 && Present(Dir(s, k)) && forall i :: 0 <= i < 1024 ==> Pte(s, k, i) == 0
    ensures var t := DropTable(s, k);
      && Inv(t) && Undisturbed(s, t, Table(k)) && t.task == s.task && Dir(t, k) == 0
      && forall j :: 0 <= j < 1024 && j != k ==> Dir(t, j) == Dir(s, j)
  {
    hide Inv, Structured, CanWrite, Present, FrameOf, Writable, Pte, Dir, DropTable, Count;
    var t := DropTable(s, k);
    DropTableWords(s, k);
    DropTableTargets(s, t, k);
    assert Target(s, Table(k)) == FrameOf(Dir(s, k));
    ReleaseStep(s, t, Table(k));
    InvShape(s);
    InvShape(t);
  }

  lemma InvShape(s: State)
    requires Inv(s)
    ensures Shape(s)
  {
  }

  // A frame becomes, or stops being, the control block of task n

  ghost predicate PcbAdded(s: State, t: State, n: int, f: int, words: Frame) {
    && FIRST_FREE <= f < FRAMES && Refs(s, f) == {} && |words| == 1024
    && 1 <= n < NR_TASKS && Slot(s, n) == 0
    && t == SetSlot(PutFrame(SetCount(s, f, 1), f, words), n, f * PAGE_SIZE)
  }

  lemma PcbAddedWords(s: State, t: State, n: int, f: int, words: Frame)
    requires Inv(s) && PcbAdded(s, t, n, f, words)
    ensures Structured(t) && Target(t, Pcb(n)) == f
    ensures forall j :: 0 <= j < 1024 ==> Dir(t, j) == Dir(s, j)
    ensures forall j :: j != n ==> Slot(t, j) == Slot(s, j)
    ensures forall j, i :: 0 <= j < 1024 && Present(Dir(s, j)) ==> Pte(t, j, i) == Pte(s, j, i)
  {
    hide Present, Refs, Writable, UserWord;
    DirsApart(s, f);
    assert forall j :: 0 <= j < 1024 ==> Dir(t, j) == Dir(s, j);
    assert forall j, i :: 0 <= j < 1024 && Present(Dir(s, j)) ==> Pte(t, j, i) == Pte(s, j, i);
    PcbPlaced(s, t, n, f, words);
    hide Dir, Pte, FrameOf, Slot;
    assert forall r :: IsEntry(r) && r.k < 16 ==> Target(t, r) == Target(s, r);
  }

  lemma DirsApart(s: State, f: int)
    requires Inv(s) && FIRST_FREE <= f < FRAMES && Refs(s, f) == {}
    ensures forall j :: 0 <= j < 1024 && Present(Dir(s, j)) ==> FrameOf(Dir(s, j)) != f
  {
    forall j | 0 <= j < 1024 && Present(Dir(s, j)) ensures FrameOf(Dir(s, j)) != f {
      if j >= 16 { Unnamed(s, f, Table(j)); }
    }
  }

  lemma PcbPlaced(s: State, t: State, n: int, f: int, words: Frame)
    requires Inv(s) && PcbAdded(s, t, n, f, words)
    ensures Shape(t) && t.panicked == s.panicked && Slot(t, n) == f * PAGE_SIZE && Target(t, Pcb(n)) == f
    ensures forall j :: j != n ==> Slot(t, j) == Slot(s, j)
  {
    InvShape(s);
    hide Inv, Refs;
  }

  lemma PcbAddedTargets(s: State, t: State, n: int, f: int, words: Frame)
    requires Inv(s) && PcbAdded(s, t, n, f, words)
    ensures forall r :: (IsRef(r) || IsEntry(r)) && r != Pcb(n) ==> Target(t, r) == Target(s, r) && CanWrite(t, r) == CanWrite(s, r)
    ensures Target(s, Pcb(n)) == -1
  {
    PcbAddedWords(s, t, n, f, words);
    hide Inv, PcbAdded, Refs;
  }

  lemma PcbAddedStep(s: State, t: State, n: int, f: int, words: Frame)
    requires Inv(s) && PcbAdded(s, t, n, f, words)
    ensures Inv(t) && Undisturbed(s, t, Pcb(n))
  {
    PcbAddedWords(s, t, n, f, words);
    PcbAddedTargets(s, t, n, f, words);
    forall r | IsRef(r) ensures Target(s, r) != f { Unnamed(s, f, r); }
    assert forall g :: LOW_FRAMES <= g < FRAMES ==> Count(t, g) == Count(s, g) + if g == f then 1 else 0;
    assert forall g :: 0 <= g < FRAMES && g != f ==> t.mem[g] == s.mem[g];
    assert |s.mem| == |t.mem| == FRAMES && FIRST_FREE <= f < FRAMES && IsRef(Pcb(n));
    hide Inv, PcbAdded, Target, CanWrite, Count, Pte, Dir, Refs, Structured;
    Retarget(s, t, Pcb(n));
  }

  function DropPcb(s: State, n: int): State {
    FreeFrame(SetSlot(s, n, 0), FrameOf(Slot(s, n)))
  }

  lemma DropPcbWords(s: State, n: int)
    requires Inv(s) && 1 <= n < NR_TASKS && Slot(s, n) != 0
    ensures var t := DropPcb(s, n);
      && t.task == s.task[n := 0] && t.mem == s.mem && t.panicked == s.panicked && |t.memMap| == |s.memMap|
      && forall g :: LOW_FRAMES <= g < FRAMES ==> Count(t, g) == Count(s, g) - if g == Target(s, Pcb(n)) then 1 else 0
  {
    FreeFrameCounts(s, Pcb(n));
    assert DropPcb(s, n).memMap == FreeFrame(s, FrameOf(Slot(s, n))).memMap;
  }

  lemma DropPcbTargets(s: State, t: State, n: int)
    requires t.mem == s.mem && 0 <= n < |s.task| && t.task == s.task[n := 0]
    ensures Target(t, Pcb(n)) == -1
    ensures forall r :: r != Pcb(n) ==> Target(t, r) == Target(s, r) && CanWrite(t, r) == CanWrite(s, r)
  {
    assert forall j :: j != n ==> Slot(t, j) == Slot(s, j);
    hide Present, FrameOf, Writable;
    SameMem(s, t);
  }

  lemma DropPcbStructured(s: State, t: State, n: int)
    requires Inv(s) && 1 <= n < NR_TASKS && t.mem == s.mem && t.task == s.task[n := 0]
    requires t.panicked == s.panicked && |t.memMap| == |s.memMap|
    requires forall k :: 16 <= k < 1024 && k / 16 == n ==> Dir(s, k) == 0
    ensures Structured(t)
  {
    DropPcbTargets(s, t, n);
    SameMem(s, t);
    assert forall j :: j != n ==> Slot(t, j) == Slot(s, j);
    hide Present, FrameOf, Writable, UserWord, Target, CanWrite, Pte, Dir, PteWord, DirWord;
  }

  lemma DropPcbStep(s: State, n: int)
    requires Inv(s) && 1 <= n < NR_TASKS && Slot(s, n) != 0
    requires forall k :: 16 <= k < 1024 && k / 16 == n ==> Dir(s, k) == 0
    ensures var t := DropPcb(s, n);
      && Inv(t) && Undisturbed(s, t, Pcb(n)) && t.task == s.task[n := 0] && t.mem == s.mem
  {
    InvShape(s);
    hide Inv, Structured, Target, CanWrite, Present, FrameOf, Writable, Pte, Dir, DropPcb, Count;
    var t := DropPcb(s, n);
    DropPcbWords(s, n);
    DropPcbTargets(s, t, n);
    DropPcbStructured(s, t, n);
    ReleaseStep(s, t, Pcb(n));
  }

  // A write fault: the entry gets a frame of its own

  /** The entry is the only place that names its frame, so write access may simply be granted. */
  ghost predicate Alone(s: State, k: int, i: int) {
    Target(s, Entry(k, i)) >= LOW_FRAMES && Count(s, Target(s, Entry(k, i))) == 1
  }

  lemma AloneMeansSole(s: State, k: int, i: int)
    requires Inv(s) && IsRef(Entry(k, i)) && Alone(s, k, i)
    ensures FIRST_FREE <= Target(s, Entry(k, i)) < FRAMES
    ensures forall q :: IsRef(q) && Target(s, q) == Target(s, Entry(k, i)) ==> q == Entry(k, i)
  {
    var f, r := Target(s, Entry(k, i)), Entry(k, i);
    NamedCount(s, f, r);
    hide Inv, Target, Refs, Count;
    forall q | IsRef(q) && Target(s, q) == f ensures q == r {
      NamedIn(s, f, q);
      NamedIn(s, f, r);
      OneElement(Refs(s, f), r, q);
    }
  }

  lemma OneElement(rs: set<Ref>, r: Ref, q: Ref)
    requires |rs| == 1 && r in rs && q in rs
    ensures r == q
  {
    assert |rs - {r}| == 0;
    assert q !in rs - {r};
  }

  lemma NamedIn(s: State, f: int, r: Ref)
    requires IsRef(r) && Target(s, r) == f
    ensures r in Refs(s, f)
  {
  }

  lemma NamedCount(s: State, f: int, r: Ref)
    requires Inv(s) && LOW_FRAMES <= f && IsRef(r) && Target(s, r) == f
    ensures FIRST_FREE <= f < FRAMES && Count(s, f) == |Refs(s, f)| >= 1
  {
    hide Target, Refs, Structured;
    NamedIn(s, f, r);
    assert Refs(s, f) != {};
  }

  lemma GrantForm(s: State, k: int, i: int)
    requires Inv(s) && IsRef(Entry(k, i)) && Alone(s, k, i)
    ensures UnWp(s, FrameOf(Dir(s, k)), i) == SetPte(s, k, i, SetWrite(Pte(s, k, i)))
    ensures Present(Dir(s, k)) && PteWord(SetWrite(Pte(s, k, i)))
  {
    hide SetWrite, GetFree, PutFrame, Refs, Counted, Exclusive, OncePerTask, SoleWriter, Identity, Slots, Placed;
    AlonePresent(s, k, i);
    SetWriteKeeps(Pte(s, k, i));
  }

  lemma AlonePresent(s: State, k: int, i: int)
    requires Inv(s) && IsRef(Entry(k, i)) && Alone(s, k, i)
    ensures PteWord(Pte(s, k, i)) && Present(Pte(s, k, i)) && Present(Dir(s, k)) && FrameOf(Pte(s, k, i)) == Target(s, Entry(k, i))
    ensures Pte(s, k, i) == Word(s, FrameOf(Dir(s, k)), i)
  {
    hide FrameOf, Present;
  }

  lemma GrantWords(s: State, k: int, i: int)
    requires Inv(s) && IsRef(Entry(k, i)) && Alone(s, k, i)
    ensures var t := UnWp(s, FrameOf(Dir(s, k)), i);
      && PteChange(s, t, k, k, i) && Pte(t, k, i) == SetWrite(Pte(s, k, i)) && t.memMap == s.memMap
  {
    GrantForm(s, k, i);
    InvTablesApart(s);
    SetPteWords(s, k, i, SetWrite(Pte(s, k, i)));
    forall q | IsRef(q) && !q.Table? && Target(s, q) >= LOW_FRAMES ensures FrameOf(Dir(s, k)) != Target(s, q) {
      NotATable(s, q, k);
    }
    assert |s.mem| == FRAMES;
    hide Inv, Alone, UnWp, SetPte, SetWrite, Pte, Dir, Target;
  }

  lemma GrantStep(s: State, k: int, i: int)
    requires Inv(s) && IsRef(Entry(k, i)) && Alone(s, k, i)
    ensures var t := UnWp(s, FrameOf(Dir(s, k)), i); var r := Entry(k, i);
      && Inv(t) && Undisturbed(s, t, r) && t.task == s.task && CanWrite(t, r)
      && Target(t, r) == Target(s, r) && Contents(t, r) == Contents(s, r)
  {
    hide Inv, Target, CanWrite, PteChange, Alone, Contents, Present, FrameOf, UnWp, Refs, Count, SetWrite, Pte, Dir;
    var r, t := Entry(k, i), UnWp(s, FrameOf(Dir(s, k)), i);
    GrantWords(s, k, i);
    AloneMeansSole(s, k, i);
    Granted(s, t, k, i);
    PteChangeTargets(s, t, k, k, i);
    SameCounts(s, t, r);
    PteStep(s, t, k, k, i);
  }

  /** The entry itself names the same frame, and may be written through. */
  lemma Granted(s: State, t: State, k: int, i: int)
    requires Inv(s) && IsRef(Entry(k, i)) && Target(s, Entry(k, i)) >= LOW_FRAMES
    requires PteChange(s, t, k, k, i) && Pte(t, k, i) == SetWrite(Pte(s, k, i))
    ensures var r := Entry(k, i); Target(t, r) == Target(s, r) && CanWrite(t, r) && Contents(t, r) == Contents(s, r)
    ensures t.task == s.task
  {
    hide Dir, Pte, UserWord, ClearWrite, Slots, Counted, Exclusive, OncePerTask, SoleWriter;
    var w, r := Pte(s, k, i), Entry(k, i);
    assert PteWord(w) && Present(w);
    SetWriteKeeps(w);
    assert SameContents(s, t, r);
  }

  lemma SetWriteKeeps(w: int)
    requires PteWord(w) && Present(w)
    ensures var r := SetWrite(w); PteWord(r) && Writable(r) && Present(r) && FrameOf(r) == FrameOf(w)
  {
    hide Writable, Present, FrameOf;
    var h := w / 0x1000;
    FlagBits(h, 1);
    FlagBits(h, 3);
    ZeroAbsent();
    assert w == 0x1000 * h + w % 0x1000;
    assert w == 0x1000 * h + 4 + 1 || w == 0x1000 * h + 4 + 3;
    assert SetWrite(w) == 0x1000 * h + 4 + 3;
  }

  /** The flags of a user entry for frame h. */
  lemma FlagBits(h: int, y: int)
    requires y == 1 || y == 3
    ensures var w := 0x1000 * h + 4 + y;
      Present(w) && (Writable(w) <==> y == 3) && FrameOf(w) == h && w / 0x1000 == h && w % 0x1000 == 4 + y
  {
    hide FrameOf;
    var w, m := 0x1000 * h + 4 + y, 0x400 * h + 1;
    Half(2 * m + (if y == 3 then 1 else 0), 1);
    Half(m, if y == 3 then 1 else 0);
    assert w == 2 * (2 * m + (if y == 3 then 1 else 0)) + 1;
    PageFrame(h, 4 + y);
  }

  lemma Half(q: int, r: int)
    requires 0 <= r < 2
    ensures (2 * q + r) / 2 == q && (2 * q + r) % 2 == r
  {
  }

  lemma PageFrame(h: int, x: int)
    requires 0 <= x < 0x1000
    ensures FrameOf(0x1000 * h + x) == h && (0x1000 * h + x) / 0x1000 == h && (0x1000 * h + x) % 0x1000 == x
  {
  }

  lemma SameCounts(s: State, t: State, r: Ref)
    requires t.memMap == s.memMap && Target(t, r) == Target(s, r)
    ensures CountsFollow(s, t, r)
  {
    hide Target;
  }

  /** What un_wp_page leaves when it found frame f for the copy. */
  ghost predicate Split(s: State, t: State, k: int, i: int, f: int) {
    && IsRef(Entry(k, i)) && Target(s, Entry(k, i)) >= 0 && !Alone(s, k, i)
    && FIRST_FREE <= f < FRAMES && Refs(s, f) == {}
    && GetFree(s) == (PutFrame(SetCount(s, f, 1), f, ZeroFrame()), f)
    && t == UnWp(s, FrameOf(Dir(s, k)), i)
  }

  /** Frame f counted and holding a copy, the old frame released; the entry still to be written. */
  ghost function Copied(s: State, was: int, f: int): State
    requires 0 <= was < |s.mem|
  {
    var u := SetCount(s, f, 1);
    PutFrame(if was >= LOW_FRAMES then SetCount(u, was, Count(u, was) - 1) else u, f, s.mem[was])
  }

  lemma SplitForm(s: State, t: State, k: int, i: int, f: int)
    requires Inv(s) && Split(s, t, k, i, f)
    ensures t == SetPte(Copied(s, Target(s, Entry(k, i)), f), k, i, UserWord(f * PAGE_SIZE))
  {
    var was := Target(s, Entry(k, i));
    Unnamed(s, f, Entry(k, i));
    var u := PutFrame(SetCount(s, f, 1), f, ZeroFrame());
    assert u.mem[was] == s.mem[was];
    assert u.mem[f := s.mem[was]] == s.mem[f := s.mem[was]];
    assert FrameOf(Dir(s, k)) != 0;
  }

  lemma CopiedCounts(s: State, k: int, i: int, f: int)
    requires Inv(s) && IsRef(Entry(k, i)) && Target(s, Entry(k, i)) >= 0
    requires FIRST_FREE <= f < FRAMES && Refs(s, f) == {}
    ensures |Copied(s, Target(s, Entry(k, i)), f).memMap| == PAGING_PAGES
    ensures var x := Copied(s, Target(s, Entry(k, i)), f);
      forall g :: LOW_FRAMES <= g < FRAMES ==>
        Count(x, g) == Count(s, g) - (if g == Target(s, Entry(k, i)) then 1 else 0) + (if g == f then 1 else 0)
  {
    hide Target, Refs, Inv;
    var was := Target(s, Entry(k, i));
    InvShape(s);
    Unnamed(s, f, Entry(k, i));
    FreeCount(s, f);
    if was >= LOW_FRAMES {
      NamedCount(s, was, Entry(k, i));
      CountsFit(s, was);
    }
  }

  lemma FreeCount(s: State, f: int)
    requires Inv(s) && FIRST_FREE <= f < FRAMES && Refs(s, f) == {}
    ensures Count(s, f) == 0
  {
    hide Refs;
  }

  lemma SplitWords(s: State, t: State, k: int, i: int, f: int)
    requires Inv(s) && Split(s, t, k, i, f)
    ensures PteChange(s, t, k, k, i) && Pte(t, k, i) == UserWord(f * PAGE_SIZE)
    ensures t.mem[f] == s.mem[Target(s, Entry(k, i))]
    ensures t.memMap == Copied(s, Target(s, Entry(k, i)), f).memMap
  {
    hide Inv, Target, Count, Contents, Present, FrameOf, Writable, UserWord, ClearWrite, SetWrite, UnWp, Split, Copied, SetPte, Refs, Dir, Pte;
    SplitPlaces(s, t, k, i, f);
    var x := Copied(s, Target(s, Entry(k, i)), f);
    SplitForm(s, t, k, i, f);
    SplitTables(s, x, f);
    SetPteWords(x, k, i, UserWord(f * PAGE_SIZE));
    PagesApart(s, k);
    UserWordPte(f);
  }

  lemma SplitPlaces(s: State, t: State, k: int, i: int, f: int)
    requires Inv(s) && Split(s, t, k, i, f)
    ensures FIRST_FREE <= f < FRAMES && Refs(s, f) == {} && IsRef(Entry(k, i)) && Present(Dir(s, k)) && FrameOf(Dir(s, k)) != f
    ensures 0 <= Target(s, Entry(k, i)) < FRAMES && |s.mem| == FRAMES
    ensures forall q :: IsRef(q) ==> Target(s, q) != f
    ensures var x := Copied(s, Target(s, Entry(k, i)), f);
      && Shape(x) && x.task == s.task && x.panicked == s.panicked && x.mem[f] == s.mem[Target(s, Entry(k, i))]
      && forall g :: 0 <= g < FRAMES && g != f ==> x.mem[g] == s.mem[g]
  {
    hide Target, UnWp, Refs, GetFree;
    SplitNamed(s, k, i);
    forall q | IsRef(q) ensures Target(s, q) != f { Unnamed(s, f, q); }
    TableFrame(s, k);
    assert IsRef(Table(k));
  }

  lemma SplitNamed(s: State, k: int, i: int)
    requires Inv(s) && IsRef(Entry(k, i)) && Target(s, Entry(k, i)) >= 0
    ensures Present(Dir(s, k)) && Target(s, Entry(k, i)) < FRAMES && Shape(s)
  {
    hide Dir, Pte;
  }

  lemma UserWordPte(f: int)
    requires 0 <= f < FRAMES
    ensures PteWord(UserWord(f * PAGE_SIZE))
  {
    UserWordNames(f);
  }

  lemma SplitTables(s: State, x: State, f: int)
    requires Inv(s) && FIRST_FREE <= f < FRAMES && Refs(s, f) == {} && Shape(x)
    requires forall g :: 0 <= g < FRAMES && g != f ==> x.mem[g] == s.mem[g]
    ensures TablesApart(x) && forall j :: 0 <= j < 1024 ==> Dir(x, j) == Dir(s, j)
    ensures forall j, i :: 0 <= j < 1024 && Present(Dir(s, j)) ==> Pte(x, j, i) == Pte(s, j, i)
  {
    InvTablesApart(s);
    assert forall j :: 0 <= j < 1024 ==> Dir(x, j) == Dir(s, j);
    forall j | 0 <= j < 1024 && Present(Dir(s, j)) ensures FrameOf(Dir(s, j)) != f {
      if j >= 16 { Unnamed(s, f, Table(j)); }
    }
  }

  lemma SplitStep(s: State, t: State, k: int, i: int, f: int)
    requires Inv(s) && Split(s, t, k, i, f)
    ensures Inv(t) && Undisturbed(s, t, Entry(k, i)) && t.task == s.task
    ensures CanWrite(t, Entry(k, i)) && Target(t, Entry(k, i)) == f && t.mem[f] == s.mem[Target(s, Entry(k, i))]
  {
    SplitWords(s, t, k, i, f);
    CopiedCounts(s, k, i, f);
    SplitTargets(s, t, k, i, f);
    PteStep(s, t, k, k, i);
  }

  lemma EntryNames(t: State, k: int, i: int, f: int)
    requires Present(Dir(t, k)) && Pte(t, k, i) == UserWord(f * PAGE_SIZE) && f >= 0
    ensures Target(t, Entry(k, i)) == f && CanWrite(t, Entry(k, i))
  {
    hide Present, FrameOf, Writable, UserWord, Dir, Pte;
    UserWordNames(f);
  }

  lemma SplitTargets(s: State, t: State, k: int, i: int, f: int)
    requires Inv(s) && Split(s, t, k, i, f) && PteChange(s, t, k, k, i) && Pte(t, k, i) == UserWord(f * PAGE_SIZE)
    ensures Target(t, Entry(k, i)) == f && CanWrite(t, Entry(k, i))
    ensures Fits(s, Entry(k, i), f) && WritersKept(s, t, Entry(k, i))
  {
    EntryNames(t, k, i, f);
    PteChangeTargets(s, t, k, k, i);
    hide Inv, PteChange, Target, CanWrite, UserWord, Pte, Dir, Alone, GetFree, UnWp;
    forall q | IsRef(q) ensures Target(s, q) != f { Unnamed(s, f, q); }
    NewFrameFits(s, t, Entry(k, i), f);
  }

  lemma NewFrameFits(s: State, t: State, r0: Ref, f: int)
    requires FIRST_FREE <= f < FRAMES && Target(t, r0) == f && forall q :: IsRef(q) ==> Target(s, q) != f
    requires forall r :: IsRef(r) && r != r0 ==> CanWrite(t, r) ==> CanWrite(s, r)
    ensures Fits(s, r0, f) && WritersKept(s, t, r0)
  {
    hide Target, CanWrite;
  }

  // A word of a page that the entry lets its task write

  /** A word of a frame that is not a table changes: everything names what it named. */
  lemma PutTargets(s: State, f: int, o: int, w: int)
    requires Inv(s) && 5 <= f < FRAMES && 0 <= o < 1024
    requires forall j :: 0 <= j < 1024 && Present(Dir(s, j)) ==> FrameOf(Dir(s, j)) != f
    ensures var t := Put(s, f, o, w);
      && Structured(t) && t == s.(mem := s.mem[f := s.mem[f][o := w]])
      && (forall j :: 0 <= j < 1024 ==> Dir(t, j) == Dir(s, j))
      && forall q :: IsRef(q) || IsEntry(q) ==> Target(t, q) == Target(s, q) && CanWrite(t, q) == CanWrite(s, q)
  {
    hide Present, FrameOf, Writable, UserWord, ClearWrite, SetWrite;
    var t := Put(s, f, o, w);
    assert forall j :: 0 <= j < 1024 ==> Dir(t, j) == Dir(s, j);
    assert forall j, l :: 0 <= j < 1024 && Present(Dir(s, j)) ==> Pte(t, j, l) == Pte(s, j, l);
    assert forall j :: Slot(t, j) == Slot(s, j);
  }

  /** The invariant is about what is named where, and who may write. */
  lemma SameNames(s: State, t: State)
    requires Inv(s) && Structured(t) && t.memMap == s.memMap
    requires forall q :: IsRef(q) || IsEntry(q) ==> Target(t, q) == Target(s, q) && CanWrite(t, q) == CanWrite(s, q)
    ensures Inv(t)
  {
    hide Target, CanWrite, Structured;
    forall f | LOW_FRAMES <= f < FRAMES ensures Count(t, f) == |Refs(t, f)| + Base(f) {
      assert Refs(t, f) == Refs(s, f);
      assert Count(t, f) == Count(s, f);
    }
  }

  lemma StoreStep(s: State, k: int, i: int, o: int, w: int)
    requires Inv(s) && IsRef(Entry(k, i)) && CanWrite(s, Entry(k, i)) && 0 <= o < 1024
    ensures var t := Put(s, Target(s, Entry(k, i)), o, w); var f := Target(s, Entry(k, i));
      && Inv(t) && Undisturbed(s, t, Entry(k, i)) && t.task == s.task
      && CanWrite(t, Entry(k, i)) && Target(t, Entry(k, i)) == f && t.mem[f] == s.mem[f][o := w]
  {
    var f, r := Target(s, Entry(k, i)), Entry(k, i);
    var t := Put(s, f, o, w);
    forall j | 0 <= j < 1024 && Present(Dir(s, j)) ensures FrameOf(Dir(s, j)) != f { NotATable(s, r, j); }
    assert FIRST_FREE <= f < FRAMES && |s.mem| == FRAMES && |s.mem[f]| == 1024;
    assert forall q :: IsRef(q) && q != r ==> Target(s, q) != f;
    hide Inv, Target, CanWrite, Structured;
    PutTargets(s, f, o, w);
    SameNames(s, t);
  }
}
