/** The paging and fork code as it stands: loops that write mem_map, page tables and task slots in
    place. Every method is proved to compute the function of the same name on the memory value. */
module KernelCode {
  import opened Words
  import opened Machine
  import opened Segments
  import opened Invariant
  import opened Steps
  import opened Copying
  import opened Fork
  import opened Refinement
  import opened Boot

  class Kernel {
    const memMap: array<int>
    const mem: array<Frame>
    const task: array<int>
    const initTask: seq<int>
    var lastPid: int
    var panicked: bool
    var highMemory: int

    ghost predicate Valid()
      reads this, memMap, mem, task
    {
      Shaped() && highMemory == HIGH_MEMORY
    }

    ghost predicate Shaped()
      reads this, memMap, mem, task
    {
      && memMap.Length == PAGING_PAGES && mem.Length == FRAMES && task.Length == NR_TASKS && memMap != task
      && forall f :: 0 <= f < FRAMES ==> |mem[f]| == 1024
    }

    ghost function Value(): State
      reads this, memMap, mem, task
    {
      State(memMap[..], mem[..], task[..], initTask, lastPid, panicked)
    }

    // Start-up: setup_paging in kernel/head.S, mem_init, and the part of sched_init that empties task[]

    /** Memory holds anything; initTask is the static control block of task 0. */
    constructor (memory: array<Frame>, initTask: seq<int>)
      requires memory.Length == FRAMES && forall f :: 0 <= f < FRAMES ==> |memory[f]| == 1024
      requires |initTask| == TASK_STRUCT
      requires initTask[CODE..CODE + 2] == [INIT_LIMIT, INIT_CODE] && initTask[DATA..DATA + 2] == [INIT_LIMIT, INIT_DATA]
      modifies memory
      ensures Valid() && Booted(Value()) && mem == memory
      ensures forall f :: 5 <= f < FRAMES ==> mem[f] == old(memory[f])
    {
      mem := memory;
      memMap := new int[PAGING_PAGES];
      task := new int[NR_TASKS];
      this.initTask := initTask;
      lastPid := 0;
      panicked := false;
      highMemory := 0;
      new;
      SetupPaging();
      MemInit(0x40_0000, HIGH_MEMORY);
      var i := 0;
      while i < NR_TASKS
        invariant 0 <= i <= NR_TASKS && forall t :: 0 <= t < i ==> task[t] == 0
        modifies task
      {
        task[i] := 0;
        i := i + 1;
      }
    }

    method SetupPaging()
      requires Shaped()
      modifies mem
      ensures Shaped() && forall f :: 5 <= f < FRAMES ==> mem[f] == old(mem[f])
      ensures forall k :: 0 <= k < 1024 ==> mem[0][k] == if k < 4 then IdentityEntry(k + 1) else 0
      ensures forall f, i :: 1 <= f <= 4 && 0 <= i < 1024 ==> mem[f][i] == IdentityEntry(1024 * (f - 1) + i)
    {
      var f := 0;
      while f < 5
        invariant 0 <= f <= 5 && Shaped() && forall g :: 0 <= g < f ==> mem[g] == ZeroFrame()
        invariant forall g :: 5 <= g < FRAMES ==> mem[g] == old(mem[g])
      {
        mem[f] := ZeroFrame();
        f := f + 1;
      }
      mem[0] := mem[0][0 := 0x1007][1 := 0x2007][2 := 0x3007][3 := 0x4007];
      IdentityMap();
    }

    /** The descending loop over the four page tables. */
    method IdentityMap()
      requires Shaped()
      modifies mem
      ensures Shaped() && mem[0] == old(mem[0]) && forall f :: 5 <= f < FRAMES ==> mem[f] == old(mem[f])
      ensures forall f, i :: 1 <= f <= 4 && 0 <= i < 1024 ==> mem[f][i] == IdentityEntry(1024 * (f - 1) + i)
    {
      ghost var dir := mem[0];
      hide IdentityEntry;
      LastIdentityEntry();
      var entry, at := 0xfff007, FRAMES - 1;
      while entry >= 0
        invariant -1 <= at < FRAMES && entry == IdentityEntry(at) && Shaped() && mem[0] == dir
        invariant forall g, i :: 1 <= g <= 4 && 0 <= i < 1024 && 1024 * (g - 1) + i > at ==> mem[g][i] == IdentityEntry(1024 * (g - 1) + i)
        invariant forall g :: 5 <= g < FRAMES ==> mem[g] == old(mem[g])
        decreases at
      {
        NextIdentityEntry(at);
        var g, i := at / 1024 + 1, at % 1024;
        mem[g] := mem[g][i := entry];
        entry, at := entry - 0x1000, at - 1;
      }
    }

    method MemInit(start: int, end: int)
      requires Shaped() && LOW_MEM <= start <= end <= HIGH_MEMORY && start % PAGE_SIZE == 0 && end % PAGE_SIZE == 0
      modifies memMap, this`highMemory
      ensures Shaped() && highMemory == end
      ensures forall j :: 0 <= j < PAGING_PAGES ==> memMap[j] == if start <= LOW_MEM + j * PAGE_SIZE < end then 0 else USED
    {
      highMemory := end;
      var i := 0;
      while i < PAGING_PAGES
        invariant 0 <= i <= PAGING_PAGES && Shaped() && forall j :: 0 <= j < i ==> memMap[j] == USED
        modifies memMap
      {
        memMap[i] := USED;
        i := i + 1;
      }
      var first := (start - LOW_MEM) / PAGE_SIZE;
      i := first;
      var left := (end - start) / PAGE_SIZE;
      assert first * PAGE_SIZE == start - LOW_MEM && (first + left) * PAGE_SIZE == end - LOW_MEM;
      while left > 0
        invariant 0 <= left && 0 <= first <= i && (i + left) * PAGE_SIZE == end - LOW_MEM && Shaped()
        invariant forall j :: 0 <= j < PAGING_PAGES ==> memMap[j] == if first <= j < i then 0 else USED
        modifies memMap
      {
        memMap[i] := 0;
        i := i + 1;
        left := left - 1;
      }
    }

    // mm/memory.c, mm/swap.c

    method FreePage(addr: int)
      requires Valid() && addr >= 0
      modifies memMap, this`panicked
      ensures Valid() && Value() == FreeFrame(old(Value()), FrameOf(addr))
      ensures panicked <==> old(panicked) || addr >= HIGH_MEMORY || (addr >= LOW_MEM && old(memMap[(addr - LOW_MEM) / PAGE_SIZE]) == 0)
    {
      if addr < LOW_MEM {
        return;
      }
      if addr >= highMemory {
        panicked := true;
        return;
      }
      var n := (addr - LOW_MEM) / PAGE_SIZE;
      assert n == FrameOf(addr) - LOW_FRAMES;
      var was := memMap[n];
      memMap[n] := (was - 1) % 256;
      if was != 0 {
        return;
      }
      memMap[n] := 0;
      assert memMap[..] == old(memMap[..]);
      panicked := true;
    }

    /** The scan goes down from the end of mem_map. The page found lies below HIGH_MEMORY, so the
        retry for pages above it is never taken. */
    method GetFreePage() returns (page: int)
      requires Valid()
      modifies memMap, mem
      ensures Valid() && (Value(), FrameOf(page)) == GetFree(old(Value()))
      ensures page == PAGE_SIZE * FrameOf(page) && 0 <= page < HIGH_MEMORY
    {
      var left := PAGING_PAGES;
      var found := false;
      while left != 0 && !found
        invariant 0 <= left <= PAGING_PAGES
        invariant found ==> left < PAGING_PAGES && memMap[left] == 0
        invariant found ==> HighestFree(memMap[..], PAGING_PAGES) == left
        invariant !found ==> HighestFree(memMap[..], PAGING_PAGES) == HighestFree(memMap[..], left)
        decreases left, !found
      {
        left := left - 1;
        found := memMap[left] == 0;
      }
      if !found {
        return 0;
      }
      memMap[left] := 1;
      var f := LOW_FRAMES + left;
      page := left * PAGE_SIZE + LOW_MEM;
      var i := 1024;
      while i > 0
        invariant 0 <= i <= 1024 && |mem[f]| == 1024
        invariant forall j :: i <= j < 1024 ==> mem[f][j] == 0
        invariant forall g :: 0 <= g < FRAMES && g != f ==> mem[g] == old(mem[g])
        modifies mem
      {
        i := i - 1;
        mem[f] := mem[f][i := 0];
      }
      assert mem[f] == ZeroFrame();
      assert mem[..] == old(mem[..])[f := ZeroFrame()];
      assert memMap[..] == old(memMap[..])[left := 1];
    }
 
    /** *(dir entry or table entry) = w */
    method Poke(f: int, i: int, w: int)
      requires Valid() && 0 <= f < FRAMES && 0 <= i < 1024
      modifies mem
      ensures Valid() && Value() == Put(old(Value()), f, i, w)
    {
      mem[f] := mem[f][i := w];
      assert mem[..] == old(mem[..])[f := old(mem[f])[i := w]];
    }

    /** The body of the walk over one table. */
    method FreeOneEntry(table: int, nr: int, ghost dir: int)
      requires Valid() && 0 <= nr < 1024 && 1 <= table < FRAMES && FrameOf(Dir(Value(), dir)) == table
      requires PteWord(Pte(Value(), dir, nr))
      modifies memMap, mem, this`panicked
      ensures Valid() && Value() == FreeEntry(old(Value()), dir, nr)
    {
      var e := mem[table][nr];
      if e != 0 {
        if Present(e) {
          FreePage(PageMask(e));
        }
        Poke(table, nr, 0);
      }
    }

    /** The walk over one table, which then goes itself. */
    method FreeOneTable(dir: int)
      requires Valid() && Inv(Value()) && 16 <= dir < 1024 && Present(Dir(Value(), dir))
      modifies memMap, mem, this`panicked
      ensures Valid() && Value() == FreeTable(old(Value()), dir)
    {
      ghost var s := Value();
      var w := mem[0][dir];
      assert w == Dir(s, dir);
      hide Inv, Present, FrameOf, ShortMask, PageMask, FreeEntry, FreeFrame, SameButTable;
      TableAt(s, dir);
      var table := ShortMask(w) / PAGE_SIZE;
      var nr := 0;
      while nr < 1024
        invariant 0 <= nr <= 1024 && Valid() && Value() == FreeEntries(s, dir, nr)
      {
        FreeEntriesAll(s, dir, nr);
        TableAt(Value(), dir);
        FreeOneEntry(table, nr, dir);
        nr := nr + 1;
      }
      FreeEntriesAll(s, dir, 1024);
      FreePage(PageMask(w));
      Poke(0, dir, 0);
    }

    /** The loop over the directory entries. */
    method FreeTableRange(first: int, size: nat)
      requires Valid() && Inv(Value()) && 16 <= first && first + size <= 1024
      modifies memMap, mem, this`panicked
      ensures Valid() && Value() == FreeTables(old(Value()), first, size)
    {
      hide Inv, Present, FreeTable, Same, FrameOf;
      ghost var s := Value();
      var left, dir := size, first;
      while left > 0
        invariant Valid() && 0 <= left <= size && dir == first + size - left
        invariant Value() == FreeTables(s, first, size - left)
      {
        FreeRangeInv(s, first, size - left);
        FreeTableHere(s, first, size - left);
        left := left - 1;
        if Present(mem[0][dir]) {
          FreeOneTable(dir);
        }
        dir := dir + 1;
      }
    }

    method FreePageTables(from: int, size: int)
      requires Valid() && Inv(Value()) && IsWord(from)
      requires from % 0x40_0000 == 0 && from != 0 ==> from >= TASK_SIZE && from / 0x40_0000 + Tables(size) <= 1024
      modifies memMap, mem, this`panicked
      ensures Valid() && Value() == Fork.FreePageTables(old(Value()), from, size)
      ensures from % 0x40_0000 != 0 || from == 0 ==> Value() == old(Value()).(panicked := true)
    {
      if from % 0x40_0000 != 0 || from == 0 {
        panicked := true;
        return;
      }
      TableIndex(from);
      hide Inv, FreeTables;
      FreeTableRange(DirOffset(from) / 4, Tables(size));
    }

    /** The body of the loop over one table's entries. */
    method CopyOneEntry(fromTable: int, toTable: int, nr: int, ghost from: int, ghost to: int)
      requires Valid() && 0 <= nr < 1024 && 1 <= fromTable < FRAMES && 1 <= toTable < FRAMES
      requires FrameOf(Dir(Value(), from)) == fromTable && FrameOf(Dir(Value(), to)) == toTable
      requires PteWord(Pte(Value(), from, nr))
      modifies memMap, mem
      ensures Valid() && Value() == CopyEntry(old(Value()), from, to, nr)
    {
      var page := mem[fromTable][nr];
      if page == 0 {
        return;
      }
      if !Present(page) {
        return;
      }
      hide Present, ClearWrite, Writable;
      ClearWriteKeeps(page);
      page := ClearWrite(page);
      Poke(toTable, nr, page);
      if page > LOW_MEM {
        Poke(fromTable, nr, page);
        page := page - LOW_MEM;
        page := page / PAGE_SIZE;
        memMap[page] := (memMap[page] + 1) % 256;
      }
    }

    /** The loop over one table's entries. */
    method CopyAllEntries(fromTable: int, toTable: int, entries: nat, ghost from: int, ghost to: int, ghost p: int, ghost c: int)
      requires Valid() && CopyingTable(Value(), p, c, from, to) && entries == EntriesCopied(p)
      requires fromTable == FrameOf(Dir(Value(), from)) && toTable == FrameOf(Dir(Value(), to))
      requires forall i :: 0 <= i < 1024 ==> Pte(Value(), to, i) == 0
      modifies memMap, mem
      ensures Valid() && Value() == CopyEntries(old(Value()), from, to, entries)
    {
      hide CopyingTable, CopyEntry, FrameOf, Pte;
      ghost var s := Value();
      assert entries <= 1024;
      var nr := 0;
      while nr < entries
        invariant 0 <= nr <= entries && Valid() && Value() == CopyEntries(s, from, to, nr)
      {
        CopyEntriesSafe(s, p, c, from, to, nr);
        CopyingTableAt(s, p, c, from, to);
        CopyingTableAt(Value(), p, c, from, to);
        CopyOneEntry(fromTable, toTable, nr, from, to);
        nr := nr + 1;
      }
    }

    /** The body of the loop over directory entries: one table. */
    method CopyOneTable(from: int, to: int, entries: nat, ghost p: int, ghost c: int, ghost n: nat) returns (ok: bool)
      requires Valid() && Forking(Value(), p, c) && CopySlot(p, c, from, to) && Room(Value(), p, n) && n < 8
      requires entries == EntriesCopied(p) && 0 <= from < 1024 && 16 <= to < 1024
      modifies memMap, mem, this`panicked
      ensures Valid() && (Value(), ok) == CopyTable(old(Value()), from, to, entries)
    {
      ghost var s := Value();
      if Present(mem[0][to]) {
        panicked := true;
        return true;
      }
      if !Present(mem[0][from]) {
        return true;
      }
      assert Inv(s);
      TableAt(s, from);
      var fromTable := ShortMask(mem[0][from]) / PAGE_SIZE;
      var page := GetFreePage();
      if page == 0 {
        return false;
      }
      Poke(0, to, UserWord(page));
      assert (Value(), true) == AllocTable(s, to);
      AllocReady(s, p, c, from, to, n);
      hide *;
      CopyAllEntries(fromTable, page / PAGE_SIZE, entries, from, to, p, c);
      return true;
    }

    /** The loop over directory entries. */
    method CopyTableRange(from: int, to: int, size: nat, entries: nat, ghost p: int, ghost c: int) returns (ok: bool)
      requires Valid() && Forking(Value(), p, c) && Room(Value(), p, 1) && from == 16 * p && to == 16 * c && size <= 4
      requires entries == EntriesCopied(p) && forall j :: 16 * c <= j < 16 * c + 4 ==> Dir(Value(), j) == 0
      modifies memMap, mem, this`panicked
      ensures Valid() && (Value(), ok) == CopyTables(old(Value()), from, to, size, entries)
    {
      hide Forking, Room, CopyTable, TablesDone, EntriesCopied, Dir;
      ghost var s := Value();
      var left, fromDir, toDir := size, from, to;
      while left > 0
        invariant Valid() && 0 <= left <= size && fromDir == from + size - left && toDir == to + size - left
        invariant (Value(), true) == CopyTables(s, from, to, size - left, entries)
      {
        ghost var n := size - left;
        CopyTablesAll(s, p, c, n);
        NextTable(s, Value(), p, c, n);
        left := left - 1;
        var done := CopyOneTable(fromDir, toDir, entries, p, c, n + 1);
        if !done {
          CopyStops(s, Value(), from, to, n, size, entries);
          return false;
        }
        fromDir, toDir := fromDir + 1, toDir + 1;
      }
      return true;
    }

    /** copy_page_tables; ok is false where the code returns -1. */
    method CopyPageTables(from: int, to: int, size: int, ghost p: int, ghost c: int) returns (ok: bool)
      requires Valid() && (from % 0x40_0000 == 0 && to % 0x40_0000 == 0 ==> CopyStart(Value(), from, to, size, p, c))
      modifies memMap, mem, this`panicked
      ensures Valid() && (Value(), ok) == Fork.CopyPageTables(old(Value()), from, to, size)
      ensures from % 0x40_0000 != 0 || to % 0x40_0000 != 0 ==> Value() == old(Value()).(panicked := true)
    {
      if from % 0x40_0000 != 0 || to % 0x40_0000 != 0 {
        panicked := true;
        return true;
      }
      TaskBase(p);
      TaskBase(c);
      var entries := if from == 0 then 0xa0 else 1024;
      assert entries == EntriesCopied(p);
      hide Forking, Room, CopyTables;
      ok := CopyTableRange(DirOffset(from) / 4, DirOffset(to) / 4, Tables(size), entries, p, c);
    }

    /** copy_page: 1024 words, one after the other. */
    method CopyPage(from: int, to: int)
      requires Valid() && 0 <= from < FRAMES && 0 <= to < FRAMES
      modifies mem
      ensures Valid() && Value() == PutFrame(old(Value()), to, old(mem[from]))
    {
      var k := 0;
      while k < 1024
        invariant 0 <= k <= 1024 && |mem[to]| == 1024 && (from != to ==> mem[from] == old(mem[from]))
        invariant forall j :: 0 <= j < k ==> mem[to][j] == old(mem[from])[j]
        invariant from == to ==> mem[to] == old(mem[from])
        invariant forall g :: 0 <= g < FRAMES && g != to ==> mem[g] == old(mem[g])
        modifies mem
      {
        mem[to] := mem[to][k := mem[from][k]];
        k := k + 1;
      }
      assert mem[to] == old(mem[from]);
      assert mem[..] == old(mem[..])[to := old(mem[from])];
    }

    method UnWpPage(f: int, i: int)
      requires Valid() && 1 <= f < FRAMES && 0 <= i < 1024 && 0 <= FrameOf(mem[f][i]) < FRAMES
      modifies memMap, mem
      ensures Valid() && Value() == UnWp(old(Value()), f, i)
    {
      hide GetFree, SetWrite, UserWord, PageMask, FrameOf;
      var w := mem[f][i];
      var was := PageMask(w);
      var oldFrame := FrameOf(w);
      ManagedPage(w);
      if was >= LOW_MEM && memMap[oldFrame - LOW_FRAMES] == 1 {
        Poke(f, i, SetWrite(w));
        return;
      }
      var page := GetFreePage();
      if was >= LOW_MEM {
        ghost var t := Value();
        memMap[oldFrame - LOW_FRAMES] := (memMap[oldFrame - LOW_FRAMES] - 1) % 256;
        assert Value() == SetCount(t, oldFrame, Count(t, oldFrame) - 1);
      }
      ghost var u := Value();
      CopyPage(oldFrame, page / PAGE_SIZE);
      assert Value() == PutFrame(u, FrameOf(page), u.mem[oldFrame]);
      Poke(f, i, UserWord(page));
    }

    method DoWpPage(address: int)
      requires Valid() && Inv(Value()) && IsWord(address) && (address >= TASK_SIZE ==> Target(Value(), Walk(address)) >= 0)
      modifies memMap, mem, this`panicked
      ensures Valid() && Value() == Refinement.DoWpPage(old(Value()), address)
    {
      if address < TASK_SIZE {
        panicked := true;
        return;
      }
      FaultAddressWalk(address);
      FaultEntry(Value(), address);
      FaultTable(Value(), address);
      hide Inv, UnWp;
      UnWpPage(FrameOf(mem[0][DirOffset(address) / 4]), TableOffset(address) / 4);
    }

    // kernel/fork.c

    /** Control blocks stand in frames of memory. */
    ghost predicate TasksInMemory()
      reads this, memMap, mem, task
    {
      Valid() && forall t :: 0 <= t < NR_TASKS && task[t] != 0 ==> 0 <= FrameOf(task[t]) < FRAMES
    }

    method PidInUse(pid: int) returns (used: bool)
      requires TasksInMemory()
      ensures used <==> pid in Pids(Value())
    {
      var i := 0;
      while i < NR_TASKS
        invariant 0 <= i <= NR_TASKS
        invariant forall t :: 0 <= t < i && task[t] != 0 ==> mem[FrameOf(task[t])][PID] != pid
      {
        if task[i] != 0 && mem[FrameOf(task[i])][PID] == pid {
          assert Word(Value(), FrameOf(Slot(Value(), i)), PID) == pid;
          return true;
        }
        i := i + 1;
      }
      return false;
    }

    /** One visit of the label repeat: the next id, and whether some task has it. */
    method TryNextPid() returns (used: bool)
      requires TasksInMemory()
      modifies this`lastPid
      ensures TasksInMemory() && lastPid == Bump(old(lastPid)) && (used <==> lastPid in Pids(old(Value())))
      ensures Value() == old(Value()).(lastPid := lastPid)
    {
      ghost var s := Value();
      lastPid := if lastPid == MAX_PID then -MAX_PID - 1 else lastPid + 1;
      if lastPid < 0 {
        lastPid := 1;
      }
      SamePids(s, Value());
      hide Pids;
      used := PidInUse(lastPid);
    }

    method NextFreePid()
      requires TasksInMemory() && 0 <= lastPid <= MAX_PID
      modifies this`lastPid
      ensures Valid() && Value() == old(Value()).(lastPid := NextPid(old(lastPid), Pids(old(Value()))))
    {
      hide Pids, NextPid, Candidate, Bump, PcbWord;
      ghost var s := Value();
      PidsFew(s);
      ghost var k := NextPidFree(s.lastPid, Pids(s));
      CandidateFirst(s.lastPid);
      ghost var tried := 0;
      var again := true;
      while again
        invariant Value() == s.(lastPid := lastPid) && TasksInMemory()
        invariant 0 <= tried <= k && lastPid == Candidate(s.lastPid, tried) && (again <==> tried < k)
        decreases k - tried
      {
        CandidateNext(s.lastPid, tried);
        SamePids(s, Value());
        tried := tried + 1;
        again := TryNextPid();
      }
    }

    method FindEmptyProcess() returns (n: int)
      requires TasksInMemory() && 0 <= lastPid <= MAX_PID
      modifies this`lastPid
      ensures Valid() && (Value(), n) == Fork.FindEmptyProcess(old(Value()))
    {
      ghost var s := Value();
      NextFreePid();
      hide Pids, NextPid;
      var i := 1;
      while i < NR_TASKS
        invariant 1 <= i <= NR_TASKS && EmptySlot(s, 1) == EmptySlot(s, i)
      {
        if task[i] == 0 {
          return i;
        }
        i := i + 1;
      }
      return -EAGAIN;
    }

    /** Word j of a task's control block. */
    method ReadPcb(t: int, j: int) returns (w: int)
      requires TasksInMemory() && 0 <= t < NR_TASKS && (t > 0 ==> task[t] != 0) && |initTask| == TASK_STRUCT && 0 <= j < TASK_STRUCT
      ensures w == PcbWord(Value(), t, j)
    {
      w := if t == 0 then initTask[j] else mem[FrameOf(task[t])][j];
    }

    method ReadSegment(t: int, j: int) returns (d: Descriptor)
      requires TasksInMemory() && 0 <= t < NR_TASKS && (t > 0 ==> task[t] != 0) && |initTask| == TASK_STRUCT && 0 <= j < TASK_STRUCT - 1
      ensures d == Segment(Value(), t, j)
    {
      var a := ReadPcb(t, j);
      var b := ReadPcb(t, j + 1);
      d := Descriptor(a, b);
    }

    method LoadBase(n: int, j: int, base: int)
      requires TasksInMemory() && 1 <= n < NR_TASKS && task[n] != 0 && |initTask| == TASK_STRUCT && 0 <= j < TASK_STRUCT - 1
      modifies mem
      ensures Valid() && Value() == SetSegment(old(Value()), n, j, SetBase(Segment(old(Value()), n, j), base))
    {
      var d := ReadSegment(n, j);
      d := SetBase(d, base);
      Poke(FrameOf(task[n]), j, d.a);
      Poke(FrameOf(task[n]), j + 1, d.b);
    }

    /** memcpy from the parent's control block, then the new process id. */
    method FillPcb(f: int, p: int, ghost t: State)
      requires TasksInMemory() && |initTask| == TASK_STRUCT && 0 <= p < NR_TASKS && LOW_FRAMES <= f < FRAMES
      requires p > 0 ==> task[p] != 0 && FrameOf(task[p]) != f
      requires mem[f] == ZeroFrame() && t.lastPid == lastPid && forall i :: PcbWord(Value(), p, i) == PcbWord(t, p, i)
      modifies mem
      ensures Valid() && Value() == PutFrame(old(Value()), f, NewPcb(t, p))
    {
      ghost var s := Value();
      var j := 0;
      while j < TASK_STRUCT
        invariant 0 <= j <= TASK_STRUCT && TasksInMemory() && |mem[f]| == 1024
        invariant forall i :: 0 <= i < 1024 ==> mem[f][i] == if i < j then PcbWord(t, p, i) else 0
        invariant forall g :: 0 <= g < FRAMES && g != f ==> mem[g] == s.mem[g]
        modifies mem
      {
        var w := ReadPcb(p, j);
        assert w == PcbWord(t, p, j);
        mem[f] := mem[f][j := w];
        j := j + 1;
      }
      mem[f] := mem[f][PID := lastPid];
      assert mem[f] == NewPcb(t, p);
      assert mem[..] == s.mem[f := NewPcb(t, p)];
    }

    method LoadBases(n: int)
      requires TasksInMemory() && 1 <= n < NR_TASKS && task[n] != 0 && |initTask| == TASK_STRUCT
      modifies mem
      ensures Valid() && Value() == SetBases(old(Value()), n)
    {
      hide SetSegment, SetBase;
      LoadBase(n, CODE, n * TASK_SIZE);
      LoadBase(n, DATA, n * TASK_SIZE);
    }

    method CopyMem(p: int, n: int, ghost s: State) returns (code: int)
      requires TasksInMemory() && |initTask| == TASK_STRUCT
      requires SegmentsAgree(Value(), p) ==> ForkReady(s, p, n) && HasFree(s) && Value() == Enrolled(s, p, n)
      requires 0 <= p < NR_TASKS && 1 <= n < NR_TASKS && task[n] != 0 && (p > 0 ==> task[p] != 0)
      modifies memMap, mem, this`panicked
      ensures Valid() && (Value(), code) == Fork.CopyMem(old(Value()), p, n)
      ensures !SegmentsAgree(old(Value()), p) ==> Value() == old(Value()).(panicked := true)
    {
      hide ForkReady, Enrolled, Started, HasFree, SetBases, Segment, GetBase, GetLimit, Fork.CopyMem, Fork.CopyPageTables, Fork.FreePageTables, CopyStart, PcbWord;
      MemCopied(Value(), p, n);
      var code1 := ReadSegment(p, CODE);
      var data1 := ReadSegment(p, DATA);
      var codeLimit, dataLimit := GetLimit(code1), GetLimit(data1);
      if GetBase(data1) != GetBase(code1) || dataLimit < codeLimit {
        panicked := true;
        return 0;
      }
      LoadBases(n);
      CopyReadyNow(s, p, n);
      StartReady(s, p, n);
      var ok := CopyPageTables(GetBase(data1), n * TASK_SIZE, dataLimit, p, n);
      if ok {
        return 0;
      }
      StoppedReady(s, p, n);
      FreePageTables(n * TASK_SIZE, dataLimit);
      return -ENOMEM;
    }

    /** task[nr] = p and the new control block. */
    method Enrol(page: int, p: int, n: int, ghost s: State)
      requires TasksInMemory() && |initTask| == TASK_STRUCT && ForkReady(s, p, n) && HasFree(s)
      requires Value() == GetFree(s).0 && page == PAGE_SIZE * GetFree(s).1
      requires 0 <= p < NR_TASKS && 1 <= n < NR_TASKS && p != n && (p > 0 ==> task[p] != 0)
      modifies mem, task
      ensures TasksInMemory() && Value() == Enrolled(s, p, n) && task[n] != 0 && (p > 0 ==> task[p] != 0)
    {
      hide ForkReady, HasFree, GetFree, NewPcb, Enrolled, PcbWord;
      ghost var t := Value();
      var f := page / PAGE_SIZE;
      FrameForPcb(s, p, n);
      task[n] := page;
      assert Value() == SetSlot(t, n, page) by { assert task[..] == t.task[n := page]; }
      SamePcb(t, p, n, page);
      FillPcb(f, p, t);
      EnrolledLast(s, p, n);
    }

    method CopyProcess(p: int, n: int) returns (code: int)
      requires TasksInMemory() && |initTask| == TASK_STRUCT && ForkReady(Value(), p, n)
      modifies memMap, mem, task, this`panicked
      ensures Valid() && (Value(), code) == Fork.CopyProcess(old(Value()), p, n)
    {
      hide ForkReady, GetFree, Enrolled, Fork.CopyMem, HasFree, FreeFrame, SegmentsAgree, NewPcb, Fork.CopyProcess;
      ghost var s := Value();
      ReadySlots(s, p, n);
      ProcessCopied(s, p, n);
      var page := GetFreePage();
      if page == 0 {
        return -EAGAIN;
      }
      Enrol(page, p, n, s);
      code := CopyMem(p, n, s);
      if code != 0 {
        ghost var u := Value();
        task[n] := 0;
        assert task[..] == u.task[n := 0];
        FreePage(page);
        return -EAGAIN;
      }
      return lastPid;
    }

    method SysFork(p: int) returns (code: int)
      requires TasksInMemory() && |initTask| == TASK_STRUCT && MayFork(Value(), p)
      modifies memMap, mem, task, this`panicked, this`lastPid
      ensures Valid() && (Value(), code) == Fork.SysFork(old(Value()), p)
    {
      hide MayFork, ForkReady, Fork.CopyProcess, NextPid, Pids, EmptySlot;
      ghost var s := Value();
      LastPidFits(s, p);
      var n := FindEmptyProcess();
      if n < 0 {
        return n;
      }
      FoundReady(s, p);
      code := CopyProcess(p, n);
    }
  }

  /** Task p is being copied to task c, which has no tables yet. */
  ghost predicate CopyStart(s: State, from: int, to: int, size: int, p: int, c: int) {
    && Forking(s, p, c) && Room(s, p, 1) && from == p * TASK_SIZE && to == c * TASK_SIZE && Tables(size) <= 4
    && forall j :: 16 * c <= j < 16 * c + 4 ==> Dir(s, j) == 0
  }

  /** copy_mem panics on segments that do not agree. */
  predicate SegmentsAgree(s: State, p: int) {
    && GetBase(Segment(s, p, DATA)) == GetBase(Segment(s, p, CODE))
    && GetLimit(Segment(s, p, DATA)) >= GetLimit(Segment(s, p, CODE))
  }

  lemma LastIdentityEntry()
    ensures IdentityEntry(FRAMES - 1) == 0xfff007
  {
  }

  lemma NextIdentityEntry(f: int)
    ensures IdentityEntry(f) == IdentityEntry(f - 1) + 0x1000 && (f >= 0 <==> IdentityEntry(f) >= 0)
  {
  }

  lemma ManagedPage(w: int)
    ensures PageMask(w) >= LOW_MEM <==> FrameOf(w) >= LOW_FRAMES
  {
  }

  lemma LastPidFits(s: State, p: int)
    requires MayFork(s, p)
    ensures 0 <= s.lastPid <= MAX_PID
  {
  }

  lemma ReadySlots(s: State, p: int, n: int)
    requires ForkReady(s, p, n)
    ensures 0 <= p < NR_TASKS && 1 <= n < NR_TASKS && p != n && Slot(s, n) == 0 && (p > 0 ==> Slot(s, p) != 0)
    ensures GetFree(s).1 != 0 ==> HasFree(s)
  {
    hide Tasks, Pristine;
    FreeFrameFacts(s) by { hide *; InvReady(s, p, n); }
  }

  lemma ProcessCopied(s: State, p: int, n: int)
    ensures var (u, code) := Fork.CopyMem(Enrolled(s, p, n), p, n);
      var (t, f) := GetFree(s);
      Fork.CopyProcess(s, p, n) ==
      if f == 0 then (t, -EAGAIN) else if code != 0 then (FreeFrame(SetSlot(u, n, 0), f), -EAGAIN) else (u, u.lastPid)
  {
  }

  lemma SamePcb(t: State, p: int, n: int, page: int)
    requires p != n
    ensures forall i :: PcbWord(SetSlot(t, n, page), p, i) == PcbWord(t, p, i)
  {
  }

  lemma EnrolledLast(s: State, p: int, n: int)
    requires 0 <= n < |s.task|
    ensures var (t, f) := GetFree(s); Enrolled(s, p, n) == PutFrame(SetSlot(t, n, PAGE_SIZE * f), f, NewPcb(t, p))
  {
    hide NewPcb;
  }

  lemma MemCopied(v: State, p: int, n: int)
    ensures var base, limit := GetBase(Segment(v, p, DATA)), GetLimit(Segment(v, p, DATA));
      var (t, ok) := Fork.CopyPageTables(SetBases(v, n), base, n * TASK_SIZE, limit);
      Fork.CopyMem(v, p, n) ==
      if !SegmentsAgree(v, p) then (Panic(v), 0) else if ok then (t, 0) else (Fork.FreePageTables(t, n * TASK_SIZE, limit), -ENOMEM)
  {
    hide GetBase, GetLimit, SetBases, Fork.CopyPageTables, Fork.FreePageTables, Segment;
  }

  lemma InvReady(s: State, p: int, n: int)
    requires ForkReady(s, p, n)
    ensures Inv(s)
  {
  }

  /** The frame for the child's control block is none of the parent's. */
  lemma FrameForPcb(s: State, p: int, n: int)
    requires ForkReady(s, p, n) && HasFree(s)
    ensures var (t, f) := GetFree(s);
      && FIRST_FREE <= f < FRAMES && t.lastPid == s.lastPid && |t.mem| == FRAMES && t.mem[f] == ZeroFrame()
      && (p > 0 ==> FrameOf(Slot(s, p)) != f) && t.task == s.task
  {
    FreeFrameFacts(s);
    if p > 0 { Unnamed(s, GetFree(s).1, Pcb(p)); }
  }

  /** What copy_mem hands to copy_page_tables. */
  lemma CopyReadyNow(s: State, p: int, n: int)
    requires ForkReady(s, p, n) && HasFree(s)
    ensures Forking(Started(s, p, n), p, n) && Room(Started(s, p, n), p, 1)
    ensures forall j :: 16 * n <= j < 16 * n + 4 ==> Dir(Started(s, p, n), j) == 0
    ensures GetBase(Segment(Enrolled(s, p, n), p, DATA)) == p * TASK_SIZE && GetLimit(Segment(Enrolled(s, p, n), p, DATA)) == 0x100_0000
  {
    hide ForkReady, Started, Enrolled, Forking, Room;
    StartedForking(s, p, n);
    StartedDirs(s, Started(s, p, n), p, n);
    ParentSegments(s, p, n);
  }

  lemma StartReady(s: State, p: int, n: int)
    requires ForkReady(s, p, n) && HasFree(s)
    ensures CopyStart(SetBases(Enrolled(s, p, n), n), p * TASK_SIZE, n * TASK_SIZE, 0x100_0000, p, n)
    ensures Started(s, p, n) == SetBases(Enrolled(s, p, n), n)
  {
    hide ForkReady, Enrolled, Forking, Room, Dir, SetBases;
    CopyReadyNow(s, p, n);
  }

  lemma StoppedReady(s: State, p: int, n: int)
    requires ForkReady(s, p, n) && HasFree(s)
    ensures Inv(Fork.CopyPageTables(Started(s, p, n), p * TASK_SIZE, n * TASK_SIZE, 0x100_0000).0)
    ensures IsWord(n * TASK_SIZE)
  {
    ForkReadyFacts(s, p, n);
    assert 0 <= p < NR_TASKS;
    hide ForkReady, Started, CopyTables;
    TaskBase(n);
    PagesCopied(Started(s, p, n), p, n);
    CopyReadyNow(s, p, n);
    CopyTablesAll(Started(s, p, n), p, n, 4);
    StartedInv(CopyTables(Started(s, p, n), 16 * p, 16 * n, 4, EntriesCopied(p)).0, p, n);
  }

  lemma PidsFew(s: State)
    ensures |Pids(s)| <= NR_TASKS
  {
    PidsBound(s, NR_TASKS);
  }

  lemma CandidateFirst(pid: int)
    ensures Candidate(pid, 0) == pid
  {
  }

  lemma CandidateNext(pid: int, k: nat)
    ensures Candidate(pid, k + 1) == Bump(Candidate(pid, k))
  {
  }

  lemma SamePids(s: State, t: State)
    requires t == s.(lastPid := t.lastPid)
    ensures Pids(t) == Pids(s)
  {
    assert forall u :: Slot(t, u) == Slot(s, u) && Word(t, FrameOf(Slot(t, u)), PID) == Word(s, FrameOf(Slot(s, u)), PID);
  }

  lemma FaultTable(s: State, a: int)
    requires Inv(s) && IsWord(a) && a >= TASK_SIZE && Target(s, Walk(a)) >= 0
    ensures 0 <= DirOffset(a) / 4 < 1024 && 0 <= TableOffset(a) / 4 < 1024
    ensures var f := FrameOf(Word(s, 0, DirOffset(a) / 4));
      1 <= f < FRAMES && 0 <= FrameOf(Word(s, f, TableOffset(a) / 4)) < FRAMES
  {
    FaultAddressWalk(a);
    var r := Walk(a);
    assert IsRef(r);
    TableAt(s, r.k);
    hide Inv, DirOffset, TableOffset;
  }

  lemma NextTable(s: State, u: State, p: int, c: int, n: nat)
    requires TablesDone(s, u, true, p, c, n) && n < 4 && Dir(s, 16 * c + n) == 0
    ensures Forking(u, p, c) && Room(u, p, n + 1) && CopySlot(p, c, 16 * p + n, 16 * c + n)
    ensures 0 <= 16 * p + n < 1024 && 16 <= 16 * c + n < 1024
  {
    assert 0 <= p < NR_TASKS && 1 <= c < NR_TASKS;
    hide Target, Contents, Shared, Same, Keeps;
  }

  /** A copy that has stopped stays as it is. */
  lemma {:induction false} CopyStops(s: State, t: State, from: int, to: int, n: nat, m: nat, entries: nat)
    requires CopyTables(s, from, to, n + 1, entries) == (t, false) && n + 1 <= m
    ensures CopyTables(s, from, to, m, entries) == (t, false)
    decreases m
  {
    hide CopyTable;
    if n + 1 < m { CopyStops(s, t, from, to, n, m - 1, entries); }
  }

  lemma CopyingTableAt(s: State, p: int, c: int, from: int, to: int)
    requires CopyingTable(s, p, c, from, to)
    ensures 0 <= from < 1024 && 0 <= to < 1024 && 1 <= FrameOf(Dir(s, from)) < FRAMES && 1 <= FrameOf(Dir(s, to)) < FRAMES
    ensures forall i :: 0 <= i < 1024 ==> PteWord(Pte(s, from, i))
  {
    assert Inv(s);
    hide Inv, Follows, Booting;
    TableAt(s, from);
    TableAt(s, to);
  }

  lemma AllocReady(s: State, p: int, c: int, from: int, to: int, n: nat)
    requires Forking(s, p, c) && CopySlot(p, c, from, to) && Room(s, p, n) && n < 8 && 0 <= from < 1024 && 16 <= to < 1024
    requires !Present(Dir(s, to)) && Present(Dir(s, from)) && GetFree(s).1 != 0
    ensures var (t, f) := (AllocTable(s, to).0, GetFree(s).1);
      && CopyingTable(t, p, c, from, to) && (forall i :: 0 <= i < 1024 ==> Pte(t, to, i) == 0)
      && FrameOf(Dir(t, to)) == f && Dir(t, from) == Dir(s, from)
  {
    hide Inv, Forking, GetFree, AllocTable, TableAdded, Undisturbed, Room, Keeps, Dir, Pte, Present, FrameOf, SameButDir, Slot, HasFree, Shape;
    var t := AllocTable(s, to).0;
    ForkingSlot(s, p, c, from, to);
    ForkingNow(s, p, c);
    EmptyDir(s, to);
    FreeFrameFacts(s);
    ForkingAlloc(s, p, c, from, to, n);
    AllocTableStep(s, to);
    TableAddedWords(s, t, to, GetFree(s).1);
    ForkingBounds(s, p, c);
    SlotApart(p, c, from, to);
  }

  lemma TableIndex(a: int)
    requires IsWord(a) && a % 0x40_0000 == 0
    ensures DirOffset(a) / 4 == a / 0x40_0000
  {
    FaultAddressWalk(a);
  }

  lemma SlotApart(p: int, c: int, from: int, to: int)
    requires CopySlot(p, c, from, to) && p != c
    ensures from != to
  {
  }

  lemma FreeTableHere(s: State, k: int, n: nat)
    ensures var t := FreeTables(s, k, n);
      FreeTables(s, k, n + 1) == if Present(Dir(t, k + n)) then FreeTable(t, k + n) else t
  {
    hide Present, Dir, FreeEntries, DropTable;
  }

  lemma TableAddress(w: int)
    requires DirWord(w) && w != 0
    ensures 1 <= FrameOf(w) < FRAMES && ShortMask(w) / PAGE_SIZE == FrameOf(w) && FrameOf(PageMask(w)) == FrameOf(w) && PageMask(w) >= 0
  {
    ShortMaskAgrees(w);
  }

  /** Where the code finds the table of a directory entry. */
  lemma TableAt(s: State, k: int)
    requires Inv(s) && 0 <= k < 1024 && Present(Dir(s, k))
    ensures var w := Dir(s, k); 1 <= FrameOf(w) < FRAMES && ShortMask(w) / PAGE_SIZE == FrameOf(w) && FrameOf(PageMask(w)) == FrameOf(w) && PageMask(w) >= 0
    ensures forall i :: 0 <= i < 1024 ==> PteWord(Pte(s, k, i))
  {
    TableAddress(Dir(s, k));
  }
}
