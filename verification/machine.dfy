/** The memory of the machine as a value, and what the paging code of mm/memory.c and
    mm/swap.c does to it, one page table entry at a time. Physical memory is 4096 frames
    of 1024 words; frame 0 holds the page directory, sixteen entries for each task. */
module Machine {
  import opened Words

  const FRAMES := 4096
  const LOW_FRAMES := 256
  const PAGING_PAGES := 3840
  const FIRST_FREE := 1024
  const NR_TASKS := 64
  const USED := 100
  const EAGAIN := 11

  type Frame = seq<int>

  /** task[] holds the address of each process control block, 0 for an empty slot.
      initTask is the block of task 0, which lives in the kernel image. */
  datatype State = State(memMap: seq<int>, mem: seq<Frame>, task: seq<int>, initTask: seq<int>,
                         lastPid: int, panicked: bool)

  /** Paging touches neither the process ids nor the static control block of task 0. */
  predicate SameRest(s: State, t: State) {
    t.lastPid == s.lastPid && t.initTask == s.initTask
  }

  function ZeroFrame(): Frame {
    seq(1024, _ => 0)
  }

  function Word(s: State, f: int, i: int): int {
    if 0 <= f < |s.mem| && 0 <= i < |s.mem[f]| then s.mem[f][i] else 0
  }

  function Put(s: State, f: int, i: int, w: int): State {
    if 0 <= f < |s.mem| && 0 <= i < |s.mem[f]| then s.(mem := s.mem[f := s.mem[f][i := w]]) else s
  }

  function PutFrame(s: State, f: int, words: Frame): State {
    if 0 <= f < |s.mem| then s.(mem := s.mem[f := words]) else s
  }

  function Count(s: State, f: int): int {
    if 0 <= f - LOW_FRAMES < |s.memMap| then s.memMap[f - LOW_FRAMES] else 0
  }

  /** mem_map entries are unsigned chars. */
  function SetCount(s: State, f: int, n: int): State {
    if 0 <= f - LOW_FRAMES < |s.memMap| then s.(memMap := s.memMap[f - LOW_FRAMES := n % 256]) else s
  }

  function Slot(s: State, t: int): int {
    if 0 <= t < |s.task| then s.task[t] else 0
  }

  function SetSlot(s: State, t: int, p: int): State {
    if 0 <= t < |s.task| then s.(task := s.task[t := p]) else s
  }

  function Dir(s: State, k: int): int {
    Word(s, 0, k)
  }

  function Pte(s: State, k: int, i: int): int {
    Word(s, FrameOf(Dir(s, k)), i)
  }

  function SetPte(s: State, k: int, i: int, w: int): State {
    Put(s, FrameOf(Dir(s, k)), i, w)
  }

  // mm/swap.c

  /** The highest index below n whose count is zero, or -1. */
  function HighestFree(memMap: seq<int>, n: nat): (j: int)
    requires n <= |memMap|
    ensures -1 <= j < n
    ensures j >= 0 ==> memMap[j] == 0
    ensures forall i :: j < i < n ==> memMap[i] != 0
  {
    if n == 0 then -1
    else if memMap[n - 1] == 0 then n - 1
    else HighestFree(memMap, n - 1)
  }

  predicate HasFree(s: State) {
    0 in s.memMap
  }

  /** The frame taken, or 0 when none is free. */
  function GetFree(s: State): (r: (State, int))
    ensures SameRest(s, r.0)
  {
    var j := HighestFree(s.memMap, |s.memMap|);
    if j < 0 then (s, 0)
    else (PutFrame(SetCount(s, LOW_FRAMES + j, 1), LOW_FRAMES + j, ZeroFrame()), LOW_FRAMES + j)
  }

  // mm/memory.c

  function Panic(s: State): State {
    s.(panicked := true)
  }

  function FreeFrame(s: State, f: int): (t: State)
    ensures SameRest(s, t)
  {
    if f < LOW_FRAMES then s
    else if f >= FRAMES then Panic(s)
    else if Count(s, f) != 0 then SetCount(s, f, Count(s, f) - 1)
    else Panic(s)
  }

  function FreeEntry(s: State, k: int, i: int): (t: State)
    ensures SameRest(s, t)
  {
    var w := Pte(s, k, i);
    if w == 0 then s
    else SetPte(if Present(w) then FreeFrame(s, FrameOf(w)) else s, k, i, 0)
  }

  /** The first n entries of a table. */
  function FreeEntries(s: State, k: int, n: nat): (t: State)
    ensures SameRest(s, t)
  {
    if n == 0 then s else FreeEntry(FreeEntries(s, k, n - 1), k, n - 1)
  }

  function DropTable(s: State, k: int): (t: State)
    ensures SameRest(s, t)
  {
    Put(FreeFrame(s, FrameOf(Dir(s, k))), 0, k, 0)
  }

  function FreeTable(s: State, k: int): (t: State)
    ensures SameRest(s, t)
  {
    if !Present(Dir(s, k)) then s else DropTable(FreeEntries(s, k, 1024), k)
  }

  /** The first n directory entries from k on. */
  function FreeTables(s: State, k: int, n: nat): (t: State)
    ensures SameRest(s, t)
  {
    if n == 0 then s else FreeTable(FreeTables(s, k, n - 1), k + n - 1)
  }

  function CopyEntry(s: State, from: int, to: int, i: int): (t: State)
    ensures SameRest(s, t)
  {
    var w := Pte(s, from, i);
    if w == 0 || !Present(w) then s
    else
      var r := ClearWrite(w);
      var t := SetPte(s, to, i, r);
      if r > LOW_MEM then
        var f := FrameOf(r);
        SetCount(SetPte(t, from, i, r), f, Count(t, f) + 1)
      else t
  }

  function CopyEntries(s: State, from: int, to: int, n: nat): (t: State)
    ensures SameRest(s, t)
  {
    if n == 0 then s else CopyEntry(CopyEntries(s, from, to, n - 1), from, to, n - 1)
  }

  /** The new state, and whether a frame for the table was found. */
  function AllocTable(s: State, k: int): (r: (State, bool))
    ensures SameRest(s, r.0)
  {
    var (t, f) := GetFree(s);
    if f == 0 then (t, false) else (Put(t, 0, k, UserWord(f * PAGE_SIZE)), true)
  }

  function CopyTable(s: State, from: int, to: int, entries: nat): (r: (State, bool))
    ensures SameRest(s, r.0)
  {
    if Present(Dir(s, to)) then (Panic(s), true)
    else if !Present(Dir(s, from)) then (s, true)
    else
      var (t, ok) := AllocTable(s, to);
      if ok then (CopyEntries(t, from, to, entries), true) else (t, false)
  }

  /** The first n tables; stops at the first one that finds no frame. */
  function CopyTables(s: State, from: int, to: int, n: nat, entries: nat): (r: (State, bool))
    ensures SameRest(s, r.0)
  {
    if n == 0 then (s, true)
    else
      var (t, ok) := CopyTables(s, from, to, n - 1, entries);
      if ok then CopyTable(t, from + n - 1, to + n - 1, entries) else (t, false)
  }

  /** un_wp_page on the entry that stands in word i of frame f. When no frame is free the code
      goes on with frame 0. */
  function UnWp(s: State, f: int, i: int): (t: State)
    ensures SameRest(s, t)
  {
    var w := Word(s, f, i);
    var was := FrameOf(w);
    if was >= LOW_FRAMES && Count(s, was) == 1 then Put(s, f, i, SetWrite(w))
    else
      var (t, page) := GetFree(s);
      var u := if was >= LOW_FRAMES then SetCount(t, was, Count(t, was) - 1) else t;
      var v := PutFrame(u, page, if 0 <= was < |u.mem| then u.mem[was] else []);
      Put(v, f, i, UserWord(page * PAGE_SIZE))
  }
}
