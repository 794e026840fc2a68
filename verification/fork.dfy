/** fork: the search for a process id and a slot, and copy_process, which either makes a new
    task that shares its parent's pages or puts everything back. */
module Fork {
  import opened Words
  import opened Machine
  import opened Segments
  import opened Invariant
  import opened Steps
  import opened Copying

  const ENOMEM := 12
  const MAX_PID := 0x7fff_ffff

  // Layout of task_struct, in words
  const PID := 3
  const CODE := 7
  const DATA := 9
  const TASK_STRUCT := 37

  /** The process control block of a task; that of task 0 is static. */
  function PcbWord(s: State, t: int, j: int): int {
    if t == 0 then (if 0 <= j < |s.initTask| then s.initTask[j] else 0) else Word(s, FrameOf(Slot(s, t)), j)
  }

  function Segment(s: State, t: int, j: int): Descriptor {
    Descriptor(PcbWord(s, t, j), PcbWord(s, t, j + 1))
  }

  function SetSegment(s: State, t: int, j: int, d: Descriptor): State {
    Put(Put(s, FrameOf(Slot(s, t)), j, d.a), FrameOf(Slot(s, t)), j + 1, d.b)
  }

  // find_empty_process

  function Bump(pid: int): int {
    var n := if pid == MAX_PID then -MAX_PID - 1 else pid + 1;
    if n < 0 then 1 else n
  }

  /** The first process id after pid that is not in use. */
  function NextPid(pid: int, used: set<int>): int
    decreases |used|
  {
    var n := Bump(pid);
    if n in used then NextPid(n, used - {n}) else n
  }

  function Pids(s: State): set<int> {
    set t | 0 <= t < NR_TASKS && Slot(s, t) != 0 :: Word(s, FrameOf(Slot(s, t)), PID)
  }

  /** The lowest empty slot from t on, or -EAGAIN. */
  function EmptySlot(s: State, t: nat): (n: int)
    ensures n == -EAGAIN || (t <= n < NR_TASKS && Slot(s, n) == 0)
    ensures forall u :: t <= u < (if n < 0 then NR_TASKS else n) ==> Slot(s, u) != 0
    decreases NR_TASKS - t
  {
    if t >= NR_TASKS then -EAGAIN
    else if Slot(s, t) == 0 then t
    else EmptySlot(s, t + 1)
  }

  function FindEmptyProcess(s: State): (State, int) {
    (s.(lastPid := NextPid(s.lastPid, Pids(s))), EmptySlot(s, 1))
  }

  // copy_page_tables and free_page_tables, by linear address

  function Tables(size: int): nat {
    (size + 0x3f_ffff) % 0x1_0000_0000 / 0x40_0000
  }

  /** The tables cover size bytes and no more than that; a size in the last 4 MB of the address space wraps to none. */
  lemma TablesCover(size: int)
    requires 0 <= size < 0x1_0000_0000
    ensures if size <= 0xffc0_0000 then size <= Tables(size) * 0x40_0000 < size + 0x40_0000 else Tables(size) == 0
  {
  }

  function CopyPageTables(s: State, from: int, to: int, size: int): (r: (State, bool))
    ensures SameRest(s, r.0)
  {
    if from % 0x40_0000 != 0 || to % 0x40_0000 != 0 then (Panic(s), true)
    else CopyTables(s, DirOffset(from) / 4, DirOffset(to) / 4, Tables(size), if from == 0 then 0xa0 else 1024)
  }

  function FreePageTables(s: State, from: int, size: int): (t: State)
    ensures SameRest(s, t)
  {
    if from % 0x40_0000 != 0 || from == 0 then Panic(s)
    else FreeTables(s, DirOffset(from) / 4, Tables(size))
  }

  // copy_mem and copy_process

  /** Both segments of task n are based at n * TASK_SIZE. */
  function SetBases(s: State, n: int): State {
    var t := SetSegment(s, n, CODE, SetBase(Segment(s, n, CODE), n * TASK_SIZE));
    SetSegment(t, n, DATA, SetBase(Segment(t, n, DATA), n * TASK_SIZE))
  }

  function CopyMem(s: State, p: int, n: int): (State, int) {
    var codeBase, dataBase := GetBase(Segment(s, p, CODE)), GetBase(Segment(s, p, DATA));
    var codeLimit, dataLimit := GetLimit(Segment(s, p, CODE)), GetLimit(Segment(s, p, DATA));
    if dataBase != codeBase || dataLimit < codeLimit then (Panic(s), 0)
    else
      var (t, ok) := CopyPageTables(SetBases(s, n), dataBase, n * TASK_SIZE, dataLimit);
      if ok then (t, 0) else (FreePageTables(t, n * TASK_SIZE, dataLimit), -ENOMEM)
  }

  /** The child's control block: the parent's, but for the process id. */
  function NewPcb(s: State, p: int): Frame {
    seq(1024, j => if j == PID then s.lastPid else if 0 <= j < TASK_STRUCT then PcbWord(s, p, j) else 0)
  }

  /** Task p forks into slot n. */
  function CopyProcess(s: State, p: int, n: int): (State, int) {
    var (t, f) := GetFree(s);
    if f == 0 then (t, -EAGAIN)
    else
      var (u, code) := CopyMem(SetSlot(PutFrame(t, f, NewPcb(t, p)), n, f * PAGE_SIZE), p, n);
      if code != 0 then (FreeFrame(SetSlot(u, n, 0), f), -EAGAIN) else (u, u.lastPid)
  }

  function SysFork(s: State, p: int): (State, int) {
    var (t, n) := FindEmptyProcess(s);
    if n < 0 then (t, n) else CopyProcess(t, p, n)
  }

  // The process id search

  /** The k-th candidate after pid. */
  function Candidate(pid: int, k: nat): int {
    if k == 0 then pid else Bump(Candidate(pid, k - 1))
  }

  lemma {:induction false} CandidateValue(pid: int, k: nat)
    requires 0 <= pid <= MAX_PID && k < MAX_PID
    ensures Candidate(pid, k) == if pid + k <= 0x7fff_ffff then pid + k else pid + k - 0x7fff_ffff
  {
    if k > 0 { CandidateValue(pid, k - 1); }
  }

  lemma {:induction false} CandidateShift(pid: int, k: nat)
    ensures Candidate(pid, k + 1) == Candidate(Bump(pid), k)
  {
    if k > 0 { CandidateShift(pid, k - 1); }
  }

  /** With fewer ids in use than there are ids, the search takes at most one step for each id in
      use, skips only ids in use, and ends on one that is not. */
  lemma {:induction false} NextPidFree(pid: int, used: set<int>) returns (k: nat)
    requires 0 <= pid <= MAX_PID && |used| < MAX_PID - 1
    ensures 1 <= k <= |used| + 1 && NextPid(pid, used) == Candidate(pid, k) && Candidate(pid, k) !in used
    ensures forall i :: 1 <= i < k ==> Candidate(pid, i) in used
    ensures 1 <= NextPid(pid, used) <= MAX_PID
    decreases |used|
  {
    var n := Bump(pid);
    assert Candidate(pid, 0) == pid && Candidate(pid, 1) == n;
    if n in used {
      var j := NextPidFree(n, used - {n});
      k := j + 1;
      CandidateShift(pid, j);
      CandidateValue(n, j);
      forall i | 1 <= i < k ensures Candidate(pid, i) in used {
        CandidateShift(pid, i - 1);
      }
    } else {
      k := 1;
    }
  }

  // The tasks

  /** Both segments of a task start at its slot's base and span 16 MB. */
  /** Bytes 5 and 6 of INIT_TASK's segments: present, user, code or data; pages, 32 bit. */
  const CODE_ATTRIBUTES := 0xc0fa
  const DATA_ATTRIBUTES := 0xc0f2

  ghost predicate GoodSegments(s: State, t: int) {
    && IsDescriptor(Segment(s, t, CODE)) && IsDescriptor(Segment(s, t, DATA))
    && GetBase(Segment(s, t, CODE)) == GetBase(Segment(s, t, DATA)) == t * TASK_SIZE
    && GetLimit(Segment(s, t, CODE)) == GetLimit(Segment(s, t, DATA)) == 0x100_0000
    && Attributes(Segment(s, t, CODE)) == CODE_ATTRIBUTES && Attributes(Segment(s, t, DATA)) == DATA_ATTRIBUTES
  }

  /** Process ids are positive and no two tasks share one. */
  ghost predicate Tasks(s: State) {
    && 0 <= s.lastPid <= MAX_PID && |s.initTask| == TASK_STRUCT && GoodSegments(s, 0)
    && (forall t :: 1 <= t < NR_TASKS && Slot(s, t) != 0 ==> GoodSegments(s, t) && 1 <= PcbWord(s, t, PID) <= MAX_PID)
    && (forall t, u :: 1 <= t < u < NR_TASKS && Slot(s, t) != 0 && Slot(s, u) != 0 ==> PcbWord(s, t, PID) != PcbWord(s, u, PID))
  }

  /** Task n has the next id, and the state, counter and priority of task p. */
  ghost predicate Descends(s: State, t: State, p: int, n: int) {
    PcbWord(t, n, PID) == s.lastPid && forall j :: 0 <= j < PID ==> PcbWord(t, n, j) == PcbWord(s, p, j)
  }

  /** The control block of another task is untouched. */
  lemma PcbKept(s: State, t: State, u: int)
    requires Inv(s) && Inv(t) && SameRest(s, t) && 0 <= u < NR_TASKS
    requires u > 0 ==> Slot(s, u) != 0 && Target(t, Pcb(u)) == Target(s, Pcb(u)) && Contents(t, Pcb(u)) == Contents(s, Pcb(u))
    ensures forall j :: PcbWord(t, u, j) == PcbWord(s, u, j)
  {
    if u > 0 {
      var f := Target(s, Pcb(u));
      assert IsRef(Pcb(u)) && f >= FIRST_FREE && Slot(t, u) != 0;
      assert t.mem[f] == s.mem[f];
    }
  }

  lemma SegmentsKept(s: State, t: State, u: int)
    requires forall j :: PcbWord(t, u, j) == PcbWord(s, u, j)
    ensures GoodSegments(s, u) ==> GoodSegments(t, u)
  {
    assert Segment(t, u, CODE) == Segment(s, u, CODE) && Segment(t, u, DATA) == Segment(s, u, DATA);
  }

  lemma TasksKept(s: State, t: State)
    requires Inv(s) && Inv(t) && Tasks(s) && SameRest(s, t) && t.task == s.task
    requires forall u :: 1 <= u < NR_TASKS ==> Target(t, Pcb(u)) == Target(s, Pcb(u)) && Contents(t, Pcb(u)) == Contents(s, Pcb(u))
    ensures Tasks(t)
  {
    assert forall u :: Slot(t, u) == Slot(s, u);
    hide Inv, GoodSegments, PcbWord, Target, Contents, Slot;
    PcbKept(s, t, 0);
    SegmentsKept(s, t, 0);
    forall u | 1 <= u < NR_TASKS && Slot(s, u) != 0
      ensures PcbWord(t, u, PID) == PcbWord(s, u, PID) && (GoodSegments(s, u) ==> GoodSegments(t, u))
    {
      PcbKept(s, t, u);
      SegmentsKept(s, t, u);
    }
  }

  // The start of a fork: a control block for the child

  /** No task is in a slot yet, and the top of memory is free. */
  ghost predicate Pristine(s: State) {
    (forall t :: 0 <= t < NR_TASKS ==> Slot(s, t) == 0) && TopFree(s, 0)
  }

  ghost predicate ForkReady(s: State, p: int, n: int) {
    && Inv(s) && Tasks(s) && 0 <= p < NR_TASKS && 1 <= n < NR_TASKS && p != n && Slot(s, n) == 0
    && (if p == 0 then Pristine(s) else Slot(s, p) != 0)
    && s.lastPid >= 1 && s.lastPid !in Pids(s)
  }

  /** The child's slot and control block, before and after its segments get their base. */
  function Enrolled(s: State, p: int, n: int): State {
    var (t, f) := GetFree(s);
    SetSlot(PutFrame(t, f, NewPcb(t, p)), n, f * PAGE_SIZE)
  }

  function Started(s: State, p: int, n: int): State {
    SetBases(Enrolled(s, p, n), n)
  }

  lemma EnrolledWords(s: State, p: int, n: int)
    requires ForkReady(s, p, n) && HasFree(s)
    ensures var (_, f) := GetFree(s); var t := Enrolled(s, p, n);
      && 0 <= f < |t.mem| && PcbAdded(s, t, n, f, t.mem[f]) && SameRest(s, t)
      && Descends(s, t, p, n)
      && Segment(t, n, CODE) == Segment(s, p, CODE) && Segment(t, n, DATA) == Segment(s, p, DATA)
  {
    hide Inv, Tasks, Pids, GetFree, Refs, HasFree, PcbWord, GoodSegments;
    var (u, f) := GetFree(s);
    var t, words := Enrolled(s, p, n), NewPcb(u, p);
    FreeFrameFacts(s);
    InvShape(s);
    ParentWords(s, u, p, f);
    assert t.mem == s.mem[f := words];
    PcbAddedPlace(s, t, n, f, words);
    NewWords(u, t, p, n, f);
  }

  lemma ParentWords(s: State, u: State, p: int, f: int)
    requires Inv(s) && FIRST_FREE <= f < FRAMES && Refs(s, f) == {} && u == PutFrame(SetCount(s, f, 1), f, ZeroFrame())
    requires 0 <= p < NR_TASKS && (p > 0 ==> Slot(s, p) != 0)
    ensures forall j :: PcbWord(u, p, j) == PcbWord(s, p, j)
  {
    if p > 0 { Unnamed(s, f, Pcb(p)); }
    hide Inv, Refs;
  }

  lemma NewWords(u: State, t: State, p: int, n: int, f: int)
    requires n != 0 && FrameOf(Slot(t, n)) == f && 0 <= f < |t.mem| && t.mem[f] == NewPcb(u, p)
    ensures Descends(u, t, p, n)
    ensures Segment(t, n, CODE) == Segment(u, p, CODE) && Segment(t, n, DATA) == Segment(u, p, DATA)
  {
    hide FrameOf, Slot;
  }

  lemma SetSegmentWords(s: State, n: int, j: int, d: Descriptor)
    requires n != 0 && 0 <= FrameOf(Slot(s, n)) < |s.mem| && |s.mem[FrameOf(Slot(s, n))]| == 1024 && 0 <= j < 1023
    ensures var f := FrameOf(Slot(s, n)); var t := SetSegment(s, n, j, d);
      && |t.mem| == |s.mem| && |t.mem[f]| == 1024 && t == s.(mem := s.mem[f := t.mem[f]])
      && Segment(t, n, j) == d && forall i :: i != j && i != j + 1 ==> PcbWord(t, n, i) == PcbWord(s, n, i)
  {
    var f := FrameOf(Slot(s, n));
    var t := SetSegment(s, n, j, d);
    assert t.mem == s.mem[f := s.mem[f][j := d.a][j + 1 := d.b]];
  }

  lemma StartedWords(s: State, p: int, n: int)
    requires ForkReady(s, p, n) && HasFree(s)
    ensures var (_, f) := GetFree(s); var t := Started(s, p, n);
      && 0 <= f < |t.mem| && PcbAdded(s, t, n, f, t.mem[f]) && SameRest(s, t)
      && GoodSegments(t, n) && Descends(s, t, p, n)
      && t.task == s.task[n := f * PAGE_SIZE] && Slot(t, n) != 0 && (forall u :: u != n ==> Slot(t, u) == Slot(s, u))
  {
    hide Inv, Tasks, ForkReady, Pids, Enrolled, GetFree, SetBase, SetBases, GetBase, GetLimit, Attributes, IsDescriptor, Refs, PcbAdded, Segment, PcbWord, Slot, FrameOf, HasFree;
    var (_, f) := GetFree(s);
    var t := Enrolled(s, p, n);
    EnrolledWords(s, p, n);
    ForkReadyFacts(s, p, n);
    PcbAddedPlace(s, t, n, f, t.mem[f]);
    BasesLoaded(t, n, f);
    PcbReplaced(s, t, Started(s, p, n), n, f);
    ParentGood(s, p, n);
    BaseLoaded(Segment(s, p, CODE), n);
    BaseLoaded(Segment(s, p, DATA), n);
  }

  lemma ParentGood(s: State, p: int, n: int)
    requires ForkReady(s, p, n)
    ensures GoodSegments(s, p) && 1 <= n < NR_TASKS
  {
    hide Inv, GoodSegments, Pids, Pristine;
  }

  lemma PcbAddedPlace(s: State, t: State, n: int, f: int, words: Frame)
    requires Inv(s) && PcbAdded(s, t, n, f, words)
    ensures |t.mem| == |s.mem| == FRAMES && 0 <= f < FRAMES && t.mem[f] == words && |words| == 1024
    ensures FrameOf(Slot(t, n)) == f && Slot(t, n) != 0 && (forall u :: u != n ==> Slot(t, u) == Slot(s, u))
    ensures |s.task| == NR_TASKS && t.task == s.task[n := f * PAGE_SIZE]
  {
    InvShape(s);
    hide Inv, Refs;
  }

  /** The control block is written again. */
  lemma PcbReplaced(s: State, t: State, v: State, n: int, f: int)
    requires Inv(s) && 0 <= f < |t.mem| && PcbAdded(s, t, n, f, t.mem[f])
    requires 0 <= f < |v.mem| && |v.mem[f]| == 1024 && v == t.(mem := t.mem[f := v.mem[f]])
    ensures PcbAdded(s, v, n, f, v.mem[f])
    ensures v.task == s.task[n := f * PAGE_SIZE] && Slot(v, n) != 0 && (forall u :: u != n ==> Slot(v, u) == Slot(s, u))
  {
    hide Refs;
    PcbAddedPlace(s, t, n, f, t.mem[f]);
    assert t.mem[f := v.mem[f]] == s.mem[f := v.mem[f]];
    TaskSlots(t, v);
  }

  lemma TaskSlots(t: State, v: State)
    requires v.task == t.task
    ensures forall u :: Slot(v, u) == Slot(t, u)
  {
  }

  lemma BasesLoaded(t: State, n: int, f: int)
    requires n != 0 && f == FrameOf(Slot(t, n)) && 0 <= f < |t.mem| && |t.mem[f]| == 1024
    ensures var v := SetBases(t, n);
      && |v.mem| == |t.mem| && |v.mem[f]| == 1024 && v == t.(mem := t.mem[f := v.mem[f]])
      && Segment(v, n, CODE) == SetBase(Segment(t, n, CODE), n * TASK_SIZE)
      && Segment(v, n, DATA) == SetBase(Segment(t, n, DATA), n * TASK_SIZE)
      && forall j :: 0 <= j <= PID ==> PcbWord(v, n, j) == PcbWord(t, n, j)
  {
    hide SetBase, FrameOf, SetSegment;
    var u := SetSegment(t, n, CODE, SetBase(Segment(t, n, CODE), n * TASK_SIZE));
    SetSegmentWords(t, n, CODE, SetBase(Segment(t, n, CODE), n * TASK_SIZE));
    SetSegmentWords(u, n, DATA, SetBase(Segment(u, n, DATA), n * TASK_SIZE));
    assert t.mem[f := u.mem[f]][f := SetBases(t, n).mem[f]] == t.mem[f := SetBases(t, n).mem[f]];
  }

  lemma BaseLoaded(d: Descriptor, n: int)
    requires IsDescriptor(d) && 1 <= n < NR_TASKS
    ensures var e := SetBase(d, n * TASK_SIZE);
      IsDescriptor(e) && GetBase(e) == n * TASK_SIZE && GetLimit(e) == GetLimit(d) && Attributes(e) == Attributes(d)
  {
    TaskBase(n);
    BaseRoundTrip(d, n * TASK_SIZE);
    BaseLeavesLimit(d, n * TASK_SIZE);
    BaseLeavesRest(d, n * TASK_SIZE);
  }

  lemma StartedTasks(s: State, p: int, n: int)
    requires ForkReady(s, p, n) && HasFree(s) && Inv(Started(s, p, n)) && Undisturbed(s, Started(s, p, n), Pcb(n))
    ensures Tasks(Started(s, p, n))
  {
    var t := Started(s, p, n);
    hide Inv, GoodSegments, PcbWord, Target, Contents, Slot, Started, GetFree, PcbAdded, Pids, Pristine, HasFree;
    StartedWords(s, p, n);
    PidsNamed(s);
    PcbKept(s, t, 0);
    SegmentsKept(s, t, 0);
    forall u | 1 <= u < NR_TASKS && u != n && Slot(s, u) != 0
      ensures PcbWord(t, u, PID) == PcbWord(s, u, PID) && (GoodSegments(s, u) ==> GoodSegments(t, u))
    {
      PcbKept(s, t, u);
      SegmentsKept(s, t, u);
    }
  }

  lemma PidsNamed(s: State)
    ensures forall u :: 1 <= u < NR_TASKS && Slot(s, u) != 0 ==> PcbWord(s, u, PID) in Pids(s)
  {
    forall u | 1 <= u < NR_TASKS && Slot(s, u) != 0 ensures PcbWord(s, u, PID) in Pids(s) {
      assert PcbWord(s, u, PID) == Word(s, FrameOf(Slot(s, u)), PID);
    }
  }

  lemma NothingMapped(s: State, n: int)
    requires Inv(s) && 1 <= n < NR_TASKS && Slot(s, n) == 0
    ensures forall k :: 16 * n <= k < 16 * n + 16 ==> Dir(s, k) == 0
    ensures forall r :: IsRef(r) && Owner(r) == n ==> Target(s, r) == -1
  {
    assert forall k :: 16 * n <= k < 16 * n + 16 ==> k / 16 == n;
    assert forall k :: 0 <= k < 1024 && k / 16 == n ==> 16 * n <= k < 16 * n + 16;
  }

  lemma PristineUnmapped(s: State)
    requires Inv(s) && Pristine(s)
    ensures forall r :: IsRef(r) ==> Target(s, r) == -1
  {
    forall r | IsRef(r) ensures Target(s, r) == -1 {
      if !r.Pcb? {
        assert 1 <= r.k / 16 < NR_TASKS;
        NothingMapped(s, r.k / 16);
      }
    }
  }

  lemma StartedBoot(s: State, t: State, n: int, f: int, words: Frame)
    requires ForkReady(s, 0, n) && HasFree(s) && f == GetFree(s).1 && PcbAdded(s, t, n, f, words)
    requires forall r :: (IsRef(r) || IsEntry(r)) && r != Pcb(n) ==> Target(t, r) == Target(s, r) && CanWrite(t, r) == CanWrite(s, r)
    requires Target(t, Pcb(n)) == f
    ensures Booting(t, n) && Room(t, 0, 1) && KeepsLow(s, t)
  {
    PristineUnmapped(s);
    assert Shape(s);
    TopFreeTaken(s, 0);
    var (u, _) := GetFree(s);
    FreeFrameFacts(s);
    assert forall g :: Count(t, g) == Count(u, g);
    assert forall g :: 0 <= g < FRAMES && g != f ==> t.mem[g] == s.mem[g];
    assert !CanWrite(t, Pcb(n));
    assert forall r :: IsRef(r) ==> !CanWrite(s, r);
    hide Inv, Tasks, Pids, HighestFree, GetFree, Target, CanWrite, Count, PcbAdded, Pristine;
  }

  lemma AddedMap(s: State, t: State, n: int, f: int, words: Frame)
    requires Inv(s) && PcbAdded(s, t, n, f, words)
    ensures MapKept(s, t)
  {
  }

  lemma KeepsCases(s: State, t: State, p: int)
    requires p == 0 ==> KeepsLow(s, t)
    requires MapKept(s, t)
    ensures Keeps(s, t, p)
  {
  }

  lemma ForkingBegins(t: State, p: int, n: int)
    requires Inv(t) && 0 <= p < NR_TASKS && 1 <= n < NR_TASKS && p != n && Slot(t, n) != 0 && (p == 0 ==> Booting(t, n))
    requires forall r :: IsRef(r) && r.Entry? && Owner(r) == n ==> Target(t, r) == -1
    ensures Forking(t, p, n)
  {
    hide Inv, Target, Slot, Booting;
    forall k, i | 16 * n <= k < 16 * n + 16 && 0 <= i < 1024 ensures Target(t, Entry(k, i)) == -1 {
      assert IsRef(Entry(k, i)) && Owner(Entry(k, i)) == n;
    }
  }

  lemma StartedForking(s: State, p: int, n: int)
    requires ForkReady(s, p, n) && HasFree(s)
    ensures var t := Started(s, p, n);
      && Forking(t, p, n) && Room(t, p, 1) && Tasks(t) && Same(s, t, n)
      && t.task == s.task[n := PAGE_SIZE * GetFree(s).1] && SameRest(s, t)
      && (forall k :: 0 <= k < 1024 ==> Dir(t, k) == Dir(s, k))
      && (forall r :: IsEntry(r) ==> Target(t, r) == Target(s, r))
      && Keeps(s, t, p)
  {
    var t := Started(s, p, n);
    var (_, f) := GetFree(s);
    hide Inv, Tasks, Pids, GetFree, Target, CanWrite, Contents, Count, PcbAdded, Pristine, Started, Dir, Slot,
      Booting, TopFree, Keeps, KeepsLow, MapKept, Pte, Structured, HasFree, Forking, GoodSegments;
    StartedWords(s, p, n);
    PcbAddedWords(s, t, n, f, t.mem[f]);
    PcbAddedTargets(s, t, n, f, t.mem[f]);
    PcbAddedStep(s, t, n, f, t.mem[f]);
    StartedTasks(s, p, n);
    NothingMapped(s, n);
    if p == 0 { StartedBoot(s, t, n, f, t.mem[f]); }
    AddedMap(s, t, n, f, t.mem[f]);
    KeepsCases(s, t, p);
    ForkingBegins(t, p, n);
  }

  // The whole of copy_process

  lemma PagesCopied(s: State, p: int, n: int)
    requires 0 <= p < NR_TASKS && 1 <= n < NR_TASKS
    ensures CopyPageTables(s, p * TASK_SIZE, n * TASK_SIZE, 0x100_0000) == CopyTables(s, 16 * p, 16 * n, 4, EntriesCopied(p))
    ensures FreePageTables(s, n * TASK_SIZE, 0x100_0000) == FreeTables(s, 16 * n, 4)
  {
    TaskBase(p);
    TaskBase(n);
    hide CopyTables, FreeTables, DirOffset;
  }

  lemma CopyMemForm(s: State, p: int, n: int)
    requires ForkReady(s, p, n) && HasFree(s)
    ensures var (t, ok) := CopyTables(Started(s, p, n), 16 * p, 16 * n, 4, EntriesCopied(p));
      CopyMem(Enrolled(s, p, n), p, n) == if ok then (t, 0) else (FreeTables(t, 16 * n, 4), -ENOMEM)
  {
    var t := Enrolled(s, p, n);
    ParentSegments(s, p, n);
    PagesCopied(Started(s, p, n), p, n);
    var (u, _) := CopyTables(Started(s, p, n), 16 * p, 16 * n, 4, EntriesCopied(p));
    PagesCopied(u, p, n);
    hide Inv, Tasks, Pids, CopyTables, FreeTables, CopyPageTables, FreePageTables, GetBase, GetLimit, Segment, Enrolled;
  }

  lemma ParentSegments(s: State, p: int, n: int)
    requires ForkReady(s, p, n) && HasFree(s)
    ensures GoodSegments(Enrolled(s, p, n), p)
  {
    var t := Enrolled(s, p, n);
    var (_, f) := GetFree(s);
    EnrolledWords(s, p, n);
    PcbAddedStep(s, t, n, f, t.mem[f]);
    assert p > 0 ==> IsRef(Pcb(p));
    PcbKept(s, t, p);
    SegmentsKept(s, t, p);
  }

  /** Task n now exists: it maps what p maps, under the same limits, and all else is as before. */
  ghost predicate Forked(s: State, t: State, p: int, n: int) {
    && Inv(t) && Tasks(t) && Same(s, t, n) && SameRest(s, t)
    && Slot(t, n) != 0 && (forall u :: u != n ==> Slot(t, u) == Slot(s, u)) && Descends(s, t, p, n)
    && (forall r :: IsEntry(r) && Owner(r) != n ==> Target(t, r) == Target(s, r))
    && (forall k, i :: 16 * n <= k < 16 * n + 16 && 0 <= i < 1024 ==>
          Target(t, Entry(k, i)) == if i < EntriesCopied(p) then Target(s, Entry(k - 16 * n + 16 * p, i)) else -1)
    && Keeps(s, t, p)
  }

  /** Nothing is left of the attempt: every count, every directory entry and every slot is as before,
      and so is what every task sees. */
  ghost predicate RolledBack(s: State, t: State) {
    && Inv(t) && Tasks(t) && SameRest(s, t)
    && t.memMap == s.memMap && t.task == s.task && MapKept(s, t)
    && (forall k :: 0 <= k < 1024 ==> Dir(t, k) == Dir(s, k))
    && (forall r :: IsRef(r) ==> Target(t, r) == Target(s, r) && Contents(t, r) == Contents(s, r))
  }

  /** mem_map is a function of what the tables and slots name. */
  lemma CountsDetermined(s: State, t: State)
    requires Inv(s) && Inv(t) && forall r :: IsRef(r) ==> Target(t, r) == Target(s, r)
    ensures t.memMap == s.memMap
  {
    forall f | LOW_FRAMES <= f < FRAMES ensures Count(t, f) == Count(s, f) {
      assert Refs(t, f) == Refs(s, f);
    }
    forall j | 0 <= j < PAGING_PAGES ensures t.memMap[j] == s.memMap[j] {
      assert Count(t, LOW_FRAMES + j) == Count(s, LOW_FRAMES + j);
    }
  }

  lemma ForkTasks(s: State, t: State, n: int)
    requires Inv(s) && Tasks(s) && Inv(t) && SameRest(s, t) && t.task == s.task && Same(s, t, n)
    requires 1 <= n < NR_TASKS && Slot(s, n) != 0
    requires Target(t, Pcb(n)) == Target(s, Pcb(n)) && Contents(t, Pcb(n)) == Contents(s, Pcb(n))
    ensures Tasks(t) && forall j :: PcbWord(t, n, j) == PcbWord(s, n, j)
  {
    hide Inv, Tasks, Target, Contents, PcbWord, Slot;
    assert forall u :: 1 <= u < NR_TASKS && u != n ==> IsRef(Pcb(u)) && Owner(Pcb(u)) != n;
    TasksKept(s, t);
    PcbKept(s, t, n);
  }

  lemma CopyTablesRest(s: State, p: int, n: int)
    ensures SameRest(s, CopyTables(s, 16 * p, 16 * n, 4, EntriesCopied(p)).0)
  {
  }

  lemma CopyProcessForm(s: State, p: int, n: int)
    requires ForkReady(s, p, n) && HasFree(s)
    ensures var (t, ok) := CopyTables(Started(s, p, n), 16 * p, 16 * n, 4, EntriesCopied(p));
      var u := FreeTables(t, 16 * n, 4);
      CopyProcess(s, p, n) ==
        if ok then (t, s.lastPid) else (FreeFrame(SetSlot(u, n, 0), GetFree(s).1), -EAGAIN)
  {
    FreeFrameFacts(s);
    CopyMemForm(s, p, n);
    CopyTablesRest(Started(s, p, n), p, n);
    assert SameRest(s, Started(s, p, n)) by { StartedWords(s, p, n); }
    hide CopyMem, CopyTables, FreeTables, NewPcb, Inv, Tasks, Started, Pids, FreeFrame, SetSlot, PutFrame, Pristine;
  }

  lemma NoHighTables(s: State, p: int, k: int, i: int)
    requires Inv(s) && 0 <= p < NR_TASKS && 16 * p + 4 <= k < 16 * p + 16 && 0 <= i < 1024
    ensures Target(s, Entry(k, i)) == -1
  {
    assert k % 16 >= 4;
  }

  lemma ForkedEntries(s: State, u: State, t: State, p: int, n: int, k: int, i: int)
    requires Inv(s) && TablesDone(u, t, true, p, n, 4) && forall r :: IsEntry(r) ==> Target(u, r) == Target(s, r)
    requires 16 * n <= k < 16 * n + 16 && 0 <= i < 1024
    ensures Target(t, Entry(k, i)) == if i < EntriesCopied(p) then Target(s, Entry(k - 16 * n + 16 * p, i)) else -1
  {
    hide Inv, Target, Forking, Keeps, Same, Room, Dir, Contents;
    ForkingBounds(t, p, n);
    ForkingNow(t, p, n);
    if k < 16 * n + 4 {
      assert Shared(u, t, p, n, k) && IsEntry(Entry(k - 16 * n + 16 * p, i));
    } else {
      NoHighTables(s, p, k - 16 * n + 16 * p, i);
      NoHighTables(t, n, k, i);
    }
  }

  lemma ForkingNow(t: State, p: int, n: int)
    requires Forking(t, p, n)
    ensures Inv(t)
  {
  }

  lemma ForkReadyFacts(s: State, p: int, n: int)
    requires ForkReady(s, p, n)
    ensures Inv(s) && Tasks(s) && 1 <= n < NR_TASKS && Slot(s, n) == 0
  {
  }

  lemma StartedDirs(s: State, u: State, p: int, n: int)
    requires ForkReady(s, p, n) && forall k :: 0 <= k < 1024 ==> Dir(u, k) == Dir(s, k)
    ensures forall j :: 16 * n <= j < 16 * n + 4 ==> Dir(u, j) == 0
  {
    NothingMapped(s, n);
  }

  lemma ForkSucceeds(s: State, p: int, n: int)
    requires ForkReady(s, p, n) && HasFree(s)
    requires CopyTables(Started(s, p, n), 16 * p, 16 * n, 4, EntriesCopied(p)).1
    ensures var (t, pid) := CopyProcess(s, p, n);
      Forked(s, t, p, n) && pid == s.lastPid
  {
    var u := Started(s, p, n);
    var (t, _) := CopyTables(u, 16 * p, 16 * n, 4, EntriesCopied(p));
    hide *;
    ForkReadyFacts(s, p, n);
    CopyProcessForm(s, p, n);
    StartedForking(s, p, n);
    StartedWords(s, p, n);
    StartedDirs(s, u, p, n);
    CopyTablesAll(u, p, n, 4);
    CopyTablesRest(u, p, n);
    ForkedFrom(s, u, t, p, n);
  }

  lemma TablesDoneFacts(u: State, t: State, p: int, n: int)
    requires TablesDone(u, t, true, p, n, 4) && Forking(u, p, n)
    ensures Inv(t) && Inv(u) && 1 <= n < NR_TASKS && Slot(u, n) != 0 && t.task == u.task
    ensures forall v :: Slot(t, v) == Slot(u, v)
    ensures Same(u, t, n) && Target(t, Pcb(n)) == Target(u, Pcb(n)) && Contents(t, Pcb(n)) == Contents(u, Pcb(n))
    ensures (forall r :: IsEntry(r) && Owner(r) != n ==> Target(t, r) == Target(u, r)) && Keeps(u, t, p)
  {
    hide Target, Contents, Same, Owner, Dir, Keeps, Inv, Follows, Booting, Room;
  }

  lemma ForkedFrom(s: State, u: State, t: State, p: int, n: int)
    requires Inv(s) && Forking(u, p, n) && Tasks(u) && Same(s, u, n) && SameRest(s, u) && SameRest(u, t)
    requires (forall v :: v != n ==> Slot(u, v) == Slot(s, v)) && Descends(s, u, p, n)
    requires (forall r :: IsEntry(r) ==> Target(u, r) == Target(s, r)) && Keeps(s, u, p)
    requires TablesDone(u, t, true, p, n, 4)
    ensures Forked(s, t, p, n)
  {
    hide *;
    TablesDoneFacts(u, t, p, n);
    ForkTasks(u, t, n);
    StillDescends(s, u, t, p, n);
    SameTransitive(s, u, t, n);
    KeepsTransitive(s, u, t, p);
    forall k, i | 16 * n <= k < 16 * n + 16 && 0 <= i < 1024
      ensures Target(t, Entry(k, i)) == if i < EntriesCopied(p) then Target(s, Entry(k - 16 * n + 16 * p, i)) else -1
    {
      ForkedEntries(s, u, t, p, n, k, i);
    }
    RestTransitive(s, u, t);
    assert forall r :: IsEntry(r) && Owner(r) != n ==> Target(t, r) == Target(s, r);
    ForkedAll(s, t, p, n);
  }

  lemma RestTransitive(s: State, u: State, t: State)
    requires SameRest(s, u) && SameRest(u, t)
    ensures SameRest(s, t)
  {
  }

  lemma StillDescends(s: State, u: State, t: State, p: int, n: int)
    requires Descends(s, u, p, n) && forall j :: PcbWord(t, n, j) == PcbWord(u, n, j)
    ensures Descends(s, t, p, n)
  {
    hide PcbWord;
  }

  lemma ForkedAll(s: State, t: State, p: int, n: int)
    requires Inv(t) && Tasks(t) && Same(s, t, n) && SameRest(s, t)
    requires Slot(t, n) != 0 && (forall u :: u != n ==> Slot(t, u) == Slot(s, u)) && Descends(s, t, p, n)
    requires forall r :: IsEntry(r) && Owner(r) != n ==> Target(t, r) == Target(s, r)
    requires forall k, i :: 16 * n <= k < 16 * n + 16 && 0 <= i < 1024 ==>
      Target(t, Entry(k, i)) == if i < EntriesCopied(p) then Target(s, Entry(k - 16 * n + 16 * p, i)) else -1
    requires Keeps(s, t, p)
    ensures Forked(s, t, p, n)
  {
  }

  // A fork that runs out of frames

  lemma FreeTablesRest(s: State, n: int)
    ensures SameRest(s, FreeTables(s, 16 * n, 4))
  {
  }

  /** With the child's pages given back, its control block goes too. */
  lemma SliceFreed(u: State, p: int, n: int)
    requires Forking(u, p, n)
    ensures var v := FreeTables(u, 16 * n, 4);
      && Inv(v) && Same(u, v, n) && v.task == u.task && Slot(v, n) != 0 && MapKept(u, v)
      && (forall k :: 16 * n <= k < 16 * n + 16 ==> Dir(v, k) == 0)
      && (forall k :: 0 <= k < 1024 && !(16 * n <= k < 16 * n + 16) ==> Dir(v, k) == Dir(u, k))
  {
    var v := FreeTables(u, 16 * n, 4);
    assert Inv(u) && 1 <= n < NR_TASKS && Slot(u, n) != 0;
    FreeTablesAll(u, n, 4);
    assert Slot(v, n) == Slot(u, n);
    forall k | 16 * n + 4 <= k < 16 * n + 16 ensures Dir(u, k) == 0 {
      OwnerOfSlot(n, k - 16 * n);
      assert k % 16 >= 4;
    }
  }

  lemma PcbFreed(v: State, n: int)
    requires Inv(v) && 1 <= n < NR_TASKS && Slot(v, n) != 0
    requires forall k :: 16 * n <= k < 16 * n + 16 ==> Dir(v, k) == 0
    ensures var t := DropPcb(v, n);
      && Inv(t) && Same(v, t, n) && t.task == v.task[n := 0] && SameRest(v, t) && MapKept(v, t)
      && forall k :: Dir(t, k) == Dir(v, k)
  {
    var t := DropPcb(v, n);
    assert forall k :: 16 <= k < 1024 && k / 16 == n ==> 16 * n <= k < 16 * n + 16;
    DropPcbStep(v, n);
    SameMem(v, t);
    MapItself(v);
    assert forall r :: IsRef(r) && Owner(r) != n ==> r != Pcb(n);
    hide Inv, Target, Contents, Dir;
  }

  /** Nothing of task n was there before, nothing of it is there now. */
  lemma NothingLeft(s: State, t: State, n: int)
    requires Inv(s) && Inv(t) && 1 <= n < NR_TASKS && Slot(s, n) == 0 && t.task == s.task && Same(s, t, n)
    ensures forall r :: IsRef(r) ==> Target(t, r) == Target(s, r) && Contents(t, r) == Contents(s, r)
    ensures t.memMap == s.memMap
  {
    assert Slot(t, n) == 0;
    NothingMapped(s, n);
    NothingMapped(t, n);
    CountsDetermined(s, t);
  }

  lemma SlotRestored(s: State, u: State, n: int, f: int)
    requires |s.task| == NR_TASKS && 1 <= n < NR_TASKS && Slot(s, n) == 0 && u.task == s.task[n := PAGE_SIZE * f]
    ensures u.task[n := 0] == s.task && FrameOf(Slot(u, n)) == f
  {
  }

  lemma AllDirsBack(s: State, t: State, n: int)
    requires Inv(s) && 1 <= n < NR_TASKS && Slot(s, n) == 0
    requires forall k :: 16 * n <= k < 16 * n + 16 ==> Dir(t, k) == 0
    requires forall k :: 0 <= k < 1024 && !(16 * n <= k < 16 * n + 16) ==> Dir(t, k) == Dir(s, k)
    ensures forall k :: 0 <= k < 1024 ==> Dir(t, k) == Dir(s, k)
  {
    NothingMapped(s, n);
  }

  lemma DirsOutside(u: State, x: State, p: int, n: int, ok: bool)
    requires TablesDone(u, x, ok, p, n, 4)
    ensures Forking(x, p, n) && Same(u, x, n) && x.task == u.task && Keeps(u, x, p)
    ensures forall k :: 0 <= k < 1024 && !(16 * n <= k < 16 * n + 16) ==> Dir(x, k) == Dir(u, k)
  {
    hide Forking, Same, Dir, Keeps, Room, Target, Contents;
  }

  /** Freeing tables and control block after a stopped copy. */
  lemma GivenBack(u: State, x: State, p: int, n: int)
    requires TablesDone(u, x, false, p, n, 4) && SameRest(u, x) && Inv(u) && p > 0
    ensures var t := DropPcb(FreeTables(x, 16 * n, 4), n);
      && Inv(t) && Same(u, t, n) && SameRest(u, t) && t.task == FreeTables(x, 16 * n, 4).task[n := 0] && MapKept(u, t)
      && FreeTables(x, 16 * n, 4).task == u.task
      && (forall k :: 16 * n <= k < 16 * n + 16 ==> Dir(t, k) == 0)
      && (forall k :: 0 <= k < 1024 && !(16 * n <= k < 16 * n + 16) ==> Dir(t, k) == Dir(u, k))
  {
    var v := FreeTables(x, 16 * n, 4);
    var t := DropPcb(v, n);
    DirsOutside(u, x, p, n, false);
    assert 1 <= n < NR_TASKS && Inv(x) && MapKept(u, x);
    hide *;
    SliceFreed(x, p, n);
    MapTransitive(u, x, v);
    MapTransitive(u, v, t);
    FreeTablesRest(x, n);
    PcbFreed(v, n);
    RestTransitive(u, x, v);
    RestTransitive(u, v, t);
    SameTransitive(u, x, v, n);
    SameTransitive(u, v, t, n);
  }

  lemma BackAsBefore(s: State, t: State, n: int)
    requires Inv(s) && Tasks(s) && Inv(t) && 1 <= n < NR_TASKS && Slot(s, n) == 0
    requires t.task == s.task && Same(s, t, n) && SameRest(s, t) && MapKept(s, t)
    requires forall k :: 0 <= k < 1024 ==> Dir(t, k) == Dir(s, k)
    ensures RolledBack(s, t)
  {
    assert forall u :: 1 <= u < NR_TASKS ==> IsRef(Pcb(u));
    hide Inv, Tasks, Target, Contents, Slot, Dir, Same, MapKept;
    NothingLeft(s, t, n);
    TasksKept(s, t);
  }

  lemma ForkStops(s: State, p: int, n: int)
    requires ForkReady(s, p, n) && HasFree(s) && p > 0
    requires !CopyTables(Started(s, p, n), 16 * p, 16 * n, 4, EntriesCopied(p)).1
    ensures var (t, code) := CopyProcess(s, p, n);
      RolledBack(s, t) && code == -EAGAIN
  {
    var u := Started(s, p, n);
    var (x, _) := CopyTables(u, 16 * p, 16 * n, 4, EntriesCopied(p));
    var v := FreeTables(x, 16 * n, 4);
    var f := GetFree(s).1;
    assert DropPcb(v, n) == FreeFrame(SetSlot(v, n, 0), FrameOf(Slot(v, n)));
    assert Inv(s) && Tasks(s) && 1 <= n < NR_TASKS && Slot(s, n) == 0 && |s.task| == NR_TASKS;
    hide *;
    CopyProcessForm(s, p, n);
    StartedForking(s, p, n);
    StartedMap(s, u, p);
    StartedDirs(s, u, p, n);
    StartedInv(u, p, n);
    CopyTablesAll(u, p, n, 4);
    CopyTablesRest(u, p, n);
    GivenBack(u, x, p, n);
    SlotRestored(s, v, n, f);
    RestTransitive(s, u, DropPcb(v, n));
    MapTransitive(s, u, DropPcb(v, n));
    SameTransitive(s, u, DropPcb(v, n), n);
    AllDirsBack(s, DropPcb(v, n), n);
    BackAsBefore(s, DropPcb(v, n), n);
  }

  lemma StartedMap(s: State, u: State, p: int)
    requires Keeps(s, u, p) && p > 0
    ensures MapKept(s, u)
  {
  }

  lemma StartedInv(u: State, p: int, n: int)
    requires Forking(u, p, n)
    ensures Inv(u)
  {
  }

  // The system call

  lemma {:induction false} PidsBound(s: State, n: nat)
    requires n <= NR_TASKS
    ensures |set t | 0 <= t < n && Slot(s, t) != 0 :: Word(s, FrameOf(Slot(s, t)), PID)| <= n
  {
    if n > 0 {
      PidsBound(s, n - 1);
      var rest := set t | 0 <= t < n - 1 && Slot(s, t) != 0 :: Word(s, FrameOf(Slot(s, t)), PID);
      var all := set t | 0 <= t < n && Slot(s, t) != 0 :: Word(s, FrameOf(Slot(s, t)), PID);
      if Slot(s, n - 1) != 0 {
        assert all == rest + {Word(s, FrameOf(Slot(s, n - 1)), PID)};
      } else {
        assert all == rest;
      }
    }
  }

  lemma OnlyPidChanges(s: State, t: State)
    requires Inv(s) && t == s.(lastPid := t.lastPid)
    ensures Inv(t) && Pids(t) == Pids(s) && (HasFree(t) <==> HasFree(s))
    ensures forall r :: Target(t, r) == Target(s, r) && Contents(t, r) == Contents(s, r)
    ensures forall u, j :: PcbWord(t, u, j) == PcbWord(s, u, j)
  {
    hide Target, Refs, Count, CanWrite, Dir, Pte, Slot, Word, Contents, Present, FrameOf, PcbWord;
    SameMem(s, t);
    PidWords(s, t);
    PidTargets(s, t);
  }

  lemma PidWords(s: State, t: State)
    requires t == s.(lastPid := t.lastPid)
    ensures (forall f, i :: Word(t, f, i) == Word(s, f, i)) && (forall u :: Slot(t, u) == Slot(s, u)) && forall f :: Count(t, f) == Count(s, f)
    ensures forall u, j :: PcbWord(t, u, j) == PcbWord(s, u, j)
  {
    hide FrameOf;
  }

  lemma PidTargets(s: State, t: State)
    requires t == s.(lastPid := t.lastPid)
    ensures forall r :: Target(t, r) == Target(s, r) && CanWrite(t, r) == CanWrite(s, r) && Contents(t, r) == Contents(s, r)
    ensures forall f :: Refs(t, f) == Refs(s, f)
  {
    SameMem(s, t);
    PidWords(s, t);
    assert forall r :: Target(t, r) == Target(s, r) && CanWrite(t, r) == CanWrite(s, r) by {
      hide Dir, Pte, Slot, Present, FrameOf, Writable;
    }
    hide Target, CanWrite;
  }

  /** The state in which copy_process starts. */
  function Found(s: State): State {
    s.(lastPid := NextPid(s.lastPid, Pids(s)))
  }

  /** Task p may call fork: it is in a slot, or it is task 0 and nobody has forked yet. */
  ghost predicate MayFork(s: State, p: int) {
    Inv(s) && Tasks(s) && 0 <= p < NR_TASKS && if p == 0 then Pristine(s) else Slot(s, p) != 0
  }

  lemma FoundReady(s: State, p: int)
    requires MayFork(s, p) && EmptySlot(s, 1) > 0
    ensures ForkReady(Found(s), p, EmptySlot(s, 1))
  {
    hide Inv, Tasks, TopFree, Pids, Pristine, NextPid, Slot, Count;
    FoundTasks(s);
    PidWords(s, Found(s));
    if p == 0 { PristineFound(s); }
  }

  lemma PristineFound(s: State)
    requires Pristine(s)
    ensures Pristine(Found(s))
  {
    hide NextPid, Pids, Slot, Count;
    PidWords(s, Found(s));
  }

  lemma FoundTasks(s: State)
    requires Inv(s) && Tasks(s)
    ensures var t := Found(s);
      && Inv(t) && Tasks(t) && 1 <= t.lastPid <= MAX_PID && t.lastPid !in Pids(t)
      && forall r :: Target(t, r) == Target(s, r) && Contents(t, r) == Contents(s, r)
  {
    var t := Found(s);
    PidsBound(s, NR_TASKS);
    var k := NextPidFree(s.lastPid, Pids(s));
    OnlyPidChanges(s, t);
    assert forall u :: Slot(t, u) == Slot(s, u);
    forall u | 0 <= u < NR_TASKS ensures GoodSegments(s, u) ==> GoodSegments(t, u) { SegmentsKept(s, t, u); }
    hide Inv, GoodSegments, Pids, NextPid, Slot, PcbWord;
  }

  lemma RoomIsFree(s: State, n: nat)
    requires |s.memMap| == PAGING_PAGES && TopFree(s, n) && n < 8
    ensures HasFree(s)
  {
    assert Count(s, BOOT_TOP) == 0;
    assert s.memMap[BOOT_TOP - LOW_FRAMES] == 0;
  }

  /** Memory suffices for the first fork. */
  lemma FirstForkWorks(s: State, n: int)
    requires ForkReady(s, 0, n)
    ensures HasFree(s) && CopyTables(Started(s, 0, n), 0, 16 * n, 4, EntriesCopied(0)).1
  {
    RoomIsFree(s, 0);
    var u := Started(s, 0, n);
    var (t, ok) := CopyTables(u, 0, 16 * n, 4, EntriesCopied(0));
    assert 16 * 0 == 0;
    StartedForking(s, 0, n);
    StartedDirs(s, u, 0, n);
    hide Forking, ForkReady, Started, CopyTables, Same, Shared, Keeps, Tasks;
    CopyTablesAll(u, 0, n, 4);
    if !ok {
      assert |t.memMap| == PAGING_PAGES by { StartedInv(t, 0, n); }
      RoomIsFree(t, 5);
    }
  }

  lemma ForkFails(s: State, p: int, n: int)
    requires ForkReady(s, p, n) && HasFree(s)
    requires !CopyTables(Started(s, p, n), 16 * p, 16 * n, 4, EntriesCopied(p)).1
    ensures var (t, code) := CopyProcess(s, p, n);
      RolledBack(s, t) && code == -EAGAIN
  {
    assert 0 <= p;
    hide *;
    if p == 0 {
      FirstForkWorks(s, n);
    } else {
      ForkStops(s, p, n);
    }
  }

  lemma NoFrameForPcb(s: State, p: int, n: int)
    requires ForkReady(s, p, n) && !HasFree(s)
    ensures var (t, code) := CopyProcess(s, p, n);
      RolledBack(s, t) && code == -EAGAIN
  {
    FreeFrameFacts(s);
    MapItself(s);
    assert CopyProcess(s, p, n) == (s, -EAGAIN);
    hide CopyProcess, Inv, Tasks, Pids;
  }

  lemma CopyProcessOutcome(s: State, p: int, n: int)
    requires ForkReady(s, p, n)
    ensures var (t, code) := CopyProcess(s, p, n);
      && (code > 0 ==> Forked(s, t, p, n) && code == s.lastPid)
      && (code <= 0 ==> RolledBack(s, t) && code == -EAGAIN)
      && (p == 0 ==> code > 0)
  {
    assert s.lastPid >= 1;
    hide *;
    if p == 0 { FirstForkWorks(s, n); }
    if HasFree(s) {
      if CopyTables(Started(s, p, n), 16 * p, 16 * n, 4, EntriesCopied(p)).1 {
        ForkSucceeds(s, p, n);
      } else {
        ForkFails(s, p, n);
      }
    } else {
      NoFrameForPcb(s, p, n);
    }
  }

  lemma NoSlot(s: State)
    requires Inv(s) && Tasks(s)
    ensures RolledBack(Found(s), Found(s))
    ensures Pristine(s) ==> EmptySlot(s, 1) > 0
  {
    FoundTasks(s);
    MapItself(Found(s));
    assert Pristine(s) ==> Slot(s, 1) == 0;
    hide Inv, Tasks, Pids, NextPid;
  }

  /** fork either makes one new task, in the lowest empty slot and with the next unused process id,
      or leaves everything as it was but for the id counter. */
  lemma SysForkStep(s: State, p: int)
    requires MayFork(s, p)
    ensures var (t, r) := SysFork(s, p); var n := EmptySlot(s, 1);
      && (r > 0 ==> n > 0 && Forked(Found(s), t, p, n) && r == Found(s).lastPid)
      && (r <= 0 ==> r == -EAGAIN && RolledBack(Found(s), t))
      && (p == 0 ==> r > 0)
  {
    hide CopyProcess, Inv, Tasks, Pids, Forked, RolledBack, Pristine, NextPid, ForkReady;
    NoSlot(s);
    if EmptySlot(s, 1) > 0 {
      FoundReady(s, p);
      CopyProcessOutcome(Found(s), p, EmptySlot(s, 1));
    }
  }
}
