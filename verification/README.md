# Kernel model

A Dafny model of a small teaching kernel for the 386: paging with copy-on-write and fork, the
scheduler and its wait queues, the screen and keyboard queues, and the string, formatting and boot
loading loops. `dafny verify dfyconfig.toml` checks the whole project.

**Memory and fork.** `machine.dfy` gives memory as a value: 4096 frames of 1024 words, the bytes of
`mem_map`, the task slots. The operations of `mm/memory.c`, `mm/swap.c` and `kernel/fork.c` are
functions on it, branch by branch (`machine.dfy`, `fork.dfy`, `refinement.dfy`), and `kernel.dfy` holds
the same code as a class that writes `mem_map`, page tables and slots in place; each of its methods is
proved to compute the function. `invariant.dfy` states what every step keeps: entries are well formed,
task 0 keeps the identity map, `mem_map` counts exactly the places that name a frame, a frame that
holds a table or a control block has no other use, no address space maps a frame twice, and an entry
that grants write access is alone at its frame. `steps.dfy` and `copying.dfy` carry the invariant
through single entries and whole loops. In `runs.dfy` tasks fork, store through their own segment, and
store through the segment at the video memory, which every task also has. The main result
(`Runs.RunRefines`, `Boot.EveryRunRefines`) is that every run from power-on in which the stores are
permitted ones refines the obvious machine in which fork copies every page and a store changes one page
of one task: no panic is reached, no count overflows its byte, and a fork that runs out of frames leaves
nothing behind and takes from nobody the ability to store.

What is permitted can be checked before each store. A store through a task's own segment must be
served: the page is absent, or writable, or has one user, or a frame is free (`Runs.Served`). A store
through the video segment must not hit what belongs to somebody else (`Video.MayPoke`): `video.dfy`
proves that the condition is exact, and `shield.dfy` that after the first fork it depends on the address
and on `mem_map` alone and always holds below 4 MB, the video memory included. That neither condition is
idle is shown in `exhaustion.dfy`: from power-on there are runs of forks and stores up to a store that
cannot be served, up to a fork that runs out of frames half way, and up to stores through the video
segment that make the kernel panic or change a page of another task.

**Scheduling.** `sched.dfy` and `waitqueue.dfy` model time slices and sleeping; `sched_code.dfy` is the
code on task structures. A runnable task is selected within an explicit number of ticks. A wait queue
has no data structure but a head pointer and a local variable in each suspended caller; these are
shown to form a stack in every run, and one wake-up drains it in at most 2n - 1 resumes of n sleepers,
whichever runnable sleeper is picked.

**Screen and keyboard.** `terminal.dfy` is a plain grid of character cells. `videomem.dfy` is the window
that slides through video memory: it shows every text as the plain grid does if and only if the rows kept
on a scroll have an even number of cells, as on every usual display. `console.dfy` is the driver, proved to
compute that window for every geometry. `tty.dfy` adds the ring buffers and shows that typed characters
reach the console cooked and in order.

**Loops.** `strings.dfy` (strtok, strstr), `format.dfy` (number, skip_atoi) and `bootsect.dfy` (read_it)
follow the exits of the original loops and prove what they are for: the tokens of a string, the first
occurrence, digits that read back as the number, consecutive sectors at consecutive addresses.

Where the code differs from its comments or from what one would expect, the model follows the code:

- Entry 3 of the descriptor table, selector 0x1b, is user-writable, starts at the video memory and spans 256 MB
  (`Segments.VideoSegment`). Through it every task reaches task 0's map of physical memory and the address
  spaces of tasks 1 to 4, so memory is not protected: a task can make the kernel panic or change another
  task's pages right after the first forks (`Exhaustion.PanicReached`, `Exhaustion.IsolationBroken`). Which
  of these stores harm nobody is stated exactly (`Video.PokeHarmlessExactlyWhen`).
- `un_wp_page` does not test whether a frame was found; without one it overwrites the page directory
  and grants the task write access to it (`Refinement.FaultServedExactlyWhen`), and tasks can bring
  that about (`Exhaustion.FaultUnserved`).
- The mask written `0xfffff00` lacks a digit; it is right exactly for the words the invariant allows
  (`Words.ShortMaskAgrees`).
- The first fork copies "the first 640 KB" of each of the four tables, not of memory (`Boot.FirstPage`).
- `copy_process` reports `-EAGAIN` also where `copy_mem` said `-ENOMEM`.
- `sched_init` empties slot 0 as well, so results about slots are for 1 to 63. When no task is runnable,
  `schedule` switches to slot 0 and loads `current` with NULL (`SchedulerCode.Sched.CurrentLost`); from then on
  the timer counts down the word at address 4, entry 1 of the page directory
  (`SchedulerCode.Sched.DoTimerOutside`).
- Scrolling copies double words: with an odd number of cells to keep, the last one is lost when the window is
  copied back, and from every state of the console some text brings that about
  (`VideoMemory.CopiedRightExactlyWhen`, `VideoMemory.ShowsExactlyWhen`).
- A tab on a screen of fewer than four columns leaves the cursor off the screen
  (`VideoMemory.TabStaysExactlyWhen`).
- `schedule` never returns when all time is used up and no priority hands out more
  (`Scheduler.LoopsForeverExactlyWhen`).
- The 1024th character put into a ring empties it (`TtyCode.RingPut`).
- The comparison in `copy_to_cooked` is signed: characters from 128 up are echoed as control characters.
- `strtok` with an empty set of delimiters returns NULL, not the whole string (`Strings.EmptySetReturnsNone`).
- `number` always prefixes octal numbers with 0, and shows 0 even with precision 0.

## Model

| member | source | states |
|---|---|---|
| Words.ShortMaskAgrees | mm/memory.c:41 | the seven-digit mask finds the same table as the full page mask if and only if the entry lies below 256 MB and has bits 8 to 11 clear |
| Words.FaultAddressWalk | mm/memory.c:153-155 | the byte offsets computed from a fault address select the directory entry and the table entry that the hardware walk uses |
| Machine.HighestFree | mm/swap.c:7-8 | the backward scan stops at the highest frame whose count is zero, or finds that there is none |
| Invariant.CountAfter | mm/memory.c:9-22 | when one place changes the frame it names, the number of names of the old and of the new frame change by one and no other does |
| Invariant.Retarget | mm/memory.c:57-142 | if one place changes the frame it names, `mem_map` follows, and the new frame is free or only shared with other tasks, then counting, exclusiveness and sole writers are all kept |
| Invariant.FewRefs | include/linux/mm.h:16 | at most 63 places name a managed frame, one in each address space |
| Invariant.CountsFit | mm/memory.c:111 | no `mem_map` byte overflows: none exceeds 100, and none outside the reserved frames exceeds 63 |
| Steps.FreeFrameFacts | mm/swap.c:3-27 | the frame that is handed out was named nowhere, is not reserved and comes zeroed with count 1; without a free frame nothing changes |
| Steps.FreeFrameExactly | mm/memory.c:9-22 | free_page panics if and only if the page lies beyond memory or is free already; otherwise it takes one from the count of a managed page and changes nothing else |
| Steps.AllocTableStep | mm/memory.c:83-87 | a page table for the child: found if and only if a frame is free; the invariant holds and no one else's entries or contents change |
| Steps.CopyEntryStep | mm/memory.c:93-112 | sharing one page: the child names the parent's frame, both are read-only, the count follows, the invariant holds, and contents and all other names stay |
| Steps.FreeEntryStep | mm/memory.c:42-49 | giving back one page keeps the invariant and disturbs no other name or content |
| Steps.DropTableStep | mm/memory.c:50-51 | giving back an emptied page table keeps the invariant and disturbs no one |
| Steps.PcbAddedStep | kernel/fork.c:49-58 | a new control block in a free frame keeps the invariant and disturbs no one |
| Steps.DropPcbStep | kernel/fork.c:93-95 | giving back a control block whose task maps nothing keeps the invariant and disturbs no one |
| Steps.GrantStep | mm/memory.c:127-131 | a page with a single user becomes writable, with the same frame and contents; the invariant holds |
| Steps.SplitStep | mm/memory.c:133-140 | a shared page is split: the faulting task alone gets a writable copy, the contents are the same for everyone, the invariant holds |
| Steps.StoreStep | mm/memory.c:119-142 | a store through a writable entry changes one word of a frame that nobody else names, and keeps the invariant |
| Copying.FreeTablesAll | mm/memory.c:37-52 | freeing the tables of one task empties its directory entries, keeps the invariant and leaves every other task's names and contents as they were |
| Copying.CopyEntriesApart | mm/memory.c:93-113 | copying a table changes no name and no content outside the child's table |
| Copying.CopyEntriesMirrored | mm/memory.c:93-113 | after the loop over a table the child's entries name exactly the frames that the parent's entries name |
| Copying.CopyTablesAll | mm/memory.c:75-114 | the loop over directory entries, for every place at which it may run out of frames: the tables done so far are shared, the rest are empty, the invariant holds and other tasks are undisturbed |
| Copying.CopyTablePanicsExactlyWhen | mm/memory.c:75-77 | copying a table panics if and only if the child has one at that place, and then copies nothing |
| Segments.BaseRoundTrip | include/linux/sched.h:138-176 | get_base inverts set_base for every 32-bit base |
| Segments.SetBaseExactly | include/linux/sched.h:138-147 | what set_base leaves is the one descriptor with that base and with bytes 0, 1, 5 and 6 as before: limit, present bit, privilege, type and flags |
| Segments.BaseLeavesLimit | include/linux/sched.h:138-147 | set_base leaves the limit alone |
| Segments.LimitLeavesBase | include/linux/sched.h:149-159 | set_limit leaves the base alone |
| Segments.LimitRoundTrip | include/linux/sched.h:149-159 | the limit stored is the limit read, in pages or bytes as the granularity bit says, and bytes 2 to 5 and 7 and the upper half of byte 6 stay |
| Segments.VideoSegment | kernel/head.S:152-158 | descriptor 3 has privilege level 3, base 0xb8000 and a size of 256 MB, so it overlaps task 0's 16 MB and the slices of tasks 1 to 4 |
| Segments.TaskBase | kernel/fork.c:30-34 | nr * TASK_SIZE does not wrap, is aligned to a page table, and selects the task's own slice of sixteen directory entries |
| Fork.TablesCover | mm/memory.c:34 | the number of page tables for a size is the least that covers it; a size in the last 4 MB of the address space wraps to none |
| Fork.CandidateValue | kernel/fork.c:111 | the k-th id tried after pid counts up and wraps from the largest int to 1 |
| Fork.NextPidFree | kernel/fork.c:107-117 | the id search ends after at most one more step than there are ids in use, skips only ids in use, and returns an id from 1 up that is not |
| Fork.EmptySlot | kernel/fork.c:119-125 | the lowest empty slot from 1 up, or -EAGAIN if there is none |
| Fork.CountsDetermined | mm/memory.c:9-142 | `mem_map` is determined by what tables and slots name, so names that are back mean counts that are back |
| Fork.ForkSucceeds | kernel/fork.c:42-104 | if no table allocation fails, the child maps exactly what the parent maps, has the new id, the parent's state, counter and priority, and segments of its own with the parent's limits and attributes, and all else is as before |
| Fork.ForkFails | kernel/fork.c:34-37 | if any table allocation fails, every count, directory entry, slot and page content is as before the call |
| Fork.NoFrameForPcb | kernel/fork.c:49-52 | without a frame for the control block nothing changes and the result is -EAGAIN |
| Fork.CopyProcessOutcome | kernel/fork.c:42-104 | a positive result means the task was made, any other result is -EAGAIN and means complete rollback, and the boot-time fork succeeds |
| Fork.FirstForkWorks | kernel/main.c:52 | memory suffices for task 0's fork |
| Fork.SysForkStep | kernel/sys_call.S:75-86 | fork either makes one task in the lowest empty slot with an unused id, or leaves everything but the id counter as it was |
| Refinement.ForkRefines | kernel/fork.c:42-104 | after a fork the child sees exactly what the parent sees, and no task sees anything else than before |
| Refinement.RollbackRefines | kernel/fork.c:93-97 | after a failed fork every task sees what it saw |
| Refinement.FaultPanicsExactlyWhen | mm/memory.c:145-149 | a write fault panics if and only if its address lies below the first task's |
| Refinement.FaultServed | mm/memory.c:120-156 | a served write fault gives the task a writable page with the same contents and disturbs no one |
| Refinement.FaultServedExactlyWhen | mm/memory.c:134-140 | the fault is served if and only if the page has one user or a frame is free; otherwise the page directory is overwritten with the page and the entry grants write access to it |
| Refinement.StoreRefines | mm/memory.c:145-156 | a user store anywhere in the task's slice of 64 MB, with the fault it may cause, changes one word of one page of one task in the eyes of all tasks |
| Video.InVideoIs | kernel/head.S:156 | the addresses of InVideo are the aligned words within base and limit of the descriptor |
| Video.PokeRefines | mm/memory.c:120-156 | a permitted store through the video segment keeps the invariant, control blocks, tables and everybody else's pages, and the tasks see no more of it than a store of the storing task to a page of its own |
| Video.PokeBreaks | mm/memory.c:120-156 | for every store that is not permitted there is a word whose store panics, breaks the invariant, or changes a table, a control block or another task's page |
| Video.PokeHarmlessExactlyWhen | mm/memory.c:120-156 | a store at an address of the video segment harms nobody, whatever the word, if and only if the page is absent, or it is the task's own slice and the store can be served, or the identity entry is writable and its frame belongs to nobody else |
| Runs.StepRefines | mm/memory.c:57-156 | every fork and every permitted store keeps the invariant, the uniqueness of ids, the segments and the identity map, and is a step of the machine that copies |
| Runs.RunRefines | mm/memory.c:57-156 | the same for every run of forks and permitted stores: what the tasks see at its end is what the machine that copies computes |
| Runs.Isolation | mm/memory.c:57-156 | over any such run, a page that its task does not store to keeps its contents, whatever other tasks do |
| Runs.OthersSpare | mm/memory.c:57-156 | no command of another task counts as a store of t to its own page |
| Runs.WriterAlone | mm/memory.c:109-111 | who may write to a page is its only user, so a fork that takes the write bit away leaves a fault that needs no frame |
| Runs.RollbackServes | kernel/fork.c:34-37 | after the rollback of a failed fork every command is possible that was possible before it; in particular every store that was served is served |
| Runs.FailedForkServes | kernel/fork.c:93-97 | the same for the system call: a fork that fails changes nothing that the tasks see and nothing that they may do |
| Shield.ForkShields | mm/memory.c:91-112 | the first fork takes the write bits of the identity map exactly for the first 640 KB of each 4 MB after the first |
| Shield.ShieldedWrites | mm/memory.c:105-112 | from then on the identity map is writable exactly below 4 MB and above 640 KB in each further 4 MB |
| Shield.ShieldedMayPoke | mm/memory.c:105-112 | and a store through it is permitted if and only if the address is such and the frame is nobody else's |
| Shield.VideoMemoryOpen | kernel/sched.c:206-225 | the stores of the built-in tasks, and all others below 4 MB, are permitted at any time |
| Boot.BootedGood | kernel/main.c:41-52 | the state after start-up satisfies the invariant, and task 0 may fork |
| Boot.FirstFork | kernel/main.c:52 | the first fork makes task 1 with id 1, which sees a window on the first 640 KB, the first 640 KB of each further 4 MB up to 16 MB as its own memory, and nothing else |
| Boot.TaskSegments | include/linux/sched.h:98-102 | in every good state, so at any time after the first fork, the code and data segments of task t are the words of INIT_TASK's with 4t in byte 7 |
| Boot.EveryRunRefines | kernel/main.c:52-59 | from power-on, after the first fork, in every run of forks and permitted stores: no panic, the invariant holds, the identity map stays as the first fork left it, and the tasks see a machine in which fork copies |
| Exhaustion.RoomForFork | kernel/fork.c:42-104 | a fork with an empty slot and six free frames succeeds |
| Exhaustion.FaultUnserved | mm/memory.c:134-140 | from power-on some permitted run of forks and stores leads to a store that cannot be served and overwrites the page directory |
| Exhaustion.ForkHalfWay | kernel/fork.c:34-37 | from power-on some permitted run leads to a fork that finds a frame for the control block, runs out of frames while it copies tables, and is rolled back |
| Exhaustion.PanicReached | mm/memory.c:147-149 | right after the first fork, task 1 makes the kernel panic by a store at 4 MB through the video segment |
| Exhaustion.IsolationBroken | kernel/head.S:156 | after one more fork, task 2 changes a page of task 1 by a store through the video segment |
| KernelCode.Kernel.constructor | kernel/head.S:109-134 | setup_paging, mem_init and sched_init establish the start-up state, whatever memory held |
| KernelCode.Kernel.SetupPaging | kernel/head.S:109-127 | the directory and the four tables map 16 MB onto itself |
| KernelCode.Kernel.MemInit | mm/memory.c:158-173 | exactly the frames between start and end become free, all others count 100, and HIGH_MEMORY is end |
| KernelCode.Kernel.FreePage | mm/memory.c:9-23 | the in-place code computes Machine.FreeFrame, and panics exactly on pages beyond memory and pages that are free |
| KernelCode.Kernel.GetFreePage | mm/swap.c:3-27 | the in-place scan and clearing loop computes Machine.GetFree |
| KernelCode.Kernel.FreePageTables | mm/memory.c:25-55 | the in-place loops compute Fork.FreePageTables for any range of the tasks' directory entries, including the panics |
| KernelCode.Kernel.CopyPageTables | mm/memory.c:57-117 | the in-place loops compute Fork.CopyPageTables, including the panic on unaligned addresses and the early return without a frame |
| KernelCode.Kernel.UnWpPage | mm/memory.c:120-142 | the in-place code computes Machine.UnWp, with or without a free frame |
| KernelCode.Kernel.DoWpPage | mm/memory.c:145-156 | the in-place code computes Refinement.DoWpPage, including the panic below the first task |
| KernelCode.Kernel.FindEmptyProcess | kernel/fork.c:107-126 | the restarting search terminates and computes Fork.FindEmptyProcess |
| KernelCode.Kernel.CopyMem | kernel/fork.c:10-40 | the in-place code computes Fork.CopyMem: the panics on segments that do not agree, new bases, copy and rollback |
| KernelCode.Kernel.CopyProcess | kernel/fork.c:42-104 | the in-place code computes Fork.CopyProcess, in all its outcomes |
| KernelCode.Kernel.SysFork | kernel/sys_call.S:75-86 | the in-place code computes Fork.SysFork |
| Scheduler.SelectBest | kernel/sched.c:68-82 | the scan finds the runnable task of largest counter and, among those, highest number |
| Scheduler.LoopsForeverExactlyWhen | kernel/sched.c:67-94 | schedule fails to return if and only if all time is used up, no runnable task has a positive priority and one has priority 0; one refill is enough otherwise, and always with positive priorities |
| Scheduler.RefillExactly | kernel/sched.c:88-93 | the new slices are the table in which every task from slot 1 on, runnable or asleep, has one and a half times its priority rounded down, and slot 0, states and priorities are kept |
| Scheduler.ScheduleBest | kernel/sched.c:63-96 | new slices, of one and a half times the priority, only when all runnable tasks have used theirs; slot 0 only when nothing is runnable; otherwise the best task with time left; twice a counter stays within three times the priority |
| Scheduler.KernelTick | kernel/sched.c:49-58 | a tick that interrupts the kernel takes one from the current counter if there is time left, changes no other slot, and never switches |
| Scheduler.UserTick | kernel/sched.c:49-61 | in user mode schedule is called after that if and only if no time is left, so a task with time left is not switched away from in either mode |
| Scheduler.TickBounded | kernel/sched.c:49-61 | a tick in either mode keeps every counter from 0 to one and a half times the priority |
| Scheduler.TickShortensWait | kernel/sched.c:49-96 | every user-mode tick during which a runnable task is not current shortens its remaining wait |
| Scheduler.NoStarvation | kernel/sched.c:49-96 | a runnable task becomes current within the time left to all runnable tasks plus one round of slices plus one tick |
| SchedulerCode.Sched.SchedInit | kernel/sched.c:172-183 | every slot is empty afterwards, slot 0 included |
| SchedulerCode.Sched.Scan | kernel/sched.c:68-82 | the loop over task structures computes Scheduler.Select |
| SchedulerCode.Sched.Schedule | kernel/sched.c:63-96 | the loops over task structures compute Scheduler.Schedule and switch to the slot found |
| SchedulerCode.Sched.CurrentLost | kernel/sched.c:95 | with slot 0 empty, schedule leaves no current task if and only if no task is runnable |
| SchedulerCode.Sched.DoTimer | kernel/sched.c:49-61 | the tick computes Scheduler.Tick; in kernel mode, or with time left, current stays what it was |
| SchedulerCode.Sched.DoTimerOutside | kernel/sched.c:49-61 | the tick while no task in a slot is current: the counter of task 0, or without a current task the word at address 4, is counted down, and schedule is called when it is used up in user mode |
| SchedulerCode.SleepQueue.Enter | kernel/sched.c:112-117 | going to sleep pushes the caller on the stack of sleepers and puts it into the state asked for |
| SchedulerCode.SleepQueue.Resume | kernel/sched.c:119-143 | returning from schedule either pops the caller from the top or passes the wake-up to the top and sleeps again; the warning is not reached |
| SchedulerCode.SleepQueue.WakeUp | kernel/sched.c:154-162 | makes the top of the stack runnable and changes nothing else |
| WaitQueue.EnterSleeps | kernel/sched.c:115-117 | the caller becomes the head, in the state asked for, and every other sleeper keeps its state |
| WaitQueue.ResumeStates | kernel/sched.c:124-143 | behind another head a resumed sleeper makes the head runnable and sleeps uninterruptibly; as the head it leaves and makes the next one runnable; no other state changes |
| WaitQueue.StepKeepsChain | kernel/sched.c:98-144 | whatever happens, head and saved pointers link all sleepers once each; a sleeper leaves only from the top; `*p = NULL` is never reported |
| WaitQueue.RunIsStack | kernel/sched.c:98-162 | over every run the queue is the stack that arrivals and departures make |
| WaitQueue.LastInFirstOut | kernel/sched.c:112-143 | after any run the queue is an original sleeper and all those below it, with only later arrivals above |
| WaitQueue.StepMeasure | kernel/sched.c:119-162 | each resume takes one from the measure queue length plus runnable sleepers below the head; only arrivals and outside changes of state add to it |
| WaitQueue.StepKeepsLively | kernel/sched.c:119-162 | once somebody in the queue is runnable, somebody is until it is empty |
| WaitQueue.WakeUpDrains | kernel/sched.c:119-162 | after one wake-up, n sleepers leave within 2n - 1 resumes in whatever order runnable ones are picked, and somebody is runnable until then |
| WaitQueue.BoundReached | kernel/sched.c:119-143 | for every queue whose sleepers are all runnable there is a run of 2n - 1 resumes that drains it, so the bound is reached |
| WaitQueue.SleepersReady | kernel/sched.c:112-143 | such queues exist for every n |
| Terminal.FeedKeeps | kernel/chr_drv/console.c:155-202 | every character leaves the cursor on the screen |
| Terminal.ScrolledRows | kernel/chr_drv/console.c:81-131 | scrolling shows every row one line higher and a blank row at the bottom |
| Terminal.TextShown | kernel/chr_drv/console.c:164-174 | printable text that fits on the line appears from the cursor on, and no other cell changes |
| Terminal.LineFeedShown | kernel/chr_drv/console.c:133-140 | characters 10 to 12 move the cursor one line down in its column, and at the bottom every row one line up with blanks below |
| Terminal.ControlsShown | kernel/chr_drv/console.c:142-188 | carriage return and backspace move the cursor only, and all other unprintable characters do nothing |
| Terminal.DeleteShown | kernel/chr_drv/console.c:147-153 | delete blanks the cell before the cursor and no other, and moves there; in the first column it does nothing |
| Terminal.LineFull | kernel/chr_drv/console.c:164-174 | behind the last column a printable character goes to the start of the next line |
| Terminal.TabStopIs | kernel/chr_drv/console.c:191-193 | the tab stop is the first multiple of eight to the right |
| Terminal.TabShown | kernel/chr_drv/console.c:190-198 | a tab moves the cursor to that stop, or that minus the number of columns in the next line when it lies beyond the last column, and writes no cell |
| VideoMemory.ShowsExactlyWhen | kernel/chr_drv/console.c:81-238 | from any state of the console, every text is shown as the plain screen shows it if and only if (lines - 1) * columns is even |
| VideoMemory.ApplyShows | kernel/chr_drv/console.c:155-202 | one character has the effect on the visible screen that it has on the plain screen, unless the window is copied back with an odd number of cells |
| VideoMemory.OddWrong | kernel/chr_drv/console.c:93-104 | with an odd number of cells to keep, some text leads from any state to a wrong screen |
| VideoMemory.ApplyKeeps | kernel/chr_drv/console.c:155-202 | every character leaves the window in video memory and the cursor on the screen |
| VideoMemory.SlidePlace | kernel/chr_drv/console.c:81-118 | the window is copied back if and only if the next row does not fit into video memory; outside the bottom row, or behind the screen, video memory stays |
| VideoMemory.TabStaysExactlyWhen | kernel/chr_drv/console.c:190-198 | a tab leaves the cursor on the screen from every column if and only if there are at least four columns |
| VideoMemory.CopiedRightExactlyWhen | kernel/chr_drv/console.c:95-104 | copying back by double words, from any place in video memory of any size, is right for every content if and only if (lines - 1) * columns is even |
| ConsoleCode.Console.constructor | kernel/chr_drv/console.c:241-304 | con_init leaves a valid cursor if and only if the boot loader's lies on the screen, and writes the display's name at the end of the second row and nothing else |
| ConsoleCode.Console.GotoXY | kernel/chr_drv/console.c:44-53 | moves the cursor if the place is on the screen, and otherwise nothing |
| ConsoleCode.Console.GotoCursor | kernel/chr_drv/console.c:236 | going to the cursor's own place changes nothing |
| ConsoleCode.Console.MoveDwords | kernel/chr_drv/console.c:95-97 | the overlapping upward copy moves every double word before it is overwritten |
| ConsoleCode.Console.CopyBack | kernel/chr_drv/console.c:93-104 | the copy and the erasure together leave the bytes CopiedBack describes |
| ConsoleCode.Console.ScrollUp | kernel/chr_drv/console.c:81-118 | sliding or copying back, the code computes VideoMemory.Slide, for every geometry |
| ConsoleCode.Console.Lf | kernel/chr_drv/console.c:133-140 | the code computes VideoMemory.NextLine |
| ConsoleCode.Console.Cr | kernel/chr_drv/console.c:142-145 | the cursor returns to the first column and nothing else changes |
| ConsoleCode.Console.Del | kernel/chr_drv/console.c:147-153 | the code does what VideoMemory.Apply does for the delete character |
| ConsoleCode.Console.Put | kernel/chr_drv/console.c:209-233 | the code computes VideoMemory.Apply for every character |
| ConsoleCode.Console.PutTab | kernel/chr_drv/console.c:190-200 | the code computes VideoMemory.Tabbed, on screens of any width |
| ConsoleCode.Console.ConPrint | kernel/chr_drv/console.c:204-238 | the code computes VideoMemory.ApplyAll for every string, including the final gotoxy |
| TtyCode.RingPut | kernel/chr_drv/tty_io.c:23-26 | putting a character appends it to the queue, unless 1023 are there: then all are lost |
| TtyCode.RingGet | kernel/chr_drv/tty_io.c:29-33 | getting a character takes the oldest |
| TtyCode.TtyQueue.Chars | kernel/chr_drv/tty_io.c:17-20 | the number of characters in the queue |
| TtyCode.TtyQueue.Empty | kernel/chr_drv/tty_io.c:36-38 | whether the queue is empty |
| TtyCode.TtyQueue.Put | kernel/chr_drv/tty_io.c:23-26 | the ring behaves as RingPut says |
| TtyCode.TtyQueue.Get | kernel/chr_drv/tty_io.c:29-33 | the ring behaves as RingGet says |
| TtyCode.Tty.ConWrite | kernel/chr_drv/console.c:155-202 | empties the write queue, and the console has taken its characters in order, tabs included |
| TtyCode.Cook | kernel/chr_drv/tty_io.c:46-65 | the echo of one character has one or two characters, so the write queue never holds more than two |
| TtyCode.EchoNewline | kernel/chr_drv/tty_io.c:47-50 | Enter leaves the cursor in the first column of the next line, scrolled at the bottom |
| TtyCode.EchoExactly | kernel/chr_drv/tty_io.c:46-65 | a character is echoed as itself if and only if it is printable, delete, backspace, tab or carriage return; all others but newline, negative ones too, as a caret and the character 64 above |
| TtyCode.ControlShown | kernel/chr_drv/tty_io.c:60-63 | a control character shows as a caret and a letter from the cursor on, and no other cell changes |
| TtyCode.Tty.CopyToCooked | kernel/chr_drv/tty_io.c:40-69 | both queues end empty, and the console has taken exactly the cooked characters in the order they were typed |
| Format.DigitsFit | kernel/vsprintf.c:75-77 | a number below 2^k has at most k digits in any base |
| Format.WordDigits | kernel/vsprintf.c:37 | a word has at most 32 digits, so tmp does not overflow |
| Format.DigitsRead | kernel/vsprintf.c:75-77 | the digits read back as the number, for every base, without a leading zero |
| Format.FormattedLength | kernel/vsprintf.c:61-126 | the text is as long as the field, or as sign, prefix and the larger of precision and digits need |
| Format.FieldFilled | kernel/vsprintf.c:83-126 | a wider field adds spaces on the right or on the left of the unpadded text, or zeros exactly as a greater precision would |
| Format.BareText | kernel/vsprintf.c:54-123 | without a field the text is the sign and the prefix that the flags ask for, then figures: at least as many as the precision, all of the base, worth the number, without further leading zeros |
| Format.Looks | kernel/vsprintf.c:36-130 | a minus sign stands in the text if and only if a negative number is shown signed, a plus sign if and only if asked for and there is no minus, and letters are in the case asked for |
| Format.FormattedReads | kernel/vsprintf.c:36-130 | for every int, base, width, precision and flags the text reads as the number, signed or unsigned, the most negative int included |
| Format.Divide | kernel/vsprintf.c:72-78 | the division loop leaves the digits in tmp, last one first |
| Format.Number | kernel/vsprintf.c:36-130 | the code appends exactly the formatted text, and nothing for a base outside 2 to 36 |
| Format.SkipAtoi | kernel/vsprintf.c:18-26 | the int congruent to the value of the digits from the position on, and the position behind them |
| Format.SkipAtoiInverts | kernel/vsprintf.c:18-26 | skip_atoi inverts the plain decimal text of every non-negative int and stops right behind it |
| Strings.TokensAreRuns | lib/string.c:313-369 | the tokens are exactly the maximal runs of characters outside the delimiter set |
| Strings.TokensInside | lib/string.c:313-369 | each token is such a run, and they come from left to right without touching |
| Strings.Tokenizer.Skip | lib/string.c:331-339 | the first loop finds the first character that is no delimiter |
| Strings.Tokenizer.Scan | lib/string.c:344-351 | the second loop finds the first delimiter or the end |
| Strings.Tokenizer.Strtok | lib/string.c:313-369 | one call computes Strings.Call: token, buffer and ___strtok, also for NULL arguments and an empty delimiter set |
| Strings.CallsReturnTokens | lib/string.c:313-369 | successive calls return the tokens in order and then NULL for ever, changing the buffer only by a NUL behind each token returned |
| Strings.EmptySetReturnsNone | lib/string.c:321-330 | with an empty delimiter set every call returns NULL and leaves the buffer, and the string is forgotten |
| Strings.TokenText | lib/string.c:352-354 | from then on each returned pointer is a string of its own: the token |
| Strings.Compare | lib/string.c:217-220 | how far needle and haystack agree |
| Strings.Strstr | lib/string.c:207-232 | the first occurrence or NULL; stopping when the comparison fails on the NUL misses none, and an empty needle returns the haystack |
| BootSector.NextHead | bootsect.S:138-150 | the place behind the last sector of a track is the first of the next head, or of the next track |
| BootSector.LinearInjective | bootsect.S:108-113 | different tracks, heads and places are different sectors |
| BootSector.Loader.CountToRead | bootsect.S:126-136 | in 16-bit arithmetic: at least one sector, none beyond the track, none beyond 64 KB, and one of the two bounds is reached |
| BootSector.Loader.ReadTrack | bootsect.S:160-189 | after any number of read errors and retries the sectors asked for are at es:bx and nothing else has changed, under the bounds the BIOS demands |
| BootSector.Loader.AdvanceDisk | bootsect.S:138-150 | sector, head and track move on by the sectors read |
| BootSector.Loader.AdvanceMemory | bootsect.S:151-158 | es:bx moves on by as much, in 16-bit arithmetic with the carry into es |
| BootSector.Loader.ReadIt | bootsect.S:114-158 | for 6 to 63 sectors a track, sectors 5 to 388 end up at 0x10000 to 0x3ffff in order, nothing below changes, and the loop ends |

## Left out

- Kernel-mode writes, and task 0's own writes: they go around page protection. Frames below 1 MB appear in address spaces as windows, whatever the kernel does there.
- Refinement.StoreRefines: a store writes one aligned 32-bit word; a narrower store is the word store that puts back the other bytes.
- Boot.EveryRunRefines: runs are of permitted stores; what the others do is shown for the first of them (Refinement.FaultServedExactlyWhen, Video.PokeBreaks), not what may follow once the page directory is overwritten.
- KernelCode.Kernel.FreePageTables: the in-place loops are proved for states that satisfy the invariant and ranges above the first task; the function covers every state.
- KernelCode.Kernel.CopyPageTables: the in-place loops are proved, for aligned addresses, for a fork in progress; the functions they compute, and Machine.FreeFrame and Machine.UnWp in particular, cover every state.
- KernelCode.Kernel.CopyMem: where the segments agree, the in-place code is proved for a fork in progress; Fork.CopyMem covers every state.
- KernelCode.Kernel.MemInit: memory is 16 MB, as on a machine with 15 MB of extended memory or more; other sizes are not modelled, and with this one the retry in get_free_page is never taken.
- KernelCode.Kernel.FreePage: a panic, which never returns in the original, sets a flag that no step clears; the main results show that it stays clear.
- Fork.CopyProcessOutcome: of the control block only the id and the segment descriptors are modelled; the registers of the task state segment, the parent pointer and the descriptor table entries are plain assignments.
- Scheduler.NoStarvation: the set of runnable tasks is fixed and the timer interrupts user mode; new tasks and sleepers are the subject of WaitQueue.
- Scheduler.RefillExactly: counters and priorities are integers; priorities are small enough for one and a half times the priority to fit a long.
- SchedulerCode.SleepQueue.Enter: the null queue pointer, which returns at once, and the panic for task 0 are not modelled.
- ConsoleCode.Console.constructor: the screen and the display's name are taken to fit into video memory; con_init does not check the sizes it was given.
- ConsoleCode.Console.ScrollUp: the branch for a scrolling region is not modelled, since top is 0 and bottom the number of lines from con_init on.
- TtyCode.Tty.ConWrite: screens have four columns or more; below that a tab leaves the cursor invalid (VideoMemory.TabStaysExactlyWhen), and what is stored after it may lie outside video memory.
- TtyCode.Tty.CopyToCooked: the keyboard interrupt that fills the read queue does not run during the loop.
- Format.Number: width and precision are far enough from the limits of int for their difference not to overflow, as the buffer would have to hold that many characters.
- BootSector.Loader.ReadTrack: a BIOS call copies sectors or fails, and fails finitely often; a drive that never obeys is retried for ever.
- Parsing of format strings, and the conversions of characters and strings, in vsprintf: they fetch arguments through raw pointers.
- Ports, interrupt controller, timer, keyboard tables, cursor and origin registers, TLB flushes, trap entries, gates and setup code: device effects only.
- The other functions of lib/string.c, and printk: easy loops.
