# JOS, modelled and proved in Dafny

JOS is a teaching kernel for several x86 CPUs, with a C library for its user programs. This project
models what keeps its programs apart and lets them share: memory, environments, copy-on-write
fork, scheduling, messages and user-level page faults, with the debugger's search and the formatter beside them. It proves of
each what the rest of the system relies on.

| files | what they model |
|---|---|
| `Mmu`, `FlatMemory`, `Represents`, `Pmap` | Physical pages and two-level page tables. `FlatMemory` is the specification: a map from (directory, page) to (frame, permission), with page tables, directories and the free list beside it. Reference counts are no part of it; `RefCount` computes them from the mappings. `Pmap.Machine` is the code: the array `pages`, the free list threaded through it and the words of memory, updated in place. `Represents.Rep` relates the two. |
| `EnvSpace`, `EnvIds`, `EnvTable`, `Syscalls`, `Kernel`, `Effects`, `Calls`, `Region` | Environments: creation and teardown of address spaces, ids, `envid2env`, and the system calls. `Syscalls` has the specification functions, `Kernels.Kernel` the code over the array of `struct Env`, `Effects` what the page calls mean, `Calls` what the others do field by field, and whom a call can reach. |
| `Hardware`, `KernMap`, `Access`, `FreeList` | The MMU's walk, the recursive page table, the kernel's part of the address space, what user code may read and write anywhere, the reordering of the free list. |
| `Cow`, `Fork` | Copy-on-write fork. `Cow` has the transitions and the eager machine they refine; `Fork` is `lib/fork.c` over `Kernels.Kernel`: the page-table reads through `uvpt`, the `memmove` word by word, the system calls. Each call there ensures that it is a step of `Cow` from any state it can be made in, so that calls of different environments can be put one after the other in any order. |
| `Smp`, `Sched`, `Spinlock`, `Agree` | CPUs, the big kernel lock, the scheduler, and the lock itself one memory access at a time. `Agree` ties the scheduler's view of a call to that of `Syscalls`. |
| `Ipc`, `Sieve`, `Channel` | The rendezvous, the prime sieve built on one-place channels, and that the former gives the latter. |
| `Basics` | 32-bit wrap-around and the size of a subset. |
| `Upcall` | The user page-fault frame and the instructions that undo it. |
| `Stab`, `Numbers`, `Printf`, `Formats` | `stab_binsearch`; `printnum` and `strtol`; `vprintfmt` and `vsnprintf`; what each conversion shows. |

How the pieces fit: a method of a class ensures that the new state is a function of the old one (`Insert`,
`Syscalls.PageMap`, `Smp.SchedYield`, `Stabs.BinSearch`, ...), and lemmas about that function state what it is for. Hidden
state never leaks: `SameOff` says of every kernel call that frames which are neither directories nor
page tables keep their contents.

Where the code does less than its comments say, the code is followed:

- `fork` returns 0, as if in the child, when `sys_exofork` fails (lib/fork.c:115-117, 152-157): exactly when no environment slot or no page is free, as `Forks.Fork` says. In `user/primes.c` this
  makes a stage that cannot fork start over as its own successor; `Sieve` covers the runs in which forks succeed.
- The upcall does not return to a trap-time stack pointer of exactly `UXSTACKTOP`: its scratch word is the frame's
  own esp slot. `Upcall.RoundTrip` has the exact condition.
- `stab_binsearch` can give a wrong bracket when both the address and its successor have an entry, and when the
  address 2^32 - 1 has one. `Stabs.RightIff` has the exact condition.
- `stab_binsearch` is to leave left above right for an address that is in no entry. Before the first entry it gives an
  interval instead; only a table without entries of the type is told apart. `Stabs.NotContained` has both results.
- A number padded with `-` is not read back by `strtol`. `Numbers.ReadBack` has the exact condition.
- `sys_env_set_status` on another environment that is on a CPU or waits to receive, and a second destruction of a zombie, break
  the scheduling invariant. `Smp.StepExact` has the exact condition.
- `sys_page_alloc` leaves the words of its page as they were in the frame, so the page is zero, as its comment says, if and only if the frame
  at the head of the free list was (`Forks.AllocPage`); one that has just been given up is not cleared (`Forks.Reuse`).
- The address test of the page calls lets misaligned addresses from 0x80000000 up pass; they stand for the page that contains them
  (`Syscalls.VaBad`).

## Model

| member | source | states |
|---|---|---|
| Pmap.Machine.constructor | kern/pmap.c:302-345 | page_init lists exactly the pages of base memory but page 0 and the AP boot page, and those from `low` on, each in front of the lower ones; nothing is mapped, and the page array and the memory words stand for that state |
| Pmap.Machine.PageAlloc | kern/pmap.c:359-381 | takes the head of the list and zeroes it if asked; NULL exactly when the list is empty, and then nothing changes |
| Pmap.Machine.PageFree | kern/pmap.c:387-404 | pushes an unreferenced, unlinked page on the head of the list, and the links spell the new list |
| Pmap.Machine.PageDecref | kern/pmap.c:410-415 | one reference less, and on the list when it was the last, whose links spell it |
| Pmap.Machine.PgdirWalk | kern/pmap.c:439-471 | the entry's address; with create, a missing page table is taken, zeroed, counted and hung in; without a page nothing changes |
| Pmap.Machine.PageLookup | kern/pmap.c:555-577 | the mapped frame or NULL, and where its entry is; nothing changes |
| Pmap.Machine.PageRemove | kern/pmap.c:594-614 | deletion from the map; the frame is freed with its last name; words outside tables untouched |
| Pmap.Machine.PageInsert | kern/pmap.c:522-542 | an update of the map at one page, -E_NO_MEM and no change at all if there is no page for a table |
| FlatMemory.InsertPathIsInsert | kern/pmap.c:532-539 | remove, take the page back from the head of the list if it has just landed there, write the entry: the same as one update of the map, whatever the count, including re-insertion of the last mapping |
| FlatMemory.RetakeHead | kern/pmap.c:532-539 | the page is at the head of the list after the removal exactly when its last mapping was just removed |
| FlatMemory.RemoveFrees | kern/pmap.c:594-614 | page_remove frees a frame exactly when the page was its last mapping |
| FlatMemory.Named | kern/pmap.c:359-415 | the count is 0 exactly when no directory root, directory entry or page-table entry names the frame |
| FlatMemory.RemoveOk | kern/pmap.c:594-614 | page_remove keeps the invariant of pages, tables and counts |
| FlatMemory.WalkOk | kern/pmap.c:439-471 | so does a walk that makes a table, and it maps nothing |
| Represents.CountersExact | kern/pmap.c:359-415 | pp_ref equals the number of directory roots, directory entries and user page-table entries that name the page; the free list has no repetition and holds exactly the pages with count 0 that are not in hand |
| Represents.RepRemove | kern/pmap.c:410-415 | the writes of page_decref and page_remove keep the words and counters in step with the map |
| Represents.RepAddMap | kern/pmap.c:522-542 | so do the counter and the entry written by page_insert |
| Represents.RepDropTable | kern/env.c:429-477 | so does giving up a page table with no mapping left |
| Effects.InsertCounts | kern/pmap.c:522-542 | page_insert counts one name more for the frame inserted, one less for the frame replaced, and one for a new page table; every other count stays |
| FreeLists.LowFirst | kern/pmap.c:765-779 | the in-place partition: low pages first, each part in its old order, counters untouched |
| FreeLists.LowBeforeHigh | kern/pmap.c:765-779 | no page whose directory entry is at the limit or above comes before one below it |
| FreeLists.PartOrder | kern/pmap.c:765-779 | two pages of one part stand in the order they had |
| FreeLists.SamePages | kern/pmap.c:765-779 | the reordered list has the same pages, each once |
| EnvSpace.EnvSetupVm | kern/env.c:166-209 | a new directory, a copy of the kernel's with itself at UVPT; -E_NO_MEM changes nothing |
| EnvSpace.EnvFree | kern/env.c:429-477 | the three nested loops amount to FreeEnv on the map |
| EnvSpace.FreeEnvEffect | kern/env.c:429-477 | every mapping and table of the environment is gone, those of all others are the same, the invariant holds |
| EnvSpace.FreeEnvCounts | kern/env.c:429-477 | each frame's count drops by exactly this environment's names for it |
| EnvSpace.FreeEnvReturns | kern/env.c:429-477 | a frame is free afterwards exactly when it was free or only this environment named it |
| EnvSpace.FreeEnvReturnsTables | kern/env.c:429-477 | its page tables and its directory are among them |
| EnvSpace.LifeRestoresFree | kern/env.c:166-477 | env_alloc, then any mappings that share nothing, then env_free: the same frames are free |
| Regions.RegionAlloc | kern/env.c:292-320 | every page of the range is backed by a writable frame mapped nowhere else; mappings outside the range stay; it panics only with no page left |
| EnvIds.NextIdKeeps | kern/env.c:233-237 | ids are positive, carry the slot in the low ten bits, and the next differs from the last |
| EnvIds.IdPeriod | kern/env.c:233-237 | a slot's ids repeat after n allocations exactly when 2^19 - 1 divides n, under 32-bit wrap-around |
| EnvTable.ResolveExact | kern/env.c:75-109 | envid2env finds a slot exactly when a live environment there has that id |
| EnvTable.ResolveChecked | kern/env.c:75-109 | with the permission check it finds a slot exactly for the caller itself, by 0 or by its id, and for a live environment with that id whose parent is the caller |
| EnvTable.LiveIdsDistinct | kern/env.c:75-109 | no two live environments share an id |
| EnvTable.EnvAllocOk | kern/env.c:219-283 | a free slot and a free page become a live environment with a fresh id; failure changes neither ids nor lists |
| EnvTable.ReleaseEnvOk | kern/env.c:429-477 | a freed slot and its directory leave the table in order |
| Calls.EnvAllocEffect | kern/env.c:219-283 | when each error is returned; on success the first free slot has a new id, the given parent, an empty space of its own, no upcall, and does not receive; no other record or mapping changes |
| Kernels.Kernel.constructor | kern/env.c:117-133 | env_init: all slots free with id 0, listed in table order |
| Kernels.Kernel.Envid2Env | kern/env.c:75-109 | the slot or -E_BAD_ENV, with the permission check |
| Kernels.Kernel.EnvAlloc | kern/env.c:219-283 | the new table, free list and memory, or the error and no change |
| Kernels.Kernel.ReleaseEnv | kern/env.c:429-477 | env_free on the table and the memory |
| Kernels.Kernel.SysEnvDestroy | kern/syscall.c:52-67 | an environment that runs on another CPU becomes DYING, any other is freed |
| Kernels.Kernel.SysExofork | kern/syscall.c:79-97 | an empty child that does not run and will see 0 |
| Kernels.Kernel.SysPageAlloc | kern/syscall.c:164-191 | result and new state, each error in the code's order; a failed insertion gives the page back |
| Kernels.Kernel.SysPageMap | kern/syscall.c:209-245 | result and new state, each error in the code's order |
| Kernels.Kernel.SysPageUnmap | kern/syscall.c:254-267 | result and new state |
| Kernels.Kernel.SysEnvSetStatus | kern/syscall.c:106-127 | result and new table |
| Kernels.Kernel.SysEnvSetPgfaultUpcall | kern/syscall.c:137-146 | result and new table |
| Kernels.Kernel.SysIpcTrySend | kern/syscall.c:307-349 | result and new state, with the page transfer |
| Kernels.Kernel.SysIpcRecv | kern/syscall.c:362-382 | result and new table, up to the yield |
| Calls.ExoforkEffect | kern/syscall.c:79-97 | when each error is returned; on success the child is a new environment of the caller's, not runnable, that sees 0 where the caller sees the child's id, and every other record and all mappings stay |
| Calls.DestroyEffect | kern/syscall.c:52-67 | an environment running elsewhere is marked DYING and keeps everything; any other is FREE, its slot first on the list, its directory and exactly its mappings gone |
| Calls.StatusEffect | kern/syscall.c:106-127 | only RUNNABLE and NOT_RUNNABLE can be set, the status is looked at before the id, and nothing but the status of the one record changes |
| Calls.UpcallEffect | kern/syscall.c:137-146 | the same for the upcall |
| Calls.RecvEffect | kern/syscall.c:362-382 | -E_INVAL exactly for a misaligned user address; the page asked for is the one recorded, none for an address above user memory; the caller waits and no other record changes |
| Calls.ScheduleEffect | kern/env.c:532-569 | env_run's status writes touch only environments that can run, and nothing else of them |
| Calls.Protected | kern/env.c:97-105 | no call changes the record or the mappings of a live environment unless the caller is that environment or its parent, or the call is a send that names it |
| Calls.Isolated | kern/env.c:97-105 | the same over every run of kernel operations |
| Agreement.CallIsEffect | kern/syscall.c:52-382 | each system call changes statuses and receivers in the table exactly as its operation in the model of the scheduler does |
| Effects.PageAllocEffect | kern/syscall.c:164-191 | the four possible results, exactly when each error is returned (by address, permission bits, and free pages against those the frame and, if missing, its page table take), and that it changes nothing; on success one page is backed, with the permission asked for, by a frame nothing named before, with count 1 |
| Effects.PageMapEffect | kern/syscall.c:209-245 | the four possible results and exactly when each error is returned; on success the destination names the source's frame, its count grows by one unless it was there already, and no write permission is created; failures change nothing |
| Effects.PageUnmapEffect | kern/syscall.c:254-267 | the page is gone, the count drops by one, the frame is free exactly if that was its last mapping |
| Syscalls.DoGood | kern/syscall.c:52-382 | every call of the table of system calls that touches environments or memory, the marking and reaping of zombies and the scheduler's status writes keep the invariant of tables, ids, pages and counts |
| Syscalls.RunGood | kern/pmap.c:359-614 | in every reachable state of any sequence of operations a managed page is free exactly when its count of names is 0 |
| Hardware.UserWalk | kern/pmap.c:439-471 | below UTOP the MMU translates exactly as the map says |
| Hardware.VirtualPageTable | inc/memlayout.h:150-165 | the word at UVPT + 4n is the page-table entry of page n |
| Hardware.VirtualDirectory | lib/entry.S:18 | the words at uvpd are the directory's |
| Hardware.ForkReads | lib/fork.c:123-134 | fork's reads of uvpd and uvpt are the true tables of its own map |
| Access.UserWrites | inc/memlayout.h:20-165 | over all 4 GB, user code can write exactly the pages its own map has below UTOP with the user and write bits; above it can read the windows onto pages and envs, and nothing else but page tables |
| Access.BelowUtop | inc/mmu.h:58-60 | below UTOP the page-table entry alone decides: the directory entries above it are open |
| Access.VirtualTablesReadOnly | lib/entry.S:18 | the virtual page table cannot be written by user code, and can be read where the directory entry can |
| Access.KernelDirectory | kern/pmap.c:195-288 | in the directory mem_init leaves user code may read the two windows and nothing else, and write nothing |
| KernMap.Boot.MapRegionAtBoot | kern/pmap.c:484-495 | boot_map_region maps each page of the region to its frame and nothing else, making the page tables it needs |
| KernMap.MemInit | kern/pmap.c:195-288 | the directory mem_init and mem_init_mp build, region by region |
| KernMap.KernelTranslates | kern/pmap.c:926-958 | for every page above UTOP but the virtual page table's, what that directory translates it to: the linear windows, the per-CPU stacks in place of the boot stack, and nothing elsewhere |
| KernMap.CheckStacks | kern/pmap.c:948-958 | the stack clauses of check_kern_pgdir: in the directory so built the MMU's walk finds each CPU's stack pages in its own frames, and nothing in the guard pages |
| KernMap.StacksDisjoint | kern/pmap.c:264-288 | the walk leads no two stack pages to the same frame |
| Cow.BeginRefines | lib/fork.c:44 | the private page at PFTEMP is seen by nobody, and joins the scratch pages of other handlers without meeting them |
| Cow.CopyWordRefines | lib/fork.c:45 | one word of the memmove changes nothing that any program sees, and the source cannot change while it is copied |
| Cow.RemapRefines | lib/fork.c:46 | the finished copy takes the place of the shared page without a visible change |
| Cow.DropRefines | lib/fork.c:47 | nor does the last call show, after which a writable frame is mapped at one place again |
| Cow.FrameRefines | kern/trap.c:421-443 | a frame on an exception stack reaches no page that a program sees |
| Cow.DupRefines | lib/fork.c:62-90 | sharing a page copy-on-write looks exactly like copying it, also while other environments are inside faults on the same frame, and whatever the call writes to page tables |
| Cow.ElsewhereRefines | kern/env.c:166-209 | writes to frames that nobody maps, page tables and directories, are seen by no program and disturb no handler |
| Cow.ForkIsRun | lib/fork.c:119-139 | the transition of a whole fork is a run of one duppage for each page and the allocation of the child's exception stack |
| Cow.ForkRefines | lib/fork.c:108-161 | fork looks like copying every page but the exception stack |
| Cow.StepRefines | user/dumbfork.c:25-38 | every load, store, duppage, allocation, unmapping and exit, with the page-table words it writes, and every single call and copied word of a fault, is the same step of the machine that copies eagerly, with the same output |
| Cow.RunRefines | lib/fork.c:14-161 | over all runs, any tree of forks and any interleaving of calls, between the duppages of several forks and between the calls and words of several faults at once, every load returns and every access traps as if each page had been copied; the exception stack and PFTEMP are not program pages, and the upcall's word below the stack pointer is an act of both machines |
| Cow.ProgramSees | lib/fork.c:14-161 | a program that loads no word an upcall left below its stack pointer gets the same outputs from the machine in which no fault ever happens |
| Forks.StoreUser | kern/pmap.c:439-471 | a store takes effect exactly on a page mapped writable, and changes one word of its frame |
| Forks.AllocPage | kern/syscall.c:164-191 | sys_page_alloc of a private writable page is the Alloc step of Cow, whoever else is inside a fault; the page has the words its frame had, so it is zero only if the frame was; a failure shows nowhere |
| Forks.Reuse | kern/syscall.c:150-191 | an input on which the page is not zero: a page unmapped by its only holder and allocated again, anywhere in that space, has the words it had |
| Forks.UnmapPage | kern/syscall.c:254-267 | sys_page_unmap is the Unmap step |
| Forks.Release | kern/env.c:429-477 | env_free of any environment, one inside pgfault too, is the Exit step |
| Forks.Destroy | kern/syscall.c:52-67 | sys_env_destroy is that Exit, or a step that no program sees, and which of the two |
| Forks.Exofork | kern/syscall.c:79-97 | sys_exofork, which fills a directory, is a step that no program sees |
| Forks.BeginFault | lib/fork.c:44 | the first system call of pgfault is the Begin step of Cow |
| Forks.CopyOneWord | lib/string.c:141-170 | one word of the memmove is the CopyWord step of Cow |
| Forks.Memmove | lib/string.c:141-170 | the whole memmove is a run of such steps, after which the destination page has the contents of the source page and nothing else has changed |
| Forks.RemapFault | lib/fork.c:46 | the sys_page_map of pgfault is the Remap step of Cow and cannot fail |
| Forks.DropFault | lib/fork.c:47 | its sys_page_unmap is the Drop step |
| Forks.Pgfault | lib/fork.c:14-49 | which faults are handled, which panic, which fault again; a handled one is the run FaultActs of Cow, and left alone gives the page a private copy |
| Forks.FaultAt | kern/trap.c:421-443 | the frame of the trap-time state on the exception stack, and pgfault, which takes the address and the error code from it, are a run of Cow that no program sees; the frame is still there when the handler returns; the handler fails exactly on a page that is not copy-on-write |
| Forks.StoreScratch | lib/pfentry.S:68-72 | the upcall reads the trap-time eip and stack pointer back from that frame and stores the eip below the pointer, where ret will find it; possible exactly if that page is writable or copy-on-write |
| Forks.StoreLate | lib/pfentry.S:68-89 | if that store faults itself, a second frame is pushed, its handler runs, its upcall writes the reserved word, and the store is made with the registers that come back from the second frame |
| Forks.UserStore | lib/fork.c:14-49 | a store with all its faults, frames, the word below the stack pointer and the retry is a run of Cow that ends with that Store; it traps exactly on a page neither writable nor copy-on-write, and the environment is lost in the handler exactly if the page faulted and the one below the stack pointer cannot be stored to |
| Forks.Duppage | lib/fork.c:62-90 | both spaces map the frame without write permission, and all data stay; it is the Dup step of Cow from any state, with other environments inside faults, and panics only when memory is exhausted, with nothing changed |
| Forks.CopySpace | lib/fork.c:119-136 | the two loops visit exactly the mapped pages below UTOP but the exception stack, and are a run of one Dup after the other over the kernel's own states |
| Forks.FillChild | lib/fork.c:119-139 | with the child's exception stack they are the run ForkActs and Alloc, and together the transition ForkStep; a panic means that at most one page was left |
| Forks.Fork | lib/fork.c:108-161 | a successful fork is the transition ForkStep and a run of Cow whose acts are sys_exofork's, one Dup for each page and the Alloc; the child is a new environment of the parent's that sees 0 and is runnable with the parent's upcall, and every other record stays; 0 is returned exactly if no slot or no page was free, and nothing changes; a panic means that at most one page was left |
| Smp.StepExact | kern/trap.c:305-365 | a step, the two tests at the entry of trap and each lock acquisition among them, keeps the scheduling invariant if and only if it is none of the three forbidden calls |
| Smp.RunSafe | kern/trap.c:305-365 | in every run no environment is current on two CPUs, each RUNNING or DYING one is current somewhere, a CPU in user mode runs a RUNNING or DYING one; a CPU works only with the lock and never waits for one it holds, has taken and released it once for every entry when it leaves, and passes assert(curenv); while one is in the monitor no other has an environment |
| Smp.ArriveRuns | kern/trap.c:316-332 | with the lock free the tests of cpu_status and of the trap's origin lead to the table by exactly one acquisition |
| Smp.WakeBreaks | kern/syscall.c:106-127 | after the forbidden wake-up of a receiver one yield and one send make an environment RUNNABLE that is current on a CPU |
| Smp.WakeCanBreak | kern/syscall.c:106-127 | a state of the invariant, with two CPUs and three environments, in which this happens |
| Smp.OneRelease | kern/sched.c:59-101 | every visit to the kernel releases the lock exactly once, or ends in the monitor with it, and touches no other CPU |
| Smp.ScanChoice | kern/sched.c:32-50 | sched_yield chooses a RUNNABLE environment or its own RUNNING one, never one running elsewhere |
| Smp.ScanFirst | kern/sched.c:32-50 | the choice is the first RUNNABLE slot in circular order |
| Smp.HaltExact | kern/sched.c:59-101 | the monitor is entered exactly when every environment is free or not runnable; otherwise the CPU halts without an environment and gives the lock back |
| Smp.YieldExact | kern/sched.c:11-54 | an environment is run exactly when another is RUNNABLE or the CPU's own is RUNNING; that one is RUNNING and current, the old one can run again, and no other record changes |
| Smp.ServeExact | kern/trap.c:316-366 | a trap that does not give up the CPU comes back to its environment if that still runs; one that does lets another run if one can |
| Smp.NoDeadlock | kern/trap.c:316-366 | outside the monitor every CPU can take a step, a halted one too, or waits for the lock while the CPU that has it can |
| Smp.ScanNearest | kern/sched.c:29-48 | the environment chosen is the RUNNABLE one nearest behind the current one, going round, or the lowest without a current one |
| Smp.ZombieFreed | kern/trap.c:334-341 | an environment marked DYING is freed when it next traps, whatever it asks for |
| Smp.StopStops | kern/syscall.c:106-127 | setting ENV_NOT_RUNNABLE stops the target, also when it is the caller |
| Smp.StaysStopped | kern/sched.c:32-50 | no step of any CPU runs a stopped environment until somebody wakes it |
| Smp.YieldNearer | kern/sched.c:32-50 | one yield runs a RUNNABLE environment or makes its circular distance strictly smaller |
| Smp.StepNearer | kern/sched.c:32-50 | no step of any CPU takes a waiting environment farther from a CPU whose curenv is kept, and a yield of that CPU brings it nearer |
| Smp.BoundedWaiting | kern/sched.c:32-50 | in a run, while an environment waits RUNNABLE and a CPU's curenv is not reset, that CPU yields at most as often as the environment is distant: by the next yield it has run |
| Schedulers.Table.YieldCpu | kern/sched.c:11-54 | the scan loop leaves the state the specification gives, with the invariant restored and the lock given back |
| Schedulers.Table.Halt | kern/sched.c:59-101 | enters the monitor, with the lock, exactly if no environment is RUNNABLE, RUNNING or DYING, and otherwise halts and releases it |
| Schedulers.Table.Run | kern/env.c:532-569 | the old environment RUNNABLE again if it was RUNNING, the new one current and RUNNING, the lock released, and the invariant restored |
| Schedulers.Table.DestroyEnv | kern/env.c:484-501 | an environment running elsewhere becomes DYING, any other FREE |
| Schedulers.Table.Handle | kern/trap.c:258-302 | the effect of each kind of trap, whether it comes back, and that a harmless one leaves only the choice of what runs next open |
| Schedulers.Table.Trap | kern/trap.c:304-365 | from the first test to the way out: exactly one acquisition, of a lock the CPU does not hold, assert(curenv) passed, the lock given back, and after a harmless call the invariant |
| Spinlock.StepInv | kern/spinlock.c:38-120 | every read, write and exchange keeps the lock word, its owner field and the CPUs' positions consistent |
| Spinlock.LockSafe | kern/spinlock.c:38-120 | in every interleaving at most one CPU is in the critical section, neither debug panic is reached, and holding() is right for the CPU that asks |
| Spinlock.FreeIsTaken | kern/spinlock.c:61-79 | a free lock is taken by whoever asks next, in four accesses if nobody comes in between |
| Spinlock.OwnerReleases | kern/spinlock.c:81-120 | and its owner gives it back in five |
| Spinlock.ExchangeDecides | kern/spinlock.c:71-72 | a CPU at the exchange gets the lock exactly if nobody owns it, and changes nothing otherwise |
| Ipc.SendOutcome | kern/syscall.c:307-349 | a failed send leaves everything as it was; a successful one fills the fields, the receiver is runnable and its ipc_recv returns 0, and perm is nonzero exactly when the sender's frame went into the page asked for |
| Ipc.SendErrors | kern/syscall.c:307-349 | exactly when each of the four errors is returned |
| Ipc.PageArrives | kern/syscall.c:307-382 | after a receive at dstva the next send that reaches the receiver, whatever others do in between, puts the sender's frame into page dstva with the permission reported, if both gave an address, and otherwise no page goes |
| Ipc.FieldsStable | kern/syscall.c:307-382 | between a delivery and the next receive no call of anyone changes the receiver's fields |
| Ipc.ExactlyOnce | lib/ipc.c:22-74 | in every run the messages a receiver's completed receives return are the successful sends to it, each once and in order |
| Sieve.NextPrime | user/primes.c:13-36 | the least number from 2 up that the first k primes do not divide is the next prime |
| Sieve.FilterStream | user/primes.c:31-35 | filtering the survivors of some primes by one more leaves the survivors of all |
| Sieve.NextInv | user/primes.c:13-52 | every receive, filter, send and fork keeps each stage's streams consistent with its neighbours' |
| Sieve.Flow | user/primes.c:13-36 | what reaches a stage is a prefix of the integers from 2 that the primes before it do not divide |
| Sieve.SievePrints | user/primes.c:13-52 | in every run the values printed are the primes in order with none missed, the first value to reach stage k is the k-th, and it forwards a prefix of the survivors |
| Sieve.CanMove | user/primes.c:13-52 | in every reachable state some environment of the chain can go on: the generator can feed, or a stage can ask, pass on, take or fork |
| Channels.ChannelNext | lib/ipc.c:22-74 | each kernel call and each return from ipc_recv is one step of the receiving stage's channel: a send that arrives finds the stage waiting and its place empty, a receive begins to wait, a return takes the value, and every other call of anyone leaves the channel alone |
| Channels.SendExact | lib/ipc.c:56-74 | a send without a page arrives exactly if the stage waits; otherwise the answer is -E_IPC_NOT_RECV and nothing changes |
| Channels.PassIsSend | user/primes.c:31-35 | the send of a filter with a value in hand takes the chain over the kernel to the chain after Pass |
| Channels.FeedIsSend | user/primes.c:49-51 | and that of the generator to the one after Feed |
| Channels.AskIsReceive | lib/ipc.c:22-47 | sys_ipc_recv of a stage is Ask |
| Channels.TakeIsReturn | lib/ipc.c:22-47 | and its return is Take, which has a value to take |
| Channels.ForkIsExofork | user/primes.c:24-28 | sys_exofork by the last stage appends a stage that has received nothing |
| Channels.OtherCall | kern/syscall.c:52-382 | no other call of these environments or of others changes the chain |
| Upcall.UnwindStraight | lib/pfentry.S:39-89 | without a fault on the way, the upcall's return is its twelve instructions in a row |
| Upcall.RoundTrip | lib/pfentry.S:39-89 | after a handler that kept its frame, the twelve instructions restore every register, eflags, eip and esp if and only if the trap-time esp is not UXSTACKTOP (or eip happens to be UXSTACKTOP - 4), and write two words only, whether or not the store of the eip faults |
| Upcall.LateFault | lib/pfentry.S:71 | a fault at the upcall's own store comes back to it with the registers and the frame as they were |
| Upcall.ScratchApart | kern/trap.c:421-443 | the scratch word overlaps the frame only for that esp; in a nested fault it is the reserved word |
| Upcall.FramePlace | kern/trap.c:421-431 | the frame lies 52 bytes below the top of the exception stack, or 56 below a stack pointer that is on it; there is no room exactly for a stack pointer in the lowest 56 bytes |
| Upcall.PushHolds | kern/trap.c:421-443 | the frame the kernel pushes has the address and the error code of the fault in its two lowest words, then the trap-time state; the upcall starts with the stack pointer at it, and no other word changes |
| Upcall.EnterHolds | lib/pfentry.S:36-38 | the handler's argument is the address of that frame, under the return address |
| Upcall.Undisturbed | lib/pfentry.S:32-89 | whatever faults are nested in a handler's run, its frame and everything above it survive |
| Upcall.NestedFault | lib/pfentry.S:32-89 | a fault nested in a handler or in the upcall, at any depth, returns to its trap-time state with everything from its stack pointer up unchanged |
| Upcall.FirstFault | kern/trap.c:368-444 | the same for the first fault, with a fault at the upcall's store or without, under the condition of RoundTrip |
| Upcall.FrameLimit | kern/trap.c:421-431 | at most 73 frames are on the exception stack, those of faults in the upcall included |
| Upcall.FramesFit | kern/trap.c:421-431 | 73 frames pushed back to back fit and the 74th does not |
| Stabs.StabBinsearch | kern/kdebug.c:59-103 | the loop computes BinSearch and terminates on every table and address |
| Stabs.TurnProgress | kern/kdebug.c:62-92 | every turn shortens the interval, or is an exact match that will not match again |
| Stabs.BracketsUnlessTrouble | kern/kdebug.c:26-58 | on a sorted table left is the last entry at or below the address and right the place before the next one, unless the address is present and its successor is too or is no 32-bit number |
| Stabs.RightIff | kern/kdebug.c:59-103 | the search is right for every part of the table if and only if that does not occur |
| Stabs.RightIffBeforeTop | kern/kdebug.c:85-92 | for the address 2^32 - 2 it is right if and only if that does not occur or the two entries are neighbours |
| Stabs.NotContained | kern/kdebug.c:35-38 | for an address below every entry: left exceeds right exactly if there is no entry of the type, and otherwise the results end just before the first entry |
| Stabs.WrongBetween | kern/kdebug.c:85-92 | the concrete regions on which it is wrong |
| Stabs.WrongAtTop | kern/kdebug.c:85-92 | the same for the address 2^32 - 1 |
| Numbers.Sink.PrintNum | lib/printfmt.c:37-52 | pad characters up to the width, then the digits, most significant first |
| Numbers.StrtolMethod | lib/string.c:239-284 | blanks, sign, base prefix, digits; the value under 32-bit wrap-around and the end position |
| Numbers.StrtolExact | lib/string.c:239-284 | for every string: blanks and tabs, a sign, a prefix by base, and the digits up to the first character that is none give the number they spell in 32 bits, negated after a minus sign, and the end of the digits |
| Numbers.DigitChars | lib/string.c:267-272 | which characters are which digits |
| Numbers.BaseDigits | lib/string.c:260-275 | the digits of a base are the first of them, in lower or upper case |
| Numbers.DigitsSpell | lib/printfmt.c:37-52 | the digits spell the number in the base, without a leading zero |
| Numbers.ReadBack | lib/string.c:239-284 | printnum emits max(width, digits) characters, and strtol reads back every number below 2^31 in bases 2 to 16 if and only if no '-' pads a nonzero number |
| Numbers.Sink.Putch | lib/printfmt.c:263-269 | every character is counted and the first ones are stored |
| Printf.Vprintfmt | lib/printfmt.c:84-245 | terminates on every format, reads nothing behind its NUL, and prints Expand of it |
| Printf.Rewind | lib/printfmt.c:238-242 | the rewind stops right behind the escape's '%' |
| Printf.UnknownEscape | lib/printfmt.c:238-242 | an unrecognized escape is reproduced literally, also at the end of the format |
| Printf.PrintString | lib/printfmt.c:177-190 | the string cut to the precision, padded on the left or, with '-', on the right |
| Printf.DecimalReadBack | lib/printfmt.c:192-200 | strtol reads back what %d printed for every int but the smallest, if and only if no blanks came between a minus sign and the digits |
| Formats.UnsignedShows | lib/printfmt.c:202-234 | %u, %o and %x show the argument, in 32 or with ll in 64 bits, in base 10, 8 and 16: lower-case digits that spell it, no leading zero, padded to the width |
| Formats.SignedShows | lib/printfmt.c:192-200 | %d shows a minus sign and the size of the number the bits mean |
| Formats.PointerShows | lib/printfmt.c:216-223 | %p is 0x and 32 bits in base 16, padded behind the 0x |
| Formats.UnsignedReadBack | lib/string.c:239-284 | strtol reads them back in their base if and only if no '-' pads a nonzero number |
| Formats.PointerReadBack | lib/string.c:256-258 | a pointer is read back in base 16 or an open base if and only if no blanks or '-' came behind the 0x of a nonzero number |
| Formats.StringShows | lib/printfmt.c:177-190 | %s: the characters up to the NUL or the precision, '?' for unprintable ones with '#', at the right end of the field or with '-' at the left |
| Formats.ErrorMessages | lib/printfmt.c:21-31 | %e: the message of each error code |
| Formats.ErrorNumbers | lib/printfmt.c:165-175 | an error code without a message is shown in decimal |
| Formats.CallErrors | inc/error.h:8-19 | the codes that the system calls return have the messages that name them |
| Formats.EscapePrints | lib/printfmt.c:98-154 | wherever it stands in a format, an escape with '0' or '-', a numeral and l's prints its conversion of the next argument with that padding, the width the numeral spells and that many l's; %% takes no argument |
| Formats.NumeralRead | lib/printfmt.c:120-153 | digits spell the width, or the precision if a width is set |
| Formats.StarRead | lib/printfmt.c:137-153 | a star takes the next argument in the place of a numeral |
| Formats.PointRead | lib/printfmt.c:141-144 | a point without a width before it makes the width 0 |
| Formats.IdShows | kern/env.c:281 | %08x prints eight hexadecimal digits that strtol reads back |
| Printf.Vsnprintf | lib/printfmt.c:271-286 | stores the first min(total, n - 1) characters and a NUL, and returns the total |

## Left out

- Devices and boot: console, timers, interrupt controllers, disk and ELF loading, entry assembly other than `_pgfault_upcall`; `readline`, the monitor's commands and `backtrace`.
- `user_mem_check`: it accepts any one matching bit and skips the last partial page. Its callers are modelled with the access granted where the page is mapped; in `page_fault_handler` the frame must lie in the one page of the exception stack.
- Permission words are taken within twelve bits: the code's test for stray bits is a logical not and always passes.
- TLB contents, caches, kernel-mode faults, and interrupts other than the timer.
- Mappings above UTOP are not counted (the code does not count them either). Directories share the kernel's page tables there; `Rep` keeps the shared entries equal.
- Pmap.Machine.PageInsert: the 16-bit counter is modelled modulo 2^16, and the caller must leave room for one more name.
- Kernels.Kernel.SysPageMap: asks that no page is mapped 65534 times or more, for the same reason; so does SysIpcTrySend.
- Kernels.Kernel.SysExofork: of the saved registers only eax is modelled; the others are copied by assignment.
- Forks.Pgfault: takes two free pages, a fault address below UTOP and off the exception stack, and an unused PFTEMP page for granted. The results of the system calls in it are not looked at by the code; with two pages free they are all 0.
- Forks.UserStore: the trap-time stack pointer is at least 4 and the word below it is under UTOP and neither on the exception stack nor on PFTEMP. One environment runs without interruption; that others may come in between any two of its steps is in `Cow.RunRefines`. What the handler's C code stores on the exception stack besides the frame, and the upcall's own store into the frame, are any number of Frame acts there; that all registers come back is `Upcall.RoundTrip`, over a memory of its own. A lost environment has panicked; its exit is `Forks.Destroy`.
- Forks.Fork: `set_pgfault_handler`, which allocates the parent's own exception stack, is not part of this model, and the method runs without interruption. Each of its calls is a step of `Cow` by itself (`Forks.Exofork`, `Forks.Duppage`, `Forks.AllocPage`), and in `Cow.RunRefines` acts of anybody may come between any two of them. That the acts form a run is stated for a parent that has PFTEMP unmapped and is not inside a fault.
- Forks.StoreUser: looks at the write bit only; every mapping a system call makes has the user bit. `Access.UserWrites` has both.
- Cow.RunRefines: one duppage, two system calls, is indivisible. An environment inside pgfault does nothing else, and nobody else changes its pages meanwhile. The eager machine keeps read-only pages read-only, which user/dumbfork.c does not; environments that map a writable page at two places with sys_page_map are outside it, as are pages sent by IPC. Loads of the exception stack and of PFTEMP are not described.
- Smp.BoundedWaiting: curenv is reset when a CPU halts, when its environment destroys itself and when it traps as a zombie; the bound starts anew then.
- Schedulers.Table.Trap: the CPU finds the lock free whenever it asks; waiting for it is in `Smp`.
- Smp.StepExact: environment ids, permissions and address spaces are not part of it; an operation names the slot its envid resolved to. sched_yield without a current environment scans from slot 0 and matches none.
- Ipc.ExactlyOnce: assumes that nobody frees the receiver or sets its status while it waits.
- Channels.ChannelNext: assumes the same of the stages.
- Sieve.SievePrints: integers do not overflow, and a fork succeeds. Of a fork, `Channels` has sys_exofork; its other calls are `Channels.OtherCall`.
- Upcall.RoundTrip: the trap-time stack pointer is word-aligned and at least 4, and once any fault at the store is handled the scratch word can be written. What a handler pushes below its frame is part of its run.
- Stabs.RightIff: leaves out the address 2^32 - 2, for RightIffBeforeTop, which takes a table with at most one entry at 2^32 - 1; with several, the result depends on which of them the probes meet first. Searches for an address below the first entry are in NotContained.
- Printf.Vprintfmt: `%e` of INT_MIN, which indexes before the table, is taken as 2147483648; arguments are taken to be of the kind their conversion expects; `putch` is that of vsnprintf.
- Channels.PassIsSend: integers are sent without a page; a value is below 2^32, as in the code.
- KernMap.MemInit: takes 67 free pages for the page tables, and arrays that fit their 4 MB windows, for granted. The clauses of check_kern_pgdir on directory permissions are not part of this model.
- `sfork` and `ipc_find_env` are not part of this model.
