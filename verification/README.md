# Early Linux kernel structures in Dafny

A model of the parts of three early Linux kernels whose correctness is hard to see by reading, with
proofs of what they are for. The kernel is not preemptive: a step of a run is code that does not sleep,
or less of it, and the runs quantified over are all interleavings of such steps. Operations that are one
step although they can sleep are named under "Left out".

| modules | what they model |
|---|---|
| PageTables, CowPaging, ExecPages, PageDemand, RequestDemand, EagerCopy, EagerRuns, LoadRuns, FirstFork, ExecCases, PageMemory | 0.11 paging: reference counts, copy-on-write fork, sharing of clean executable pages, the address space of execve |
| KernelBytes, ExecRuns, ExecRunCases | the same with execves that sleep half-way, and the run in which a task gets a page of the wrong executable |
| WaitQueues, WaitRuns, WaitKernel | 0.12 sleep_on, wake_up and select: queues kept in the sleepers' local variables |
| Scheduler, SchedulerCode | 0.12 schedule and the end of do_timer |
| Timers, TimerCode | 0.12 add_timer and the timer half of do_timer |
| BufferCache, BufferSafety, BufferGetblk, BufferContent, BufferCases, BufferQueues | 0.98 buffer cache |
| MinixFs, FileIO, Truncate, TruncateRuns, FsCode | 0.12 block map, bitmap, file read and write, truncate |
| Swap, SwapScan, SwapDemand, SwapRuns, SwapFaults, SwapCode | 0.12 swapping and the swap branches of paging, operation by operation |
| SwapIo, SwapIoSteps, SwapIoContent, SwapIoRuns, SwapIoReads | the same with the disk transfers taken apart: every interleaving at their sleeps |
| SwapIoCases, SwapCases | runs of the swapping kernel that lose a page |
| Buckets, BucketRuns, BucketSizes, BucketCode | 0.12 kernel malloc and free |
| ExecArgs | 0.12 argument and environment strings of execve, `#!` lines included |
| Pipe | 0.12 pipes |

For most components there are two layers. A value layer states each operation as a function on the
state and proves invariants, refinements and whole-run theorems about it. A code layer is a class
whose methods assign fields and array elements in the loops of the source, and each method's
postcondition equates the new state with the function's result, so the theorems hold of the loops.
In the value layer `Inv` (`Sound` in SwapIo) is the invariant, and lemmas that end in `Inv` say that an
operation keeps it. A lemma with an `own`, `lists` or `frees` result gives the ghost structure that
witnesses it.

## Where the code does not do what it is meant to

Eight properties hold only under a condition, which is proved to be exact.

* 0.11 do_execve (fs/exec.c:318-329) names the new executable in the task structure, and may sleep in
  sys_close before it gives up the pages of the old one. A task that faults on the new executable
  meanwhile may be given one of those pages (mm/memory.c:344-363). A run does what eager copying does,
  step by step, if and only if every page so given has the bytes of the executable
  (`ExecRuns.SleepingExecves`); a page from a task that is not in an execve always has
  (`ExecRuns.HarmlessUnlessAsleep`). `ExecRunCases.BootSharesWrong` is a run from power-on.
* 0.12 un_wp_page (mm/memory.c:228-245) looks at the entry, gets a page, and lowers the count of the old
  page. When getting the page swapped that very entry out, the old page has been given up already and
  loses a second count: a page another task still uses is marked free. This happens if and only if
  swap_out took the entry (`SwapFaults.UnWpExact`); `SwapFaults.WriteFaultFreesSharedPage` is an input.
  The copy is also marked clean, so what a dirty page held may be dropped
  (`SwapFaults.CopyOfDirtyIsDropped`).
* 0.12 try_to_share (mm/memory.c:305-347) does the same with the page to be shared, when it has to get
  a page table (`SwapFaults.TryShareExact`); `SwapCases.SharedPageGone` is an input.
* 0.12 ll_rw_page (kernel/blk_drv/ll_rw_blk.c:174-182) lets a request that finds a free slot in the
  table go before older ones that wait for one. A write, or the read of a page being swapped out, may so
  overtake an earlier write of the same swap slot. Contents survive if and only if no request that goes
  on the list does harm (`SwapIoContent.StepExact`, `SwapIoRuns.RunExact`), and then in every run
  (`SwapIoRuns.SwapIoRun`). None does while the table has room (`SwapIoRuns.RoomMeansInOrder`,
  `SwapIoRuns.InOrderRun`). `SwapCases.ReadOvertakesWrite` and `SwapCases.WriteOvertakesWrite` are runs
  that lose a page.
* 0.98: a store into a buffer while another holder's read of it is under way is lost when the read ends,
  unless it stored what the disk had (`BufferContent.OverwriteLosesStore`); `BufferCases.StoreIsLost` is
  a run. The cache refines the array of blocks in all runs without such a store
  (`BufferContent.CacheRefinesDisk`).
* 0.12 execve of a script with an empty argv (fs/exec.c:286-305) counts argc one short: the last
  argument becomes the first environment string and the last environment string is lost
  (`ExecArgs.Execute`).
* 0.12 free_s with a size larger than the object's bucket (lib/malloc.c:188-202) panics, and only
  then (`BucketRuns.FaultsIff`, `BucketRuns.HeapRun`); `BucketRuns.FreeOfWrongSizePanics` is an input.
  It never does when objects are freed with at most the length they were allocated with
  (`BucketSizes.FreesNeverPanic`).
* 0.12 init_swapping (mm/swap.c:199-253) reads the bit just past the bitmap page when the device is
  at least as large as the bitmap (`SwapRuns.InitSwappingExact`); `SwapRuns.BitBeyondDecides` is an input.

Three more statements are exact in the same way. swap_out fails although an entry could be swapped out
exactly if all such entries are at the beginning of the one table it passes over
(`SwapScan.SwapOutExact`); adding a timer delays the timers behind it, so all pending expiries survive
exactly if the new timer goes last (`Timers.DelaysNoneIffLast`); and schedule's loop ends exactly if
something is selected at once or a running task has a priority (`Scheduler.EndsIff`).

## Model

| member | source | states |
|---|---|---|
| EagerRuns.CopyOnWriteRefinesEagerCopy | 0.11/sources/linux-org/mm/memory.c:105-189 | over any run of forks, page faults, user writes, execves and exits, the address space of every live task equals, page for page, that of a system in which fork copies every page at once and nothing is ever shared; and exactly those requests fail that come when fewer pages are free than they need |
| EagerRuns.OthersUntouched | 0.11/sources/linux-org/mm/memory.c:221-259 | a fork by anybody, and a write, fault, execve or exit by another task, leaves every page a live task reads exactly as it was |
| EagerRuns.CountsInEveryRun | 0.11/sources/linux-org/mm/memory.c:47-98 | after any run no panic was reached; the count of a main-memory page is exactly its user entries, plus one if it is a page table, plus the kernel's holds; a page the kernel does not hold has a count below NR_TASKS, so the byte neither wraps nor reaches USED; a page with a writable entry has count 1 |
| LoadRuns.SleepingFaultsRefineEagerCopy | 0.11/sources/linux-org/mm/memory.c:365-397 | the same with page faults that sleep in bread_page, any number of them at once and anything else in between: the faulting page has its eager effect when the fault ends and none before; nothing fails, and nothing sleeps, but for the pages that are free |
| LoadRuns.NextMatches | 0.11/sources/linux-org/mm/memory.c:365-397 | each half of a fault, and each request of another task while a page is being read, keeps the invariant and the pages in transit and has exactly its eager effect, and comes to what the free pages say it should |
| LoadRuns.NextDue | 0.11/sources/linux-org/mm/memory.c:365-397 | each half of a fault is decided by the free pages alone: a page that can be shared needs one for a missing table and does not sleep, any other sleeps exactly if one is free to read into, and the second half needs one for the table |
| EagerRuns.StepInv | 0.11/sources/linux-org/mm/memory.c:365-397 | each single request, done before the next, keeps the whole invariant, succeeds if and only if the pages it needs are free, and has exactly its eager effect; without them a fork or an execve has none and a faulting task is gone |
| RequestDemand.StepTakes | 0.11/sources/linux-org/mm/memory.c:63-397 | a request finds its memory if and only if as many pages are free as it needs: for fork one and one more for each page table of the parent, for a fault one for the page unless it can be shared and one for a missing page table, for a write one if it must copy, for execve one for each argument page, for exit none |
| RequestDemand.NeedBounded | 0.11/sources/linux-org/mm/memory.c:63-397 | with 32 pages free no request fails; 17 do for a fork, and two for a fault or a write |
| EagerCopy.NoPageTakes | 0.11/sources/linux-org/mm/memory.c:365-397 | a fault succeeds if and only if one page is free for the page, unless the same page of the same executable can be shared, and one for a page table that is missing |
| PageDemand.CopyTablesTakes | 0.11/sources/linux-org/mm/memory.c:150-189 | an address space is copied if and only if a page is free for each of its page tables |
| PageDemand.TryShareTakes | 0.11/sources/linux-org/mm/memory.c:292-334 | sharing a page that can be shared fails only without a page for a missing page table; the page shared is then one that a write must copy |
| PageDemand.TakeArgsTakes | 0.11/sources/linux-org/fs/exec.c:104-152 | copy_strings gets its pages if and only if as many are free |
| EagerCopy.ForkInv | 0.11/sources/linux-org/kernel/fork.c:39-61 | fork gives the child what an eager copy would, or, out of memory anywhere, leaves every count and every address space as it was |
| EagerCopy.ExitInv | 0.11/sources/linux-org/kernel/exit.c:102-107 | exit and release remove one address space, keep the balance of counts and touch no other task |
| EagerCopy.NoPageInv | 0.11/sources/linux-org/mm/memory.c:365-397 | a page fault nobody interrupts succeeds if and only if the pages it needs are free, and then finds the page of the executable, shared or loaded and zero past end_data, or zeros outside it; every other entry keeps its page and bytes |
| EagerCopy.SharePageInv | 0.11/sources/linux-org/mm/memory.c:344-363 | a page taken over from another task running the same executable is clean and has the bytes a load would have put there |
| EagerCopy.LoadPageInv | 0.11/sources/linux-org/mm/memory.c:274-282 | a loaded page is clean with the given bytes; if no page table can be had the page is given back and nothing has changed |
| EagerRuns.BootInv | 0.11/sources/linux-org/mm/memory.c:399-411 | the counts mem_init leaves satisfy the invariant with no task and all of USED accounted to the kernel |
| FirstFork.FirstForkInv | 0.11/sources/linux-org/mm/memory.c:147-185 | the first fork, from task 0: with two free pages, and only then, the child has the 160 low pages, which are not counted and only the child cannot write; every other task has what it had; without them nothing happens |
| ExecCases.BootExecFaults | 0.11/sources/linux-org/fs/exec.c:318-333 | those runs include executables: after the first fork an execve with room for its arguments is possible, its first instruction faults, and the fault sleeps in bread_page |
| ExecCases.BootShares | 0.11/sources/linux-org/mm/memory.c:344-397 | and pages shared between tasks: after an execve and a fork the first instruction is read for the parent, and the fault of the child is served by share_page |
| EagerCopy.ExecInv | 0.11/sources/linux-org/fs/exec.c:104-352 | execve leaves the task its argument pages, at the top of the address space, and nothing else, and every other task what it had; if the arguments found no memory every count and address space is as before |
| ExecPages.ExecMemInv | 0.11/sources/linux-org/fs/exec.c:104-352 | the same for memory alone, counts exact: the argument pages pass from the kernel to the new entries, the old pages and tables are given back |
| ExecPages.PutArgsInv | 0.11/sources/linux-org/fs/exec.c:171-175 | every argument page is mapped although change_ldt ignores what put_page says, as long as one page is free for the page table |
| ExecPages.TableFreed | 0.11/sources/linux-org/fs/exec.c:328-329 | and one is: free_page_tables has just given back a page table of the task |
| ExecPages.TakeArgsInv | 0.11/sources/linux-org/fs/exec.c:104-152 | the pages copy_strings takes are different ones nobody used, from the last page of the arguments down; nobody else notices |
| ExecPages.FreeArgsInv | 0.11/sources/linux-org/fs/exec.c:350-351 | after an error all of them are given back |
| ExecPages.TakesAll | 0.11/sources/linux-org/fs/exec.c:138-141 | with as many free pages as the arguments need copy_strings does not fail, and takes no more than that |
| FirstFork.BootFork | 0.11/sources/linux-org/kernel/fork.c:68-76 | mem_init and then the first fork leave a live task 1 with the low pages and the whole invariant, so the theorems about runs apply from there |
| FirstFork.BootRefinesEagerCopy | 0.11/sources/linux-org/mm/memory.c:105-411 | from mem_init and the first fork on, whatever requests the tasks make, execves among them as single steps, and however their page faults sleep, every task sees exactly what it would with pages of its own, beginning with a copy of the 160 low pages |
| ExecRuns.SleepingExecves | 0.11/sources/linux-org/fs/exec.c:318-352 | runs in which execves too sleep half-way, the new executable already named and the old pages still there: in every interleaving each step keeps the invariant and has its eager effect if and only if no fault is given a page whose bytes are not those of the executable, and such a run ends where eager copying ends; and nothing in it fails while the pages it needs are free |
| ExecRuns.StepExact | 0.11/sources/linux-org/fs/exec.c:318-352 | one step of such a run keeps the invariant and has its eager effect if and only if it gives away no wrong page, and comes to what the free pages say it should |
| ExecRuns.StepTimely | 0.11/sources/linux-org/fs/exec.c:318-352 | an execve goes on past its point of no return if and only if a page is free for each argument page, and every other step comes to what it does in LoadRuns |
| ExecRuns.StartExact | 0.11/sources/linux-org/fs/exec.c:310-326 | the first half of an execve changes nothing any task reads, and without memory for the arguments gives back what it took |
| ExecRuns.EndExact | 0.11/sources/linux-org/fs/exec.c:328-346 | the second half has the whole effect of execve, whatever the other tasks have done since the first |
| ExecRuns.BeginWrong | 0.11/sources/linux-org/mm/memory.c:344-363 | a fault given a page with other bytes than those of its executable does not do what it does for a task with pages of its own |
| ExecRuns.SharerTried | 0.11/sources/linux-org/mm/memory.c:344-363 | share_page takes the page from the highest slot that runs the executable and has a clean main-memory page there, and from no other |
| ExecRuns.HarmlessUnlessAsleep | 0.11/sources/linux-org/mm/memory.c:344-363 | a page from a task that is not in the middle of an execve always has the bytes of the executable |
| ExecRunCases.BootExecves | 0.11/sources/linux-org/fs/exec.c:318-352 | all runs from power-on and the first fork: the same equivalence, and the same end |
| ExecRunCases.BootSharesWrong | 0.11/sources/linux-org/fs/exec.c:318-329 | a run from power-on in which task 2 is given the first page of the executable that task 1 is just leaving: it is right if and only if the two executables begin with the same page |
| ExecRunCases.CalmRun | 0.11/sources/linux-org/fs/exec.c:318-329 | runs in which no execve sleeps are those of LoadRuns, and harmless |
| KernelBytes.RequestKeepsBytes | 0.11/sources/linux-org/mm/memory.c:63-282 | no fork, fault, write, execve or exit changes the bytes of a page the kernel holds for itself |
| KernelBytes.StepKeepsBytes | 0.11/sources/linux-org/mm/memory.c:365-397 | nor does either half of a fault that sleeps, but for the page it reads into |
| CowPaging.CopyMemInv | 0.11/sources/linux-org/kernel/fork.c:39-61 | a successful copy reads at every address as the parent did; a failed one is freed again: every count equals its old value and the child has no table; all other views are unchanged and permissions only ever shrink |
| CowPaging.CopyTablesInv | 0.11/sources/linux-org/mm/memory.c:150-189 | directory entry by directory entry the child gets a read-only copy of the parent; a copy that stops early found no free page |
| CowPaging.FreeTablesInv | 0.11/sources/linux-org/mm/memory.c:105-131 | exactly the given directory entries are emptied, every entry outside them is untouched and every count stays balanced |
| CowPaging.ProtectInv | 0.11/sources/linux-org/mm/memory.c:177-180 | taking write permission away keeps the invariant and changes one entry |
| CowPaging.ShareInv | 0.11/sources/linux-org/mm/memory.c:177-184 | a second read-only entry at the same offset of another address space, with the count raised by one, keeps the invariant; the byte cannot wrap |
| CowPaging.UnWpInv | 0.11/sources/linux-org/mm/memory.c:221-238 | a write fault leaves the entry writable, private and reading as before, touches no other entry, and fails only if it must copy and no page is free |
| CowPaging.UserWriteInv | 0.11/sources/linux-org/mm/memory.c:221-259 | a user write changes the one byte in the view of the writer, sets the dirty bit, and changes nothing in any other view |
| CowPaging.PutPageInv | 0.11/sources/linux-org/mm/memory.c:197-219 | the page appears at the one address, other addresses are untouched; without a page table nothing changes |
| CowPaging.EnsureTableInv | 0.11/sources/linux-org/mm/memory.c:207-215 | a missing page table is added without changing what any address reads |
| CowPaging.TryShareInv | 0.11/sources/linux-org/mm/memory.c:292-334 | sharing happens exactly if the other task has a clean present main-memory page there and a table can be had; then both read the same bytes and nobody else notices; to_page is never found present |
| PageTables.CountBounded | 0.11/sources/linux-org/mm/memory.c:47-57 | sharers of a page sit in different task slots, so its count is below NR_TASKS; a page the kernel holds is counted by the holds alone |
| PageTables.WritableUnique | 0.11/sources/linux-org/mm/memory.c:225-230 | a page with count 1 has exactly one user entry |
| PageTables.Replace | 0.11/sources/linux-org/mm/memory.c:89-98 | one changed entry with counts and holds moved to match keeps the invariant |
| PageTables.GetFreePageInv | 0.11/sources/linux-org/mm/memory.c:63-83 | a page handed out was counted 0, named by nobody, is cleared and now held once; no page is handed out only if all are counted |
| PageTables.ClearDirInv | 0.11/sources/linux-org/mm/memory.c:126-127 | giving back an emptied page table keeps the invariant; no free page is freed |
| PageTables.LastZero | 0.11/sources/linux-org/mm/memory.c:67-80 | the scan from the end of mem_map finds the last zero byte, or that there is none |
| PageMemory.Memory.TakePage | 0.11/sources/linux-org/mm/memory.c:63-83 | the in-place scan and clear leave the state of the specification |
| PageMemory.Memory.FreePageTables | 0.11/sources/linux-org/mm/memory.c:105-131 | the nested loops over arrays leave exactly the state of FreeTables |
| PageMemory.Memory.CopyPageTables | 0.11/sources/linux-org/mm/memory.c:150-189 | the nested loops over arrays leave exactly the state of CopyTables, early return included |
| PageMemory.Memory.CopyAddressSpace | 0.11/sources/linux-org/kernel/fork.c:52-60 | copy and, if it failed, free, in place |
| PageMemory.Memory.UnWpPage | 0.11/sources/linux-org/mm/memory.c:221-238 | the in-place split is UnWp |
| PageMemory.Memory.TryToShare | 0.11/sources/linux-org/mm/memory.c:292-334 | the in-place sharing is TryShare |
| PageMemory.Memory.MapArguments | 0.11/sources/linux-org/fs/exec.c:171-175 | the loop of change_ldt in place |
| PageMemory.Memory.InstallPage | 0.11/sources/linux-org/mm/memory.c:197-219 | the in-place put_page is PutPage |
| WaitRuns.StacksInEveryRun | 0.12/sources/linux-0.12-org/fs/select.c:47-80 | over every interleaving of sleeps, selects, wake-ups, signals and resumed waiters, the head of each queue and the saved pointers of its sleepers spell out one stack without repetitions, ordered by enqueue instant, and the youngest waiter heads every queue it still has to leave |
| WaitRuns.BlockedWakesYounger | 0.12/sources/linux-0.12-org/fs/select.c:67-73 | a waiter that runs leaves all its queues, or is blocked uninterruptibly after making the head of the blocking queue runnable, and that head is strictly younger |
| WaitRuns.PollUndone | 0.12/sources/linux-0.12-org/fs/select.c:62-80 | a select that finds something ready leaves every queue it joined: queues and saved pointers are as before the call |
| WaitRuns.OnlyWokenBy | 0.12/sources/linux-0.12-org/kernel/sched.c:171-213 | an uninterruptible sleeper becomes runnable only by a wake_up of a queue it heads, or by a waiter that unwinds a queue on which it is the head or the next one down |
| WaitRuns.ActiveMeansRunnable | 0.12/sources/linux-0.12-org/kernel/sched.c:182-188 | as long as some waiter is on its way out, a runnable waiter at least as young exists; on a queue whose sleepers wait nowhere else it is one of them |
| WaitRuns.ResumeShrinks | 0.12/sources/linux-0.12-org/kernel/sched.c:171-192 | each run of a waiter lowers (entries left to unwind, weight of the runnable waiters) lexicographically, where a waiter outweighs all younger ones: unwinding never cycles |
| WaitRuns.WakeUpDrains | 0.12/sources/linux-0.12-org/kernel/sched.c:204-213 | after one wake_up, with no new sleepers, any scheduling order runs out of runnable waiters; by then the queue is empty and everybody who was on the way out is out |
| WaitRuns.StirredUntilDrained | 0.12/sources/linux-0.12-org/kernel/sched.c:171-213 | under every single step, new sleepers and signals included, a woken queue keeps a sleeper on its way out until it has drained |
| WaitQueues.HeadIsYounger | 0.12/sources/linux-0.12-org/fs/select.c:68-71 | a waiter that is not the head of a queue it is on has a strictly younger head |
| WaitQueues.HeadSaved | 0.12/sources/linux-0.12-org/fs/select.c:74-77 | at the head of its queue a waiter has saved exactly the task below it |
| WaitQueues.UnwindInv | 0.12/sources/linux-0.12-org/kernel/sched.c:182-191 | unwinding keeps the stacks, however far it gets |
| WaitQueues.EnterInv | 0.12/sources/linux-0.12-org/fs/select.c:47-60 | joining any list of queues, repetitions skipped, puts the task on top of each of these, with the old stack saved below it, and of no other; every other queue, and what every other task has saved, is as it was; the task is younger than everybody |
| WaitQueues.UnwindAlone | 0.12/sources/linux-0.12-org/fs/select.c:62-80 | running a waiter changes nobody's table but its own, takes only itself off queues, and makes runnable only heads of queues it is on, and tasks it had saved of them |
| WaitQueues.WakeUpExact | 0.12/sources/linux-0.12-org/kernel/sched.c:204-213 | wake_up makes the youngest sleeper of the queue runnable, and nobody else, and changes no queue |
| WaitRuns.NextInv | 0.12/sources/linux-0.12-org/fs/select.c:178-208 | every step keeps the stacks, the order and the backing of blocked waiters |
| WaitQueues.InitInv | 0.12/sources/linux-0.12-org/kernel/sched.c:171-192 | a kernel nobody waits in satisfies the invariant |
| WaitKernel.Kernel.AddToTable | 0.12/sources/linux-0.12-org/fs/select.c:47-60 | the table search and push in place |
| WaitKernel.Kernel.GoToSleep | 0.12/sources/linux-0.12-org/kernel/sched.c:171-181 | sleep_on, and the table of a select, up to schedule(), in place |
| WaitKernel.Kernel.FreeWait | 0.12/sources/linux-0.12-org/fs/select.c:62-80 | the loop in place, up to its next schedule() or its end |
| WaitKernel.Kernel.WakeTop | 0.12/sources/linux-0.12-org/kernel/sched.c:204-213 | wake_up in place |
| Scheduler.ScanIsLargest | 0.12/sources/linux-0.12-org/kernel/sched.c:144-154 | the selection loop ends at a running task with the largest counter, the highest numbered of equals, and at task 0 with c == -1 if none runs |
| Scheduler.OneRecharge | 0.12/sources/linux-0.12-org/kernel/sched.c:155-159 | with priorities of at least 1 one recharge suffices: the running tasks then have their priorities as counters and the loop ends |
| Scheduler.EndsIff | 0.12/sources/linux-0.12-org/kernel/sched.c:144-160 | for counters and priorities that are not negative, the endless loop ends if and only if something is selected at once or some running task has a priority above 0 |
| Scheduler.AlarmedExact | 0.12/sources/linux-0.12-org/kernel/sched.c:124-140 | a sleeper is woken exactly if it is interruptible and its timeout has passed or an unblocked signal, SIGALRM of a due alarm included, is there; an alarm is signalled once, and a timeout or alarm not yet due stays as it is |
| Scheduler.TickExact | 0.12/sources/linux-0.12-org/kernel/sched.c:364-367 | a tick costs the current task one count, down to 0, and nobody else anything; in kernel mode it ends there, whatever is left; in user mode schedule follows exactly when the tick left none |
| Scheduler.RechargeHalvesShortfall | 0.12/sources/linux-0.12-org/kernel/sched.c:156-159 | each recharge halves what a sleeping task lacks of twice its priority less one, so sleeping only raises its counter, up to that bound |
| Scheduler.NextInv | 0.12/sources/linux-0.12-org/kernel/sched.c:119-162 | ticks in either mode, sleeps, wake-ups, forks and releases keep: used + left == started with + ticks that found the counter at 0, and counters below twice the priority |
| Scheduler.EpochsAreFair | 0.12/sources/linux-0.12-org/kernel/sched.c:364-367 | in any run whose ticks come in user mode, with tasks sleeping, waking, starting and ending in between, every recharge finds every running task with exactly its starting counter used |
| Scheduler.FairFromBoot | 0.12/sources/linux-0.12-org/kernel/sched.c:364-367 | in particular in every such run from a freshly booted scheduler |
| Scheduler.EpochsBalance | 0.12/sources/linux-0.12-org/kernel/sched.c:364-367 | with ticks in any mode the excess at a recharge is exactly the number of ticks that found the counter at 0 |
| Scheduler.EpochLasts | 0.12/sources/linux-0.12-org/kernel/sched.c:364-367 | with a fixed set of running tasks no tick recharges before as many ticks as the tasks have left together, and that tick does; each task ran exactly its counter, and each starts again with at least its priority |
| Scheduler.DueSelects | 0.12/sources/linux-0.12-org/kernel/sched.c:144-155 | after a tick that used up a counter, the selection comes out at 0 exactly if that tick was the last one left among all running tasks |
| Scheduler.NothingLeft | 0.12/sources/linux-0.12-org/kernel/sched.c:152-155 | the selected counter is positive exactly if the running tasks have anything left together |
| SchedulerCode.RunQueue.CheckAlarms | 0.12/sources/linux-0.12-org/kernel/sched.c:126-140 | the downward loop over the task array: timeouts, alarms, signals |
| SchedulerCode.RunQueue.SelectNext | 0.12/sources/linux-0.12-org/kernel/sched.c:145-154 | the downward loop computes the largest counter and its task |
| SchedulerCode.RunQueue.Choose | 0.12/sources/linux-0.12-org/kernel/sched.c:144-161 | the while (1) loop ends after at most one recharge |
| SchedulerCode.RunQueue.DoTimer | 0.12/sources/linux-0.12-org/kernel/sched.c:364-367 | the end of do_timer in place |
| Timers.NoneFiresEarly | 0.12/sources/linux-0.12-org/kernel/sched.c:351-361 | over any run of add_timer calls, also by the functions run, and ticks, each timer runs at its requested tick plus exactly the delays put on it, never before, and no two timers run in one tick; and over the run the calls made and still to be made are exactly those promised: an accepted request adds its function at its tick, one with jiffies <= 0 at once, and a refused one nothing |
| Timers.TickInv | 0.12/sources/linux-0.12-org/kernel/sched.c:351-361 | a tick runs the first timer exactly if it had one tick left, and no other; everything else it logs was called by add_timer at once |
| Timers.InsertForm | 0.12/sources/linux-0.12-org/kernel/sched.c:306-319 | the swapping walk puts one entry in at its place and changes no other, the successor's delta included |
| Timers.InsertExact | 0.12/sources/linux-0.12-org/kernel/sched.c:306-319 | the summed delta of the new timer is exactly its request |
| Timers.InsertShifts | 0.12/sources/linux-0.12-org/kernel/sched.c:306-319 | timers ahead are unmoved; those behind expire later by exactly the new entry's delta |
| Timers.DelaysNoneIffLast | 0.12/sources/linux-0.12-org/kernel/sched.c:306-319 | every pending timer keeps its expiry if and only if the list is empty or the request exceeds the last pending expiry |
| Timers.PlaceExact | 0.12/sources/linux-0.12-org/kernel/sched.c:310-310 | the walk passes exactly the timers that expire before the request |
| Timers.InsertPositive | 0.12/sources/linux-0.12-org/kernel/sched.c:298-319 | deltas stay at least 1 |
| Timers.QuietElapses | 0.12/sources/linux-0.12-org/kernel/sched.c:351-361 | in n ticks without additions exactly the timers with expiry at most n run, in order and each at its expiry, and the rest are n ticks nearer |
| Timers.NextInv | 0.12/sources/linux-0.12-org/kernel/sched.c:291-361 | add_timer and ticks keep every delta at least 1, at most 64 timers, and every expiry equal to the request plus its delays |
| Timers.AddExact | 0.12/sources/linux-0.12-org/kernel/sched.c:291-322 | an accepted request enters an alarm for its function at exactly the tick it asks for, and moves the later ones as the walk says; jiffies <= 0 calls the function now and changes nothing else; only a full list refuses |
| Timers.TickExact | 0.12/sources/linux-0.12-org/kernel/sched.c:351-361 | a tick runs the first timer exactly if it asked for this tick, or has been delayed to it, and changes no other alarm; what the function run asks for in turn is entered as AddExact says |
| Timers.NextCalls | 0.12/sources/linux-0.12-org/kernel/sched.c:291-361 | each step adds to the calls made and still to be made exactly what its requests ask for: none is lost, none is made twice |
| TimerCode.TimerList.AddTimer | 0.12/sources/linux-0.12-org/kernel/sched.c:291-322 | the pool search, the link and the in-place swaps insert as specified; a null function is ignored, jiffies <= 0 calls at once, a full pool panics |
| TimerCode.TimerList.Sink | 0.12/sources/linux-0.12-org/kernel/sched.c:310-319 | exchanging contents along the links yields Insert, no link moved |
| TimerCode.TimerList.DoTimer | 0.12/sources/linux-0.12-org/kernel/sched.c:351-361 | the loop over the links is Tick, with the calls made by the functions run |
| TimerCode.RoomLeft | 0.12/sources/linux-0.12-org/kernel/sched.c:301-305 | a free pool entry is found exactly if fewer than 64 are linked |
| TimerCode.SwapLinked | 0.12/sources/linux-0.12-org/kernel/sched.c:311-318 | exchanging contents keeps the links and which entries are in use, and swaps two entries of the list |
| BufferContent.CacheRefinesDisk | 0.98/sources/linux-org/fs/buffer.c:234-577 | over every interleaving at the sleeps the free list is never found corrupted; and if no holder stores into a buffer that is being read, any block's logical content is that of a plain array of blocks changed only by the holders' stores |
| BufferContent.CacheFromBoot | 0.98/sources/linux-org/fs/buffer.c:620-631 | the same in every run from buffer_init on, the plain array starting as the disk |
| BufferContent.OverwriteLosesStore | 0.98/sources/linux-org/fs/buffer.c:360-376 | a read that ends in a buffer stored into meanwhile takes the block back to what the disk has: the store survives exactly if it changed nothing |
| BufferCases.StoreIsLost | 0.98/sources/linux-org/fs/buffer.c:360-376 | a run from buffer_init in which that happens: one process sleeps in bread, another gets the buffer from getblk and stores into it, and the store is gone when the read ends |
| BufferContent.CalmNext | 0.98/sources/linux-org/fs/buffer.c:360-376 | a buffer is stored into before its read ends only if some holder's store found that read under way; no other step leads there |
| BufferContent.StepContent | 0.98/sources/linux-org/fs/buffer.c:234-577 | no step but a holder's store changes any block's content: not eviction, page reclaim or growth, disk write finished or torn, nor a disk read unless it ends in a buffer stored into meanwhile |
| BufferContent.BreadReturnsContent | 0.98/sources/linux-org/fs/buffer.c:360-376 | whoever holds a buffer that is up to date sees the block's content; after bread's wait it is up to date |
| BufferContent.OneBufferPerBlock | 0.98/sources/linux-org/fs/buffer.c:234-247 | in every run at most one buffer is hashed for a block |
| BufferContent.EvictContent | 0.98/sources/linux-org/fs/buffer.c:323-343 | buffers that leave the cache are clean, so the content stays |
| BufferContent.BootInv | 0.98/sources/linux-org/fs/buffer.c:620-631 | the cache buffer_init leaves, four buffers on one page and 81 unused heads, satisfies the invariant and shows the disk |
| BufferSafety.ClaimNeverFaults | 0.98/sources/linux-org/fs/buffer.c:323-341 | a victim that passes getblk's tests after its sleep is still on the free list, which has two buffers or more: the panic in remove_from_free_list is never reached |
| BufferSafety.ClaimIsSafe | 0.98/sources/linux-org/fs/buffer.c:323-343 | the buffer getblk re-keys is unused, unlocked, clean, on the free list, held by no process, and no other buffer caches the block |
| BufferGetblk.ClaimExact | 0.98/sources/linux-org/fs/buffer.c:323-343 | and it re-keys the victim exactly if that is on the free list, unused, clean and of the right size and no buffer caches the block: then the victim is the buffer of the block, used once, not up to date, last on the free list and first in its hash queue, and no other buffer has changed; else getblk starts again and nothing has |
| BufferGetblk.LookupExact | 0.98/sources/linux-org/fs/buffer.c:256-343 | getblk up to its first sleep: a cached block is counted once more and is the caller's, or the caller waits for it; else with more than 30 free pages the first buffer of a new page is; else the best candidate of the ring, which is claimed, waited for if locked, or written out if dirty; without one the cache grows or the caller sleeps |
| BufferGetblk.LookupGets | 0.98/sources/linux-org/fs/buffer.c:256-343 | getblk has its buffer without a sleep exactly if the block is cached and unlocked, or not cached and either more than 30 pages are free or an unused, clean, unlocked buffer of the size is on the ring |
| BufferGetblk.PickExact | 0.98/sources/linux-org/fs/buffer.c:283-311 | the scan picks the first of the best: a clean buffer before a dirty one, locked or not, and of two alike an unlocked one before a locked one |
| BufferGetblk.WokenExact | 0.98/sources/linux-org/fs/buffer.c:256-273 | a process that waited for a cached buffer finds it still there and gets it |
| BufferGetblk.WriteBack | 0.98/sources/linux-org/fs/buffer.c:51-64 | a dirty buffer written with no store meanwhile ends clean and unlocked, its block on the disk has its data, and no other block or buffer has changed |
| BufferSafety.FindBufferExact | 0.98/sources/linux-org/fs/buffer.c:234-247 | find_buffer finds the buffer of a block exactly if one is on the ring |
| BufferSafety.PickIsBest | 0.98/sources/linux-org/fs/buffer.c:296-311 | the scan yields an unused buffer of the right size whenever there is one, and none is less bad; BufferGetblk.PickExact says what that means |
| BufferSafety.NextInv | 0.98/sources/linux-org/fs/buffer.c:234-577 | every step keeps hash queues, ring, unused list, pages and use counts consistent, and none finds the free list corrupted |
| BufferSafety.TryToFreeInv | 0.98/sources/linux-org/fs/buffer.c:552-577 | giving up a page whose heads are all idle keeps the invariant; nobody holds any of them |
| BufferGetblk.TryToFreeExact | 0.98/sources/linux-org/fs/buffer.c:552-577 | the page is given up exactly if all its buffers are unused, clean and unlocked; then these and no others leave the ring, the hash queues and get unused heads |
| BufferSafety.LinkPageInv | 0.98/sources/linux-org/fs/buffer.c:513-535 | linking a page of unused heads in front of the ring keeps the invariant |
| BufferSafety.GrownInv | 0.98/sources/linux-org/fs/buffer.c:491-546 | grow_buffers, called with more than five free pages and so without a sleep, keeps the invariant, more heads included |
| BufferSafety.FetchedInv | 0.98/sources/linux-org/fs/buffer.c:360-376 | bread never comes back without its block |
| BufferQueues.Buffers.RemoveFromHashQueue | 0.98/sources/linux-org/fs/buffer.c:159-168 | the pointer surgery takes the head out of its hash queue and changes no other queue |
| BufferQueues.Buffers.RemoveFromFreeList | 0.98/sources/linux-org/fs/buffer.c:170-179 | the pointer surgery takes the head out of the circular list, moving free_list if it was first |
| BufferQueues.Buffers.PutFirstFree | 0.98/sources/linux-org/fs/buffer.c:187-198 | the head becomes the first of the ring |
| BufferQueues.Buffers.PutLastFree | 0.98/sources/linux-org/fs/buffer.c:200-214 | the head becomes the last of the ring; the first just rotates |
| BufferQueues.Buffers.InsertIntoQueues | 0.98/sources/linux-org/fs/buffer.c:216-232 | end of the ring, front of its hash queue; a null successor is guarded |
| BufferQueues.Buffers.LinkNewPage | 0.98/sources/linux-org/fs/buffer.c:515-533 | the loop back along b_this_page puts all heads of the new page in front of the ring, in the order of the page, and closes the ring of the page |
| BufferQueues.Buffers.Find | 0.98/sources/linux-org/fs/buffer.c:234-247 | the walk finds what the state machine's FindBuffer finds |
| BufferQueues.Buffers.PickVictim | 0.98/sources/linux-org/fs/buffer.c:296-311 | the loop over the ring picks what PickFrom picks |
| BufferQueues.Buffers.ReKeyBuffer | 0.98/sources/linux-org/fs/buffer.c:336-343 | unhash, re-key, insert: ring, queues and flags are as in the state machine |
| BufferQueues.Buffers.TryToFreePage | 0.98/sources/linux-org/fs/buffer.c:552-577 | the two loops around the page ring free all of the page or nothing, exactly if all its buffers are idle |
| BufferQueues.WithoutIsOffPage | 0.98/sources/linux-org/fs/buffer.c:566-576 | what is left of a queue after its page's heads have gone one by one is what the state machine leaves |
| FileIO.WriteRefinesSparseArray | 0.12/sources/linux-0.12-org/fs/file_dev.c:48-90 | of all bytes of all files exactly the n accepted ones from the position on change, the size grows to cover them, bytes past every size stay zero, block trees stay disjoint, and n is short only when no zone is free; no zone is marked that no file has, and if less is accepted than offered, no zone is free and the file has no block for the next byte |
| FileIO.ReadIsContent | 0.12/sources/linux-0.12-org/fs/file_dev.c:17-46 | a read delivers exactly the bytes of the sparse array, holes as zeros |
| FileIO.WriteThenRead | 0.12/sources/linux-0.12-org/fs/file_dev.c:17-90 | reading back an accepted write gives it back, at the position append or f_pos says; any other file reads as before; f_pos moves as the code says |
| MinixFs.BmapInv | 0.12/sources/linux-0.12-org/fs/inode.c:74-140 | direct, single and double indirect: afterwards the file has that zone for that block, or nothing was created, or there is no space; no byte of any file changes, and a zone newly marked belongs to a file |
| MinixFs.EnsureInv | 0.12/sources/linux-0.12-org/fs/inode.c:81-139 | one level of the map: a missing block is allocated empty and hooked in, no other slot changes |
| MinixFs.HookInv | 0.12/sources/linux-0.12-org/fs/inode.c:81-139 | hooking a new empty block into an empty slot changes that slot and nothing anyone reads |
| MinixFs.NewBlockInv | 0.12/sources/linux-0.12-org/fs/bitmap.c:76-106 | a new block had its bit clear, belonged to nobody, is zeroed, and its bit is now set; there is none only when every zone is taken; no other zone is marked |
| MinixFs.TreesDisjoint | 0.12/sources/linux-0.12-org/fs/inode.c:74-140 | different slots, of one file or of two, never name the same block |
| MinixFs.FileSlotInjective | 0.12/sources/linux-0.12-org/fs/inode.c:80-113 | different block numbers are kept in different slots |
| MinixFs.SetPtrPtr | 0.12/sources/linux-0.12-org/fs/inode.c:84-137 | storing a block number changes that slot and no other |
| MinixFs.NoZonesInv | 0.12/sources/linux-0.12-org/fs/inode.c:74-140 | files without any zone satisfy the invariant, whatever their sizes |
| MinixFs.MkfsInv | 0.12/sources/linux-0.12-org/fs/bitmap.c:76-106 | so does a file system just made, all its zones free, from which the theorems about files start |
| TruncateRuns.TruncateRun | 0.12/sources/linux-0.12-org/fs/truncate.c:65-98 | after any number of passes, whatever is busy in each: no block freed twice, a block owned at the start is reachable with its bit set or unreachable with its bit clear, other files and bits untouched; when it stops the file is empty |
| TruncateRuns.PassInv | 0.12/sources/linux-0.12-org/fs/truncate.c:73-97 | one pass keeps all that, frees no busy block, and another pass follows exactly if a busy block of the file is left |
| TruncateRuns.PassProgress | 0.12/sources/linux-0.12-org/fs/truncate.c:73-97 | a pass that frees any block leaves strictly fewer reachable |
| TruncateRuns.TruncateIdle | 0.12/sources/linux-0.12-org/fs/truncate.c:65-98 | with none of the file's blocks busy, one pass empties it and clears every bit |
| TruncateRuns.StaysBusy | 0.12/sources/linux-0.12-org/fs/truncate.c:11-63 | a slot survives a pass only because a block of the file is busy, and then the inode slot above survives too |
| Truncate.FreeIndInv | 0.12/sources/linux-0.12-org/fs/truncate.c:11-36 | free_ind empties exactly the entries that do not stay, and reports success exactly if none stays |
| Truncate.FreeDindInv | 0.12/sources/linux-0.12-org/fs/truncate.c:38-63 | the same two levels deep |
| TruncateRuns.TrimmedConserved | 0.12/sources/linux-0.12-org/fs/bitmap.c:47-74 | emptied slots and cleared bits match block for block |
| TruncateRuns.PassBlocksLeft | 0.12/sources/linux-0.12-org/fs/truncate.c:73-95 | which blocks a pass leaves, and that it goes round again exactly if any are left |
| FsCode.Disk.AllocBlock | 0.12/sources/linux-0.12-org/fs/bitmap.c:76-106 | the bitmap scan in place is NewBlock |
| FsCode.Disk.BlockMap | 0.12/sources/linux-0.12-org/fs/inode.c:74-140 | _bmap in place |
| FsCode.Disk.Write | 0.12/sources/linux-0.12-org/fs/file_dev.c:48-90 | the loop over blocks in place is FileWrite, return value and f_pos included |
| FsCode.Disk.Read | 0.12/sources/linux-0.12-org/fs/file_dev.c:17-46 | the loop delivers ReadFrom and changes nothing |
| FsCode.Disk.FreeBlock | 0.12/sources/linux-0.12-org/fs/bitmap.c:47-74 | free_block in place; clearing a clear bit is a fault |
| FsCode.Disk.FreeInd | 0.12/sources/linux-0.12-org/fs/truncate.c:11-36 | the loop in place |
| FsCode.Disk.FreeDind | 0.12/sources/linux-0.12-org/fs/truncate.c:38-63 | the loop in place |
| FsCode.Disk.TruncateFile | 0.12/sources/linux-0.12-org/fs/truncate.c:65-98 | goto repeat in place, the busy blocks of each pass given |
| SwapIoRuns.SwapIoRun | 0.12/sources/linux-0.12-org/mm/swap.c:69-197 | in every interleaving of faults, forks, exits, writes and allocations with the transfers they sleep for, every page count is exact and each usable slot free or named once; and if no request that goes on the list does harm, an entry stands for the same contents, wherever the page has got to, until its own task changes it |
| SwapIoRuns.RunExact | 0.12/sources/linux-0.12-org/kernel/blk_drv/ll_rw_blk.c:163-195 | the condition is exact: a run loses nothing at any of its steps if and only if no request that goes on the list does harm |
| SwapIoContent.StepExact | 0.12/sources/linux-0.12-org/kernel/blk_drv/ll_rw_blk.c:163-195 | for one step, whatever requests are on the list and whatever others wait: all reads get, and all other entries go on standing for, what they did, if and only if the request put on the list, if any, does no harm. A write does none if no write of its slot was overtaken, or a later one follows, or the last one overtaken brings the same bytes, or no entry names the slot any more; a read, if its slot will hold what the entry stands for when its turn comes |
| SwapIoContent.InOrderHarmless | 0.12/sources/linux-0.12-org/kernel/blk_drv/ll_rw_blk.c:163-195 | a request that overtakes no earlier one for its slot does no harm |
| SwapIoRuns.InOrderRun | 0.12/sources/linux-0.12-org/kernel/blk_drv/ll_rw_blk.c:163-195 | nor does any of a run in which none does so |
| SwapIoReads.QueuedReadGets | 0.12/sources/linux-0.12-org/kernel/blk_drv/ll_rw_blk.c:89-103 | a read on the list ends with exactly what its slot was going to hold when its turn comes, in any run up to the point where its task goes on |
| SwapIoReads.ReadVerdict | 0.12/sources/linux-0.12-org/kernel/blk_drv/ll_rw_blk.c:163-195 | so a read that does harm misses what its slot stood for whatever happens next, and a harmless one never does |
| SwapIoRuns.ForkIsSnapshot | 0.12/sources/linux-0.12-org/mm/memory.c:118-166 | a fork that sleeps any number of times, whatever the others do meanwhile, gives each entry of the child what the parent's entry stood for when the fork began, or leaves no child |
| SwapIoRuns.RoomMeansInOrder | 0.12/sources/linux-0.12-org/kernel/blk_drv/ll_rw_blk.c:163-195 | as long as the table has a free request whenever a page is to be moved, nothing is overtaken |
| SwapIoCases.StaleRead | 0.12/sources/linux-0.12-org/kernel/blk_drv/ll_rw_blk.c:163-195 | a read that gets the first free request ends with what is on the disk, whatever writes of its slot still wait, while the entry stood for what they were going to leave there |
| SwapIoCases.OvertakenPage | 0.12/sources/linux-0.12-org/kernel/blk_drv/ll_rw_blk.c:174-182 | a run in which a page is lost so: with the table full, its owner touches a page just being swapped out, and its read gets a request before the write; the contents survive exactly if the slot had them already |
| SwapCases.ReadOvertakesWrite | 0.12/sources/linux-0.12-org/kernel/blk_drv/ll_rw_blk.c:174-182 | a state reached from an empty kernel in which that happens |
| SwapIoCases.OvertakenWrite | 0.12/sources/linux-0.12-org/kernel/blk_drv/ll_rw_blk.c:174-182 | a page lost the other way: the write of a page waits, its entry goes, the slot is taken for another page whose write gets a request at once, and the old write lands last; the new page survives exactly if it has the same bytes |
| SwapCases.WriteOvertakesWrite | 0.12/sources/linux-0.12-org/kernel/blk_drv/ll_rw_blk.c:174-182 | a run from an empty kernel in which that happens |
| SwapIoRuns.IdleInv | 0.12/sources/linux-0.12-org/mm/swap.c:46-197 | any balanced kernel with no transfer under way is a state such runs can start from |
| SwapIo.StepInv | 0.12/sources/linux-0.12-org/mm/swap.c:69-197 | every step, half-done transfers included, keeps counts, slots, pages in transit and the states of the tasks consistent |
| SwapIoSteps.TakeExact | 0.12/sources/linux-0.12-org/mm/swap.c:69-93 | a task that finds a page free never gives up: it has the page or the page table, or its request for the contents of the very slot its entry names is on the list, or waits for room there, and it sleeps |
| SwapIoSteps.ReclaimExact | 0.12/sources/linux-0.12-org/mm/swap.c:128-197 | with no page free a task is killed, or its fork undone, exactly if swap_out would find nothing; else an entry that can be swapped out goes, a clean page dropped, a dirty one on its way to a slot that was free |
| SwapIoSteps.CopyAdvances | 0.12/sources/linux-0.12-org/mm/memory.c:130-166 | a fork always goes on: each turn is its last, or leaves fewer, or waits for a page its child really lacks |
| SwapIo.EvictInv | 0.12/sources/linux-0.12-org/mm/swap.c:105-115 | a dirty page on its way out leaves its entry for a slot that was free; it is held once by the kernel, counts and slots balance |
| SwapIo.WokenInv | 0.12/sources/linux-0.12-org/mm/swap.c:89-120 | what a task does when its transfer is done keeps all that: the page written is freed once, the page read goes into the entry it was for, which still names the slot |
| SwapIoContent.StepStays | 0.12/sources/linux-0.12-org/mm/swap.c:69-197 | one step leaves every entry it is not about standing for the same contents, unless a request that goes on the list does harm |
| SwapIoContent.CompleteStays | 0.12/sources/linux-0.12-org/kernel/blk_drv/ll_rw_blk.c:89-103 | the end of a transfer changes what no entry stands for: a write leaves on the disk what its slot stood for, a read finds it there |
| SwapIoContent.FlushPass | 0.12/sources/linux-0.12-org/kernel/blk_drv/ll_rw_blk.c:73-75 | a request that goes ahead of others changes what the disk is going to hold in its own slot at most, and there exactly if it is a write, the last write of the slot overtaken brings other bytes, and no later one follows |
| SwapIoContent.FlushAt | 0.12/sources/linux-0.12-org/kernel/blk_drv/ll_rw_blk.c:89-103 | a slot ends up with what the last write of it in the line brings |
| SwapIo.UnshareInv | 0.12/sources/linux-0.12-org/mm/memory.c:228-245 | un_wp_page that need not wait for a page, as a step between the sleeps of the others, keeps all that too |
| SwapIo.BorrowInv | 0.12/sources/linux-0.12-org/mm/memory.c:305-347 | so does try_to_share with a page table in place |
| SwapRuns.SwapRunInv | 0.12/sources/linux-0.12-org/mm/swap.c:46-197 | in every run of swap-outs, swap-ins, forks, writes, write faults that swap_out leaves alone, and exits, each done before the next, each usable slot stays free or named by exactly one entry, every page count exact, and a dirty or swapped page keeps its contents until its own task writes or frees it |
| SwapRuns.SlotFreeOrNamedOnce | 0.12/sources/linux-0.12-org/mm/swap.c:46-67 | a usable slot's bit is set exactly if no entry names it, and no two entries name one slot |
| SwapRuns.NextInv | 0.12/sources/linux-0.12-org/mm/swap.c:46-197 | each whole operation keeps that balance and all contents it is not about |
| SwapRuns.InitSwappingExact | 0.12/sources/linux-0.12-org/mm/swap.c:199-253 | swapping starts if and only if the device has at least 100 blocks and a signature and the bitmap marks only slots on the device, never slot 0, and at least one; with the largest size the bit read just past the page decides too |
| SwapRuns.BitBeyondDecides | 0.12/sources/linux-0.12-org/mm/swap.c:217-242 | for a device of 4 * 32768 blocks with one usable slot, swapping starts with the bit past the page clear and does not with it set |
| SwapRuns.StartInv | 0.12/sources/linux-0.12-org/mm/swap.c:199-253 | after a successful check with nothing swapped all marked slots are free |
| Swap.SwapOutBounded | 0.12/sources/linux-0.12-org/mm/swap.c:128-166 | at most VM_PAGES tries, each on a user entry of a present table; a success strictly lowers the number of present user entries; a failure changes only the cursors |
| Swap.SwapOutTook | 0.12/sources/linux-0.12-org/mm/swap.c:128-166 | a successful swap_out is exactly one successful try, on the last entry it looked at |
| Swap.SwapOutInv | 0.12/sources/linux-0.12-org/mm/swap.c:95-166 | swapping out keeps counts, slots, tables and every dirty or swapped content; only clean pages may be dropped |
| Swap.GetPageInv | 0.12/sources/linux-0.12-org/mm/swap.c:172-197 | the retrying allocator yields a cleared page nobody uses, or none, and then all are counted; it terminates because each retry lowers the present entries |
| SwapScan.SwapOutExact | 0.12/sources/linux-0.12-org/mm/swap.c:128-166 | swap_out succeeds if and only if some user entry can be swapped out, clean, or dirty with one user and a slot free, that its scan does not pass over: it passes over the first entries of the first table when it begins at absent ones, and the entry it looked at last if that was the first of a table after an absent one |
| SwapScan.GetPageExact | 0.12/sources/linux-0.12-org/mm/swap.c:172-197 | nothing is swapped out while a page is free; no page is returned only with none free and nothing swap_out would find |
| SwapScan.TryExact | 0.12/sources/linux-0.12-org/mm/swap.c:95-121 | one try succeeds exactly on such an entry |
| Swap.SwapInInv | 0.12/sources/linux-0.12-org/mm/swap.c:69-93 | swap_in puts the slot's contents in a page of its own, dirty, and frees the slot; out of memory leaves the entry swapped |
| SwapRuns.SwapRoundTrip | 0.12/sources/linux-0.12-org/mm/swap.c:69-121 | a dirty page swapped out and back in has its old bytes |
| Swap.FreeTablesInv | 0.12/sources/linux-0.12-org/mm/memory.c:69-99 | freeing tables gives back every page and slot they named and nothing else |
| SwapRuns.ExitFreesSlots | 0.12/sources/linux-0.12-org/mm/memory.c:83-92 | after it a slot is free exactly if it was or an entry in the range named it |
| Swap.CopyTablesInv | 0.12/sources/linux-0.12-org/mm/memory.c:118-166 | fork of present and swapped entries: the child takes over the slot, the parent gets a fresh dirty copy; both read as before; it stops early only with no page free |
| Swap.ForkInv | 0.12/sources/linux-0.12-org/mm/memory.c:118-166 | a fork fails only if get_free_page found no page, and then frees the partial copy; balance and contents are kept either way |
| SwapDemand.ForkSucceeds | 0.12/sources/linux-0.12-org/mm/memory.c:118-166 | a fork never fails when a page is free for each page table of the parent and for each of its swapped-out entries |
| SwapCode.Swapper.TakeSlot | 0.12/sources/linux-0.12-org/mm/swap.c:46-56 | the bit search in place |
| SwapCode.Swapper.TrySwapOut | 0.12/sources/linux-0.12-org/mm/swap.c:95-121 | try_to_swap_out in place |
| SwapCode.Swapper.SwapOutOne | 0.12/sources/linux-0.12-org/mm/swap.c:128-166 | both loops and goto repeat in place, static cursors included |
| SwapCode.Swapper.AllocPage | 0.12/sources/linux-0.12-org/mm/swap.c:172-197 | the retry loop in place |
| SwapCode.Swapper.ReadIn | 0.12/sources/linux-0.12-org/mm/swap.c:69-93 | swap_in in place |
| SwapCode.Swapper.FreePageTables | 0.12/sources/linux-0.12-org/mm/memory.c:69-99 | the nested loops in place |
| SwapCode.Swapper.CopyAddressSpace | 0.12/sources/linux-0.12-org/mm/memory.c:118-166 | copy_page_tables and the cleanup of a failed copy in place |
| SwapFaults.UnWpExact | 0.12/sources/linux-0.12-org/mm/memory.c:228-245 | a write fault on a shared page keeps the counts exact if and only if swap_out, looking for the page to copy to, left this entry alone, as it does when a page is free; then the bytes are the same and nobody else notices, and the entry keeps its standing, dirty or clean, if and only if it was not dirty |
| SwapFaults.WriteFaultFreesSharedPage | 0.12/sources/linux-0.12-org/mm/memory.c:228-245 | a state in which it goes wrong: two tasks share a page, swap_out drops it from the first while that task waits for a copy, and the second task's page ends with count 0 |
| SwapFaults.CopyOfDirtyIsDropped | 0.12/sources/linux-0.12-org/mm/memory.c:243-243 | the copy of a dirty page is marked clean, so swap_out drops it and its contents are gone |
| SwapFaults.TryShareExact | 0.12/sources/linux-0.12-org/mm/memory.c:305-347 | sharing a clean page keeps the counts exact if and only if swap_out, looking for a page table, left the page where it was; then both read the same bytes and nobody loses anything |
| SwapCases.SharedPageGone | 0.12/sources/linux-0.12-org/mm/memory.c:305-347 | a state reached from an empty kernel in which it goes wrong: get_free_page takes the very page to be shared for the page table |
| SwapFaults.UnWpFrame | 0.12/sources/linux-0.12-org/mm/memory.c:228-245 | a write fault on a page with one user, or with a page free, leaves all other entries, their bytes, the swap slots and the pages the kernel holds as they were |
| SwapFaults.UnWpPrivate | 0.12/sources/linux-0.12-org/mm/memory.c:232-237 | a page with one user becomes writable again; everything lasts |
| SwapCode.Swapper.UnWpPage | 0.12/sources/linux-0.12-org/mm/memory.c:228-245 | un_wp_page in place |
| SwapCode.Swapper.TryToShare | 0.12/sources/linux-0.12-org/mm/memory.c:305-347 | try_to_share in place |
| BucketRuns.HeapRun | 0.12/sources/linux-0.12-org/lib/malloc.c:117-231 | over every interleaving of allocations, waits, searches and unlinkings: no chain is found corrupted if and only if every size given to free_s is at most that of the object's bucket, and then the heap is sound |
| BucketRuns.FaultsIff | 0.12/sources/linux-0.12-org/lib/malloc.c:188-202 | one step panics if and only if it is a search for an object with a size above that of the chain its page is on |
| BucketRuns.FreeOfWrongSizePanics | 0.12/sources/linux-0.12-org/lib/malloc.c:188-202 | from an empty heap: a 16-byte object freed with size 32 panics |
| BucketSizes.FreesNeverPanic | 0.12/sources/linux-0.12-org/lib/malloc.c:117-231 | in every run in which each object is freed with at most the length it was allocated with, or with no size, no free panics and the heap stays sound |
| BucketSizes.FreesFromBoot | 0.12/sources/linux-0.12-org/lib/malloc.c:117-231 | in particular from the empty heap |
| BucketSizes.AskedNext | 0.12/sources/linux-0.12-org/lib/malloc.c:124-170 | every step keeps each live object, and each one a waiting malloc is to hand out, no longer than the objects of its chain |
| BucketSizes.ChainStays | 0.12/sources/linux-0.12-org/lib/malloc.c:159-170 | a live object's page stays in its chain |
| BucketRuns.StepSpec | 0.12/sources/linux-0.12-org/lib/malloc.c:117-231 | each step keeps the heap sound, hands out only an object that was not live, and can fault only in the search of free_s |
| BucketRuns.SearchStep | 0.12/sources/linux-0.12-org/lib/malloc.c:188-202 | free_s panics if and only if the size given is larger than the object's bucket |
| BucketRuns.SearchFinds | 0.12/sources/linux-0.12-org/lib/malloc.c:188-202 | the search yields the object's own descriptor exactly if the size is not larger than its bucket |
| BucketRuns.MallocReuses | 0.12/sources/linux-0.12-org/lib/malloc.c:124-151 | malloc serves a request from the smallest objects that are large enough, and waits for a page exactly if every page of theirs is full of live objects |
| BucketRuns.PagesAreLive | 0.12/sources/linux-0.12-org/lib/malloc.c:208-228 | a page is kept exactly while it has a live object |
| BucketRuns.LiveObjectsDisjoint | 0.12/sources/linux-0.12-org/lib/malloc.c:159-170 | two live objects, each at the size of the chain that has it, never overlap, and each lies within its page |
| BucketRuns.LiveHasChain | 0.12/sources/linux-0.12-org/lib/malloc.c:159-170 | every live object is a live object of some chain |
| BucketRuns.RefcntIsLive | 0.12/sources/linux-0.12-org/lib/malloc.c:168-208 | a descriptor's refcnt is the number of its live objects |
| BucketRuns.BootSpec | 0.12/sources/linux-0.12-org/lib/malloc.c:77-86 | the empty heap is sound |
| Buckets.TakeInv | 0.12/sources/linux-0.12-org/lib/malloc.c:168-170 | the object handed out was the first free one; live objects plus free list still make up the page |
| Buckets.GiveInv | 0.12/sources/linux-0.12-org/lib/malloc.c:203-208 | a freed object that is not its page's last goes to the front of the free list |
| Buckets.LastInv | 0.12/sources/linux-0.12-org/lib/malloc.c:208-228 | with the last object the page is given back and its descriptor, and no other, is unlinked and freed |
| Buckets.UnlinkIsRight | 0.12/sources/linux-0.12-org/lib/malloc.c:209-224 | whatever ran since the search, and wherever it left prev, the link changed is the one that names the descriptor |
| Buckets.LinkInv | 0.12/sources/linux-0.12-org/lib/malloc.c:156-170 | a new page: its first object live, the others threaded as free |
| Buckets.MoreDescsInv | 0.12/sources/linux-0.12-org/lib/malloc.c:97-115 | a page of new descriptors goes in front of the free ones; chains and objects are unchanged |
| BucketCode.Heap.InitBucketDesc | 0.12/sources/linux-0.12-org/lib/malloc.c:97-115 | the loop over the new page in place |
| BucketCode.Heap.FindSpace | 0.12/sources/linux-0.12-org/lib/malloc.c:138-141 | the walk finds the first descriptor with a free object |
| BucketCode.Heap.FindDesc | 0.12/sources/linux-0.12-org/lib/malloc.c:188-202 | both search loops find what SearchDirs finds |
| BucketCode.Heap.ThreadPage | 0.12/sources/linux-0.12-org/lib/malloc.c:159-164 | the threading loop in place |
| BucketCode.Heap.LinkNew | 0.12/sources/linux-0.12-org/lib/malloc.c:152-170 | the rest of malloc once it has a page, in place: thread it, put its descriptor first, hand out the first object |
| BucketCode.Heap.UnlinkDesc | 0.12/sources/linux-0.12-org/lib/malloc.c:209-224 | the unlinking in place, searching again if prev is stale |
| BucketCode.Heap.Release | 0.12/sources/linux-0.12-org/lib/malloc.c:203-231 | the rest of free_s in place |
| ExecArgs.Execute | 0.12/sources/linux-0.12-org/fs/exec.c:69-342 | if the strings fit the 128 kB exactly counted: argc, and argv and envp tables that end in 0 below the strings and point to NUL-terminated copies in order; for a script interpreter name, optional argument, script name, old arguments from index 1, which is what the new program finds if and only if argv was not empty; it fails exactly if fewer pages are free than the strings lie on or the line names no interpreter |
| ExecArgs.UserStack.CreateTables | 0.12/sources/linux-0.12-org/fs/exec.c:69-93 | both tables point to the strings in order, end in 0 and lie below them; the three words on top are argc, argv, envp |
| ExecArgs.UserStack.PointTo | 0.12/sources/linux-0.12-org/fs/exec.c:82-91 | one loop of create_tables writes only its own table |
| ExecArgs.ArgPages.CopyStrings | 0.12/sources/linux-0.12-org/fs/exec.c:127-175 | the strings lie below p in order, each with its zero byte; nothing else in the pages changed; 0 exactly if fewer pages are free than the strings, with those laid before, lie on |
| ExecArgs.ArgPages.CopyOne | 0.12/sources/linux-0.12-org/fs/exec.c:147-170 | one string copied backwards across pages, allocating exactly those it reaches |
| ExecArgs.ParseBang | 0.12/sources/linux-0.12-org/fs/exec.c:251-281 | path, base name and argument are those of the first line, or the line is blank |
| ExecArgs.PathEnd | 0.12/sources/linux-0.12-org/fs/exec.c:272-281 | the path ends at the first blank and the name starts after its last slash |
| ExecArgs.LayScript | 0.12/sources/linux-0.12-org/fs/exec.c:298-305 | what is laid is the spliced list; argc is its length, one less if argv was empty |
| Pipe.PipeIsFifo | 0.12/sources/linux-0.12-org/fs/pipe.c:16-74 | in every interleaving of one reader and one writer, with signals and closes: bytes delivered are a prefix of bytes accepted, the difference is exactly the ring and at most 4095 bytes, and the ends never sleep together |
| Pipe.NextInv | 0.12/sources/linux-0.12-org/fs/pipe.c:16-74 | spurious wake-ups included, an end sleeps only while it can do nothing, the other end exists and, for the reader, no signal is pending; histories only grow |
| Pipe.ReadRunInv | 0.12/sources/linux-0.12-org/fs/pipe.c:16-44 | a stretch of read_pipe delivers the next bytes, wakes the writer, returns short only with the ring empty and the writer gone or a signal pending; it returns the number of bytes read, but -ERESTARTSYS if a signal came before the first |
| Pipe.WriteRunInv | 0.12/sources/linux-0.12-org/fs/pipe.c:46-74 | a stretch of write_pipe accepts a prefix of what is left, wakes the reader, returns short only with the reader gone and the ring full; it returns the number of bytes written, but -1 if there is none |
| Pipe.RingPut | 0.12/sources/linux-0.12-org/fs/pipe.c:59-70 | storing at the head within the room left appends to the ring: nothing unread is overwritten |
| Pipe.RingTake | 0.12/sources/linux-0.12-org/fs/pipe.c:29-40 | taking at the tail takes the first bytes of the ring |
| Pipe.NotBothAsleep | 0.12/sources/linux-0.12-org/fs/pipe.c:21-58 | reader and writer are never both asleep |
| Pipe.PipeInode.ReadPipe | 0.12/sources/linux-0.12-org/fs/pipe.c:16-44 | the loops over the page in place are ReadRun |
| Pipe.PipeInode.WritePipe | 0.12/sources/linux-0.12-org/fs/pipe.c:46-74 | the loops over the page in place are WriteRun |

## Left out

- Hardware, inline assembly, printk, descriptor tables and the TLB; find_first_zero, page copies and clears have their plain meaning.
- Addresses: linear addresses are split into directory index, table index and byte; physical addresses are page numbers.
- A physical page or disk zone is kept both as a table of entries and as bytes; the invariants say no page or zone is used both ways.
- write_verify and the kernel's own writes to user pages: a user write is fault, split, store and dirty bit in one step.
- Fork from task 0 beside the first fork of 0.11 (FirstFork): in 0.12 the runs start from any balanced state.
- EagerRuns.StepInv: takes a page fault and an execve as one step each; the sleep of bread_page is a step boundary in LoadRuns and ExecRuns, that of sys_close in ExecRuns only.
- EagerCopy.NoPageInv: the same, for the fault alone.
- FirstFork.BootRefinesEagerCopy: execve is one step; ExecRunCases.BootExecves has its sleep too.
- LoadRuns.SleepingFaultsRefineEagerCopy: execve is one step; ExecRuns.SleepingExecves has its sleep too.
- SwapRuns.SwapRunInv: whole operations, each done before the next; SwapIoRuns.SwapIoRun has the sleeps of their transfers.
- SwapRuns.NextInv: the same, for one operation.
- SwapIo: un_wp_page and try_to_share are steps where they need not wait for a page, since otherwise they break the counts as SwapFaults says; the load of executable pages is not a step; fork starts with copy_mem, the child's slot and task page already chosen; get_free_page may be interleaved between its look and its use of a page, where the code does not sleep.
- execve in 0.11 paging: its one sleep in ExecRuns is between the naming of the executable and free_page_tables; the argument pages are taken in one step, although copy_strings can fault; the iput of the old executable is not modelled; the header checks are taken as passed; the stack tables and the zeros past the data are ordinary writes that follow. In EagerRuns and LoadRuns execve is one step.
- The steps of SwapIo are functions on values; the loops they share with whole operations are in place in SwapCode.
- Requests of other devices and of buffers, beside the number of them in the table; the elevator, which keeps page requests in the order they came.
- Exit and the release of the zombie's task page are one operation; address spaces are 16 directory entries (64 MB) each.
- Out of memory in a fault or a swap-in is a failure result or the exit of the task, never a hang; read errors of block and swap devices do not occur.
- The retry for pages above HIGH_MEMORY in swap.c's get_free_page, which is dead because those pages are counted USED.
- The checks of select on each file descriptor: a select is a list of queues to join.
- Task 0 on a wait queue, which the code answers with a panic.
- sys_nice, so the bound on counters holds while priorities are unchanged; other work of do_timer (screen, disk, floppy, beep, process times).
- A timer interrupt nested in a timer's function after add_timer's sti(): a tick and the functions it calls are one step.
- Buffer use counts are unbounded numbers; which of the unused heads grow_buffers takes is left open; removed disks, invalidation, and block sizes grow_buffers refuses are not modelled.
- Interrupts that take free pages between getblk's test of nr_free_pages and the two get_free_page calls of grow_buffers.
- shrink_buffers is a choice of which page to try and when it may sleep; its own walk over a link that may have become stale is not followed.
- A holder's change to buffer contents is one step, although get_fs_byte may sleep in the middle of a copy.
- The page rings of buffers are in the pointer layer only; the state machine knows which page a head is on.
- truncate's test for the kind of inode, time stamps and dirty flags of inodes and blocks, and the counter given up before the next pass.
- Interleaving of other processes inside file_write, file_read and one truncate pass; truncate's passes may have anything busy between them.
- The search of free_s is one step (the code runs it with interrupts enabled), its unlinking another; malloc that gets no page panics in the code and is not a step here.
- ExecArgs.Execute: the strings are taken to fit the argument pages; permissions, the file header, and clearing the old memory (for 0.11, ExecPages) are not modelled; an interpreter is not itself a script.
- Overflow in copy_strings, whose test is on an unsigned value.
- Pipe: one reader and one writer; put_fs_byte and get_fs_byte do not sleep; SIGPIPE is the return value alone.
- Path lookup, permissions, terminals, signal delivery, stat, ioctl, mount, boot, library wrappers, vsprintf and mktime, which would add easy members.
