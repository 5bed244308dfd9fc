# A verified model of the osdev microkernel

This project models the core of the `osdev/` microkernel in Dafny and proves
what its parts promise each other.

- **Memory.** `RbModel`, `RbFixup`, `RbDelete` and `RbTree` are the intrusive
  red-black tree, rewritten link by link over a memory of records and proved
  against an inductive tree and its zipper. `Paging` and `PagingImpl` are the
  two-level page tables with the translation the processor reads from them.
  `VmmRange`, `VmmSpec` and `VmmImpl` put a region tree over a page directory;
  `World` and `Machine` put all processes, their page tables and the physical
  memory together. `Pmm` is the bitmap of physical blocks, `Heap` the
  coalescing heap, `Caps` and `Shm` capabilities and shared memory, `List` the
  circular list.
- **Threads.** `Threads`, `ProcessSpec`, `ProcExit`, `RoundRobin` and `Kernel`
  are the scheduler with its deferred context switch; `Wakeups` says what each
  command leaves in the records of the threads and why one is not ready; `Gate`
  is the machine of syscall and interrupt gates that commits the switch, and
  `Births` follows a new thread to its first run.
- **Blocking and messages.** `Sync` and `Semaphore` hold wait queues and
  semaphores, `PortalSpec`, `PortalRun`, `PortalProof`, `PortalReady`,
  `PortalBuffers` and `PortalImpl` the portal protocol, `Mailbox`, `MailRun`,
  `MailReady` and `MailboxImpl` reference-counted mail, `MailLinks` and
  `MailWires` the links under its queues.

Code that changes state is a class whose methods are proved equal to a
function of the old state (or meet a relation to it); the theorems are about
those functions and about every run of them. A gate is one atomic step: one
processor, interrupts off inside. Outcomes of code outside the model (an
allocation, a capability check where none is modelled) are parameters.

Premises the code itself needs are preconditions: another ready thread
whenever the portal protocol blocks; a region in the tree before
`vmm_map_memory` (an empty tree would take the physical address as virtual
address); ranges given to `vmm_map_fixed` that do not wrap; under every page
being mapped a directory entry that is absent, a 4 MB page, or a table nothing
else uses, and no directory or table of the kernel unless mapped to itself; no
4 MB page under an address being unmapped; at most 0x2ffff pages for the first
region of an empty tree; a boot that identity-maps the paging pool and leaves
the master directory clear from 0xC1000000 on (so less than that much memory);
mail that is not sent while it is queued, and whose last reference is not
released by a command then; thread identifiers that are not used twice. `GoExact`,
`WaitReplyReturnsAtOnce`, `UnblockExact`, `ClashExact`, `AnchorExact`,
`SplitExact`, `MapGrantsUser`, `MapUnmapRestores`, `AptExact`, `MapReachExact`,
`JoinedReachExact`, `TeardownExact`, `BorrowedExact`, `SecondFree`, `QueueExact`, `SendExact` and `ReleaseExact` say exactly when the
code does what is expected where it does not always; `TwoSwitchesLoseDirectory`,
`EarlyResult`, `UserPageStaysClosed`, `TwoProcessesAtUserHeap`,
`SegmentOverDirectory`, `HighTableLeaks`, `ShareOutlivesSource`,
`TwiceFreedCount`, `OneMailTwoListeners`, `StuckForever` and `ExitLeaks`
show what happens when it does not.

The error codes are those of `osdev/include/kernel/errno.h`.

## Model

| member | source | states |
|---|---|---|
| `RbTreeImpl.RbTree.constructor` | osdev/kernel/lib/rbtree.c:64-72 | an empty tree satisfies the invariant |
| `RbTreeImpl.RbTree.LeftRotate` | osdev/kernel/lib/rbtree.c:4-26 | the memory then holds the rotated tree in the same context, and only the records of the node, its right child, that child's left child and the parent were written |
| `RbTreeImpl.RbTree.RightRotate` | osdev/kernel/lib/rbtree.c:28-50 | mirror image of LeftRotate |
| `RbFixup.RotLInOrder` | osdev/kernel/lib/rbtree.c:4-26 | a left rotation keeps the in-order sequence of the subtree it turns |
| `RbFixup.RotRInOrder` | osdev/kernel/lib/rbtree.c:28-50 | a right rotation keeps the in-order sequence of the subtree it turns |
| `RbTreeImpl.RbTree.InsertStep` | osdev/kernel/lib/rbtree.c:130-174 | one round of the insertion loop: either the red-red edge moves two levels up or the tree is settled, in-order sequence unchanged |
| `RbTreeImpl.RbTree.InsertFixup` | osdev/kernel/lib/rbtree.c:126-175 | from a tree whose only fault is one red-red edge to one with equal black heights and no red-red edge, same in-order sequence; the loop ends |
| `RbTreeImpl.RbTree.FindPlace` | osdev/kernel/lib/rbtree.c:198-206 | the descent ends at the empty place whose in-order neighbours compare below and above the new node |
| `RbTreeImpl.RbTree.Insert` | osdev/kernel/lib/rbtree.c:177-217 | a valid tree stays valid and gains exactly the new node, between its neighbours; a null node changes nothing |
| `RbTreeImpl.RbTree.DeleteStep` | osdev/kernel/lib/rbtree.c:221-292 | one round of the deletion loop: the missing black moves up, or a red node is reached, or the tree is settled; in-order sequence unchanged |
| `RbTreeImpl.RbTree.DeleteFixup` | osdev/kernel/lib/rbtree.c:219-295 | from a tree that lacks one black on one path to a valid tree with the same in-order sequence; the loop ends |
| `RbTreeImpl.RbTree.ReplaceNode` | osdev/kernel/lib/rbtree.c:52-62 | the four writes to the parent link, the parent's child link or the root, and the sentinel's parent |
| `RbTreeImpl.RbTree.Successor` | osdev/kernel/lib/rbtree.c:316-318 | the leftmost node of the right subtree |
| `RbTreeImpl.RbTree.UnlinkOuter` | osdev/kernel/lib/rbtree.c:307-314 | removal of a node with at most one child: what is left is one black short, or settled, and lists all nodes but the removed one |
| `RbTreeImpl.RbTree.UnlinkInner` | osdev/kernel/lib/rbtree.c:315-337 | the successor takes the place, links and colour of the removed node |
| `RbTreeImpl.TookOverRb` | osdev/kernel/lib/rbtree.c:315-337 | with the successor in place of the removed node the order loses exactly that node and at most one black is missing |
| `RbTreeImpl.RbTree.Delete` | osdev/kernel/lib/rbtree.c:297-341 | deleting any node leaves a valid red-black tree (black root, no red-red edge, equal black heights, consistent parent links) with the in-order sequence minus exactly that node; all other nodes keep their identity |
| `RbTreeImpl.RbTree.Search` | osdev/kernel/lib/rbtree.c:95-115 | a node found compares equal; none found means none compares equal if the comparison is monotone along the tree; at most 2h steps with 2^h <= n+1 |
| `RbModel.DepthAndSize` | osdev/kernel/lib/rbtree.c:95-115 | a red-black tree of black height h has depth at most 2h and at least 2^h - 1 nodes |
| `RbTreeImpl.RbTree.ElemsDistinct` | osdev/kernel/lib/rbtree.c:177-341 | in a valid tree every node is listed once, never null or the sentinel |
| `RbTreeImpl.RbTree.First` | osdev/include/lib/rbtree.h:38-47 | the first node in order, or null |
| `RbTreeImpl.RbTree.Last` | osdev/include/lib/rbtree.h:50-59 | the last node in order, or null |
| `RbTreeImpl.RbTree.Next` | osdev/include/lib/rbtree.h:62-77 | the node behind the i-th in order, or null |
| `RbTreeImpl.RbTree.Prev` | osdev/include/lib/rbtree.h:80-95 | the node before the i-th in order, or null |
| `List.Lists.ListInit` | osdev/include/lib/list.h:15-19 | the node is a circle of its own |
| `List.Lists.ListAdd` | osdev/include/lib/list.h:21-30 | the circle gains the node right behind the given one, both link directions consistent; null is ignored |
| `List.Lists.ListDel` | osdev/include/lib/list.h:32-40 | the circle loses exactly that node, which is left alone in its own circle |
| `List.Lists.ListWalk` | osdev/include/lib/list.h:60-61 | list_for_each visits the nodes behind the head, each once and in order |
| `List.Lists.ListDrain` | osdev/include/lib/list.h:63-65 | list_for_each_safe deleting every node it visits visits all of them and leaves the head alone |
| `KernelImpl.Kernel.FindNextRunnable` | osdev/kernel/process.c:68-98 | the first ready thread behind the running one on the circular list, its pending wake-up consumed; none if no other is ready |
| `ProcessSpec.FindNextReady` | osdev/kernel/process.c:68-98 | a candidate exists exactly when another thread is ready, and is ready and not the running thread |
| `KernelImpl.Kernel.RequestSwitch` | osdev/kernel/process.c:124-138 | the recorded switch: the context always, the page directory only across processes |
| `KernelImpl.Kernel.ContextSwitch` | osdev/kernel/process.c:140-148 | commits the recorded switch and clears the record |
| `ProcessSpec.GoExact` | osdev/kernel/process.c:124-138 | a recorded switch leads to the right page directory exactly when the two threads belong to different processes or that directory is already loaded |
| `ProcessSpec.TwoSwitchesLoseDirectory` | osdev/kernel/process.c:132-135 | two switches recorded in one gate, the second to a sibling, lose the page directory: a concrete state |
| `KernelImpl.Kernel.ThreadCreate` | osdev/kernel/process.c:150-229 | equals the specification: the new thread heads both lists and is not ready |
| `KernelImpl.Kernel.ThreadDelete` | osdev/kernel/process.c:240-330 | equals the specification: the thread leaves its lists and wait queue, the running thread only after a successor took over, nothing if there is none |
| `ProcessSpec.DeleteInGate` | osdev/kernel/process.c:240-330 | after a deletion the pending switch leads to a live thread with its own page directory, and exactly the named thread is gone |
| `KernelImpl.Kernel.DetachWait` | osdev/kernel/process.c:107-121 | the thread leaves the wait queue that its waiting_on names |
| `KernelImpl.Kernel.ThreadBlock` | osdev/kernel/process.c:332-366 | a pending wake-up is consumed instead of blocking; otherwise the thread is pending and, if it was running, a successor takes over when there is one |
| `KernelImpl.Kernel.ThreadUnblock` | osdev/kernel/process.c:371-394 | the thread is ready with a wake-up pending |
| `KernelImpl.Kernel.ThreadYield` | osdev/kernel/process.c:396-411 | the next ready thread runs, or the same one |
| `KernelImpl.Kernel.ProcSetReady` | osdev/kernel/process.c:604-672 | every thread of the process becomes pending or ready, no other |
| `KernelImpl.Kernel.ProcExit` | osdev/kernel/process.c:498-602 | equals the specification of the exit loop followed by the commit |
| `ProcExit.ExitLoopCorrect` | osdev/kernel/process.c:524-571 | the loop ends; it removes exactly the threads of the process, even when a chosen successor is itself dying, and leaves every other thread as it was |
| `ProcExit.ExitCorrect` | osdev/kernel/process.c:498-602 | the process is gone with exactly its threads, the running thread is a live one of another process and the directory to be loaded is its own; the exit halts exactly when the running thread is dying and nobody outside the process is ready |
| `ProcExit.ExitEnds` | osdev/kernel/process.c:579-593 | the destroyed page directory is not the one loaded |
| `RoundRobin.YieldAdvances` | osdev/kernel/process.c:68-98 | one yield runs the first ready thread on the circle and brings every other ready thread one step nearer |
| `RoundRobin.RoundRobinOrder` | osdev/kernel/process.c:396-411 | with list and states stable a ready thread runs after exactly as many yields as ready threads lie before it, plus one, and not earlier |
| `RoundRobin.WaitBounded` | osdev/kernel/process.c:922-932 | that number is at most the number of other ready threads |
| `Wakeups.YieldRecords` | osdev/kernel/process.c:396-411 | the processor moves exactly when another thread is ready, to a ready one, whose pending wake-up is consumed; no other record changes |
| `Wakeups.BlockRecords` | osdev/kernel/process.c:332-366 | blocking another thread, or one with a wake-up pending: the wake-up is consumed and the thread stays ready, or without one it is not ready; nothing else changes |
| `Wakeups.BlockRunning` | osdev/kernel/process.c:349-361 | blocking the running thread without a wake-up: it is not ready, and the processor moves exactly when another thread is ready |
| `Wakeups.UnblockRecords` | osdev/kernel/process.c:371-394 | the thread is ready with a wake-up pending, and no other record changes |
| `Wakeups.CreateRecords` | osdev/kernel/process.c:150-229 | a new thread belongs to the process it was made for, heads both lists, is on no queue, not ready and without a wake-up; no other record changes |
| `Wakeups.ProcessRecords` | osdev/kernel/process.c:604-672 | proc_block and proc_unblock set exactly the ready flags of the threads of the process, and nothing else |
| `Wakeups.ExecStirs` | osdev/kernel/process.c:150-672 | no command leaves a thread neither ready nor parked on a queue that was ready or parked before, except those that block it by name, block its process or create it |
| `KernelImpl.Kernel.GateEntry` | osdev/arch/i386/irq.S:191-250 | save, dispatch, park the result in the caller's frame, commit, restore: equals one step of the gate machine |
| `Gate.ExecInGate` | osdev/kernel/process.c:124-148 | every kernel command leaves a recorded switch that leads to a live thread and its own page directory |
| `Gate.StepKeeps` | osdev/arch/i386/irq.S:97-135 | every gate, syscall or interrupt, keeps the machine invariant: page directory, context and registers belong to thread_run |
| `Gate.RunKeeps` | osdev/arch/i386/irq.S:191-250 | in every state of every run context and page directory are those of thread_run, a live thread, and every other thread's saved frame is the one it is owed |
| `Gate.OwedIsLast` | osdev/arch/i386/irq.S:191-250 | the frame a thread is owed is the one it last entered with, with its own result in EAX |
| `Gate.EveryGateResumesItsOwn` | osdev/arch/i386/irq.S:191-250 | in every run a thread resumed by a gate gets back all its registers, with the result of its own last syscall and never another thread's |
| `Gate.FramesUnderOwner` | osdev/arch/i386/irq.S:191-250 | the save, the park and the restore of a gate each happen with the page directory of the frame's owner loaded |
| `Births.CreatedFrame` | osdev/arch/i386/task.c:99-107 | after the gate whose body created a thread, its saved frame is the frame it was created with, and so are the registers if it runs at once |
| `Births.FirstRunsAsCreated` | osdev/arch/i386/irq.S:191-250 | in every run, whatever happens in between, the registers a thread first runs with are the frame it was created with |
| `KernelImpl.Kernel.WaitQueueSleep` | osdev/kernel/sync/wait_queue.c:23-38 | a thread not yet queued heads the queue and blocks; a queued one stays |
| `KernelImpl.Kernel.WaitQueueWakeOne` | osdev/kernel/sync/wait_queue.c:40-63 | equals the specification: the first waiter leaves the queue and is made ready; an empty queue changes nothing |
| `Wakeups.SleepRecords` | osdev/kernel/sync/wait_queue.c:23-38 | the sleeper heads the queue, is not ready, and keeps the processor exactly when no other thread is ready; of the others only the successor changes, by its wake-up |
| `Wakeups.WakeOneRecords` | osdev/kernel/sync/wait_queue.c:40-63 | the first waiter is on no queue, ready and with a wake-up pending; no other record and no other queue changes |
| `Sync.WakeTidWf` | osdev/kernel/sync/wait_queue.c:92-115 | waking by thread id takes exactly that thread off that queue and makes it ready with a wake-up pending; no other record and no other queue changes, queue and waiting_on stay consistent |
| `SemaphoreImpl.Semaphores.Create` | osdev/kernel/sync/semaphore.c:9-31 | a new semaphore with its count and an empty queue |
| `SemaphoreImpl.Semaphores.SemDestroy` | osdev/kernel/sync/semaphore.c:33-53 | gone exactly if it had no waiter |
| `SemaphoreImpl.Semaphores.SemWait` | osdev/kernel/sync/semaphore.c:74-87 | counts down and parks the caller when the count is negative; an unknown id changes nothing |
| `SemaphoreImpl.Semaphores.SemSignal` | osdev/kernel/sync/semaphore.c:89-105 | counts up and wakes one waiter when the count is not positive |
| `Sync.StepBounded` | osdev/kernel/sync/semaphore.c:74-105 | no event makes a semaphore's waiters outnumber max(0, -value); equality is kept if no waiter is deleted and nobody waits while queued |
| `Sync.RunBounded` | osdev/kernel/sync/semaphore.c:74-105 | the same over every run, together with: a thread is on a wait queue exactly when its waiting_on names it |
| `Sync.DeletedWaiterKeepsCount` | osdev/kernel/process.c:107-121 | deleting a waiter shortens the queue by one and leaves the count |
| `Semaphore.WaitExact` | osdev/kernel/sync/semaphore.c:74-87 | a wait passes and changes nothing but the count exactly if the count was positive; otherwise its caller heads the queue and is not ready |
| `Semaphore.SignalExact` | osdev/kernel/sync/semaphore.c:89-105 | with a negative count the first waiter, if there is one, becomes runnable; nobody else is touched |
| `Semaphore.OpenGrants` | osdev/kernel/sync/semaphore.c:9-31 | a new semaphore lets exactly its initial count of waits pass; the next one parks its caller, alone |
| `Semaphore.DestroyUndoes` | osdev/kernel/sync/semaphore.c:9-53 | destroying a new semaphore undoes its creation; it is refused exactly while somebody waits |
| `Semaphore.NobodyIsForgotten` | osdev/kernel/sync/semaphore.c:74-105 | in every run of semaphore calls and scheduler commands a thread that is neither ready nor parked was stopped by name, or created, and has been neither ready nor parked since |
| `PortalImpl.Portals.GetById` | osdev/kernel/ipc/portal.c:26-39 | the newest portal of that id |
| `PortalImpl.Portals.GetByTid` | osdev/kernel/ipc/portal.c:41-54 | the newest portal of that thread |
| `PortalImpl.Portals.Init` | osdev/kernel/ipc/portal.c:91-124 | equals the specification of INIT, all error paths included |
| `PortalSpec.InitNumbers` | osdev/kernel/ipc/portal.c:96-110 | portal ids stay distinct; the counter stays ahead of them exactly until some portal gets id 0xffffffff |
| `PortalImpl.Portals.Call` | osdev/kernel/ipc/portal.c:164-204 | equals the specification of CALL: unknown portal, failed share, failed allocation with the share given back, or one request at the head of the queue and one signal |
| `PortalSpec.CallOutcome` | osdev/kernel/ipc/portal.c:164-204 | CALL succeeds exactly if a portal has the identifier, the share and both allocations succeeded; otherwise nothing is posted |
| `PortalSpec.RollbackExact` | osdev/kernel/ipc/portal.c:172-194 | a CALL that fails after its share gives back exactly the process and address its request would have held |
| `PortalImpl.Portals.WaitReply` | osdev/kernel/ipc/portal.c:206-213 | one wait on the request's semaphore |
| `PortalImpl.Portals.GetResult` | osdev/kernel/ipc/portal.c:215-222 | the value stored in the request |
| `PortalImpl.Portals.Cleanup` | osdev/kernel/ipc/portal.c:224-237 | equals the specification of CLEANUP: the buffer is given back, the request leaves the queue if still linked, its semaphore is destroyed and it is freed |
| `PortalImpl.Portals.Wait` | osdev/kernel/ipc/portal.c:239-245 | one wait on the semaphore of the caller's portal |
| `PortalImpl.Portals.GetReq` | osdev/kernel/ipc/portal.c:247-264 | the head of the queue is handed off with its shared buffer and size, and marked dequeued |
| `PortalImpl.Portals.Reply` | osdev/kernel/ipc/portal.c:266-274 | the value is stored and the request's semaphore signalled once |
| `PortalSpec.Refusals` | osdev/kernel/ipc/portal.c:206-271 | null handles are refused as invalid, WAIT and GET_REQ of a thread without a portal as unknown, and nothing changes |
| `PortalProof.StepKeeps` | osdev/kernel/ipc/portal.c:80-279 | the protocol invariant is kept by every command of every thread, by the deletion of any thread that serves no portal at any point of the protocol, and by yields, blocks, creations, unblocks of threads neither running nor parked, and waits, wake-ups and semaphore events on queues that are not the protocol's |
| `PortalProof.RunsStart` | osdev/kernel/ipc/portal.c:13-19 | a state in which no portal is open exists, so the runs below are not empty |
| `PortalProof.RunKeeps` | osdev/kernel/ipc/portal.c:365-442 | the invariant holds in every state of every run of those events |
| `PortalProof.ClientReadsItsReply` | osdev/kernel/ipc/portal.c:206-222 | for every interleaving of any number of clients and servers in such a run: the value GET_RESULT hands a client is the value of the REPLY to its own request |
| `PortalProof.ServerFindsRequest` | osdev/kernel/ipc/portal.c:239-264 | GET_REQ after a completed WAIT always finds a request, and one that nobody else holds |
| `PortalBuffers.RunStores` | osdev/kernel/ipc/portal.c:185-188 | in every run a live request holds what the CALL that posted it brought: its caller, the pid of the portal called, the address of the share and the size |
| `PortalBuffers.RunHouses` | osdev/kernel/ipc/portal.c:111-112 | in every run a portal belongs to the process of its thread, and every request queued on it was shared into that process |
| `PortalBuffers.ServerGetsTheSharedBuffer` | osdev/kernel/ipc/portal.c:247-264 | for every interleaving: GET_REQ hands the server the address and size of the CALL that posted the request, shared into the process the server itself runs in |
| `PortalBuffers.CleanupReturnsTheBuffer` | osdev/kernel/ipc/portal.c:224-237 | for every interleaving: CLEANUP gives back exactly the process and address that the CALL of the same client shared, and request and semaphore are gone |
| `PortalBuffers.NewestFirst` | osdev/kernel/ipc/portal.c:196-258 | GET_REQ right after a CALL takes the request just posted and leaves the queue as it was before |
| `PortalReady.ParkedExactly` | osdev/kernel/ipc/portal.c:206-245 | in every reachable state a thread is parked on a semaphore of the protocol exactly while its request is unanswered, or its portal has no request |
| `PortalReady.WhoIsDueCanRun` | osdev/kernel/ipc/portal.c:164-274 | in every run a client whose request is answered and a server whose WAIT has a request are ready, unless they went to sleep on a queue outside the protocol, or were stopped by name and have been neither ready nor parked since |
| `PortalProof.ParkedMeansNothingToDo` | osdev/kernel/ipc/portal.c:164-245 | a parked server has an empty queue; a parked client has an unanswered request |
| `PortalProof.HandlesAreLive` | osdev/kernel/ipc/portal.c:206-237 | every request handle used in the protocol is live; CLEANUP never finds the request still queued or held |
| `PortalProof.WaitReplyReturnsAtOnce` | osdev/kernel/process.c:354-361 | WAIT_REPLY leaves its caller running exactly when the reply is already there or no other thread is ready: why the theorems need another ready thread |
| `PortalProof.UnblockExact` | osdev/kernel/process.c:371-394 | thread_unblock keeps the protocol invariant exactly when its target is unknown, or is neither the running thread nor parked |
| `PortalProof.EarlyResult` | osdev/kernel/ipc/portal.c:206-222 | a client unblocked by a third thread while it waits runs on and reads a result although nobody has replied: a concrete state |
| `PortalProof.KilledClient` | osdev/kernel/process.c:240-330 | a client deleted while it waits leaves its request with an empty queue and a count of -1, or 0 once answered |
| `PagingImpl.PageTables.constructor` | osdev/arch/i386/paging.c:415-422 | an empty master directory maps nothing |
| `PagingImpl.PageTables.AllocSlot` | osdev/arch/i386/paging.c:61-80 | the lowest free slot of the pool, marked used |
| `PagingImpl.PageTables.FreeSlot` | osdev/arch/i386/paging.c:82-96 | the slot is free again; addresses outside the pool are ignored |
| `Paging.PoolAllocCorrect` | osdev/arch/i386/paging.c:61-80 | refused exactly when every slot is used; the slot given is the lowest free one and no page table |
| `PagingImpl.PageTables.Map4mb` | osdev/arch/i386/paging.c:119-152 | misaligned addresses change nothing; otherwise exactly the 1024 pages of that entry translate to the new frames, in that directory only |
| `PagingImpl.PageTables.SplitBig` | osdev/arch/i386/paging.c:186-241 | equals the specification of the split, including its failures |
| `Paging.SplitExact` | osdev/arch/i386/paging.c:219-238 | the 1024 entries say what the 4 MB entry said, frame and rights, exactly when the frame is 4 MB aligned |
| `Paging.SplitPreserves` | osdev/arch/i386/paging.c:186-241 | splitting changes frame, user and write right of no page in any directory |
| `PagingImpl.PageTables.Map4kb` | osdev/arch/i386/paging.c:243-301 | equals the specification of the mapping |
| `Paging.MapOnly` | osdev/arch/i386/paging.c:243-301 | it fails exactly when a table is needed and the pool is exhausted, changing nothing; otherwise the page and every page read through the same table entry translate as asked, and no other page of any directory changes |
| `Paging.MapSpares` | osdev/arch/i386/paging.c:243-301 | a page of any directory survives every mapping of another page exactly when the two are not read through one table entry |
| `Paging.MapGrantsUser` | osdev/arch/i386/paging.c:266-286 | the page has exactly the rights asked for unless an older table in its way is closed to ring 3 |
| `Paging.UserPageStaysClosed` | osdev/arch/i386/paging.c:274-296 | a user page mapped under an older supervisor table stays closed to ring 3: a concrete directory |
| `PagingImpl.PageTables.Unmap4kb` | osdev/arch/i386/paging.c:303-356 | equals the specification of unmapping |
| `Paging.UnmapOnly` | osdev/arch/i386/paging.c:303-356 | the page, and every page read through the same table entry, is unmapped or becomes the supervisor identity page below USER_HEAP_BASE; no other page changes and no table comes or goes |
| `Paging.MapUnmapRestores` | osdev/arch/i386/paging.c:243-356 | map then unmap restores the translation exactly when the page was unmapped above USER_HEAP_BASE or the supervisor identity page below it |
| `PagingImpl.PageTables.CloneKernel` | osdev/arch/i386/paging.c:535-559 | the 1024 entries are copied |
| `Paging.CloneCorrect` | osdev/arch/i386/paging.c:535-559 | the clone translates every page like the master and no other directory changes |
| `PagingImpl.PageTables.DestroySpace` | osdev/arch/i386/paging.c:561-584 | equals the specification of the teardown loop |
| `Paging.DestroyCorrect` | osdev/arch/i386/paging.c:561-584 | exactly the slots of the directory's private tables below USER_SPACE_TOP go back to the pool and no other directory translates anything differently |
| `Paging.TeardownExact` | osdev/arch/i386/paging.c:561-584 | every table that only this directory uses is given back exactly when none lies at USER_SPACE_TOP or above and none carries the frame number the master has there |
| `Paging.HighTableLeaks` | osdev/arch/i386/paging.c:573-580 | a directory with a table at USER_SPACE_TOP: its slot stays used after the teardown |
| `VmmImpl.Create` | osdev/kernel/mm/vmm.c:64-99 | a free slot of the pool becomes a copy of the master and the new space has no region; it fails exactly when the pool is exhausted, changing nothing |
| `VmmRange.BornKeeps` | osdev/arch/i386/paging.c:535-559 | a cloned directory has only the master's entries; every other process keeps its translations and the tables that are its own |
| `VmmRange.AptExact` | osdev/arch/i386/paging.c:243-301 | mapping at a page disturbs no other page of any directory, whatever is mapped, exactly when its directory entry is absent, a 4 MB page, or a table nothing else uses |
| `VmmRange.IdentityReach` | osdev/arch/i386/paging.c:422-434 | with 4 MB identity pages over the pool and the directories, every address of a directory or table leads to it under every page directory |
| `VmmRange.MapReachExact` | osdev/arch/i386/paging.c:98-111 | after a page is mapped the kernel still reaches all its directories and tables through their own addresses exactly when the page covers none of them or maps it to itself |
| `VmmRange.UnmapReach` | osdev/arch/i386/paging.c:343-350 | unmapping never hides one, because below USER_HEAP_BASE the identity page comes back |
| `VmmRange.MapTakes` | osdev/arch/i386/paging.c:243-287 | a mapping fails exactly when its entry holds no table and no slot is free, and otherwise takes a slot exactly when it held none |
| `VmmRange.MapOwn` | osdev/arch/i386/paging.c:243-301 | under such an entry a mapping changes one page of that directory and nothing else, and every directory keeps its own tables |
| `VmmPages.MapRun` | osdev/kernel/mm/vmm.c:445-454 | a run of pages is mapped whole to consecutive frames exactly when the pool has a slot for every table it needs; otherwise each page of the run is as before or shows what unmapping leaves; nothing outside the run changes, and at every page the kernel reaches its tables |
| `VmmPages.UnmapRun` | osdev/kernel/mm/vmm.c:555-557 | each mapped page of the run shows what unmapping leaves, nothing else changes and no table goes |
| `VmmSpec.FoundIsUnique` | osdev/kernel/mm/vmm.c:402-414 | whichever search finds a region holding the address finds the one the linear scan finds |
| `VmmSpec.KeyCmpSplits` | osdev/kernel/mm/vmm.c:42-54 | along sorted disjoint regions the interval comparison is monotone |
| `VmmSpec.GapCorrect` | osdev/kernel/mm/vmm.c:157-197 | the search takes the first gap that fits behind some region, and fails exactly when none fits below 4 GB |
| `VmmSpec.GapIsFree` | osdev/kernel/mm/vmm.c:270-316 | the address found is page-aligned, free and below the limit |
| `VmmSpec.AnchorExact` | osdev/kernel/mm/vmm.c:205-206 | the region anchored in an empty tree is sound exactly up to 0x2ffff pages |
| `VmmSpec.ClashExact` | osdev/kernel/mm/vmm.c:486-495 | the 32-bit overlap test is right for every region exactly when the new range does not wrap, the last page apart |
| `VmmSpec.AddAgrees` | osdev/kernel/mm/vmm.c:208-231 | adding a mapped region keeps regions sorted, disjoint and in agreement with the page tables |
| `VmmSpec.DropAgrees` | osdev/kernel/mm/vmm.c:259-266 | removing a region and its pages keeps the agreement |
| `VmmSpec.UndoneAgrees` | osdev/kernel/mm/vmm.c:214-228 | a mapping given up part-way leaves the agreement intact |
| `VmmSpec.ChosenIsApt` | osdev/kernel/mm/vmm.c:157-206 | with all regions above the shared user heap the address chosen can always be mapped without disturbing anybody, and giving up there leaves every translation as it was |
| `VmmSpec.SharedTableClash` | osdev/kernel/mm/vmm.c:498-511 | a region read through a table that another directory maps into is no longer backed by its own memory |
| `VmmSpec.TwoProcessesAtUserHeap` | osdev/kernel/lib/elf.c:76-107 | two processes cloned from a master with a table at 0xC0000000 each load a segment there: the second takes the first one's page over, a concrete state |
| `VmmSpec.JoinedReachExact` | osdev/kernel/mm/vmm.c:498-511 | after a region joins, the kernel still reaches its directories and tables exactly when the region covers none of them or maps it to itself |
| `VmmSpec.DroppedReach` | osdev/kernel/mm/vmm.c:524-560 | when a region goes they stay in reach |
| `VmmSpec.SegmentOverDirectory` | osdev/kernel/lib/elf.c:76-107 | a segment at the address of the process's own page directory: the directory is then out of reach, and no later write through its address maps a page that was not mapped; a concrete state |
| `VmmSpec.NeighbourAgrees` | osdev/kernel/mm/vmm.c:216-231 | what happens in one address space leaves regions and page tables of every other in agreement |
| `VmmSpec.TranslateAgrees` | osdev/kernel/mm/vmm.c:629-644 | every address in a region is translated by the processor to the region's physical address plus offset |
| `VmmSpec.OutsideUnmapped` | osdev/kernel/mm/vmm.c:129-232 | an address of the user window outside every region is not mapped |
| `VmmImpl.AddressSpace.FindGap` | osdev/kernel/mm/vmm.c:157-197 | the walk over the tree computes the first gap |
| `VmmImpl.AddressSpace.AllocPages` | osdev/kernel/mm/vmm.c:129-232 | it succeeds exactly with pages, a record, a free address and slots for its tables; success adds one owned region at the first free address and maps exactly its pages; failure keeps the regions, gives the physical pages back and changes at most free pages it tried to map |
| `VmmImpl.AddressSpace.FreePages` | osdev/kernel/mm/vmm.c:234-268 | exactly the owned region holding the address goes, with its pages, which are returned once; anything else changes nothing |
| `VmmImpl.AddressSpace.MapWhole` | osdev/kernel/mm/vmm.c:270-336 | reserve and map: success, exactly with a record, a free address and slots for the tables, adds one region that owns no pages at the first free address; failure keeps the regions |
| `VmmImpl.AddressSpace.Release` | osdev/kernel/mm/vmm.c:338-388 | a mapping is released whole, exactly when it is not owned and the request stays inside it |
| `VmmImpl.AddressSpace.Scan` | osdev/kernel/mm/vmm.c:390-418 | the region found by the scan |
| `VmmImpl.AddressSpace.MapMemory` | osdev/kernel/mm/vmm.c:420-457 | the whole pages around the range become one region at the first free address, or no region changes; the result, zero or which error, is decided by the state before |
| `VmmImpl.AddressSpace.MapFixed` | osdev/kernel/mm/vmm.c:459-522 | the region joins exactly if aligned, permitted, allocated, free of overlap and the pool has a slot for every table it needs, wherever its directory entries are nobody else's and it hides no paging structure; otherwise no region changes and the error says why |
| `VmmImpl.AddressSpace.UnmapMemory` | osdev/kernel/mm/vmm.c:524-560 | exactly the region holding the address goes, its pages showing what unmapping leaves, or nothing; which error for which cause |
| `VmmImpl.AddressSpace.UnmapFixed` | osdev/kernel/mm/vmm.c:562-627 | the same for owned regions, whose pages are returned once |
| `VmmImpl.AddressSpace.SearchRegion` | osdev/kernel/mm/vmm.c:635-637 | tree search with the interval comparator finds the region the linear scan finds, for every address but 0 |
| `VmmImpl.AddressSpace.VaToPa` | osdev/kernel/mm/vmm.c:629-644 | the physical address of the region found, 0 if none |
| `VmmImpl.AddressSpace.DestroyRegions` | osdev/kernel/mm/vmm.c:106-118 | teardown visits every region once although each visit deletes from the tree being walked, and returns exactly the blocks of the owned regions, each once, in address order |
| `VmmImpl.AddressSpace.Destroy` | osdev/kernel/mm/vmm.c:101-127 | the owned blocks are returned, the directory is gone, of the pool exactly it and its private tables below USER_SPACE_TOP are free again, and to every other directory nothing happened |
| `World.AddsKeeps` | osdev/kernel/mm/vmm.c:129-232 | a region joining one process keeps the invariant of the whole machine: under every directory the kernel reaches its paging structures, every process was cloned from the master, its tables its own, its regions in agreement with its pages, owned blocks in use and owned once |
| `World.RemovesKeeps` | osdev/kernel/mm/vmm.c:234-268 | so does a region leaving, with the memory it owned |
| `World.FailsKeeps` | osdev/kernel/mm/vmm.c:214-228 | so does a failed mapping |
| `World.BeginsKeeps` | osdev/kernel/mm/vmm.c:64-99 | so does the beginning of a process |
| `World.EndsKeeps` | osdev/kernel/mm/vmm.c:101-127 | so does the end of a process |
| `World.EndsCount` | osdev/kernel/mm/vmm.c:101-127 | the end of a process clears exactly the blocks its regions own and raises the number of free blocks by exactly their pages |
| `World.RunKeeps` | osdev/kernel/mm/vmm.c:64-627 | the invariant holds in every state of every run in which processes begin, map, unmap and end |
| `World.RunTranslates` | osdev/kernel/mm/vmm.c:629-644 | in every state of every run every address in a region of any process leads where that region says |
| `World.RunIsolates` | osdev/kernel/mm/vmm.c:129-232 | and two addresses in owned regions lead to the same byte only if they are the same address of the same process |
| `World.RunReaches` | osdev/arch/i386/paging.c:98-111 | in every state of every run, whichever directory is loaded, the kernel's access to any directory or table through its own address reaches it |
| `World.BorrowedIsolates` | osdev/kernel/ipc/shm.c:44-57 | a shared region leads to the same byte as an owned one exactly where the owned one is its source, at the same place |
| `World.BorrowedExact` | osdev/kernel/mm/vmm.c:101-118 | one step later the memory of a shared region is still in use exactly when its source still has the region that owns it; otherwise all of it is free |
| `World.ShareOutlivesSource` | osdev/kernel/mm/vmm.c:101-118 | the source ends, a third process allocates its memory, and the share leads to the third process's bytes |
| `Machine.Machine.constructor` | osdev/kernel/mm/vmm.c:64-99 | the invariant holds when the kernel is up and no process has begun |
| `Machine.Machine.Spawn` | osdev/kernel/process.c:447-452 | a process begins, or the pool is exhausted and nothing changes; the invariant is kept |
| `Machine.Machine.Do` | osdev/kernel/mm/vmm.c:129-627 | every mapping call of every process does, to that process only, what the state it finds decides: which region joins or goes, or that nothing does; its guard is that the directory entries under a new region are nobody else's and that it hides no paging structure; it is a step of the machine and keeps the invariant |
| `Machine.Machine.Kill` | osdev/kernel/mm/vmm.c:101-127 | a process ends: the invariant is kept, free_blocks rises by exactly the pages its regions own, and exactly its directory and private tables below USER_SPACE_TOP are free again |
| `Machine.FetchInto` | osdev/kernel/mm/vmm.c:129-232 | the lowest run of free blocks becomes an owned region at the first free address, exactly if there is such a run, a record, an address and slots for its tables; otherwise every block is as before |
| `Machine.LoadInto` | osdev/kernel/lib/elf.c:85-107 | the lowest run of free blocks is mapped at the segment's address as the process's own, exactly if there is such a run, the grant and the check pass, and the record, the range and the tables are free; otherwise every block is as before |
| `Machine.FreeFrom` | osdev/kernel/mm/vmm.c:234-268 | the region that holds the address goes and its blocks become free, exactly if there is one and it is owned; otherwise nothing changes |
| `Machine.MapInto` | osdev/kernel/mm/vmm.c:420-457 | the region of the whole pages around the range joins at the first free address, exactly if permitted, in size, with a record, an address and slots for its tables |
| `Machine.UnmapFrom` | osdev/kernel/mm/vmm.c:524-560 | the region that holds the address goes, exactly if permitted, not owned and the request stays inside it; otherwise nothing changes |
| `Machine.MapAtIn` | osdev/kernel/mm/vmm.c:459-522 | the region joins where asked, exactly if aligned, permitted, with a record, free of overlap and with slots for its tables |
| `Machine.UnmapAtIn` | osdev/kernel/mm/vmm.c:562-627 | the region that holds the address goes, exactly if permitted and the request stays inside it, and its blocks become free if it owned them; otherwise nothing changes |
| `Pmm.OneBit` | osdev/kernel/mm/pmm.c:31-48 | setting or clearing a bit of a byte changes that bit and no other |
| `Pmm.SetFlag` | osdev/kernel/mm/pmm.c:31-38 | the byte array refines a sequence of used flags under bitmap_set |
| `Pmm.ClearFlag` | osdev/kernel/mm/pmm.c:40-43 | and under bitmap_clear |
| `PmmImpl.PhysicalMemory.constructor` | osdev/kernel/mm/pmm.c:50-105 | exactly the blocks behind the bitmap are free, and free_blocks counts them |
| `PmmImpl.PhysicalMemory.MarkUsed` | osdev/kernel/mm/pmm.c:115-135 | exactly the blocks of the range become used, the count follows |
| `PmmImpl.PhysicalMemory.AllocPage` | osdev/kernel/mm/pmm.c:137-158 | the lowest free block, if any is free |
| `PmmImpl.PhysicalMemory.FreePage` | osdev/kernel/mm/pmm.c:160-172 | that block becomes free, the count follows |
| `PmmImpl.PhysicalMemory.FindRun` | osdev/kernel/mm/pmm.c:195-216 | the restarting counter finds the lowest run of n free blocks, if one exists |
| `PmmImpl.PhysicalMemory.AllocPages` | osdev/kernel/mm/pmm.c:188-221 | succeeds exactly when a run of n free blocks exists, takes the lowest and marks only it; free_blocks stays the number of clear bits |
| `PmmImpl.PhysicalMemory.FreePages` | osdev/kernel/mm/pmm.c:223-238 | the used blocks of the range become free and the count grows by as many |
| `HeapImpl.HeapPool.constructor` | osdev/kernel/mm/heap.c:43-67 | one free chunk covers the pool |
| `HeapImpl.HeapPool.Malloc` | osdev/kernel/mm/heap.c:69-127 | the first free chunk that holds header plus rounded payload is cut, the block is aligned and new and all live blocks stay; while avail_size equals the free bytes it fails exactly when no chunk fits and the equality is kept |
| `HeapImpl.EnoughIsAvailable` | osdev/kernel/mm/heap.c:93-94 | the avail_size test never refuses a request that some chunk could hold |
| `HeapImpl.HeapPool.Release` | osdev/kernel/mm/heap.c:129-176 | the freed block stops being live, chunks tile the pool with no two free neighbours; avail_size stays equal to the free bytes exactly unless the header freed had been merged away and still says used |
| `Heap.TilesDisjoint` | osdev/kernel/mm/heap.c:107-112 | chunks never share a byte |
| `Heap.CutTiles` | osdev/kernel/mm/heap.c:107-117 | cutting a chunk keeps the tiling |
| `Heap.FreeTiles` | osdev/kernel/mm/heap.c:155-174 | merging keeps the tiling |
| `Heap.FreeMerged` | osdev/kernel/mm/heap.c:155-174 | after a free no two neighbours are both free |
| `Heap.FreeCounts` | osdev/kernel/mm/heap.c:145-153 | the free bytes grow by header plus payload of the freed block, whatever is merged |
| `Heap.FreeLive` | osdev/kernel/mm/heap.c:129-176 | the other live blocks keep place and size |
| `Heap.FreeAll` | osdev/kernel/mm/heap.c:129-176 | freeing all live blocks in any order gives the single initial chunk back |
| `Heap.SecondFree` | osdev/kernel/mm/heap.c:129-176 | a second free of a block changes nothing exactly when the chunk before it was in use or absent at the first; otherwise the merged block is counted again |
| `Heap.TwiceFreedCount` | osdev/kernel/mm/heap.c:139-176 | two blocks allocated and freed in order, the second twice: the pool is one free chunk and avail_size exceeds it, a concrete run |
| `Heap.FreeKeepsStale` | osdev/kernel/mm/heap.c:155-174 | headers taken off the list by merging lie in the payload of the chunk that took them over |
| `Heap.SparedExact` | osdev/kernel/mm/heap.c:104-117 | of those headers an allocation leaves exactly the ones none of whose bytes it writes |
| `Heap.RoundUp` | osdev/kernel/mm/heap.c:89-89 | the next multiple of the alignment |
| `Caps.CoveredExact` | osdev/kernel/capability.c:57-80 | the overflow-free range check is containment of the address ranges |
| `Caps.CapTable.Check` | osdev/kernel/capability.c:181-210 | passes exactly when some grant of that type answers the request |
| `Caps.HoldsExact` | osdev/kernel/capability.c:50-106 | a request is answered by the same interrupt line, by one grant with all its flags and addresses or all its ports, by any non-zero permission of its kind, and by nothing else |
| `Caps.GrantExact` | osdev/kernel/capability.c:132-179 | a grant is made exactly if it is sound (a line up to 255, a non-empty range below 4 GB, the permission 1), new and allocated |
| `Caps.CapTable.CapGrant` | osdev/kernel/capability.c:212-271 | invalid, duplicate and unallocated grants are refused unchanged; otherwise one grant in front |
| `Caps.CapTable.CapRevoke` | osdev/kernel/capability.c:273-297 | exactly the equal grants go, the others keep their order |
| `Caps.GrantRevoke` | osdev/kernel/capability.c:212-297 | revoking a grant restores the list as it was; nothing that predates it is lost |
| `Caps.CapTable.InheritAll` | osdev/kernel/capability.c:315-331 | the child gains the parent's grants in front of its own, as many as could be allocated, the last one first |
| `Shm.GrantCoversMap` | osdev/kernel/ipc/shm.c:35-51 | the grant answers the mapping's own check exactly for sizes whose alignment does not wrap |
| `Shm.Source` | osdev/kernel/ipc/shm.c:31-42 | passes exactly if the address is mapped, not to physical address 0, and the pages to be shared lie inside the physical range of its region |
| `Shm.SpansExact` | osdev/kernel/ipc/shm.c:36-42 | the 32-bit comparisons decide exactly that, whatever wraps |
| `Shm.Share` | osdev/kernel/ipc/shm.c:4-60 | the result is decided by the state before: size, permission, source, grant, record, address and tables; success adds one capability and one mapped region to the target; failure changes neither capabilities nor regions, whichever step failed, and at most free pages it tried to map; the caller's space stays valid |
| `Shm.Unshare` | osdev/kernel/ipc/shm.c:62-97 | which calls succeed and which error the others get; success takes the region, its pages and the equal grant, failure changes nothing |
| `Shm.ShareUnshare` | osdev/kernel/ipc/shm.c:4-97 | share then unshare restores the target's capabilities and regions, and every translation exactly when the pages were at rest before: unmapped, or the identity page below USER_HEAP_BASE |
| `Shm.UntouchedInWindow` | osdev/kernel/ipc/shm.c:50-54 | with all regions above the shared user heap a failed share leaves every translation as it was |
| `Shm.ShareAndTakeBack` | osdev/kernel/ipc/portal.c:169-194 | CALL's roll-back after a failed allocation leaves the server's capabilities and regions as they were |
| `MailboxImpl.Mailboxes.AllocMail` | osdev/kernel/ipc/mailbox.c:38-73 | a new mail with one reference |
| `MailboxImpl.Mailboxes.ReleaseMail` | osdev/kernel/ipc/mailbox.c:75-98 | one reference less, freed exactly at zero; an unknown mail is ignored |
| `MailboxImpl.Mailboxes.SendTo` | osdev/kernel/ipc/mailbox.c:153-204 | handlers run once and consume one reference, otherwise the mail is queued and one listener woken; unknown mail is refused (on queues; on links as SendExact states) |
| `MailReady.SendOutcome` | osdev/kernel/ipc/mailbox.c:350-357 | send to one thread: which error for which cause, and otherwise the mail is the newest in exactly that mailbox and a lone parked owner can run |
| `MailboxImpl.Mailboxes.CountRecipients` | osdev/kernel/ipc/mailbox.c:232-251 | the number of subscribed mailboxes with handlers |
| `MailboxImpl.Mailboxes.SendAll` | osdev/kernel/ipc/mailbox.c:206-348 | equals the specification of the broadcast |
| `Mailbox.DeliverCorrect` | osdev/kernel/ipc/mailbox.c:276-343 | the second pass runs each subscribed handler mailbox once, queues one equal copy in each other subscribed mailbox, and never drops the count to zero on the way |
| `Mailbox.BroadcastCorrect` | osdev/kernel/ipc/mailbox.c:211-348 | a broadcast lowers the sender's count by exactly one overall and frees the mail exactly if that was the last; every mailbox and every other mail is as described |
| `Mailbox.MagicZero` | osdev/kernel/ipc/mailbox.c:240-249 | a mail of magic 0 reaches nobody |
| `MailReady.UntrackedBroadcast` | osdev/kernel/ipc/mailbox.c:211-275 | a broadcast of an untracked mail changes nothing, and is invalid exactly if some thread has a mailbox |
| `MailboxImpl.Mailboxes.TryGetMail` | osdev/kernel/ipc/mailbox.c:361-377 | the mail at the tail, if any |
| `MailboxImpl.Mailboxes.ReleaseMailbox` | osdev/kernel/ipc/mailbox.c:127-151 | every queued mail is released once and the mailbox is gone |
| `Mailbox.Fifo` | osdev/kernel/ipc/mailbox.c:361-377 | a mailbox is a first-in first-out queue |
| `MailLinks.SendExact` | osdev/kernel/ipc/mailbox.c:191-191 | after the list_add of a mail the links represent queues at all exactly when the mail was queued nowhere before |
| `MailLinks.ReleaseExact` | osdev/kernel/ipc/mailbox.c:92-94 | after the record of a mail is freed the links represent queues at all exactly when the mail was queued nowhere |
| `MailLinks.TakeRepresents` | osdev/kernel/ipc/mailbox.c:372-373 | the node before the head is the oldest mail, and its list_del takes exactly it off its queue |
| `MailLinks.SentTwice` | osdev/kernel/ipc/mailbox.c:191-191 | a mail sent twice to an empty mailbox ends up linked to itself with the head still pointing at it |
| `MailLinks.StuckForever` | osdev/kernel/ipc/mailbox.c:361-377 | from then on, whatever other mail is queued and however often mail is taken, every take yields that mail again |
| `MailRun.RunOnce` | osdev/kernel/ipc/mailbox.c:206-348 | in every run, births and deaths of threads and processes included, in which no queued mail is sent again and no last reference to one is given up by a command, every mail is queued at most once and a queued mail is alive |
| `MailRun.DeleteReleases` | osdev/kernel/process.c:262-329 | thread_delete gives up one reference to each mail of the thread's mailbox: freed exactly if it was the last, and queued no more |
| `MailRun.ExitLeaks` | osdev/kernel/process.c:549-565 | proc_exit gives up none: mail of its dead threads keeps all references and is queued nowhere |
| `MailWires.StepTied` | osdev/kernel/ipc/mailbox.c:430-592 | every such command writes the links of the queues it leaves |
| `MailWires.RunTied` | osdev/kernel/ipc/mailbox.c:430-592 | in every run the links are those of the queues |
| `MailWires.RunTakesOldest` | osdev/kernel/ipc/mailbox.c:361-377 | so try_get_mail finds nothing exactly when nothing is queued, and otherwise the mail queued first |
| `MailRun.RunFifo` | osdev/kernel/ipc/mailbox.c:181-201 | in every such run, as long as its mailbox exists, the mails a thread takes are those queued first, in the order they were queued |
| `MailboxImpl.Mailboxes.ListenBlock` | osdev/kernel/ipc/mailbox.c:458-509 | equals the specification: parks the caller when nothing is queued |
| `MailReady.ListenBlockExact` | osdev/kernel/ipc/mailbox.c:492-509 | a caller on no queue and without a wake-up heads its mailbox's wait queue, not ready, exactly when no mail is queued, and keeps the processor exactly when mail is queued or no other thread is ready; with mail queued nothing changes |
| `MailRun.QueueExact` | osdev/kernel/ipc/mailbox.c:194-200 | after a mail is queued nobody is parked beside it exactly when at most one listener was parked |
| `MailRun.OneMailTwoListeners` | osdev/kernel/ipc/mailbox.c:181-201 | with two listeners one mail leaves one asleep beside it: a concrete state |
| `MailRun.NobodySleepsBesideMail` | osdev/kernel/ipc/mailbox.c:430-592 | when threads listen on their own mailboxes, after every completed gate of every such run, births and deaths included, nobody is parked at a mailbox that holds mail |
| `MailReady.WhoHasMailCanRun` | osdev/kernel/ipc/mailbox.c:181-201 | in every run the owner of a mailbox with mail is ready, unless it went to sleep on another queue, or was stopped by name, or with its process, and has been neither ready nor parked since |
| `MailboxImpl.Mailboxes.SubscribeTo` | osdev/kernel/ipc/mailbox.c:532-563 | equals the specification of SUBSCRIBE |
| `MailboxImpl.Mailboxes.UnsubscribeFrom` | osdev/kernel/ipc/mailbox.c:564-585 | equals the specification of UNSUBSCRIBE |
| `Mailbox.SubscribeCorrect` | osdev/kernel/ipc/mailbox.c:532-563 | exactly that magic is added, unless it is 0 or 16 others are subscribed |
| `Mailbox.UnsubscribeCorrect` | osdev/kernel/ipc/mailbox.c:564-585 | exactly that magic is removed; fails exactly when it was not subscribed |

## Left out

- Boot before the first thread, the frame addresses on the kernel stacks, the timeslice counter and nested interrupts (irq_reenter): a gate saves, runs and restores as one step.
- Spinlocks: every locked section is an atomic step.
- Portal DESTROY in the protocol runs: it frees queued requests whose client has not reached WAIT_REPLY.
- proc_block and proc_unblock in the protocol runs: they do not clear or respect pending wake-ups.
- PortalProof.StepKeeps: thread_unblock of the running thread or of a parked one is not among the events of the protocol runs; UnblockExact and EarlyResult say what it does.
- Deletion of a thread that serves a portal, and process exit, in the protocol runs.
- The memory of mailboxes that proc_exit leaves behind: it stays allocated, as ExitLeaks says of the mail.
- wait_queue_wake_all and the locked variants of waking: the same step without the lock.
- The words of the paging-pool bitmap: the pool is a sequence of flags, the byte bitmap of physical blocks is modelled bit by bit.
- Caching bits and the dirty and accessed bits of page table entries beyond copying; translation caches are taken to be flushed.
- Contents of pages, mail payload layout and the zeroing of memory.
- PmmImpl.PhysicalMemory.AllocPages: the result is an option; the callers in Machine turn it into an address with 0 for failure, which is right because block 0 stays reserved.
- Machine.Machine.Do: calls whose new region lies under a table that another directory uses, or hides a directory or table of the kernel, are not among its steps; AptExact, SharedTableClash, TwoProcessesAtUserHeap, JoinedReachExact and SegmentOverDirectory say what they do.
- Mappings made in the master directory after the first process exists, and processes that share the master directory.
- HeapImpl.HeapPool.Release: a pointer whose header was written over by a later allocation, or that heap_malloc never returned, is not modelled.
- MailboxImpl.Mailboxes.SendTo: stated on queues as sequences; a mail that is already queued breaks the links instead, as SendExact, SentTwice and StuckForever state.
- KernelImpl.Kernel.ThreadCreate: stack, mailbox and control block allocation with their failures and the first thread are not modelled, only the lists and the record; MailRun pairs the creation with its mailbox.
- The capability checks inside vmm calls are parameters, except in Shm, where they are made against the target's grants.
- Mailboxes that belong to no thread, and kernel callers that listen on another thread's mailbox, except as QueueExact states.
- osdev/kernel/lib/string.c, the parsing of ELF images, hardware drivers, user servers and programs, the boot tutorials in the other directories: only easier members.
