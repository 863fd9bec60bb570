# MOS: memory, processes, IPC, pipes, files and loaders, verified

A Dafny model of the MOS teaching kernel and of the user-level protocols that run on it,
with proofs. `dafny verify dfyconfig.toml` checks all of it.

The kernel part is modelled as the source is written: page reference counts, page tables,
the free list, the environment table, the ASID bitmap and the linked lists of environments are
fields of objects that methods update in place (`Pmap`, `AddressSpaces`, `KernelCalls`). Each
such method is proved to be a step of a state machine on values (`PhysicalMemory` and
`PageSteps`, `Environments`), and the properties that span operations and runs are proved about
that machine. `Processes` runs the two halves on one another's real answers. Every trap runs to
completion, so a trap is one step; user code interleaves at system calls and at accesses to
shared memory.

* **Physical pages and Sv32 page tables** (`Sv32`, `PhysicalMemory`, `PageSteps`, `Pmap`,
  `AddressSpaces`, `PageReaders`, `MappingView`): one global invariant says that each page's
  count is exactly the number of references to it and that the free list holds exactly the
  unreferenced pages; insert, replace, remove, lazy allocation, set-up and teardown keep it,
  each changes exactly the entry it names, and teardown gives back what only that environment
  held, with the exact condition.
* **Copy-on-write fork** (`CopyOnWrite`, `EntryFlags`, `ForkCall`, `StaleForkFlags`): a lazy machine
  and a machine that copies pages at once run side by side; every load returns the same in both, as
  long as `duppage` uses flags that still hold, and every entry keeps its flags but the two that fork
  is about. The eager machine copies a page when `duppage` maps it into the child and again when it
  maps it back into the parent, which is the last moment the two can still differ.
* **Environments, scheduler, IPC** (`Environments`, `EnvironmentRuns`, `Scheduling`, `TrapEffects`,
  `Messages`, `IpcAddresses`, `RunCounts`, `KernelCalls`, `Processes`, `Queue`): the list invariant
  over all runs with the exact calls that break it, what each trap answers and changes, a numeric
  waiting bound, exact time slices, exactly-once delivery to the address asked for, and the bond
  between environments and their page directories.
* **Pipes** (`PipeClosed`, `PipeEnds`, `PipeBuffer`, `PipeCalls`): the closed test over every
  interleaving of close, dup, the single pages of fork and preemption, what each of these calls
  opens and closes, and the byte ring and its two loops at the granularity of single accesses.
* **File system** (`FileBlocks`, `FileBlockRuns`, `FileBlockFailures`, `FileEffects`, `FileServer`,
  `DiskImage`, `ImageContents`, `ImageBuilder`, `ImageRoundTrip`): ownership and conservation of
  disk blocks in the server, the image builder, and the way from one to the other: every byte put on
  an image is found by the server.
* **Loaders and formatting** (`ElfLoader`, `DeviceTree`, `DeviceTreeScan`, `ArgStack`,
  `PrintNumber`, `Bits`).

Several promises turn out to hold only under a condition. They are stated with the exact
condition and with the case that fails:

* `sys_set_env_status` can wake a blocked receiver; the next send then queues it twice.
  `env_free` takes an environment off the run list even when it is not on it, and so does
  `sys_ipc_recv` after the caller's own status was set to not runnable.
* If that environment's slot was never queued since boot, its `tqe_prev` is still NULL and
  `env_free` stores through it: a child that is destroyed before it is made runnable, as `spawn`
  does when it fails, ends in a store to address 0. Nothing else makes a queue macro leave the
  environments' array, whatever traps came before.
* An environment of priority 0 is never preempted.
* A store into the page-table window at UVPT is not refused. The table it makes is never given
  back, and `vpt` then shows the page stored to instead of the tables. Without it `vpt` still
  shows entries inside the window that are directory words.
* `env_alloc` loses the directory it has made when no ASID is left.
* A pipe can be reported closed wrongly while a `fork` has copied an fd page and not yet the data
  page.
* `duppage` shares a writable page if the parent's own store makes the page writable between the
  read of its flags and the first mapping.
* An indirect block made of a block that is still cached inherits old entries; truncation
  loses blocks mapped beyond the recorded size when it drops the indirect block.
* `elf_load_seg` maps the first page twice, losing its contents, when a segment starts inside
  a page, its file part ends in that page, and a zero tail follows.
* The word after the argument pointers is not the null pointer the comment in
  user/lib/spawn.c:57 asks for.

Where a comment in the source and its code differ, the model follows the code.

## Model

| member | source | states |
|---|---|---|
| Sv32.WordRoundTrip | include/mmu.h:12-20 | packing a page address and ten flag bits into a page-table word and unpacking it gives both back |
| Sv32.ReplaceBits | kern/pmap.c:249 | `(w & ~0x3FF) \| bits` keeps a word's page address and replaces its flags |
| Sv32.LeafBitsAreLeaf | kern/pmap.c:264 | an entry made by `page_insert` from the PTE_U its callers pass is a valid leaf open to user code, and writable exactly when `perm` has PTE_W |
| EntryFlags.LeafBitsExactly | kern/pmap.c:249-264 | bit by bit: such an entry has PTE_V, PTE_R, PTE_A and PTE_D, every bit `perm` has, and no other |
| PhysicalMemory.InvCountsExactly | kern/pmap.c:301-308 | the invariant every operation keeps makes each `pp_ref` exactly the leaf entries, directory words, directory holds and stray holds of that page |
| PhysicalMemory.FreeIsUnmapped | kern/pmap.c:143-161 | no page on the free list is mapped, a table, or a directory |
| Pmap.Booted | kern/pmap.c:105-128 | the state `page_init` leaves satisfies the counting invariant |
| Pmap.PageMap.PageInit | kern/pmap.c:105-128 | used pages get count 1, every other page is on the free list once, in reverse order, and the invariant holds |
| Pmap.PageMap.PageAlloc | kern/pmap.c:143-161 | takes the head of the free list zeroed and uncounted, or reports E_NO_MEM exactly when the list is empty and changes nothing |
| Pmap.PageMap.PageFree | kern/pmap.c:169-175 | pushes an unreferenced page on the free list |
| Pmap.PageMap.PageDecref | kern/pmap.c:301-308 | drops one reference and frees the page exactly when it was the last |
| Pmap.PageMap.PgdirWalk | kern/pmap.c:193-223 | returns the table the radix tree has for the address, makes one only when asked and missing, fails exactly when it then has no page, and changes no lookup of any address space |
| Pmap.PageMap.PageLookup | kern/pmap.c:275-295 | agrees with the radix-table lookup |
| Pmap.PageMap.PageInsert | kern/pmap.c:237-268 | on success exactly the addressed entry of one address space changes, to the page with the given permissions; on E_NO_MEM with no old mapping nothing changes; the counting invariant is kept, also when it replaces or re-permits a mapping |
| Pmap.PageMap.PageRemove | kern/pmap.c:312-328 | exactly the addressed entry goes, its page losing one reference |
| PageSteps.MapKeeps | kern/pmap.c:263-264 | a new leaf entry with its count raised by one keeps the invariant |
| PageSteps.UnmapKeeps | kern/pmap.c:322-325 | a removed leaf entry with its count dropped (and the page freed at zero) keeps the invariant |
| PageSteps.RemapKeeps | kern/pmap.c:248-251 | changing only the flags of an entry keeps the invariant and the counts |
| PageSteps.CreateTableKeeps | kern/pmap.c:206-211 | a page table made on the way keeps the invariant and every lookup |
| PageSteps.NewTemplateKeeps | kern/env.c:181-189 | the template directory keeps the invariant |
| PageSteps.KernelWordsKeep | kern/env.c:190 | filling the kernel's half of the template keeps the invariant and every user lookup |
| PageSteps.NewDirectoryKeeps | kern/env.c:196-224 | a directory copied from the template keeps the invariant; the shared tables count once, for the template |
| PageSteps.DropDirectoryKeeps | kern/env.c:412-413 | releasing an emptied directory keeps the invariant and everybody's lookups |
| MappingView.OneEntryIsOneUpdate | kern/pmap.c:237-328 | seen as a finite map from (environment, page) to entries, what `page_insert` and `page_remove` do is one map update or one removal |
| AddressSpaces.PassiveAlloc | kern/pmap.c:330-355 | panics exactly for the listed address ranges or when memory runs out; otherwise maps one zero page, writable, at the faulting address and nothing else |
| AddressSpaces.DoTlbRefill | kern/pmap.c:357-364 | panics exactly when the page is missing and its address is in a listed range or memory runs out; a missing page becomes the head of the free list, zeroed, and nothing else changes; an existing mapping is left alone |
| AddressSpaces.SysMemAlloc | kern/syscall_all.c:140-159 | error cases in the source's order; on success one fresh zero page at that address; on a failed insertion the page allocated stays uncounted and off the free list |
| AddressSpaces.SysMemMap | kern/syscall_all.c:175-200 | the destination entry becomes the source's page with the given permissions; nothing else changes |
| AddressSpaces.SysMemUnmap | kern/syscall_all.c:212-226 | exactly one entry goes |
| AddressSpaces.EnvInitTemplate | kern/env.c:180-185 | makes the empty template directory, or panics without memory |
| AddressSpaces.MapSegment | kern/env.c:67-83 | the loop puts exactly the pages asked for into the template, each counted once, exactly when the one table they need is there or can be had, and does nothing otherwise |
| AddressSpaces.CopyKernelWords | kern/env.c:190 | the template gets the kernel's words and reads as before to user code |
| AddressSpaces.EnvSetupVm | kern/env.c:196-224 | a new address space reads like the template and nothing else, maps the kernel as the template does, and every other one reads as before |
| AddressSpaces.EnvFreeVm | kern/env.c:386-413 | the nested unmap loops end in exactly the torn-down state, and every other address space reads as before |
| AddressSpaces.TeardownDrops | kern/env.c:386-413 | whatever is in the window, teardown drops one reference per mapping below UTOP, per table below UTOP and for the directory, and frees exactly the pages that only those referred to |
| AddressSpaces.TeardownIsExact | kern/env.c:386-413 | teardown frees exactly the pages that only that environment's directory, tables or mappings referred to, exactly when it has no table in the window at UVPT |
| AddressSpaces.TeardownStrandsOnlyTheWindow | kern/env.c:395-411 | teardown leaves no table without an owner exactly when the environment has no table in the window at UVPT |
| AddressSpaces.WindowStoreStrandsATable | kern/pmap.c:330-355 | a store into that window is not refused, and after it teardown does leave such a table |
| PageReaders.WindowArithmetic | kern/traps.c:44-61 | for every user page the shifted fault address of a `vpt` load addresses the intended entry |
| PageReaders.VpdIsTheEndOfVpt | user/include/lib.h:11-12 | `vpd` is the last page of `vpt`, and the shifted address of a `vpd` load addresses the intended directory word |
| PageReaders.VpdReadsTheDirectory | kern/traps.c:44-61 | while no page is mapped there, `vpd[i]` is the directory word |
| PageReaders.WindowReadsTheTables | kern/traps.c:44-61 | for every user page n: whatever the environment's pages hold, `vpt[n]` is valid where `page_lookup` finds a page, and is then its entry, exactly when no page is mapped at the window page of `vpt[n]` and either n is below the window or neither n is mapped nor the directory word `vpt[n]` shows is valid |
| PageReaders.VptShowsAPageThatIsNone | kern/traps.c:52-54 | in an environment that maps a page and never stored into the window, `vpt` shows a valid entry inside the window that `page_lookup` does not find |
| PageReaders.WindowStoreHidesAPage | kern/traps.c:93-96 | after a store into the window, a page that is mapped reads as absent in `vpt` |
| PageReaders.HardwareWalkAgrees | kern/pmap.c:275-295 | the Sv32 translation of section 4.3.2 of the RISC-V Privileged Architecture and `page_lookup` agree on every user address; a store faults exactly when the entry is not writable |
| PageReaders.InsertedPageAllows | kern/pmap.c:237-268 | after `page_insert` a load at that page succeeds, a store exactly when `perm` has PTE_W, and an instruction fetch exactly when `perm` has PTE_X |
| CopyOnWrite.EntryFlags | user/lib/fork.c:77-102 | which flags an entry has after either of `duppage`'s mapping calls |
| EntryFlags.OtherFlagsKept | user/lib/fork.c:60-97 | what `duppage` and `cow_entry` make of an entry's flags differs from it in PTE_W and PTE_COW only |
| EntryFlags.CallsEnter | kern/syscall_all.c:140-226 | what a program maps, shares or unmaps is entered or gone with exactly the page and the permissions asked for, new pages are zero, and no other entry changes |
| EntryFlags.StoreChanges | user/lib/fork.c:16-53 | a store changes the byte it addresses in the page mapped there, and no other byte and no entry |
| EntryFlags.HandlerEnters | user/lib/fork.c:16-53 | the handler's remap gives the faulting page its copy, with PTE_COW traded for PTE_W and every other flag kept; its other steps touch the scratch page only |
| EntryFlags.StepKeepsLeaves | kern/pmap.c:264 | every entry of every state a run reaches is one user code can reach, as `Duppage` and `Fork` assume |
| CopyOnWrite.StepKeeps | user/lib/fork.c:16-159 | every system call, fault, handler step and fork step keeps the copy-on-write invariant, and with it the refinement of eager copying; `duppage`'s first mapping call does exactly when the page's PTE_W is what it was when the flags were read |
| CopyOnWrite.CowMapRefines | user/lib/fork.c:42-44 | the handler's final remap changes what one page reads as for nobody |
| CopyOnWrite.DupSecondRefines | user/lib/fork.c:97-99 | the second mapping call is where the eager machine copies the page a second time |
| CopyOnWrite.StaleFlagsExactly | user/lib/fork.c:85-93 | `duppage`'s first mapping call keeps the invariant exactly when the page's PTE_W is still what it was when the flags were read |
| CopyOnWrite.StaleFlagsShareAPage | user/lib/fork.c:85-93 | if it is not, every byte the parent then stores to that page is read by the child |
| CopyOnWrite.WriteRefines | user/lib/fork.c:16-53 | a store to a writable page reads back the same in both machines, and other environments do not see it unless the page is a library page |
| CopyOnWrite.CowRefinesEagerCopy | user/lib/fork.c:16-159 | over every run of interleaved forks (nested too), stores, handler steps and lazy zero fills in which no page's PTE_W changes between `duppage`'s read of its flags and its first mapping call, all loads return what the machine that copies pages eagerly returns |
| CopyOnWrite.InitialStates | user/lib/fork.c:115-159 | the machines start related |
| StaleForkFlags.ChildSeesTheParentsStack | user/lib/fork.c:77-102 | a run from one environment without pages, two forks and a fault in the second, to such a call; after it every byte the parent stores to its stack is in the child's |
| ForkCall.Machine.Duppage | user/lib/fork.c:77-102 | issues exactly the mapping calls that duplicate that page, keeps invariant and refinement, and leaves both entries with the parent's old page and flags, but without PTE_W and with PTE_COW if it was writable and not shared; no other entry changes |
| ForkCall.Machine.VisitTable | user/lib/fork.c:137-146 | the inner loop duplicates every present page of one page table |
| ForkCall.Machine.Fork | user/lib/fork.c:115-159 | after `fork` the child reads every page below the stack top like the parent did, the parent reads as before, and for each such page the child has an entry exactly where the parent had one, both as `duppage` leaves them; nothing else is mapped in the child and no other entry changes |
| EnvironmentRuns.WithoutKeepsTheRest | include/queue.h:229-236 | taking one element out of a queue without repetitions keeps the others once each |
| EnvironmentRuns.InitiallyInv | kern/env.c:156-171 | `env_init` establishes the environment invariant |
| EnvironmentRuns.BootKeeps | kern/env.c:363-379 | `env_create` keeps it |
| EnvironmentRuns.MadeIds | kern/env.c:94-98 | identifiers name their slot, are positive and grow |
| EnvironmentRuns.EnvidNamesOne | kern/env.c:113-147 | `envid2env` finds exactly the live environment bearing the identifier, and with permission checked only the caller or its children |
| EnvironmentRuns.ExoforkMakesAChild | kern/syscall_all.c:242-263 | a fork succeeds exactly when memory, a free environment and an ASID are left; it then makes one blocked child with a new identifier and the caller's priority and changes no other environment |
| EnvironmentRuns.AllocKeeps | kern/env.c:245-287 | every failing path of `env_alloc` keeps the invariant, also the one that has already used up an identifier |
| EnvironmentRuns.ExoforkKeeps | kern/syscall_all.c:242-263 | `sys_exofork` keeps the invariant in all its outcomes |
| EnvironmentRuns.ScheduleKeeps | kern/sched.c:17-51 | `schedule` keeps the invariant, `env_run`'s assertion never fails, and the panic happens exactly when nothing is runnable |
| EnvironmentRuns.SetStatusKeeps | kern/syscall_all.c:277-301 | `sys_set_env_status` keeps the invariant exactly when it does not wake a receiver |
| EnvironmentRuns.DestroyKeeps | kern/env.c:386-444 | destroying a runnable environment keeps the invariant; any other takes an element off a list it is not on, exactly then |
| EnvironmentRuns.RecvKeeps | kern/syscall_all.c:348-371 | receiving keeps the invariant unless the caller was itself made not runnable |
| EnvironmentRuns.SendKeeps | kern/syscall_all.c:389-428 | sending always keeps the invariant, whatever the page mapping answers |
| EnvironmentRuns.StepKeeps | kern/env.c:18 | the invariant stated in the source (on the run list iff RUNNABLE), free list iff FREE, distinct ASIDs, receivers blocked: every trap keeps it exactly when it is not a wake-up of a receiver, and lists are corrupted exactly by the two named calls |
| EnvironmentRuns.RunKeepsInv | kern/env.c:18 | it holds after every run of guarded traps |
| EnvironmentRuns.WokenReceiverIsQueuedTwice | kern/syscall_all.c:411-417 | for any parent and receiving child, waking the child and then sending to it queues it twice |
| TrapEffects.ScheduleEffect | kern/sched.c:17-51 | with a turn left the current environment goes on and one slice is gone; otherwise it goes to the tail if it can run, and the first of the list runs with a turn of its priority; `env_runs` of the one that runs grows by one and nothing else changes |
| TrapEffects.SetStatusEffect | kern/syscall_all.c:277-301 | answers E_INVAL, E_BAD_ENV or 0, each exactly when; with 0 the environment has the status asked for, stands at the tail of the run list if newly runnable or is the one element gone from it if newly blocked, and nothing else changes; with an error nothing does |
| TrapEffects.ExoforkEffect | kern/syscall_all.c:242-263 | E_NO_FREE_ENV without a free environment, E_NO_MEM without memory, E_NO_FREE_ENV without an ASID, in this order; otherwise the first free environment is the child, with all its fields, off the run list, and nothing else changes |
| TrapEffects.CreateEffect | kern/env.c:363-379 | the environment made has no parent, the given priority, and stands at the head of the run list |
| TrapEffects.DestroyEffect | kern/syscall_all.c:77-86 | E_BAD_ENV with nothing changed, or the runnable target is free, heads the free list, is gone from the run list and its ASID is free; the next environment runs exactly when it was the caller |
| TrapEffects.RecvEffect | kern/syscall_all.c:348-371 | E_INVAL with nothing changed, or the caller waits with the address it gave, is gone from the run list, and the first of the rest runs |
| TrapEffects.SendEffect | kern/syscall_all.c:389-428 | E_INVAL, E_BAD_ENV or E_IPC_NOT_RECV, in this order, with nothing changed; otherwise the receiver has value, sender and permissions and stands at the tail of the run list |
| TrapEffects.ForkedChildRuns | user/lib/fork.c:148-158 | the child of a successful fork, once set runnable, stands at the tail of the run list and is run within the scheduling bound |
| Scheduling.ScheduleAdvances | kern/sched.c:17-51 | each call of `schedule` runs a waiting environment or brings it at least one slice nearer |
| Scheduling.StepAdvances | kern/sched.c:17-51 | no other trap (wake-ups, destroys, sends, forks) sets it back |
| Scheduling.SchedulingBound | kern/sched.c:17-51 | if all priorities are at least 1, an environment that stays runnable is run by call number remaining count + priorities queued ahead + 1, in every run |
| Scheduling.TurnLasts | kern/sched.c:43-48 | while slices are left, each tick uses one and nobody else runs |
| Scheduling.ExactlyItsPriority | kern/sched.c:17-51 | an environment that neither yields nor blocks gets exactly `env_pri` consecutive slices and then goes to the tail |
| Scheduling.PriorityZeroIsNeverPreempted | kern/sched.c:46-48 | with priority 0 the counter starts at -1 and no number of ticks switches |
| Scheduling.YieldPicksAnother | kern/sched.c:9-11 | after a yield the caller runs again exactly when it is the only runnable environment |
| Messages.TrapFrame | kern/syscall_all.c:348-428 | what each trap does to every environment's ipc fields (value, sender, permissions, receiving) |
| Messages.ExactlyOnce | kern/syscall_all.c:348-428 | over every run, what a receiver's `ipc_recv` calls returned (value, sender, permissions), plus at most one message not yet read, is the sequence of sends that passed the receiving check, in order |
| Messages.DeliveredWhateverTheMapping | kern/syscall_all.c:407-427 | a send past the check delivers value, sender and permissions even when the page mapping then fails |
| Messages.DeliveredFieldsStay | user/lib/ipc.c:24-39 | the delivered fields cannot change until the receiver receives again |
| IpcAddresses.TrapAddresses | kern/syscall_all.c:360 | no trap but an environment's own receive changes the address it has recorded, which is then the one given |
| IpcAddresses.AskedForAddress | kern/syscall_all.c:348-428 | over every run from a receive to the send that ends it, the receiver's recorded address is the one it gave |
| RunCounts.TrapCounts | kern/env.c:497 | `env_runs` counts each time an environment is run and nothing else |
| RunCounts.SameCountMeansAlone | user/lib/pipe.c:110-114 | over every run between two moments at which an environment runs, its `env_runs` is unchanged exactly when `schedule` was not called, and then nobody else ran |
| KernelCalls.Kern.constructor | kern/env.c:156-171 | the loop leaves every environment free and the linked free list in array order; the run list is empty and no environment was ever on it |
| KernelCalls.Kern.AsidAlloc | kern/env.c:32-42 | takes the least free bit of the bitmap, and fails exactly when there is none |
| KernelCalls.Kern.AsidFree | kern/env.c:54-58 | clears that bit and no other |
| KernelCalls.Kern.FindEnv | kern/env.c:113-147 | agrees with the state machine's `envid2env` |
| KernelCalls.Kern.Alloc | kern/env.c:245-287 | is the allocation step, in every outcome, on the linked free list |
| KernelCalls.Kern.DoSchedule | kern/sched.c:17-51 | with linked lists it is the scheduling step, in every outcome that does not take an element off a list it is not on; whatever state earlier traps left the run list in, no macro stores through NULL and no pointer leaves the arrays |
| KernelCalls.Kern.Destroy | kern/syscall_all.c:77-86 | likewise the destroy trap, but that it ends in a store through NULL exactly when its target is live, may be destroyed by the caller and stands in a slot that was never put on the run list since boot; the target is then already free and on the free list |
| KernelCalls.Kern.Exofork | kern/syscall_all.c:242-263 | is the fork trap, in every outcome |
| KernelCalls.Kern.SetEnvStatus | kern/syscall_all.c:277-301 | likewise the status trap; it stores through NULL in no state that traps lead to |
| KernelCalls.Kern.Receive | kern/syscall_all.c:348-371 | likewise the receive trap |
| KernelCalls.Kern.TrySend | kern/syscall_all.c:389-428 | likewise the send trap, for any answers of the page mapping |
| KernelCalls.Kern.Deliver | kern/syscall_all.c:389-419 | what a send does before its page is looked at: the receiver, if there is one, has its message and stands at the tail of the linked run list |
| KernelCalls.Kern.NeverQueuedIsBlocked | kern/env.c:386-444 | an environment whose slot was never queued is not runnable, so the destroy that fails is one of the destroys that corrupt the list |
| KernelCalls.Kern.Trap | kern/syscall_all.c:486-543 | in every state traps can leave, linked or not, a trap stores through NULL exactly when it is a destroy of such an environment, and otherwise leaves such a state again |
| KernelCalls.Kern.Traps | kern/syscall_all.c:486-543 | over every sequence of traps, guarded or not, up to the first that does not return, nothing but such a destroy stores through NULL |
| KernelCalls.Kern.FreshChildStoresThroughNull | user/lib/spawn.c:211-215 | any parent that forks into a slot never queued and destroys the child before making it runnable makes the kernel store through NULL |
| KernelCalls.BootAndLoseAChild | kern/env.c:426 | and that happens in the third call after boot: one environment is created and run, forks, and destroys its child |
| Processes.OtherTrapsKeep | kern/env.c:196-287 | every guarded trap but a fork and a destruction keeps the bond of the two halves: each live environment has a directory of its own, and every other directory is one lost by a failed allocation |
| Processes.DestroyKeeps | kern/env.c:386-444 | destroying an environment together with its address space keeps it |
| Processes.ExoforkKeeps | kern/env.c:245-287 | a fork keeps it; when no ASID is left the directory just made is one more that is lost |
| Processes.CreateKeeps | kern/env.c:363-379 | `env_create` keeps it |
| Processes.Processes.EnvCreate | kern/env.c:363-379 | makes an environment whose address space reads like the template, before its program is loaded |
| Processes.Processes.SysIpcTrySend | kern/syscall_all.c:389-428 | is the send trap with the answers memory really gives; the receiver's entry for its address (0 if it asked for no page) becomes the sender's page exactly when the send is received, asks for it, finds it and has room for a table, and memory is unchanged otherwise |
| Processes.PageGoesWhereAsked | kern/syscall_all.c:421-426 | over every run from a receive to the send that ends it, the page sent is entered at the address given to that receive, with the permissions of the send |
| Processes.Processes.SysExofork | kern/syscall_all.c:242-263 | is the fork trap with a directory exactly when a page is left; the child reads like the template, every other address space as before, and the directory is lost exactly when the fork then fails |
| Processes.Processes.SysEnvDestroy | kern/syscall_all.c:77-86 | is the destroy trap and, before it, the teardown of that environment's address space, in every outcome; it ends in a store through NULL exactly when the slot was never queued since boot |
| Processes.Processes.FreshChildStoresThroughNull | user/lib/spawn.c:211-215 | it does for a fresh child with a real address space |
| Bits.StaysAWord | kern/env.c:32-58 | setting or clearing one of the low bits of a 32-bit word leaves a 32-bit word |
| Bits.SetInBitmap | fs/fs.c:187-199 | setting a bit of a bitmap of 32-bit words changes that bit only |
| Bits.ClearInBitmap | kern/env.c:54-58 | clearing one changes that bit only |
| Queue.UnlinkKeeps | include/queue.h:229-236 | unlinking a member relinks exactly the others, in order |
| Queue.TailQueue.constructor | include/queue.h:187-191 | an empty queue; the fields of elements never linked are NULL, as in the zeroed `envs` |
| Queue.TailQueue.InsertTail | include/queue.h:203-209 | appends; done to the last member it ties the member to itself |
| Queue.TailQueue.InsertHead | include/queue.h:193-201 | prepends |
| Queue.TailQueue.RemoveAny | include/queue.h:229-236 | of a member, removes it; of any element, stores through NULL exactly when it was never linked, leaving `tqh_last` NULL, and otherwise leaves every pointer NULL or at an element |
| Queue.TailQueue.RemoveMember | include/queue.h:229-236 | removes that element and no other |
| Queue.TailQueue.SecondRemovalLosesAnother | include/queue.h:229-236 | in any queue: an element is removed, another appended, and the first removed again; the appended one is lost if the first stood last, and otherwise nothing happens |
| Queue.List.InsertHead | include/queue.h:143-149 | prepends |
| Queue.List.InsertAfter | include/queue.h:115-123 | inserts behind a member |
| Queue.List.Remove | include/queue.h:157-162 | removes that element and no other |
| PipeClosed.StepKeeps | user/lib/pipe.c:229-234 | `pipe_close`, `dup`, every page of `fork`, destruction and the counting reads keep: the data page is mapped at every open slot but those a fork has not come to, and at the slots of half-done closes and dups |
| PipeClosed.CountsAgree | user/lib/fd.c:116-149 | an end's count equals the data page's exactly when the slots forks still owe a data page are as many as the other end's slots and the half-done closes and dups together; with no fork half done, exactly when the other end is gone and nothing is half done |
| PipeClosed.AnswerIsExact | user/lib/pipe.c:95-117 | the answer `_pipe_is_closed` returns is exactly that comparison, for the moment it is returned |
| PipeClosed.NeverFalselyClosed | user/lib/pipe.c:95-117 | over every interleaving, forks included: if no fork was between a pipe's fd page and its data page when the pipe answered closed, no slot of the other end exists then or ever after |
| PipeClosed.NoEndComesBack | user/lib/fd.c:116-149 | an end with no slot left never gets one again |
| PipeClosed.CountsFromTwoMomentsLie | user/lib/pipe.c:110-114 | a run from `pipe()` on in which, without the second look at `env_runs`, the two counts agree although a writer is open |
| PipeClosed.HalfDoneForkLies | user/lib/fork.c:137-146 | a run from `pipe()` on, in which a child forked earlier is told that the pipe is closed while its parent, inside the next fork, has a reading end open |
| PipeEnds.DupOpens | user/lib/fd.c:116-149 | whatever the others do between its two mappings, `dup` leaves the new descriptor open on its source's end with its data page, or closed if the second mapping fails; no other descriptor of anybody changes by it |
| PipeEnds.CloseCloses | user/lib/pipe.c:229-234 | likewise `close` takes exactly its own descriptor off its end, at its first step, and leaves no page of it |
| PipeEnds.KillCloses | kern/env.c:386-413 | a destruction takes every descriptor of the victim and no other |
| PipeEnds.SwitchCounts | kern/env.c:497 | a switch counts in `env_runs` of the environment switched to, and changes nothing else of anybody's |
| PipeEnds.OthersCallsStay | user/lib/fd.c:116-149 | no step moves on a call that another environment is inside of, but a destruction of it |
| PipeEnds.ForkGives | user/lib/fork.c:115-159 | when a fork ends, however the others interleaved with its pages, the child has exactly the descriptors its parent had when it began |
| PipeEnds.ForkPageGives | user/lib/fork.c:137-146 | each of its steps in between touches one descriptor of the child and nobody else's |
| PipeEnds.CheckAnswers | user/lib/pipe.c:110-117 | `_pipe_is_closed` answers exactly when `env_runs` is what it was when it began to count, with the comparison as it then stands, and otherwise begins again |
| PipeEnds.AskedAlone | user/lib/pipe.c:95-117 | asked without a switch in between, it answers in one pass |
| PipeBuffer.StepKeeps | user/lib/pipe.c:132-192 | every access of either process keeps: bytes read, then bytes buffered, are the bytes written |
| PipeBuffer.Fifo | user/lib/pipe.c:132-192 | over every interleaving of one reader and one writer the bytes come out in order and 0 ≤ wpos − rpos ≤ 32 |
| PipeCalls.ApplyKeeps | user/lib/pipe.c:132-192 | whatever the other process does between two accesses keeps the ring in order and leaves this process's index and history alone |
| PipeCalls.Shared.PipeRead | user/lib/pipe.c:132-155 | in every interleaving the bytes returned are the next bytes of the stream, at least those buffered when the call began, as far as asked for; fewer than asked only with the buffer empty after a first one, none only when the pipe was said to be closed |
| PipeCalls.Shared.PipeWrite | user/lib/pipe.c:168-192 | in every interleaving the bytes counted are those that entered the stream, in order, at least as many as there was room for; fewer than asked only with the buffer full and the pipe said to be closed |
| PipeBuffer.PublishingFirstLosesAByte | user/lib/pipe.c:190 | if the index were stored before the byte, a reader could take a byte nobody wrote |
| PipeBuffer.TakingLateLosesAByte | user/lib/pipe.c:152 | if the read index were stored before the byte is taken, a writer could overwrite it on a full ring, whatever run led there |
| PipeBuffer.LateReaderTakesTheNewest | user/lib/pipe.c:152 | whatever 32 bytes are written first, such a ring is reached, and the byte the reader then takes is the newest |
| FileBlockRuns.BlocksAreConserved | fs/fs.c:187-241 | free blocks and owned blocks always add up to the disk |
| FileBlockRuns.OwnerIsUnique | fs/fs.c:360-392 | a sound disk has one owner per block |
| FileBlockRuns.DataBlockGiven | fs/fs.c:415-428 | a block allocated into an empty slot keeps ownership and every other slot |
| FileBlockRuns.IndirectGivenExactly | fs/fs.c:131-142 | an indirect block made of a block whose page is still cached keeps ownership exactly when that page has no entry in it |
| FileBlockRuns.MapFileBlockKeeps | fs/fs.c:408-432 | `file_map_block` answers with the block its slot holds, keeps every other block of every file and keeps ownership when a new indirect block starts blank |
| FileBlockRuns.MapFileBlockExactly | fs/fs.c:360-432 | and only then |
| FileBlockRuns.ClearFileBlockExactly | fs/fs.c:436-450 | `file_clear_block` frees exactly that block and empties exactly that slot |
| FileBlockRuns.TruncateSlots | fs/fs.c:696-721 | truncation frees exactly the file's blocks from the new count up to the old one, and the indirect block when the new count is at most 10; every other slot of every file is unchanged |
| FileBlockRuns.TruncateExactly | fs/fs.c:696-721 | no block is lost exactly when no entry at or beyond old size / 4096 + 1 goes with the indirect block |
| FileBlockFailures.ClearedDataBecomesPointers | fs/fs.c:131-142 | a cleared data block that becomes an indirect block while still cached breaks ownership: its data is read as block numbers |
| FileBlockFailures.MappedBeyondSizeIsLost | fs/fs.c:696-721 | a block mapped beyond the recorded size is lost by the next truncation to ten blocks or fewer, `file_remove`'s included |
| FileBlockFailures.ShortRunsLoseBlocks | fs/fs.c:408-432 | both happen in two calls on a disk of five blocks |
| FileEffects.AllocBlockEffect | fs/fs.c:208-241 | the least free block from 3 on, zeroed if not cached; E_NO_DISK exactly without one and E_NO_MEM exactly without a page for it, with nothing changed |
| FileEffects.MapBlockFrame | fs/fs.c:408-432 | changes no file's size, no other file, and no block's contents but those of blocks it takes and of the file's index |
| FileEffects.TruncateEffect | fs/fs.c:696-721 | leaves the file with the new size, without its index block exactly when at most ten blocks are left, and no other file and no block of data changed |
| FileEffects.TruncateKeepsData | fs/fs.c:696-721 | every block that still holds a byte below the new size, and every block of another file, is where it was with what it held; the blocks beyond, up to the old size, are no longer mapped |
| FileServer.Server.BlockIsFree | fs/fs.c:173-184 | reads the bitmap bit, false off the disk |
| FileServer.Server.constructor | fs/fs.c:280-292 | the disk as it is on the drive, with the blocks the start reads cached |
| FileServer.Server.ReservedInUse | fs/fs.c:293-300 | `read_bitmap`'s assertions hold exactly when the boot block, the super block and every block of the bitmap are in use |
| FileServer.Server.MarkFree | fs/fs.c:187-199 | sets one bit; block 0 and blocks off the disk are ignored |
| FileServer.Server.AllocBlockNum | fs/fs.c:208-221 | takes the least free block from 3 on, and fails exactly when there is none |
| FileServer.Server.MapInCache | fs/fs.c:131-142 | a new cache page is zero, an old one is kept |
| FileServer.Server.AllocBlock | fs/fs.c:225-241 | is the allocation step; a failed mapping gives the block back |
| FileServer.Server.FileBlockWalk | fs/fs.c:360-392 | is the walk step, and `read_block` never panics in it |
| FileServer.Server.FileMapBlock | fs/fs.c:408-432 | is the mapping step |
| FileServer.Server.FileClearBlock | fs/fs.c:436-450 | is the clearing step |
| FileServer.Server.FileTruncate | fs/fs.c:696-721 | the loop and the release of the indirect block are the truncation step |
| FileServer.Server.FileSetSize | fs/fs.c:725-736 | truncates exactly when the file shrinks |
| DiskImage.AddKeeps | tools/fsformat.c:136-184 | linking the next block keeps every block owned by one slot and changes no other slot, also when it brings an index block along |
| ImageContents.ExtendKeeps | tools/fsformat.c:172-195 | every file and directory keeps all its blocks with their contents, and the extended one gains one |
| ImageContents.RewriteKeeps | tools/fsformat.c:207-239 | filling the next struct File of a directory's last block keeps the whole image |
| ImageContents.ServerFindsEverySlice | fs/fs.c:408-432 | on the image the server's `file_map_block` finds, for each block number of each file and directory and whatever is cached, the block holding that part of it, on both sides of the direct/indirect boundary, and E_NOT_FOUND or E_INVAL beyond; only the cache changes |
| ImageContents.BitmapIsExact | tools/fsformat.c:142-148 | the owned blocks are exactly 3 up to `nextbno` |
| ImageBuilder.CountFits | tools/fsformat.c:173 | on a disk of 1024 blocks the index bound asserted in `save_block_link` never fails |
| ImageBuilder.Builder.constructor | tools/fsformat.c:105-133 | the empty image, all 1024 bits set and no other |
| ImageBuilder.Builder.SaveBlockLink | tools/fsformat.c:172-184 | is the link step, index block included |
| ImageBuilder.Builder.CreateFile | tools/fsformat.c:207-239 | uses the first unused struct File, or a new block exactly when all are full |
| ImageBuilder.Builder.WriteFile | tools/fsformat.c:242-277 | succeeds exactly when the blocks it needs are left, and then the file holds exactly its bytes |
| ImageBuilder.Builder.WriteTree | tools/fsformat.c:280-307 | a whole directory tree is on the image afterwards, or does not fit, exactly |
| ImageBuilder.Builder.WriteAll | tools/fsformat.c:321-334 | likewise for a list of files and directories |
| ImageBuilder.Builder.FlushBitmap | tools/fsformat.c:142-148 | bit b is set exactly for nextbno ≤ b < 1024 |
| ImageRoundTrip.BytesOfBlock | fs/fs.c:408-432 | the server's little-endian words hold the bytes the block was given |
| ImageRoundTrip.TreesAreFound | fs/fs.c:408-432 | whatever trees were put into a directory: every byte of every file, and every entry of every directory, is in the block `file_map_block` answers with, all the way down, and no block is found beyond a file's end |
| ImageRoundTrip.Format | tools/fsformat.c:309-337 | from the empty disk, any list of files and directories is on the image afterwards exactly when 3 + its cost is at most 1024 blocks, and the bitmap is flushed for exactly those |
| ImageRoundTrip.Mount | fs/fs.c:341-345 | the server that starts on a flushed image passes `read_bitmap`'s assertions and sees the image |
| ImageRoundTrip.FormatAndMount | fs/fs.c:341-345 | one after the other from the empty disk: for all trees that fit, the server's free blocks are exactly those from 3 + their cost on, and every file and directory is found with its contents |
| ImageRoundTrip.FindBlock | fs/fs.c:459-475 | asked for any block of any file or directory, the running server answers with the one holding it, and still has that image mounted afterwards |
| ElfLoader.Loader.LoadIcodeMapper | kern/env.c:301-321 | enters one fresh page with the bytes at the offset and zeros elsewhere, or runs out of memory, exactly when the page and the table it may need cannot be had; a replaced page comes back |
| ElfLoader.Loader.SpawnMapper | user/lib/spawn.c:88-102 | does the same through the window at UTEMP, whose own table may be missing too; without it the page is unmapped again |
| ElfLoader.Loader.LoadContents | lib/elfloader.c:35-50 | the partial first page and the first loop put the file's bytes in place |
| ElfLoader.Loader.LoadTail | lib/elfloader.c:53-58 | the second loop adds zero pages up to the end |
| ElfLoader.Loader.LoadSeg | lib/elfloader.c:25-60 | maps exactly the listed pages or runs out of memory, exactly, page tables counted; when the zero tail is apart from the first page the segment is in place, otherwise the first page has been mapped again and is zero |
| ElfLoader.SegmentCosts | lib/elfloader.c:25-60 | a segment over unmapped pages with its tail apart is loaded exactly when its pages, the directory words without a table and spawn's window table can all be had |
| ElfLoader.Loader.SegmentReads | lib/elfloader.c:25-60 | each address of the segment reads as the file's byte or zero, and its page is open to user code, writable exactly for PF_W and executable exactly for PF_X |
| ElfLoader.OncePerPage | lib/elfloader.c:25-60 | every page of the segment is mapped exactly once, in order, exactly when memsz ≤ filesz, or the start is page-aligned, or the file part reaches the first page's end |
| DeviceTree.ByteSwap | lib/fdt.c:7-12 | `bswap` reverses the bytes and undoes itself |
| DeviceTree.EventsInOrder | lib/fdt.c:30-69 | for every well-formed node the events are its properties, one done, then its children, in order |
| DeviceTree.NodeInOrder | lib/fdt.c:30-69 | a node is opened, then its properties, done and children are reported under its own path, then it is closed |
| DeviceTree.TopInOrder | lib/fdt.c:30-69 | the top is no node: its properties and children are reported and nothing is done |
| DeviceTree.RescanSeesTheRest | lib/fdt.c:55-57 | scanning what a scan with deletions left reports what the tree without the deleted subtrees reports |
| DeviceTree.PruningKeepsWellFormed | lib/fdt.c:55-57 | what a scan with deletions leaves is a well-formed tree again |
| DeviceTree.PruningKeepsLength | lib/fdt.c:55-57 | deleting keeps every word in its place |
| DeviceTreeScan.Scanner.ReadName | lib/fdt.c:52-54 | reads the name the encoding put there |
| DeviceTreeScan.Scanner.ScanBody | lib/fdt.c:14-70 | on any encoded body the scanner stops just past it, reports exactly its events and leaves exactly the pruned encoding, touching nothing else |
| DeviceTreeScan.Scanner.ScanChild | lib/fdt.c:46-59 | one node: open, its body, close, and NOPs over exactly its words when close says so |
| DeviceTreeScan.Scanner.Scan | lib/fdt.c:72-84 | nothing happens unless magic and version are understood; otherwise the events of the tree are reported and its words are left pruned, nothing else touched |
| DeviceTreeScan.Scanner.ScanTwice | lib/fdt.c:72-84 | a second scan of the same words reports what the tree without the deleted subtrees reports |
| ArgStack.StringFound | user/lib/spawn.c:33-46 | a string with its NUL is read back from the page |
| ArgStack.StackPage.CopyStrings | user/lib/spawn.c:33-46 | the strings fill the page up to its end |
| ArgStack.StackPage.StorePointers | user/lib/spawn.c:48-55 | each pointer is the child's address of its string; the strings stay |
| ArgStack.StackPage.InitStack | user/lib/spawn.c:8-71 | fails exactly when the arguments do not fit or one of its three system calls does, with that error; once the page is made, decoding argc and argv from the stack pointer gives the arguments back, and `args[argc]` is the address of the page's last byte, not 0 |
| PrintNumber.FewDigits | lib/print.c:225-228 | a 32-bit number has at most 32 digits, so the buffer is never overrun |
| PrintNumber.PutDigits | lib/print.c:230-240 | puts the digits least significant first |
| PrintNumber.ReverseInPlace | lib/print.c:269-284 | reverses a prefix and leaves the rest |
| PrintNumber.PrintNum | lib/print.c:212-286 | prints digits, sign and padding as laid out by the specification |
| PrintNumber.PrintedReadsBack | lib/print.c:212-286 | the text parses back to sign and value for every base 2 to 16, width, adjustment and blank or zero padding, and has length max(width, digits + sign) |
| PrintNumber.CaseAsAsked | lib/print.c:227-237 | letters are upper-case exactly when asked for |
| PrintNumber.PaddingStands | lib/print.c:251-267 | padding is blanks after the digits when adjusted left, zeros between sign and digits, or the given character before the sign |

## Left out

- CopyOnWrite.CowRefinesEagerCopy: runs in which PTE_W of the page changes between `duppage`'s read of its flags and its first mapping call are not among its runs, as it is false of them; `StaleFlagsExactly` says what happens in them, and `StaleForkFlags` is one.
- CopyOnWrite.StepKeeps: `cow_entry`'s reads up to its first system call are one step.
- KernelCalls.Kern.constructor: `env_init`'s loop is started at the last element of `envs`; the source starts one past it (kern/env.c:169).
- EnvironmentRuns.InitiallyInv: the same.
- KernelCalls.Kern.Alloc: whether `env_setup_vm` finds its page is a parameter; `Processes` supplies the real answer. The trapframe and the other saved registers of an environment are not modelled.
- KernelCalls.Kern.Exofork: the same, and the copy of the caller's trapframe.
- KernelCalls.Kern.TrySend: the answers of `page_lookup` and `page_insert` are parameters; `Processes.SysIpcTrySend` supplies the real ones.
- ForkCall.Machine.Fork: `syscall_exofork` succeeds, and the calls that set the child's handler and status are not part of it.
- Scheduling.PriorityZeroIsNeverPreempted: the slice counter does not wrap around.
- PipeBuffer.Fifo: the indices do not wrap around; one reader and one writer; a load of both indices counts as one access, since a process's own index does not change under it.
- PipeCalls.Shared.PipeRead: what `_pipe_is_closed` answers is a parameter here; what its answers mean is proved in `PipeClosed`. A read of length zero need not mean that the buffer is empty, and is not claimed to.
- PipeCalls.Shared.PipeWrite: what `_pipe_is_closed` answers is a parameter here too.
- PipeClosed.NeverFalselyClosed: `pipe` is one step, `spawn` shares pages as `fork` does and is not modelled apart, descriptors are below MAXFD (`dup` does not check its second argument), and fd pages are not handed on by IPC.
- FileServer.Server.constructor: the contents of block 0 and of the bitmap's block in the cache; the disk check that precedes `read_bitmap`.
- FileServer.Server.AllocBlockNum: the write of the bitmap's block to the disk.
- FileServer.Server.FileTruncate: requires ownership to hold before the call, as its loop would otherwise read blocks it panics on.
- FileServer.Server.FileSetSize: the flush of the file's directory.
- ImageBuilder.Builder.constructor: the super block and the types of blocks.
- ImageBuilder.Builder.WriteFile: names and types of the struct Files; it stops and answers false where the source would run past the disk array.
- ImageBuilder.Builder.WriteTree: names and types of the struct Files.
- ImageBuilder.Builder.WriteAll: names and types of the struct Files.
- ElfLoader.Loader.SpawnMapper: the two loaders are one object; `spawn`'s window is kept beside the child's address space.
- ArgStack.StackPage.InitStack: the answers of the three system calls are parameters, and what they do to the two address spaces is not part of it.
- Wrap-around of reference counts (16 bits), of environment identifiers and of `env_runs`, and `perm` arguments wider than the ten flag bits.
- Frames and links at once: `Pmap` keeps page_free_list as a sequence; `KernelCalls` runs on the linked lists of `Queue`.
- KernelCalls.Kern.Destroy: what the store through NULL does. It faults and `passive_alloc` panics (kern/pmap.c:333), unless a page is mapped at address 0, as after a page sent to a receiver that asked for none.
- Processes.Processes.SysEnvDestroy: the same.
- Processes.Processes.EnvCreate: `load_icode`, which `env_create` calls next; `ElfLoader` has the segments it loads.
- What the linked run list looks like once an element was taken off it that was not on it, or put on it twice, beyond that its pointers are NULL or at environments.
- Saved registers, `env_user_tlb_mod_entry`, trap entry and exit, CSR access, TLB fences, timer programming, console and SBI calls.
- Kernel addresses and superpages: walks are restricted to user addresses.
- Directory entries' names in the file system and `walk_path`: struct Files stand in a table, not inside the blocks of their directory.
- The contents of cached data blocks, `file_flush`, `fs_sync`, `write_block` and the virtio driver: the disk is the array of blocks as the server sees it.
- The block that holds the bitmap and the super block of an image; the byte-swapping option of `tools/fsformat.c`.
- Device-tree cell counts and `fdt_get_address`/`fdt_get_size`; property names are offsets into the strings block.
- The file server's request loop, `spawn` as a whole, shell and user programs.
