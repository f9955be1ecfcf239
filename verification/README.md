# A verified model of the kernel's memory, processes and file system

The project models three parts of a small i386 kernel in Dafny and proves what they promise.

**Memory.** Physical memory is 2^20 frames of 1024 words, and `Mmu.Walk` is the two-level page walk of 32-bit
paging (Intel SDM volume 3A, section 4.3). The table pointers of the virtual memory manager are virtual
addresses: every store of `Vmm.Vmm` goes through the walk of the current context, and its contracts say what
that does to the translations of all contexts. Frames used as directories or tables carry a role, so that
tables of different contexts are different frames (`Spaces.Coherent`). On top of it stand the frame allocator
(`Pmm`), the search for free virtual runs (`Find`), contexts, fork and activation (`Contexts`, `Fork`), the
abstract map from pages to frames (`Translate`) and what the flags allow (`Rights`), the kernel heap (`Heap`) and
the ELF loader (`Elf`, `Unload`, `Loader`), whose result is also stated byte by byte (`Image`).

**Processes.** `Scheduler` holds the process structures with their `next` and `prev` pointers and the system
calls that change them. Each call is proved equal to a step on values (`Procs`); `Lifecycle`, `Runs`, `Timing`,
`Waiting` and `ProcList` prove what every run of these steps keeps. One system call, key event or timer interrupt is one
step: `schedule` chooses the process that runs next, and the rest of the calling function still runs first.
`Exec` joins the two parts: the image decides what happens to contexts and processes.

**Files.** `Vfs` holds the inodes and the path functions, proved against a tree of values (`Tree`, `Growth`,
`Printing`); `Buffers` is the growth of file buffers; `Tar`, `Unpack` and `Initrd` unpack an archive into the
tree, and `Ustar` says which bytes make such an archive; `Strings` and `Numbers` are the library functions they rest on.

Words are natural numbers below 2^32, and wrap-around, truncation and unsigned minus one are written out where
the code has them. `Boot.BootReady`, `Runs.Boot` and `Unpack.UnpackStart` give starting states that meet the
invariants.

## Where the code departs from its intent

The code is modelled as it is. Each departure has its exact condition:

- `vmm_find` counts pages it has not seen when `limit_low` is unaligned and its table is absent
  (`Find.Overcount`), and takes a run that starts at page 0 for none, since its address is NULL
  (`Find.NullPage`, `Find.NullPair`); it is first fit exactly otherwise (`Find.PromiseKept`). A request for 0
  pages looks for one (`Find.Wanted`).
- `vmm_unmap_page` never leaves its loop when the table becomes empty (`Vmm.Vmm.UnmapPage`), as it does for a
  page that was mapped alone in a new table (`Vmm.Vmm.MapThenUnmap`).
- `NUM_PAGES` wraps for sizes above 0xfffff000 (`Bits.NumPagesHold`).
- `init_pmm` marks the frame of the virtual address of the multiboot structure, not of the structure
  (`Pmm.MultibootUnreserved`), and memory areas that are not aligned or reach 4 GiB release other frames than
  their own, with one exact exception (`Pmm.AreaExactly`, `Pmm.HighArea`). It never ends on an area whose end
  lies inside the last page below 4 GiB (`Pmm.WalkEnds`, `Pmm.EndlessArea`). A kernel or module range keeps its
  last frame free when its first byte stands further behind its page's start than its last byte
  (`Pmm.VisitsExactly`, `Pmm.ModuleCut`).
- `vmm_update_context` copies the directory slots 768..1022 and leaves slot 1023 alone (`Contexts.UpdateWalk`).
- `syscall_exec_extern` with a file that is no executable reads through the NULL that `load_elf32` returns, and
  the page fault ends the caller (`Exec.SyscallExecExtern`); a segment at an address that is not page-aligned is
  not loaded, and no error is reported (`Loader.SegmentExactly`).
- `proc_kill` leaves `first_proc` alone, so that the next `create_proc` breaks the list when the newest process
  has exited (`ProcList.CreateCycle`, `ProcList.ExitRoot`); three steps from the boot state lead there
  (`ProcList.RootLost`).
- A sleep of 0 ticks never ends (`Timing.SleepsForever`), and neither does waiting for a child that has exited or
  never was (`Waiting.WaitsForever`).
- `getc` and `gets` return at once, without a key, while another process has the keyboard
  (`Waiting.KeyboardTaken`).
- `proc_copy_env` turns the list round, so that a child sees the oldest value of a variable; it sees what its
  parent sees exactly when the newest and the oldest value of every name agree (`Env.CopySees`).
- `memmove` moves the bytes 1..n, and overwrites a source that lies above an overlapping destination before it
  is read (`Buffers.MemmoveExactly`, `Buffers.OverlapFails`). A file that grows into a new page so loses its
  first byte and may write one byte behind its buffer (`Buffers.WriteExactly`, `Buffers.GrowthOverruns`).
- `vfs_generate_path` writes behind the buffer when the path just fills it, or when the root is printed into
  fewer than 2 bytes (`Printing.PrintStaysInside`).
- Creating an inode breaks printing and lookup when its name is empty, contains '/' or repeats a sibling's,
  when the directory is not writable, so that nothing enters the inode (`Growth.UnwritableFails`), and when the
  directory's dentries fill their pages and are moved: the first dentry then loses the low byte of its name
  pointer (`Growth.FullFails`). `Growth.CreateExactly` is the exact condition.
- A dentry is made before its inode has an id and keeps id 0, which is never its inode's (`Growth.CreateStale`).
- `tar_get_num_entries` counts -1 entries in an empty archive (`Tar.TarGetNumEntries`).

## Model

| member | source | states |
|---|---|---|
| Pmm.Pmm.Init | kernel/mm/pmm.c:34-86 | after init_pmm a frame is free exactly when the walk over some free memory area meets it, the walks over the kernel and over every module do not, and it is none of frame 0 and the two marked frames; nothing is cached |
| Pmm.FreeAligned | kernel/mm/pmm.c:47-83 | on an aligned memory map below 4 GiB those are the frames that start inside a free area, not inside the kernel or a module, and are neither frame 0 nor a marked one |
| Pmm.VisitsExactly | kernel/mm/pmm.c:62-80 | the walk over a nonempty kernel or module range meets every frame it has bytes in if and only if its first byte does not stand further behind its page's start than its last byte |
| Pmm.ModuleCut | kernel/mm/pmm.c:74-80 | the witness: a module over two pages whose second frame is not met |
| Pmm.Pmm.FreeArea | kernel/mm/pmm.c:50-57 | releasing an area page by page in 32-bit arithmetic frees exactly its span |
| Pmm.Pmm.UseArea | kernel/mm/pmm.c:62-66 | occupying an area takes exactly its span out of the free frames |
| Pmm.AreaFrames | kernel/mm/pmm.c:50-57 | below 4 GiB an aligned free area releases a frame exactly when the frame starts inside it |
| Pmm.AreaExactly | kernel/mm/pmm.c:50-57 | for every free area whose walk ends: it releases exactly the frames that start inside it if and only if it lies below 4 GiB and is aligned or empty, or starts behind the last frame with nothing between its truncated bounds |
| Pmm.HighArea | kernel/mm/pmm.c:50-57 | the witness: two pages from 4 GiB on release exactly the frames 0 and 1, which lie below |
| Pmm.WalkEnds | kernel/mm/pmm.c:50-57 | the page loop over a range ends exactly when its end does not lie behind the last page of 32-bit addresses with the offset of its start |
| Pmm.EndlessArea | kernel/mm/pmm.c:50-57 | the witness: an aligned free area below 4 GiB on which the loop never ends |
| Pmm.MultibootUnreserved | kernel/mm/pmm.c:69 | the scaled pointer difference vanishes, so the structure's physical frame is not the one marked |
| Pmm.Pmm.Alloc | kernel/mm/pmm.c:88-111 | returns the cached frame, else the lowest free one, and takes it; NULL exactly when no bit is set |
| Pmm.Pmm.Release | kernel/mm/pmm.c:113-123 | adds the frame to the free ones and caches the address; the allocator's invariant holds for aligned addresses other than 0 |
| Pmm.Pmm.MarkUsed | kernel/mm/pmm.c:125-132 | removes exactly one frame from the free ones |
| Pmm.InitBalanced | kernel/mm/pmm.c:34-86 | the state after init_pmm has no outstanding frame and no cached one |
| Pmm.RunBalanced | kernel/mm/pmm.c:88-123 | over every run of allocations and frees of outstanding frames, free and outstanding frames stay a partition of the same set, and the cache names a free frame |
| Pmm.RunAllocates | kernel/mm/pmm.c:88-123 | no outstanding frame is handed out, and NULL is returned only when all frames are outstanding |
| Pmm.FreedBetween | kernel/mm/pmm.c:88-123 | between two allocations of the same frame it was freed |
| Mmu.WindowWalk | kernel/include/mm.h:63-66 | through the self-map, page i of the window is the table of directory slot i |
| Find.FirstFit | kernel/mm/vmm.c:249-291 | with limit_low aligned or its table present, and not in an unmapped page 0, the address the code returns is exactly the lowest free run, and NULL exactly when there is none |
| Find.PromiseKept | kernel/mm/vmm.c:249-291 | the first-fit promise about the returned address holds for every page count and every 4 MiB end exactly when limit_low is aligned or its table is present, and it does not lie in an unmapped page 0 |
| Find.Overcount | kernel/mm/vmm.c:284-287 | from the middle of an absent table a whole table of pages is found that is not there |
| Find.NullPage | kernel/mm/vmm.c:249-257 | the witness: a free page 0 is found for one page and reads as NULL |
| Find.NullPair | kernel/mm/vmm.c:249-257 | the witness: for two pages from page 0 on page 1 is returned, which starts no free run |
| Vmm.Vmm.Find | kernel/mm/vmm.c:249-291 | for every pair of limits, returns what the search as coded answers, which from page 1 on is the lowest run it sees, or NULL when it sees none; only flag bits of the directory change |
| Vmm.Vmm.GetPagetable | kernel/mm/vmm.c:105-121 | adds the flags to the directory entry, of which none is lost, and gives the window page of the slot, or maps the table at the first free kernel page for another context |
| Vmm.Vmm.AutomapKernelPage | kernel/mm/vmm.c:293-298 | maps the frame at the lowest unmapped kernel page |
| Vmm.Vmm.CreatePagetable | kernel/mm/vmm.c:96-103 | a fresh frame becomes the slot's table and is cleared, in whichever context; its directory entry has the flags, and can be written |
| Vmm.Vmm.UnmapPage | kernel/mm/vmm.c:211-231 | clears the page's entry; the call returns exactly when the table keeps another entry |
| Vmm.Vmm.MapPage | kernel/mm/vmm.c:179-209 | unaligned addresses change nothing; else the page translates to the frame, no other translation a caller can see changes, its entry has exactly the flags asked for and present, and its directory entry has all of them |
| Vmm.Vmm.MapThenUnmap | kernel/mm/vmm.c:179-231 | from every state of the manager: unmapping a page that was just mapped in an absent table never returns |
| Vmm.Vmm.MapArea | kernel/mm/vmm.c:233-239 | the pages of the area translate to consecutive frames, with the flags in both tables, and nothing else changes |
| Vmm.Vmm.PaddrOf | kernel/mm/vmm.c:344-354 | returns the frame in the page's entry, which is the one the walk gives for a mapped page; on another context the table stays mapped at a kernel page |
| Vmm.Vmm.MemClr | lib/common/string/mem.c:46-50 | clears the bytes whose addresses are translated one by one |
| Vmm.Vmm.MemCpy | lib/common/string/mem.c:24-30 | for any two areas whose accesses are mapped when they are made, overlapping or not, the memory the forward loop leaves; for areas apart, the bytes as they were |
| Mem.CopyForward | lib/common/string/mem.c:24-30 | where no written frame is a source or a table in use, the loop meets no fault and copies the original bytes by the original translations |
| Mem.ClearedPage | lib/common/string/mem.c:46-50 | clearing a mapped page clears its frame and nothing else |
| Mem.CopiedPage | lib/common/string/mem.c:24-30 | copying a mapped page makes its frame equal to the source frame and changes nothing else |
| Spaces.MapOwn | kernel/mm/vmm.c:197 | in its own context a new entry changes the translation of its page only |
| Spaces.MapOther | kernel/mm/vmm.c:197 | a new entry leaves the user half of every other context as it was |
| Spaces.MapCoherent | kernel/mm/vmm.c:190-197 | a mapping outside the window keeps the self-map and the separation of tables |
| Spaces.TableCoherent | kernel/mm/vmm.c:96-103 | a fresh table keeps the self-map and the separation of tables |
| Spaces.UnmapWalk | kernel/mm/vmm.c:214 | clearing an entry changes the translation of that page only |
| Spaces.UnmapOther | kernel/mm/vmm.c:214 | a user page is unmapped in its own context only |
| Translate.MappedLocal | kernel/mm/vmm.c:190-200 | a mapping in the current context, seen as a change of one page of the abstract map |
| Translate.MappedRemote | kernel/mm/vmm.c:190-205 | a mapping in another context followed by giving back the temporary kernel page changes one page of the abstract map |
| Translate.ForeignRunKeeps | kernel/mm/vmm.c:167-209 | over every run of user mappings in other contexts and of activations, a context's user half stays as it is |
| Rights.MapRights | kernel/mm/vmm.c:190-197 | mapping a page takes no flags from the user pages of any context, that page aside |
| Rights.MapPageRights | kernel/mm/vmm.c:179-209 | neither does vmm_map_page as a whole, from any other page of its context |
| Rights.UnmapRights | kernel/mm/vmm.c:211-214 | unmapping a kernel page takes no flags from user pages |
| Contexts.NewContext | kernel/mm/vmm.c:123-140 | a cleared frame mapped in the kernel half can become a directory |
| Contexts.UpdateWalk | kernel/mm/vmm.c:157-165 | after an update the context has directory slots 768 to 1022 of the current one, its own user half and its own slot 1023, and its window shows its own tables |
| Contexts.UpdateOther | kernel/mm/vmm.c:157-165 | an update changes no other context |
| Contexts.ActivateCoherent | kernel/mm/vmm.c:167-173 | after activation the invariant holds with the new current context |
| Vmm.Vmm.FreshKernelPage | kernel/mm/vmm.c:124-131 | a cleared fresh frame at the lowest free kernel page, everything mapped before kept, and no frame written that was in use |
| Vmm.Vmm.UpdateContext | kernel/mm/vmm.c:157-165 | the two stores through kernel addresses update the directory as stated by the step, also for the current context |
| Vmm.Vmm.ActivateContext | kernel/mm/vmm.c:167-173 | updates and switches to the context, or does nothing when it is current |
| Vmm.Vmm.CreateContext | kernel/mm/vmm.c:123-140 | a new context in fresh frames with an empty user half, the kernel tables of the current context and a self-map; it takes the two lowest kernel pages; all other contexts and the contents of frames in use are kept |
| Vmm.Vmm.ForkSlot | kernel/mm/vmm.c:147-151 | one turn of the loop: the slot's pages translate in the child as in the parent and have the parent's entries, through a fresh table with the user flags |
| Vmm.Vmm.Fork | kernel/mm/vmm.c:142-155 | every user page has in the child the translation and the entry it has in the parent, through tables of its own that grant the user flags, and all other contexts are kept; it takes kernel pages and frames for the slots it copies |
| Fork.ForkedRights | kernel/mm/vmm.c:142-155 | after a fork the child may do with a user page what the parent might, and its entry is the parent's |
| Fork.ForkCopied | kernel/mm/vmm.c:150 | copying the table makes the child see there what the parent sees |
| Bits.NumPagesHold | kernel/include/mm.h:52 | the page count covers n bytes exactly when n <= 0xfffff000, and is then the least one |
| Heap.BackRun | kernel/mm/heap.c:37-43 | backs a run page by page with distinct fresh frames that belong to nobody else, with the flags in both tables |
| Heap.Heap.HeapPages | kernel/mm/heap.c:33-46 | NULL exactly with the search, else the lowest free run of the heap window, backed |
| Heap.Heap.Malloc | kernel/mm/heap.c:89-90 | a call is one step of the heap; over every sequence of calls the regions hold their bytes, lie in the window, are disjoint, and each page has a frame of its own; sizes above 0xfffff000 get an address with no page behind it |
| Heap.Heap.Activate | kernel/mm/vmm.c:167-173 | activating another context is a step of the heap that changes nothing that was handed out |
| Heap.BackingActivated | kernel/mm/vmm.c:157-173 | the context that becomes current has every heap page on the frame it had |
| Heap.HeapSafe | kernel/mm/heap.c:33-90 | over every run of malloc calls, activations and other kernel work the regions stay disjoint and backed in the context that is current, and a page keeps its frame for ever |
| Heap.SyscallMallocPages | kernel/mm/syscall_wrappers.c:33-47 | the user's run is the lowest free one and backed, and the page counter grows by the pages; when there is no run the pages from address 0 on are mapped |
| Heap.BackingExtended | kernel/mm/heap.c:37-43 | a backed run next to earlier ones keeps all pages on different frames |
| Heap.RegionsExtended | kernel/mm/heap.c:89-90 | a further region is disjoint from all earlier ones |
| Loader.CheckHeader | kernel/proc/elf32.c:32-68 | accepts exactly 32-bit little-endian executables for the 80386 in the current version |
| Loader.ReadHeader | kernel/proc/elf32.c:70-72 | reads a program header through the current page tables, the fields that `Image.HeaderBytes` names |
| Loader.LoadPage | kernel/proc/elf32.c:76-86 | one page: a fresh frame at the user page, for user programs to write, and at the kernel page, filled with the image bytes |
| Loader.UnmapArea | kernel/mm/vmm.c:241-247 | the destination pages are unmapped again, through the context being loaded |
| Loader.LoadSegment | kernel/proc/elf32.c:72-90 | one PT_LOAD entry is loaded if it is aligned, and no page outside it changes in the context |
| Loader.LoadElf32 | kernel/proc/elf32.c:26-100 | NULL exactly for a rejected header and then nothing changes; else for every entry of the table at the offset in bytes 28..31 that is of type 1 and aligned, byte k from its address on, writable for user programs, is the file's byte below the word at 16 and 0 up to the word at 20; user pages that no such entry asks for are as before, and the entry point is bytes 24..27 |
| Loader.LoadNew | kernel/proc/syscall_wrappers.c:114-115 | a new context is created and the image loaded into it, with needs of the current context only: its memory holds those bytes, no page that no entry asks for is mapped, and the other contexts' user halves are kept |
| Loader.SegmentExactly | kernel/proc/elf32.c:76-90 | in the new context a nonempty segment whose first page no other one takes is loaded exactly when its address is page-aligned |
| Image.LoadableBytes | kernel/proc/elf32.c:33-47 | an image is accepted exactly when bytes 0 to 5 are 7f 45 4c 46 1 1 and bytes 16 to 23 are 2 0 3 0 1 0 0 0 |
| Image.HeaderBytes | include/sys/elf.h:98-107 | kind, offset, address, file size and memory size are the little-endian words at 0, 4, 8, 16 and 20 of a program header |
| Image.LoadedBytes | kernel/proc/elf32.c:70-91 | headers that are loaded one by one are the bytes in memory that the file's bytes ask for, and pages nobody asks for are as before |
| Image.OnlyBytes | kernel/proc/elf32.c:70-91 | in a new context those pages are not mapped |
| Exec.SyscallExecExtern | kernel/proc/syscall_wrappers.c:105-130 | a child is created exactly when the path leads to an executable, whose image is then what the new context holds; a file that is none ends the caller, through a read at NULL that still faults, and leaves an empty context behind |
| Elf.PairStep | kernel/proc/elf32.c:77-83 | the two mappings put one frame at both pages and disturb nothing |
| Elf.ClearBytes | kernel/proc/elf32.c:87 | after the clearing each byte is the image byte below the file size and 0 up to the memory size |
| Unload.UnloadNext | kernel/mm/vmm.c:211-231 | unmapping a destination page keeps what is loaded and leaves one more kernel page mapped |
| Unload.SegmentDone | kernel/proc/elf32.c:72-90 | byte k read through the target context is the image byte for k below the file size and 0 up to the memory size, in a page user programs may write |
| Unload.SegmentKept | kernel/proc/elf32.c:71-91 | a loaded segment stays loaded while other segments are loaded |
| Scheduler.Scheduler.CreateProc | kernel/proc/proc.c:44-128 | a new ACTIVE process with the next pid, no timeout and no parent, linked before first_proc |
| Scheduler.Scheduler.LinkProc | kernel/proc/proc.c:113-123 | the four pointer assignments |
| Scheduler.Scheduler.Adopt | kernel/proc/proc.c:195-197 | the child gets its parent and the parent's next child number |
| Scheduler.Scheduler.SyscallFork | kernel/proc/syscall_wrappers.c:53-57 | the list's part of fork: one more process, returned by its child number |
| Scheduler.Scheduler.SyscallExecExtern | kernel/proc/syscall_wrappers.c:105-130 | a child is created exactly for an executable; a file that is none ends the caller |
| Scheduler.Scheduler.Pagefault | kernel/mm/pagefault.c:29-46 | a page fault is the exit of the running process |
| Scheduler.Scheduler.ProcSleep | kernel/proc/proc.c:225-239 | puts a process to sleep and schedules if it was running; -1 when it already slept |
| Scheduler.Scheduler.ProcWake | kernel/proc/proc.c:241-250 | makes the process ACTIVE; -1 when it already was |
| Scheduler.Scheduler.ProcWaitpid | kernel/proc/proc.c:208-211 | the process sleeps with the child number it waits for; another process than the running one without scheduling |
| Scheduler.Scheduler.SyscallWaitpid | kernel/proc/syscall_wrappers.c:59-61 | waits for the child number in ebx |
| Scheduler.Scheduler.SyscallUsleep | kernel/proc/syscall_wrappers.c:47-51 | sleeps for ebx microseconds counted in timer ticks |
| Scheduler.Scheduler.EndProc | kernel/proc/proc.c:254-261 | the process becomes a zombie and wakes its parent if that waits for it |
| Scheduler.Scheduler.Unchain | kernel/proc/proc.c:279-281 | takes the process out of the list |
| Scheduler.Scheduler.ProcKill | kernel/proc/proc.c:273-288 | schedules another process first when the killed one runs |
| Scheduler.Scheduler.ProcExit | kernel/proc/proc.c:252-271 | the whole exit; the list stays one cycle and an ACTIVE member of it runs |
| Scheduler.Scheduler.SyscallExit | kernel/proc/syscall_wrappers.c:43-45 | exit of the running process |
| Scheduler.Scheduler.TickProc | kernel/proc/scheduler.c:66-72 | one process of the tick pass |
| Scheduler.Scheduler.TickPass | kernel/proc/scheduler.c:63-73 | every process of the ring is ticked once, and the pass ends |
| Scheduler.Scheduler.LookForActive | kernel/proc/scheduler.c:56-59 | stops at the first ACTIVE process after the current one in ring order |
| Scheduler.Scheduler.Schedule | kernel/proc/scheduler.c:55-86 | ticks the ring and chooses the next ACTIVE process, also when none ran before |
| Scheduler.Scheduler.GetcSyscallWrapper | kernel/driver/kbc/syscall_wrapper.c:35-41 | the caller sleeps as the waiter if there is none |
| Scheduler.Scheduler.GetsSyscallWrapper | kernel/driver/kbc/syscall_wrapper.c:43-49 | the caller sleeps as the waiter for a line if there is none |
| Scheduler.Scheduler.SyscallStep | kernel/driver/kbc/syscall_wrapper.c:51-94 | a key wakes a getc waiter, Enter wakes a gets waiter |
| Procs.CreatedLinked | kernel/proc/proc.c:113-123 | with first_proc in the list, creation adds exactly the new process to the cycle |
| Procs.UnlinkLinked | kernel/proc/proc.c:279-281 | the list without the process is one cycle again, with inverse pointers |
| Procs.ExitedRunning | kernel/proc/proc.c:252-288 | an exit unlinks exactly the exiting process and leaves an ACTIVE member of the list running |
| Procs.BornRunning | kernel/proc/proc.c:172-206 | a fork keeps the list one cycle and the running process in it |
| Lifecycle.ExitedProc | kernel/proc/proc.c:252-271 | what an exit does to every process: the exiting one, the parent that waits for it, all others |
| Runs.Boot | kernel/proc/scheduler.c:40-47 | the idle process alone is a state that meets the invariant |
| Runs.InvKept | kernel/proc/proc.c:172-288 | every system call, key event and timer interrupt keeps the invariant |
| Runs.RunSafe | kernel/proc/proc.c:195-211 | in every state of every run a pending waitpid implies SLEEP, child numbers of a parent differ, the list is one cycle of the processes that have not exited, and an ACTIVE one runs |
| Runs.WakesExactly | kernel/proc/proc.c:241-261 | a sleeping process becomes ACTIVE exactly by its last tick, by the exit of the child it waits for, or by a key it reads |
| Runs.ExitWakesParent | kernel/proc/proc.c:256-261 | an exit wakes the parent exactly when the parent waits for that child's number |
| Runs.ZombieForever | kernel/proc/proc.c:252-271 | a zombie never becomes ACTIVE and never runs again |
| Timing.SleepsExactly | kernel/proc/scheduler.c:62-73 | a process that sleeps n >= 1 ticks of 20000 microseconds is woken by exactly the n-th call of schedule, counting the one in the sleep call |
| Timing.SleepsForever | kernel/proc/scheduler.c:67-68 | a process that sleeps 0 ticks is never woken |
| Timing.BoundedWaiting | kernel/proc/scheduler.c:55-85 | a process that stays ACTIVE in an unchanged ring of n is chosen within n calls of schedule |
| Waiting.WaitsExactly | kernel/proc/proc.c:208-261 | a process that calls waitpid for a child that has not exited sleeps in every later state of the run until the step in which that child exits, and is ACTIVE right after it |
| Waiting.WaitsForever | kernel/proc/proc.c:208-211 | if every child with that number has exited, or there is none, it sleeps for ever |
| Waiting.ListensExactly | kernel/driver/kbc/syscall_wrapper.c:35-77 | a getc that gets the keyboard sleeps until the first key event and is ACTIVE right after it; a gets until the first key 66 |
| Waiting.KeyboardTaken | kernel/driver/kbc/syscall_wrapper.c:35-49 | while another process has the keyboard both calls do nothing |
| Waiting.KinStep | kernel/proc/proc.c:172-288 | no step changes parent or number of a process, and only its own exit makes it a zombie |
| Waiting.ChildrenNumbered | kernel/proc/proc.c:195-196 | over every run the children of a process are numbered 1, 2, 3, .. in the order of their creation, and child_count counts them |
| Waiting.BootNumbered | kernel/proc/scheduler.c:40-47 | the booted state meets what that theorem asks of the first state |
| ProcList.ScheduleEndsExactly | kernel/proc/scheduler.c:56-59 | the search ends exactly when some process of the list is ACTIVE after the tick |
| ProcList.CreateCycle | kernel/proc/proc.c:113-123 | creation puts the new process on a cycle with inverse pointers exactly when first_proc has not exited |
| ProcList.ExitRoot | kernel/proc/proc.c:273-288 | first_proc leaves the list exactly when the process it points to exits |
| ProcList.RunCreate | kernel/proc/proc.c:113-123 | the same at any point of any run |
| ProcList.BootCut | kernel/proc/scheduler.c:40-47 | the booted state meets what the run theorems ask of the first state |
| ProcList.RootLost | kernel/proc/proc.c:113-123 | a run of three steps from the booted state after which creation breaks the list |
| Env.Environment.Putenv | kernel/proc/syscall_wrappers.c:132-142 | the name then has the value, every other name keeps its own, and the new variable stands in front |
| Env.Environment.Getenv | kernel/proc/syscall_wrappers.c:144-156 | the first entry with the name |
| Env.Environment.CopyEnv | kernel/proc/proc.c:158-170 | the copies stand in the child's list in reverse order |
| Env.CopySees | kernel/proc/proc.c:158-170 | a child sees its parent's variables exactly when the newest and the oldest value of every name agree |
| Strings.Strlen | lib/common/string/string.c:26-30 | the length of the text before the first zero |
| Strings.Strcmp | lib/common/string/string.c:114-127 | true exactly for equal texts |
| Strings.Strcpy | lib/common/string/string.c:54-56 | the text and its end are copied, the rest stays |
| Strings.Tokenizer.Strtok | lib/common/string/string.c:58-90 | successive calls return the parts between the slashes, empty ones included, then NULL |
| Strings.SplitJoin | lib/common/string/string.c:58-90 | joining parts without slashes and splitting again gives the parts |
| Strings.JoinSplit | lib/common/string/string.c:58-90 | the parts of a string joined again are the string |
| Buffers.Memcpy | lib/common/string/mem.c:24-30 | replaces exactly the slice |
| Buffers.Memset | lib/common/string/mem.c:40-44 | sets exactly the first n bytes |
| Buffers.Memmove | lib/common/string/mem.c:32-38 | in one memory, for any two offsets, the bytes n down to 1 are stored in turn |
| Buffers.MemmoveExactly | lib/common/string/mem.c:32-38 | in one memory, overlapping or not: this is a move of n bytes exactly when n is 0, or the first byte and the byte behind the destination already agree and a source above the destination repeats itself as far as it is overwritten |
| Buffers.SlidAt | lib/common/string/mem.c:32-38 | where each byte the loop leaves comes from |
| Buffers.OverlapFails | lib/common/string/mem.c:32-38 | the witness: both ends agree and the overlap still loses a byte |
| Buffers.SlidApart | kernel/mm/heap.c:118-132 | between areas that do not overlap, wherever they lie, the source stays and the destination gets the bytes 1..n |
| Buffers.Realloc | kernel/mm/heap.c:118-132 | the new buffer holds the old bytes except the first |
| Buffers.BufferHolds | kernel/vfs/inode.c:139-157 | the buffer has the pages of the new length, and the copy stays inside it |
| Buffers.WriteExactly | kernel/vfs/inode.c:139-157 | a write at any offset keeps the old bytes and stores the slice exactly when the file is empty, the page count stays, the first byte is written, or the new page happens to hold it |
| Buffers.WriteInPlace | kernel/vfs/inode.c:155-157 | while the page count stays, exactly the slice of the buffer is replaced |
| Buffers.GrowthOverruns | kernel/mm/heap.c:118-132 | a growing buffer is overrun by one byte exactly when the new length ends a page |
| Tree.NamesLead | kernel/vfs/pathname_lookup.c:49-66 | following the names of an inode leads to it |
| Tree.LookupPrinted | kernel/vfs/pathname_lookup.c:28-102 | looking up the printed path of an inode gives the inode, from any working directory |
| Tree.PrintedFound | kernel/vfs/pathname_lookup.c:28-102 | an absolute path finds an inode exactly when it is the inode's printed path |
| Tree.RelativeFound | kernel/vfs/pathname_lookup.c:36-69 | a relative path finds an inode exactly when its names are what the inode's names add to those of the working directory, and leads where the printed path of both together leads from anywhere |
| Tree.DotsFound | kernel/vfs/pathname_lookup.c:32-34 | "." is the working directory, "/" the root, and ".." the inode whose names are the working directory's without the last, or NULL at the root |
| Tree.LookupExactly | kernel/vfs/pathname_lookup.c:28-69 | any other path finds an inode exactly when it spells good names, after a slash or not, with at most one slash behind them, that lead to it from the root or from the working directory |
| Tree.WritePermitted | kernel/vfs/inode.c:122-137 | a write takes effect exactly when the mode has one of the bits 0x20, 0x100 and 0x800 |
| Tree.RegrowsExactly | kernel/vfs/inode.c:149-152 | the buffer of a directory is moved by one more dentry exactly when its dentries fill their pages |
| Growth.CreateOk | kernel/vfs/inode.c:83-110 | creation keeps the tree exactly when the directory is writable, the name is good and new in it, and no move changes the name of the first dentry |
| Growth.CreateExactly | kernel/vfs/inode.c:83-163 | creation keeps printing and lookup inverse on the whole tree exactly when the directory is writable, the name is nonempty, without slash and new in the directory, and the dentries are not moved or the new page holds the lost byte |
| Growth.UnwritableFails | kernel/vfs/inode.c:122-160 | the witness: a good new name in a directory without write permission |
| Growth.FullFails | kernel/vfs/inode.c:149-152 | the witness: a good new name in a directory of 256 files, for every page whose first byte changes the first name |
| Growth.FilledOk | kernel/vfs/inode.c:83-110 | the full directory is reached by creating its files one by one |
| Growth.CreateStale | kernel/vfs/inode.c:83-120 | every dentry keeps id 0 and never has its inode's id |
| Growth.MatchSnoc | kernel/vfs/pathname_lookup.c:54-59 | of several dentries with a name the last one counts |
| Printing.PrintStaysInside | kernel/vfs/pathname_lookup.c:80-101 | the memory behind the buffer stays as it is exactly when the path with its end fits or is refused |
| Printing.PrintedText | kernel/vfs/pathname_lookup.c:85-101 | the buffer then reads as the printed path |
| Printing.LookupPrintedInto | kernel/vfs/pathname_lookup.c:28-102 | looking up what the buffer holds after printing gives the inode, from any working directory |
| Vfs.Vfs.InitVfs | kernel/vfs/inode.c:36-39 | makes the root directory |
| Vfs.Vfs.WriteDentry | kernel/vfs/inode.c:122-163 | a dentry is appended to a writable directory of any size; a move changes the name of the first dentry |
| Vfs.Vfs.CreateInode | kernel/vfs/inode.c:83-110 | NULL for a parent that is no directory; else a new inode with the next id, entered in a writable parent of any size |
| Vfs.Vfs.VfsWrite | kernel/vfs/inode.c:122-163 | a permitted write changes length and buffer as the model of the buffer says, a refused one nothing; both return the byte count |
| Vfs.Vfs.FindEntry | kernel/vfs/pathname_lookup.c:50-59 | the last dentry with the name |
| Vfs.Vfs.Follow | kernel/vfs/pathname_lookup.c:47-68 | the names of the path are followed one after the other |
| Vfs.Vfs.PathLookup | kernel/vfs/pathname_lookup.c:28-69 | the result is the looked-up inode, NULL, or whatever the bytes of a file taken for dentries lead to; the caller's string loses a trailing slash |
| Vfs.Vfs.FillBackwards | kernel/vfs/pathname_lookup.c:86-98 | filling backwards writes exactly the measured text and its end |
| Vfs.Vfs.GeneratePath | kernel/vfs/pathname_lookup.c:71-102 | the caller's memory holds exactly the path, cleared to the end of the buffer, or is left alone when the path is longer |
| Vfs.Vfs.SyscallChdir | kernel/vfs/syscall_wrappers.c:178-192 | the working directory changes exactly when the path leads to a directory, and ecx tells the cases apart |
| Vfs.Vfs.GetcwdThenChdir | kernel/vfs/syscall_wrappers.c:178-199 | changing to the path that getcwd printed leads back to the directory, from wherever it is done |
| Tar.StrideRounds | lib/common/tar/tar.c:40-43 | a step covers the header and the data, rounded up to blocks |
| Tar.TarGetNumEntries | lib/common/tar/tar.c:33-48 | the number of headers before the zero block |
| Initrd.FileName | kernel/vfs/initrd.c:44-54 | the last nonempty part of the path |
| Initrd.FindParent | kernel/vfs/initrd.c:41-62 | the part before the last name leads to the parent |
| Initrd.AddInode | kernel/vfs/initrd.c:63-68 | a directory, or a file with exactly the archived bytes, is entered in the parent |
| Initrd.LoadEntry | kernel/vfs/initrd.c:41-68 | one entry more is unpacked |
| Initrd.VfsLoadInitrd | kernel/vfs/initrd.c:29-80 | after the loop every archived entry has become an inode and nothing else is below the root |
| Ustar.PackedArchive | include/tar.h:30-46 | an archive whose names, octal sizes and data stand at bytes 0, 124 and 512 of blocks that follow each other is one that vfs_load_initrd unpacks into exactly those items |
| Unpack.UnpackStart | kernel/vfs/inode.c:36-39 | after init_vfs the tree is ready to be filled |
| Unpack.UnpackStep | kernel/vfs/initrd.c:62-68 | adding an entry keeps all earlier ones as they were unpacked |
| Unpack.UnpackedFound | kernel/vfs/initrd.c:29-80 | every archived path leads to an inode that is a directory or a file with the archived length and bytes |
| Unpack.UnpackedExactly | kernel/vfs/initrd.c:29-80 | a path is found exactly when it was archived |
| Numbers.CountFurther | lib/common/string/vsprintf.c:30-33 | the signed count never exceeds the digits after the first |
| Numbers.FillDigits | lib/common/string/vsprintf.c:40-48 | the digits of the value, filled in backwards |
| Numbers.GeneralUintformat | lib/common/string/vsprintf.c:25-55 | for bases 2 to 16 the padded digits, for larger ones nothing |
| Numbers.FormattedDenotes | lib/common/string/vsprintf.c:25-55 | max(digit count, width) digits that denote the value |
| Numbers.OctStr | lib/common/string/vsprintf.c:70-72 | octal digits of the given width, or 4 for width 1 |
| Numbers.IntDecStr | lib/common/string/vsprintf.c:61-68 | decimal digits, with a sign for negative values |
| Numbers.Atoi | lib/common/stdlib/atoX.c:22-29 | left to right in wrapping 32-bit arithmetic |
| Numbers.TarGetsize | lib/common/tar/tar.c:21-31 | reading right to left gives the value of the eleven octal digits |
| Numbers.DecimalRoundtrip | lib/common/stdlib/atoX.c:22-29 | a printed decimal number below 2^31 is read back |
| Numbers.OctalRoundtrip | lib/common/tar/tar.c:21-31 | a size below 2^31 printed with eleven octal digits is read back |

## Left out

- Vmm.Vmm.Find: only on the current context, where all searches of the modelled callers take place; on another context it would map every table at a kernel page and leave it there.
- Vmm.Vmm.MapPage: on another context only user pages, whose tables are that context's own; it asks for a kernel table that keeps another entry, since giving back the temporary page would otherwise not return.
- Vmm.Vmm.AutomapKernelPage: only in the current context, as in all calls of the kernel.
- Vmm.Vmm.MapArea: on another context only user pages, like the single mapping.
- Vmm.Vmm.GetPagetable: a directory slot that is absent, whose window page would fault when it is used.
- Vmm.Vmm.PaddrOf: an absent directory slot, for the same reason.
- Vmm.Vmm.UnmapPage: an absent directory slot, for the same reason; the endless loop over an empty table is one outcome, the result false, in the state after its first turn.
- Vmm.Vmm.Fork: only of the current context; it asks for kernel pages and frames for the user slots in use and for all 256 kernel slots, since mapping the new tables can add kernel tables while the loop runs; the contents of user pages stay shared, as in the code.
- Vmm.Vmm.CreateContext: the context structure is a value; the page it would be stored in is mapped and cleared.
- Vmm.Vmm.constructor: init_vmm itself, before paging is on; the constructor takes the state it leaves.
- Loader.UnmapArea: on the destination pages of a segment, the only call of vmm_unmap_area the loader makes.
- Loader.LoadSegment: segments whose file size is above their memory size, for which the clearing would run over almost all of memory, and segments that share pages.
- Loader.LoadElf32: loading into the current context (the exec call), and the allocation of the result structure; it asks that the image area be readable for whole pages, since the copy moves whole pages.
- Scheduler.Scheduler.CreateProc: the stacks, the cpu state, the standard streams and the descriptor table.
- Scheduler.Scheduler.Schedule: the context switch, which is `Vmm.Vmm.ActivateContext` on its own.
- Scheduler.Scheduler.SyscallFork: stack copying, the child's registers, and the copies of the address space (`Vmm.Vmm.Fork`) and of the environment (`Env.Environment.CopyEnv`), which are theorems of their own.
- Scheduler.Scheduler.SyscallExecExtern: what the path leads to is a parameter, tied to the loader in `Exec.SyscallExecExtern`; the arguments on the stack.
- Exec.SyscallExecExtern: a mapped page 0, where the read through NULL would not fault.
- Scheduler.Scheduler.SyscallStep: the line buffer of gets and the write to the standard input.
- Strings.Tokenizer.Strtok: delimiters other than "/".
- Vfs.Vfs.PathLookup: the byte before an empty path, which the code compares with '/'.
- Vfs.Vfs.WriteDentry: the bytes of dentries; the text that the damaged name pointer leads to is a parameter.
- Vfs.Vfs.VfsWrite: writes to directories, and sums of offset and size that wrap.
- Initrd.VfsLoadInitrd: archives that are not well formed ("./" first, parents before children, distinct names), and directories of more than 256 entries, which `Growth.CreateExactly` shows to break.
- Exhausted memory: callers do not look at a NULL frame, so the operations ask for enough free frames.
- TLB contents, accessed and dirty bits, and the fault that an access without permission raises (`Rights` keeps the flags): loading CR3 sets the current context.
- Interrupts inside system calls, pids that wrap.
- Permissions beyond the write check of user 0, time stamps, vfs_access.
- File descriptors and the positioned read and write calls.
- The block lists behind the early returns of malloc, calloc and the user-side allocator.
- vsprintf's argument list, cut, insert, replace, strcat, strchr, memset's other callers.
- Console, drivers, shell and user programs, calendar arithmetic, descriptor tables, port input and output.
