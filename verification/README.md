# A verified model of the SOSL kernel

SOSL is a small x86 teaching kernel.  This project models its page tables, its scheduler, its
file system with the host tool that fills the disk, and a handful of small cores, and proves
what they are for.

Each component comes in two forms.  A module of functions says what every operation computes,
on a value that stands for the whole state; the lemmas beside it prove the invariants, the
refinements and the theorems about whole runs.  A class with the source's own fields, arrays,
pointers and loops is then proved to compute exactly those functions.

* **Pages** (`Mmu`, `PageSpec`, `PageInvariant`, `PageSteps`, `PageMapping`, `PageRegion`,
  `PageCopy`, `PageTeardown`, `PageOverwrite`, `PageOverrun`, `PageExact`, `PageQuirks`,
  `PageRuns`, `PageAccess`, `PageHarm`, class in `Pmap`; `Sequences` is shared with the process
  modules).  Physical memory is an array of pages of 1024 words, page tables are ordinary pages, and the free list is threaded
  through `pp_link`.  The invariant: the free list holds exactly the managed pages (frame 0x400
  and up) that nothing refers to, each managed page is counted once for every directory or table
  slot that points at it, and tables are never shared between slots.  `PageAccess` adds the
  rights of both levels, and that no run opens low memory to user code.
* **Processes** (`SchedSpec`, `SchedInvariant`, `SchedReady`, `SchedQueues`, `SchedCalls`,
  `SchedBoot`, `SchedPids`, `KernelLists`, class in `Kernel`).  Interrupts are off in the kernel, so every interrupt or
  system call is one step of a transition function.  The invariant: every live process is in
  exactly one place, which may be `current`, the ready list, the sleepers, one join list or one
  semaphore's list.  `SchedCalls` says of each event
  what the next state is and who runs.  `KernelLists` ties those lists to the single `next` field of the PCBs.
* **Files** (`DiskFormat`, `FileSpec`, `DiskSteps`, `FileBytes`, `FileInvariant`, `FileWrite`,
  `FileRefine`, `FileLast`, `FileEntry`, `FileHost`, `FileRuns`, `FileCopy`,
  `FileStreams`, `FileBoot`, classes in `FileServer` and `HostTool`).  The disk is a sequence of 512-byte sectors, down to the bits of
  the bitmap and the bytes of directory entries and inodes.  The invariant: inodes and blocks of
  live files are marked, no block is in two slots, and the slots that a file's size needs have
  blocks.
* **Small cores**: the KISS generator (`Kiss`), the dirty-row video cache (`VideoSpec`, `Video`),
  the shell's word splitter (`ShellArgs`), and number and format printing (`PrintSpec`,
  `Printk`).

Verify with `dafny verify dfyconfig.toml`.

## Where the code and its comments differ

The model follows the code.

* `page_alloc` with ALLOC_ZERO is said to fill one page with zeros.  `memset` and `memcpy` count
  double words (`kernel/include/common.h:20-26`), so four pages are cleared or copied.  The state
  carries the number of pages that are touched, `width`; every lemma holds for 4, as the code has
  it, and for 1, as the comments have it.  With 4, an operation is proved for a free page behind
  which no directory and no table lies (`PageSteps.Clear`), at each page it takes; where contents
  are promised too, no page in use (`Calm`).  With 1, that says only that there is a free page
  (`PageCopy.EnoughForDir`, `PageRegion.EnoughForRegion`).  What exactly survives otherwise:
  `PageOverrun.AddTableIff`, `PageOverrun.NewDirIff`, `PageOverrun.CopyEntryIff`.  The runs from
  boot are stated under these exact conditions (`PageExact`, `PageRuns.EveryRun`); a page for
  which they fail is within reach of such a run: `PageHarm.DirFromBoot`.
* `page_insert` is said to cope with the same page at the same address.  It counts the page
  again: `PageRegion.ReinsertDrifts`, `PageRegion.InsertKeepsIff`.
* `page_remove` is said to do nothing where no page is mapped.  `page_lookup` does not test the
  present bit, and an empty entry passes for page 0: `PageQuirks.RemoveIff`,
  `PageHarm.RemoveFromBoot`.
* `thread_current` copies its caller's directory over the thread's, so that two directories lead
  to tables counted once.  `copy_pcb` copies no pages for the type THREAD, which is stored before
  the call, but it first overwrites that type with the caller's and so runs `copy_pgdir` for
  every user.  The tables and pages just made are lost with the overwritten slots and keep their
  counts: `PageQuirks.ThreadIff`, `PageQuirks.ThreadLoses`.
* The kernel keeps bitmap slice c at sector 1 + 512 c, the host tool at sector 1 + c.  They agree
  on the first slice only; `DiskSteps.DataAllocInBitmap` says when the kernel's allocator stays
  inside the bitmap.
* A write that starts where no block was taken (after a write that ended on a block boundary
  without growing past it) goes to sector 768, the last inode: `FileRefine.WriteKeepsIff`,
  `FileLast.LastIff`, `FileRuns.BlockThenByte`.
* `fs_create_kr` without a free inode overwrites the last directory sector:
  `FileEntry.CreateKeepsIff`.
* `fs_open_kr` answers -1 for a missing stream as for a missing file, and `open_md` then makes a
  second entry of the same name: `FileRuns.OpenDuplicatesIff`.
* Emptying a file on opening (flag 2) empties the stream only, so copying an empty file over
  another changes nothing: `FileCopy.ShellCatIff`.  A write of no bytes does store the size:
  `FileStreams.OverwriteReplaces`.
* At every thirtieth display the record of used rows is dropped while they are in use:
  `VideoSpec.ClearKeepsIff`, `VideoSpec.WrapLeavesPixel`.

## Model

| member | source | states |
|---|---|---|
| Mmu.AddressSplit | inc/mmu.h:29-42 | directory index, table index and offset are in range, and together give the address back |
| Mmu.AddressJoin | inc/mmu.h:29-42 | an address built from three parts in range splits into those parts again |
| Mmu.PteFields | inc/mmu.h:75-77 | frame, attributes and present bit can be read back from an entry that was built from them |
| PageSteps.AddTableKeeps | kernel/src/paging/pmap.c:191-201 | putting a cleared page with no directory or table behind it into an empty directory slot keeps counts, free list and table tree |
| PageSteps.UnlinkKeeps | kernel/src/paging/pmap.c:352-354 | clearing a table entry and giving its reference back keeps the invariant, whether or not the page becomes free |
| PageSteps.FreeEntryKeeps | kernel/src/paging/pmap.c:378-382 | inside free_pgdir: after each released entry, counts equal the references not yet given back |
| PageSteps.DropKeeps | kernel/src/paging/pmap.c:383-384 | releasing the table itself after its entries restores the full invariant |
| PageSteps.NewDirKeeps | kernel/src/process.c:148-158 | the directory of a new process, with no directory or table behind it: cleared, counted once, a copy of the kernel's; the invariant holds |
| PageMapping.SameTable | kernel/src/paging/pmap.c:179-204 | two present directory slots share a counted table exactly if they are one slot or a slot shared through the kernel directory |
| PageMapping.WalkTranslate | kernel/src/paging/pmap.c:179-204 | making a missing table changes no translation of any directory |
| PageMapping.InsertKeeps | kernel/src/paging/pmap.c:260-280 | page_insert of a page not mapped at that address keeps counts and free list exact |
| PageMapping.InsertTranslate | kernel/src/paging/pmap.c:260-280 | page_insert refines a map update: the address gets the frame with perm and P, every other address of every directory translates as before |
| PageMapping.RemoveKeeps | kernel/src/paging/pmap.c:345-357 | page_remove of a present mapping keeps the invariant |
| PageMapping.RemoveTranslate | kernel/src/paging/pmap.c:345-357 | afterwards that address is unmapped and no other translation has changed |
| PageMapping.MapNewTranslate | kernel/src/paging/pmap.c:37-41 | one round of mm_alloc maps the first free page, writable and for users, and changes nothing else |
| PageMapping.MapNewRefs | kernel/src/paging/pmap.c:37-41 | the new page has count one, other pages in use keep theirs |
| PageMapping.TwoMappings | kernel/src/paging/pmap.c:150-155 | a page with one reference is not mapped at two addresses |
| PageRegion.EnoughForRegion | kernel/src/paging/pmap.c:30-42 | with helpers that touch one page, two free pages for each page of a user region are all that mm_alloc needs |
| PageRegion.MmAllocKeeps | kernel/src/paging/pmap.c:30-42 | mm_alloc of any region keeps the invariant |
| PageRegion.MmAllocTranslate | kernel/src/paging/pmap.c:30-42 | the region becomes present, writable and user; every other address of every directory translates as before |
| PageRegion.MmAllocExclusive | kernel/src/paging/pmap.c:30-42 | every page of the region has exactly one reference |
| PageRegion.MmAllocDistinct | kernel/src/paging/pmap.c:30-42 | different addresses of the region get different pages |
| PageRegion.ReinsertDrifts | kernel/src/paging/pmap.c:269-278 | inserting a page again where it is mapped always breaks the count |
| PageRegion.InsertKeepsIff | kernel/src/paging/pmap.c:260-280 | page_insert keeps the invariant if and only if that page is not mapped at that address already |
| PageRuns.RegionPages | kernel/src/paging/pmap.c:33-37 | the rounding of mm_alloc visits exactly the pages that meet the byte range |
| PageCopy.CopyTableCopies | kernel/src/paging/pmap.c:307-316 | the inner loop of copy_pgdir copies each entry to a fresh page with the same attributes and contents |
| PageCopy.CopyDirCopies | kernel/src/paging/pmap.c:293-319 | copy_pgdir keeps the invariant and takes exactly the pages it needs; directories and tables other than the target, and under the full guard all pages in use, are unchanged |
| PageCopy.CopyTranslate | kernel/src/paging/pmap.c:293-319 | the target translates an address exactly when the source does, with its attributes, through a page that was free and is mapped nowhere else; under the full guard with its contents |
| PageCopy.CopyTranslateOther | kernel/src/paging/pmap.c:293-319 | all other translations are unchanged, the source's included; under the full guard, so are the contents behind them |
| PageCopy.EnoughForDir | kernel/src/paging/pmap.c:293-319 | with helpers that touch one page, the full guard asks for enough free pages and nothing more |
| PageCopy.OnePageCopy | kernel/src/paging/pmap.c:293-319 | with such helpers copy_pgdir keeps the invariant, copies status, attributes and contents to pages of its own, and changes no other page in use |
| PageTeardown.FreeDirKeeps | kernel/src/paging/pmap.c:371-387 | free_pgdir keeps the invariant and leaves the directory with the kernel's slots only |
| PageTeardown.FreeDirRefs | kernel/src/paging/pmap.c:371-387 | exactly the references of that directory and its tables are gone |
| PageTeardown.FreeDirReturns | kernel/src/paging/pmap.c:371-387 | a page is free afterwards exactly if it was free or all its references belonged to that directory |
| PageTeardown.CopyThenFree | kernel/src/paging/pmap.c:293-387 | a copy torn down again returns exactly the pages it took: all counts and the free pages are as before, under the full guard the contents in use as well |
| PageTeardown.OnePageRoundTrip | kernel/src/paging/pmap.c:293-387 | with helpers that touch one page: counts, free pages and contents as before, and the free list it leaves serves for the next round trip |
| PageTeardown.EveryTrip | kernel/src/paging/pmap.c:293-387 | the same after any number of round trips |
| PageRuns.BootedTranslate | kernel/src/paging/pmap.c:47-69 | the kernel directory maps all physical memory from KERNBASE on, and nothing else; PageAccess.BootAccess has the rights |
| PageRuns.BootMapKeeps | kernel/src/paging/pmap.c:217-233 | boot_map_region maps its range with perm and P, changes no count and no other translation |
| PageRuns.PageInitEstablishes | kernel/src/paging/pmap.c:76-103 | page_init establishes the invariant, with physical memory and the video memory mapped |
| PageRuns.StepKeeps | kernel/src/paging/pmap.c:30-387 | a new directory, mm_alloc, page_insert, page_remove, copy_pgdir, a thread's directory and free_pgdir each keep the invariant, each page that is taken, each entry removed and each thread's caller meeting its exact condition |
| PageRuns.EveryRun | kernel/src/paging/pmap.c:30-387 | in every state of every run of these operations from boot, under those conditions, the free list is duplicate-free and holds exactly the pages with count zero, and each count equals the slots pointing at the page |
| PageAccess.BootAccess | kernel/src/paging/pmap.c:47-103 | after page_init, with the rights of slot and entry together, the linear map and the video memory are writable and closed to user code, and nothing else is reached |
| PageAccess.NewDirAccess | kernel/src/process.c:148-158 | a new directory gives exactly what the kernel's gives |
| PageAccess.InsertAccess | kernel/src/paging/pmap.c:260-280 | page_insert gives the rights in perm as far as the directory slot has them, a slot it fills having all; every other address of every directory keeps its rights |
| PageAccess.MapNewAccess | kernel/src/paging/pmap.c:37-41 | one round of mm_alloc gives write and user access to the first free page, unless the slot withholds it, and changes no other access |
| PageAccess.MmAllocAccess | kernel/src/paging/pmap.c:30-42 | every page of the region is writable and for users exactly as far as its slot was empty or has the right; no other address gains or loses one |
| PageAccess.MmAllocUser | kernel/src/paging/pmap.c:30-42 | behind slots that were empty every page of the region is writable and for users |
| PageAccess.CopyAccess | kernel/src/paging/pmap.c:293-319 | a copied page has the rights of its source, slot and entry alike |
| PageAccess.RemoveAccess | kernel/src/paging/pmap.c:345-357 | page_remove takes the access at that address and no other |
| PageAccess.SealedMeans | kernel/src/paging/pmap.c:47-69 | in a state with the invariant and the seal, what user code can reach is a managed page |
| PageAccess.StepSpares | kernel/src/paging/pmap.c:30-387 | no operation of a run changes low memory, makes a table for the kernel or puts a low page into one |
| PageAccess.NoUserLow | kernel/src/paging/pmap.c:30-387 | in every state of every run from boot, whatever the operations overwrite, no directory gives user code access to a frame below 0x400 |
| PageOverwrite.OverwriteIff | kernel/include/common.h:20-26 | overwriting a range of pages keeps the invariant if and only if the directories in it keep their targets and the tables in it keep the number of references to every page |
| PageOverrun.AddTableIff | kernel/src/paging/pmap.c:191-201 | a new table keeps the invariant if and only if no directory or table behind it has a present entry, other than device pages in tables of the kernel |
| PageOverrun.NewDirIff | kernel/src/process.c:148-158 | a new directory keeps the invariant if and only if the directories and tables behind it survive being replaced by the pages behind the kernel directory |
| PageOverrun.CopyEntryIff | kernel/src/paging/pmap.c:309-315 | a copied page keeps the invariant if and only if the directories and tables behind it, the new entry stored, survive being replaced by the pages behind the source page |
| PageOverrun.CopiedBehind | kernel/include/common.h:20-22 | memcpy replaces each page behind the target by the one behind the source |
| PageOverrun.CopyRetargets | kernel/src/paging/pmap.c:309-315 | an address mapped through a table behind the new page is mapped as a page behind the copied one says |
| PageExact.InsertIff | kernel/src/paging/pmap.c:260-280 | page_insert keeps the invariant if and only if its table is there or no page behind the one it makes loses a mapping |
| PageExact.MapNewIff | kernel/src/paging/pmap.c:37-41 | one round of mm_alloc keeps the invariant if and only if the same holds of its table |
| PageExact.SafeMmAllocKeeps | kernel/src/paging/pmap.c:30-42 | mm_alloc keeps the invariant when each page it takes meets the exact condition |
| PageExact.SafeMmAllocIff | kernel/src/paging/pmap.c:30-42 | for the whole of mm_alloc, each page it takes meets that condition if and only if the invariant holds after every round |
| PageExact.SafeCopyDirKeeps | kernel/src/paging/pmap.c:293-319 | copy_pgdir keeps the invariant when each table and page it makes meets its exact condition |
| PageExact.SafeNewDirKeeps | kernel/src/process.c:148-158 | and so does the directory of a new process |
| PageExact.ClearCopyDir | kernel/src/paging/pmap.c:293-319 | free pages behind which no directory and no table lies meet these conditions |
| PageQuirks.ZeroHarmlessIff | kernel/src/paging/pmap.c:126-128 | clearing a page leaves the contents of all pages in use alone if and only if the pages behind it are free or blank |
| PageQuirks.ZeroUnmaps | kernel/include/common.h:24-26 | a page table behind the new page loses its mappings |
| PageQuirks.RemoveIff | kernel/src/paging/pmap.c:321-357 | page_remove keeps the invariant if and only if there is no table, or the entry, present or not, names a managed page and is present, or names a low page whose count is not one |
| PageQuirks.RemoveKeepsIff | kernel/src/paging/pmap.c:345-357 | where unmapped entries are zero, it does if and only if the address is mapped |
| PageQuirks.ShareDirIff | kernel/src/process.c:243 | the memcpy of a directory over another one keeps the invariant if and only if neither has a table of its own and what lies behind the target survives |
| PageQuirks.ThreadIff | kernel/src/process.c:237-243 | making a thread, copy_pgdir for a user and then the memcpy, keeps the invariant if and only if the caller has no table of its own and what lies behind the thread's directory survives |
| PageQuirks.ThreadLoses | kernel/src/process.c:216-243 | as long as no directory lies behind the thread's, the tables copy_pgdir has just made for it, and the pages in them, keep count one and are not free, and no directory leads to those tables |
| PageHarm.RemoveFromBoot | kernel/src/paging/pmap.c:345-357 | a run from boot after which page_remove puts page 0 on the free list |
| PageHarm.DirFromBoot | kernel/src/process.c:148-158 | a run from boot, every step within its guard, after which a new directory overwrites another one |
| Pmap.PhysMem.InitKernPgdir | kernel/src/paging/pmap.c:47-69 | both loops: every directory slot, with its rights, and every entry of the linear map |
| Pmap.PhysMem.InitPages | kernel/src/paging/pmap.c:87-97 | the loops leave frames below 0x400 counted and thread all others on the free list in order |
| Pmap.PhysMem.PageInit | kernel/src/paging/pmap.c:75-103 | establishes the invariant, as the function of the booted state |
| Pmap.PhysMem.BootMapRegion | kernel/src/paging/pmap.c:217-233 | the loop computes BootMap |
| Pmap.PhysMem.MemZero | kernel/include/common.h:24-26 | PGSIZE double words: the page and the three after it become zero, nothing else |
| Pmap.PhysMem.MemCopy | kernel/include/common.h:20-22 | PGSIZE double words are copied upwards |
| Pmap.PhysMem.PageAlloc | kernel/src/paging/pmap.c:117-132 | takes the head of the list, cleared if asked; NULL exactly when the list is empty |
| Pmap.PhysMem.PageFree | kernel/src/paging/pmap.c:138-144 | puts the page in front of the list |
| Pmap.PhysMem.PageDecref | kernel/src/paging/pmap.c:150-155 | lowers the count and frees at zero |
| Pmap.PhysMem.PgdirWalk | kernel/src/paging/pmap.c:179-204 | finds the table or makes one when asked; NULL exactly when there is none |
| Pmap.PhysMem.PageLookup | kernel/src/paging/pmap.c:321-328 | the page of the entry, whatever its present bit, and the table it is in |
| Pmap.PhysMem.PageRemove | kernel/src/paging/pmap.c:345-357 | computes RemoveAt: nothing without a table, else the entry is cleared, present or not, and its page released |
| Pmap.PhysMem.PageInsert | kernel/src/paging/pmap.c:260-280 | all branches compute Insert |
| Pmap.PhysMem.MmAlloc | kernel/src/paging/pmap.c:30-42 | the loop over byte addresses computes MmAlloc of the rounded range |
| Pmap.PhysMem.NewPgdir | kernel/src/process.c:148-158 | computes NewDir, or NULL without memory |
| Pmap.PhysMem.CopyPgdir | kernel/src/paging/pmap.c:293-319 | the outer loop computes CopyDir |
| Pmap.PhysMem.CopyPgdirTable | kernel/src/paging/pmap.c:308-316 | the inner loop computes CopyTable |
| Pmap.PhysMem.FreePgdir | kernel/src/paging/pmap.c:371-387 | the outer loop computes FreeDir |
| Pmap.PhysMem.FreePgdirTable | kernel/src/paging/pmap.c:378-382 | the inner loop computes FreeEntries |
| SchedInvariant.DoSchedulerKeeps | kernel/src/scheduler.c:14-90 | do_scheduler keeps the partition and either lets the process go on or dispatches the head of the ready list |
| SchedInvariant.ExitKeeps | kernel/src/process.c:266-279 | exit_current keeps every live process in exactly one place |
| SchedInvariant.JoinersAlive | kernel/src/process.c:269-274 | the test for unused joiners never drops anybody |
| SchedInvariant.JoinKeeps | kernel/src/process.c:281-295 | the caller in the join list of a process in use keeps the partition |
| SchedInvariant.SpawnKeeps | kernel/src/process.c:224-264 | fork and thread creation keep it |
| SchedInvariant.SemPostKeeps | kernel/src/semaphore.c:25-32 | a post that needs a waiter finds one, and keeps the invariant |
| SchedInvariant.SemCloseKeeps | kernel/src/semaphore.c:13-23 | closing keeps it, with all waiters released |
| SchedInvariant.TimerKeeps | kernel/src/timer.c:6-24 | the tick keeps it |
| SchedInvariant.StepKeeps | kernel/src/irq/irq_handle.c:28-78 | every interrupt and system call keeps the partition, the counts of the semaphores and a running current process |
| SchedReady.StepEffect | kernel/src/irq/irq_handle.c:28-78 | the only ways in which a step changes the ready list: append, take the head, put a new process in front |
| SchedReady.WaitStep | kernel/src/scheduler.c:14-90 | the waiting bound of a ready process drops with every tick and grows by at most 3 with a spawn |
| SchedReady.BoundedWait | kernel/src/scheduler.c:14-90 | position k of the ready list runs within 3 (k + 1) ticks, plus 3 for each process created meanwhile |
| SchedReady.IdleStep | kernel/src/kernel.c:26-30 | the idle task stays current or ready, so no step finds the ready list empty |
| SchedReady.IdleRun | kernel/src/irq/irq_handle.c:49-78 | along every run in which idle only yields, do_scheduler never pops an empty list |
| SchedQueues.JoinStep | kernel/src/process.c:266-295 | a process leaves a join list only when its target exits, and then all leave, in order |
| SchedQueues.JoinRun | kernel/src/process.c:266-295 | over any run a joiner keeps its place until that exit |
| SchedQueues.SemStep | kernel/src/semaphore.c:25-55 | waiters leave from the front and arrive at the back, and the count accounts for each acquisition |
| SchedQueues.SemRun | kernel/src/semaphore.c:5-55 | over any run of an open semaphore: released in the order of blocking, a negative count is the number of waiters, acquisitions are initial count plus posts minus what is left |
| SchedQueues.OpenStep | kernel/src/semaphore.c:62-66 | an unused semaphore opens with the count asked for and nobody waiting |
| SchedQueues.TimerStep | kernel/src/timer.c:6-24 | the walk that deletes from the list it follows charges each sleeper once, keeps the rest in order, appends the expired in order |
| SchedQueues.SleepStep | kernel/src/timer.c:6-24 | only ticks count, and the last one wakes |
| SchedQueues.SleepCall | kernel/src/do_syscall.c:76-80 | the call puts its caller to sleep for 200 ticks a unit, modulo 2^32 |
| SchedQueues.SleepExact | kernel/src/do_syscall.c:76-80 | a sleep of n units without wrap ends at exactly the 200 n-th later tick |
| SchedCalls.JoinWaits | kernel/src/process.c:281-295 | joining the least slot with that id, in use: the caller goes to the end of its join list and the head of the ready list runs; nothing else changes |
| SchedCalls.JoinReturns | kernel/src/process.c:281-295 | joining 0, an id that no slot has, or one whose slot is unused: the caller runs on and nothing changes |
| SchedCalls.JoinBlocks | kernel/src/process.c:266-295 | over any run: who has joined a process is not current again before that process exits |
| SchedCalls.ExitWakes | kernel/src/process.c:266-279 | that exit leaves each joiner running or ready |
| SchedCalls.ExitGoes | kernel/src/process.c:266-279 | exit, and ctrl-c for a process that is not the kernel's: slot released, joiners in order behind the ready list, whose head runs; nothing else changes |
| SchedCalls.NothingElse | kernel/src/irq/irq_handle.c:58-71 | any other key and any other vector change nothing |
| SchedCalls.SpawnMakes | kernel/src/process.c:136-258 | the child: least free slot, next id as the answer, its parent's id, type and time slice, in front of the ready list; the parent runs on |
| SchedCalls.SpawnFull | kernel/src/process.c:136-145 | with every slot in use the pool overruns: Crash(PoolFull) |
| SchedCalls.ExecGoes | kernel/src/process.c:296-305 | a file that loads: a user process at the end of the ready list; one that does not: the caller runs on |
| SchedCalls.SleepGoes | kernel/src/do_syscall.c:76-80 | the caller goes to the end of the sleepers with 200 ticks a unit, and the head of the ready list runs |
| SchedCalls.HandoutGoes | kernel/src/do_syscall.c:81-83 | the caller goes to the end of the ready list, whose head runs |
| SchedCalls.SemOpens | kernel/src/semaphore.c:62-66 | sets the count of an unused semaphore only, answers its address |
| SchedCalls.SemPosts | kernel/src/semaphore.c:25-32 | counts up, and while processes wait hands the first of them to the ready list; the caller runs on |
| SchedCalls.SemWaits | kernel/src/semaphore.c:34-43 | counts down; with a positive count before, the caller runs on, otherwise it goes to the end of the list and the head of the ready list runs |
| SchedCalls.SemTries | kernel/src/semaphore.c:45-55 | answers -1 unused, 0 without and 1 with success, and counts down in that case only |
| SchedCalls.SemCloses | kernel/src/semaphore.c:13-23 | all waiters go to the ready list in order, none is left, the semaphore is unused |
| SchedCalls.SemGets | kernel/src/semaphore.c:57-60 | answers the count, 0 for an unused one |
| SchedCalls.TickGoes | kernel/src/timer.c:6-24 | expired sleepers follow the ready list in order; the turn ends at the third tick and not before, and then the current process is last |
| SchedCalls.TickWakes | kernel/src/timer.c:15-23 | a sleeper with one tick left is ready, or runs at once |
| SchedBoot.BootRuns | kernel/src/kernel.c:42-71 | boot leaves the shell running and the idle task ready, with the invariant |
| SchedPids.BootPids | kernel/src/kernel.c:42-71 | process 1 is the idle task of the kernel, process 2 the shell, a user process |
| SchedPids.RunApart | kernel/src/process.c:136-162 | over any run that gives out fewer than 2^32 ids, no two slots carry the same |
| SchedPids.JoinExact | kernel/src/process.c:281-295 | in every state of such a run from boot, join(pid) waits for the process in use with that id if there is one, and otherwise returns at once |
| SchedBoot.EveryRun | kernel/src/irq/irq_handle.c:28-78 | in every state of every run from boot each live process is in exactly one place, counts match waiters, and the ready list will not be found empty |
| KernelLists.ChainEntail | kernel/src/process.c:50-63 | appending through `next` extends the list by one at the end |
| KernelLists.ChainPush | kernel/src/process.c:39-49 | pushing needs an element whose `next` is null, because an empty list keeps it |
| KernelLists.ChainDelete | kernel/src/process.c:64-80 | unlinking removes exactly that element |
| KernelLists.RepEntail | kernel/src/process.c:50-63 | with all lists sharing one `next` field, appending to one leaves every other list alone |
| KernelLists.RepPush | kernel/src/process.c:39-49 | the same for pushing |
| KernelLists.RepDelete | kernel/src/process.c:64-80 | the same for deleting, and the element ends up with a null `next` |
| Kernel.Machine.LlEntail | kernel/src/process.c:50-63 | the walk to the end appends to that list only |
| Kernel.Machine.LlPush | kernel/src/process.c:39-49 | puts the element in front of that list only |
| Kernel.Machine.LlDelete | kernel/src/process.c:64-80 | the search loop removes the element if it is there and says so |
| Kernel.Machine.LlPop | kernel/src/process.c:34-38 | takes the head, or NULL of an empty list |
| Kernel.Machine.DoScheduler | kernel/src/scheduler.c:14-90 | computes the transition function, up to the dispatch |
| Kernel.Machine.DoTimer | kernel/src/timer.c:6-24 | the loop computes the walk over the sleepers |
| Kernel.Machine.PcbCreate | kernel/src/process.c:136-162 | the first unused slot with the next process id |
| Kernel.Machine.BootUp | kernel/src/kernel.c:42-71 | computes Boot |
| Kernel.Machine.ForkCurrent | kernel/src/process.c:224-264 | computes Spawn |
| Kernel.Machine.ExitCurrent | kernel/src/process.c:266-279 | computes Exit |
| Kernel.Machine.WakeJoiners | kernel/src/process.c:269-274 | the loop moves the joiners, in order |
| Kernel.Machine.JoinCurrent | kernel/src/process.c:281-295 | computes Join, with its three early returns; SchedCalls.JoinWaits and JoinReturns say what that is |
| Kernel.Machine.ExecCurrent | kernel/src/process.c:296-305 | computes Exec for a file that loads or not |
| Kernel.Machine.SemOpen | kernel/src/semaphore.c:5-11 | computes SemInit |
| Kernel.Machine.SemPost | kernel/src/semaphore.c:25-32 | computes SemPost |
| Kernel.Machine.SemWait | kernel/src/semaphore.c:34-43 | computes SemWait |
| Kernel.Machine.SemTryWait | kernel/src/semaphore.c:45-55 | computes SemTryWait and its result |
| Kernel.Machine.SemClose | kernel/src/semaphore.c:13-23 | the loop releases all waiters in order |
| Kernel.Machine.DoSyscall | kernel/src/do_syscall.c:13-122 | the switch computes the transition of the call |
| Kernel.Machine.IrqHandle | kernel/src/irq/irq_handle.c:28-78 | one whole step, invariant included |
| DiskFormat.Layout | kernel/include/file.h:5-41 | which bytes of which sector hold the name, size and inode number of an entry, the slots of an inode, and a data block |
| DiskFormat.BitLayout | kernel/src/fs/file.c:57-67 | which bit of which byte stands for a sector |
| DiskSteps.FirstClearFinds | kernel/src/fs/file.c:57-72 | the scan finds the least number whose bit is clear |
| DiskSteps.KernelAndHost | fmt/copy2myfs.c:10-24 | kernel and host agree on the bits of sectors below 4096 |
| DiskSteps.MarkBit | kernel/src/fs/file.c:61-67 | setting a bit sets that bit and no other |
| DiskSteps.DataAllocEffect | kernel/src/fs/file.c:57-72 | with room in the first slice: a block that was free, now marked, and no other sector or bit changes |
| DiskSteps.INodeAllocEffect | kernel/src/fs/file.c:41-56 | the same for inodes |
| DiskSteps.DataAllocInBitmap | kernel/src/fs/file.c:10-72 | the kernel's dataAlloc writes inside the bitmap if and only if the first slice has room or all bits of data blocks are set |
| DiskSteps.DataAllocOverruns | kernel/src/fs/file.c:17-22 | any block beyond that slice changes a sector outside the bitmap; for the first 4096 of them it is the sector of inode 0 |
| DiskSteps.SetSizeEffect | kernel/src/fs/file.c:237-239 | storing a size changes that size and no other field of any entry |
| DiskSteps.PutEntryEffect | kernel/src/fs/file.c:283-289 | storing an entry gives it name, size and inode and leaves the others |
| DiskSteps.GrowEffect | kernel/src/fs/file.c:229-234 | the slots get distinct blocks that were free; other slots and sectors stay |
| DiskSteps.GrowTakesLowest | kernel/src/fs/file.c:57-72 | a run of allocations marks exactly the lowest free blocks |
| FileBytes.ReadBaseBytes | kernel/src/fs/file.c:117-158 | the block-splitting read delivers the bytes of the flat file, for every offset and length |
| FileBytes.WriteBaseWrote | kernel/src/fs/file.c:170-213 | the block-splitting write replaces exactly those bytes and touches no other sector |
| FileInvariant.ChangedKeeps | kernel/src/fs/file.c:214-243 | a change of one file by fresh blocks keeps blocks apart, marked and sufficient |
| FileInvariant.GrowthChanged | kernel/src/fs/file.c:225-235 | growth gives fresh blocks to those slots only, and leaves inodes of other files and all data alone |
| FileWrite.PrepareStages | kernel/src/fs/file.c:214-239 | before the bytes go out: final size, all slots up to it held, and no byte outside the written range has lost its block |
| FileWrite.StoreBytesEffect | kernel/src/fs/file.c:170-213 | storing the bytes splices them in, leaves the system area and all other files |
| FileRefine.WriteRefines | kernel/src/fs/file.c:214-243 | the file becomes its old bytes with buf in place of those from the offset on; entry and stream carry the size max(old, offset + len) |
| FileRefine.WriteKeeps | kernel/src/fs/file.c:214-243 | a write keeps the invariant and takes exactly the blocks it needs |
| FileRefine.WriteOthers | kernel/src/fs/file.c:214-243 | every other file keeps all its bytes, every entry its name and inode |
| FileRefine.ReadRefines | kernel/src/fs/file.c:159-169 | a read delivers the bytes up to the end of the file, -1 at the end, and moves the offset only |
| FileRefine.WriteReadBack | kernel/src/fs/file.c:159-247 | seeking back and reading returns what was written |
| FileRefine.WriteKeepsIff | kernel/src/fs/file.c:214-243 | a write of at least one byte to a file not on inode 255 keeps the invariant if and only if the slot at its offset has a block or the file is empty |
| FileRefine.NotStartedLast | kernel/src/fs/file.c:214-243 | on inode 255 the bytes of such a write replace the file's own slots |
| FileRefine.LastNeedsBlocks | kernel/src/fs/file.c:214-243 | and the invariant survives only if they are numbers of marked blocks |
| FileLast.LastIff | kernel/src/fs/file.c:214-243 | it survives if and only if the sector they leave names marked or lowest free blocks, each once and none of another file, for the whole new size and for the other streams on that file |
| FileEntry.EnteredKeeps | kernel/src/fs/file.c:263-293 | an entry that gets a free inode and fresh blocks keeps the invariant |
| FileEntry.EnteredFile | kernel/src/fs/file.c:263-293 | and all other files keep their bytes |
| FileEntry.CreateMakes | kernel/src/fs/file.c:281-293 | fs_create_kr makes an empty file with a free inode and changes no data |
| FileEntry.CreateKeepsIff | kernel/src/fs/file.c:281-293 | creating keeps the invariant of the disk if and only if an inode is free |
| FileEntry.CreateOverruns | kernel/src/fs/file.c:281-293 | with no inode left it overwrites the last directory sector |
| FileHost.HostLoopEffect | fmt/copy2myfs.c:125-137 | the copy loop puts the file's bytes into fresh, distinct blocks |
| FileHost.CopyIn | fmt/copy2myfs.c:78-147 | after a host copy the file has exactly the given bytes and name, the invariant holds, the other files keep their bytes |
| FileStreams.HostIsFound | fmt/copy2myfs.c:98-142 | the copy goes to the least entry that has the name or is free; the kernel then finds the new bytes under that name, and every other name where it was |
| FileRuns.FindNameFinds | kernel/src/fs/file.c:76-90 | the search returns the first entry of that name, or none |
| FileRuns.OpenKeeps | kernel/src/fs/file.c:316-326 | opening gives a stream on the file of that name, made when missing and asked for; no file's bytes change |
| FileRuns.OpenDuplicatesIff | kernel/src/fs/file.c:316-326 | opening a file that exists makes a second entry of its name if and only if creation is asked for, no stream is free and the directory has a place |
| FileStreams.OpenTakesLeast | kernel/src/fs/file.c:76-116 | opening takes the least unused stream and the first entry of the name; a new file the least free entry and inode |
| FileRuns.CreateKeeps | kernel/src/fs/file.c:263-314 | creating keeps the invariant and all existing files |
| FileRuns.StepKeeps | kernel/src/fs/file.c:76-348 | every operation keeps the invariant |
| FileRuns.StepLeaves | kernel/src/fs/file.c:76-348 | an operation that does not write a file leaves its bytes |
| FileRuns.RunLeaves | kernel/src/fs/file.c:76-348 | over any run, kernel and host operations mixed, a file nobody writes keeps every byte |
| FileRuns.FormattedInv | fmt/formatter.c:9-39 | a formatted disk has no files and satisfies the invariant |
| FileRuns.EveryRun | kernel/src/fs/file.c:41-348 | in every state of every run from a formatted disk no block is in two slots, all are marked, inode and data bits do not mix |
| FileRuns.FormatDiskIs | fmt/formatter.c:9-39 | the sectors the formatter writes make a formatted disk |
| FileRuns.FirstFile | kernel/src/fs/file.c:214-314 | on a formatted disk a file of any size up to 65535 bytes can be made and written, and then holds those bytes |
| FileRuns.BlockThenByte | kernel/src/fs/file.c:214-243 | the smallest run that breaks the invariant: a first write of one block, then one byte |
| FileStreams.SeekMoves | kernel/src/fs/file.c:333-345 | for each origin, the offset and the answer from the old offset and size; size, inode, entry, disk and all other streams are unchanged |
| FileStreams.SeekTells | kernel/src/fs/file.c:333-345 | seeking 0 from the position tells it and changes nothing |
| FileStreams.SeekAdds | kernel/src/fs/file.c:333-345 | two moves from the position add up |
| FileStreams.SeekEndReads | kernel/src/fs/file.c:159-345 | at SEEK_END, which answers the length, a read finds the end |
| FileStreams.CloseFrees | kernel/src/fs/file.c:252-259 | closing frees that stream and nothing else |
| FileStreams.AppendAdds | cshell/src/main.c:65-74 | open with flag 1, seek to the end, write: the file is its old bytes followed by the new, other files keep theirs |
| FileStreams.AppendMakes | cshell/src/main.c:65-74 | the same for a name that is not there makes the file with those bytes |
| FileStreams.AppendKeepsIff | cshell/src/main.c:65-74 | appending to a file not on inode 255 keeps the invariant if and only if the file is empty or the slot at its end has a block |
| FileStreams.OverwriteReplaces | cshell/src/main.c:56-64 | open with flag 2 and write: the file holds exactly the bytes written, none included |
| FileStreams.WriteIsDurable | kernel/src/fs/file.c:76-326 | write, close, open by name, read: the reader gets the file as the write left it |
| FileCopy.CatTurn | cshell/src/main.c:99-100 | one turn of the copy loop extends the target by the next bytes of the source |
| FileCopy.CatCopies | cshell/src/main.c:98-100 | the loop ends with the target equal to the source |
| FileCopy.ShellCatCopies | cshell/src/main.c:86-104 | `cat src > dst` leaves dst with exactly the bytes of src, for 1 to 65535 bytes |
| FileCopy.ShellCatIff | cshell/src/main.c:86-104 | for an existing target the copy is exact if and only if the source has bytes or the target had none |
| FileBoot.ReadSegBytes | inc/disk.h:41-49 | readseg puts the bytes of the drive at the address, and writes at most a sector beyond either side |
| FileBoot.FirstCopy | fmt/copy2myfs.c:98-142 | on a formatted disk the first file gets inode 0 and blocks 0, 1, 2, ... in order, filled up with zeros |
| FileBoot.BootLoads | boot/bootloader.c:10-26 | the loader's readseg at 768 * 512 + off loads exactly the bytes [off, off + count) of that file |
| FileServer.FileSystem.ReadBitmap | kernel/src/fs/file.c:10-15 | loads every slice |
| FileServer.FileSystem.SaveBitmap | kernel/src/fs/file.c:17-22 | writes every slice back |
| FileServer.FileSystem.INodeAlloc | kernel/src/fs/file.c:41-56 | the scan computes the first-fit function, bitmap saved |
| FileServer.FileSystem.DataAlloc | kernel/src/fs/file.c:57-72 | the same for data blocks |
| FileServer.FileSystem.FsReadBase | kernel/src/fs/file.c:117-158 | first part, whole blocks, last part compute ReadBase |
| FileServer.FileSystem.FsRead | kernel/src/fs/file.c:159-169 | computes FsRead, bytes in the caller's buffer |
| FileServer.FileSystem.FsWriteBase | kernel/src/fs/file.c:170-213 | first part, whole blocks, last part compute WriteBase |
| FileServer.FileSystem.FsWrite | kernel/src/fs/file.c:214-243 | all stages compute FsWrite |
| FileServer.FileSystem.FindEntry | kernel/src/fs/file.c:76-90 | the nested search with strcmp computes FindName |
| FileServer.FileSystem.FsOpen | kernel/src/fs/file.c:76-116 | computes FsOpen |
| FileServer.FileSystem.FsCreate | kernel/src/fs/file.c:263-314 | computes FsCreate |
| FileServer.FileSystem.OpenMd | kernel/src/fs/file.c:316-326 | computes OpenMd |
| FileServer.FileSystem.LseekMd | kernel/src/fs/file.c:333-345 | computes LseekMd, whose meaning is FileStreams.SeekMoves |
| FileServer.FileSystem.FsClose | kernel/src/fs/file.c:252-259 | releases the stream |
| FileServer.FileSystem.CopyLoop | cshell/src/main.c:98-100 | the loop over reads and writes computes Cat |
| HostTool.CopyTool.Scan | fmt/copy2myfs.c:50-77 | the scan in memory computes the first-fit function |
| HostTool.CopyTool.CopyBlocks | fmt/copy2myfs.c:125-137 | the loop computes HostLoop |
| HostTool.CopyTool.CopyIn | fmt/copy2myfs.c:78-147 | the tool computes HostCopy |
| HostTool.ReadSeg | inc/disk.h:41-49 | the loop computes ReadSeg |
| Kiss.MwcFits | game/src/rnd.c:15-17 | A * z + c fits 64 bits and the new carry is below A |
| Kiss.StepKeeps | game/src/rnd.c:6-20 | a step keeps the carry below A and y away from zero |
| Kiss.StepBack | game/src/rnd.c:6-20 | the explicit inverse undoes a step |
| Kiss.StepForth | game/src/rnd.c:6-20 | every valid state is the successor of a valid state |
| Kiss.RunsNeverMerge | game/src/rnd.c:1-20 | two runs that meet after equally many steps started in the same state |
| Kiss.OutputShows | game/src/rnd.c:19 | states that differ in exactly one of x, y, z give different numbers; the carry does not show |
| Kiss.FirstNumber | game/src/rnd.c:1-20 | the first number from the seeds of the file, and the state it leaves |
| Kiss.Generator.Ukiss | game/src/rnd.c:6-20 | the assignments compute Step and the sum |
| VideoSpec.DisplayShows | kernel/src/do_syscall.c:100-103 | clearVRAM and then flushVCache make the screen equal the cache |
| VideoSpec.FlushRowsPixels | kernel/src/video.c:30-41 | pixel by pixel: the rows in use get the bytes of the cache, nothing else changes |
| VideoSpec.ClearRowsPixels | kernel/src/video.c:55-61 | pixel by pixel: the rows on record that are not in use become black, nothing else changes |
| VideoSpec.ClearKeepsIff | kernel/src/video.c:52-75 | clearVRAM keeps the invariant if and only if the stamp does not wrap or no row is in use |
| VideoSpec.RunShows | kernel/src/video.c:10-75 | after any run without such a wrap the next display shows the cache |
| VideoSpec.PixelDraws | kernel/src/video.c:42-47 | a pixel on the screen changes byte 320 x + y of the cache and the two flags of row x; one outside changes nothing |
| VideoSpec.QuietIff | kernel/src/video.c:52-75 | whether a run is without such a wrap, from the list of operations alone |
| VideoSpec.ShowsWhatWasDrawn | kernel/src/video.c:10-75 | after such a run from boot the next display holds at 320 x + y the colour of the last pixel drawn at x, y since the last initVCache, and black without one |
| VideoSpec.WrapLeavesPixel | kernel/src/video.c:63-73 | a pixel drawn at the wrap stays on the screen when the next, empty frame is displayed |
| Video.Screen.InitVCache | kernel/src/video.c:10-22 | blacks the cache and its flags |
| Video.Screen.SetPixelAt | kernel/src/video.c:42-47 | computes SetPixelAt, whose meaning is VideoSpec.PixelDraws |
| Video.Screen.FlushVCache | kernel/src/video.c:30-41 | the row loop computes FlushVCache |
| Video.Screen.ClearVRAM | kernel/src/video.c:52-75 | row loop and stamp compute ClearVRAM |
| Video.Screen.Display | kernel/src/do_syscall.c:100-103 | with the invariant, the screen shows the cache |
| ShellArgs.StartsAre | cshell/src/main.c:13-33 | the argument vector lists all beginnings of words, in order |
| ShellArgs.WordAt | cshell/src/main.c:13-33 | each entry, read as a C string of the cut line, is a maximal run without space, tab, return or newline, unchanged |
| ShellArgs.WordsApart | cshell/src/main.c:13-33 | words end before the next one begins |
| ShellArgs.Covered | cshell/src/main.c:13-33 | every character that is no space is in a word |
| ShellArgs.Shell.ParseArg | cshell/src/main.c:13-33 | returns 1 exactly for at most 15 words, with all of them in the vector and a null after them |
| PrintSpec.HexReads | lib/printk.c:43-68 | %x prints a canonical numeral that reads back |
| PrintSpec.DecimalReads | lib/printk.c:71-104 | %d prints a canonical numeral, signed, that reads back, for every 32-bit value |
| PrintSpec.DecimalInjective | lib/printk.c:71-104 | different values print differently |
| PrintSpec.DigitsFew | lib/printk.c:51-61 | a number below base to the n has at most n digits |
| PrintSpec.LeastInteger | lib/printk.c:75-80 | the literal for the least integer is what the rule would print |
| PrintSpec.RenderSplit | lib/printk.c:17-120 | a control string may be cut anywhere: the second part takes the arguments the first leaves; what each conversion prints is in the rows below |
| PrintSpec.PlainText | lib/printk.c:115-117 | text without percent signs is printed as it is |
| PrintSpec.PrintsDecimal | lib/printk.c:71-104 | %d prints its argument as a canonical signed decimal numeral that reads back |
| PrintSpec.PrintsHex | lib/printk.c:43-68 | %x prints it unsigned, as a canonical hexadecimal numeral that reads back |
| PrintSpec.PrintsText | lib/printk.c:35-42 | %s prints the text, %c the one character of the low byte |
| PrintSpec.PrintsUnknown | lib/printk.c:30-113 | any other character after a percent sign prints nothing and takes no argument |
| PrintSpec.PrintsWithin | lib/printk.c:17-120 | in a longer string: the text before, the conversion of the first argument, the rest with the other arguments |
| Printk.Printer.PrintDigits | lib/printk.c:51-65 | the digit loops stay inside the 15-byte buffer and print the digits |
| Printk.Printer.PrintDecimal | lib/printk.c:71-104 | all branches print Decimal |
| Printk.Printer.PrintHex | lib/printk.c:43-68 | prints Hex |
| Printk.Printer.Vfprintf | lib/printk.c:17-120 | the scan prints Render, whose conversions PrintsDecimal, PrintsHex, PrintsText and PrintsUnknown describe |

## Left out

- Port I/O, ATA handshaking, interrupt controller and serial line: `readsect` and `writesect` read and write the sector array; a sector outside the drive reads as zeros.
- Segment, trap-frame and kernel-stack handling, and the assembly of the context switch: a switch only chooses `current`.
- The TLB and the contents of the kernel image: `invlpg` and `lcr3` have no effect on the model.
- `kernel/src/loader.c`: whether a file loads is an input of `exec_current`; the image is not modelled.
- Per-process descriptor tables, `fs_ls_kr`, the keyboard and its line editor, the game's drawing, and the shell's other commands.
- Memory shortage in `pcb_create`, and the copying of stacks and descriptors at fork: the page side of fork is in the page model, the list side in the process model, and the two are not composed.
- Semaphores in user memory (SYS_SEM_INIT): fork copies them, so their lists are not the kernel's.
- The diagnostic prints and the failure prints: only their control flow is kept.
- Pmap.PhysMem.PageAlloc: pp_ref is an unbounded integer; the source does not check its width either.
- Pmap.PhysMem.PageInsert: stated for tables and frames that the kernel can reach and a page in use or just allocated; other arguments would make KADDR fault.
- PageMapping.RemoveKeeps: present mappings only, as at the one call site; PageQuirks.RemoveIff has all other cases.
- PageSteps.AddTableKeeps: a sufficient condition; PageOverrun.AddTableIff has the exact one.
- PageSteps.NewDirKeeps: a sufficient condition; PageOverrun.NewDirIff has the exact one.
- PageCopy.CopyDirCopies: needs free pages behind which no directory and no table lies, as long as more than one page is copied at a time; the code does not look.
- PageRuns.EveryRun: a thread is made only by a process without tables of its own, because any other breaks the counts (PageQuirks.ThreadIff).
- Pmap.PhysMem.NewPgdir: needs the same guard; the pages overwritten must exist, since the machine faults beyond the last one.
- Pmap.PhysMem.CopyPgdir: needs the guard at each page; the pages read behind each source page must exist as well.
- PageHarm.DirFromBoot: for a page behind the kernel directory that is not a copy of it, which the linker decides.
- PageTeardown.FreeDirReturns: the directory page itself stays counted, as the code leaves it (free_pcb does not release it).
- SchedInvariant.SpawnKeeps: needs a free slot in the pool; a full pool is the outcome Crash(PoolFull), which the other theorems admit.
- SchedPids.JoinExact: fewer than 2^32 process ids; after that the counter wraps and two processes can carry the same.
- SchedCalls.OtherGoes: the answers of SYS_PID, SYS_PPID and SYS_GET_TICK are inputs, as are those of the file calls.
- SchedQueues.SemRun: the count is an unbounded integer, and opened with a count of at least 0.
- SchedReady.IdleStep: the idle task makes no call but yield, which is all its code does.
- FileRefine.WriteRefines: needs an offset within the file, an end below slot 128 and room in the first bitmap slice; past slot 127 the source overruns the inode buffer.
- FileRefine.WriteKeepsIff: not stated for a file whose inode is number 255, where the outcome depends on the caller's data; FileLast.LastIff says exactly how.
- FileRefine.LastNeedsBlocks: a necessary condition; FileLast.LastIff has the exact one.
- FileStreams.AppendAdds: needs room, and a block for the slot at the end of a file that is not empty; FileStreams.AppendKeepsIff shows that this is exact.
- FileStreams.SeekMoves: offsets are taken modulo 2^32, as the stream stores them; the answer is the same number read as unsigned.
- FileRefine.ReadRefines: needs an offset within the file; beyond it the length in the source becomes negative.
- FileRuns.OpenKeeps: names of 1 to 23 bytes, and a free stream; FileRuns.OpenDuplicatesIff has the case of none, except that the source then stores through stream -1 when asked to empty the file, which is outside its table.
- FileRuns.StepKeeps: streams are not shared out to processes; the copy of the name that a stream keeps is never read and is not modelled.
- FileServer.FileSystem.FsWrite: the buffers of caller and kernel do not overlap, and the loops over whole blocks are methods of their own.
- HostTool.CopyTool.CopyIn: a directory without a place makes the source write past its buffer; the file to copy is an input.
- FileBoot.BootLoads: the parsing of the ELF headers is not modelled, only each read.
- FileCopy.ShellCatCopies: the shell's descriptors are kernel streams here, and a source that is the target is excluded.
- ShellArgs.Shell.ParseArg: the message for too many arguments is not modelled; the buffer is then cut up to the sixteenth word.
- Printk.Printer.Vfprintf: the arguments have the kinds the control string asks for; others would be read as raw words.
- Video.Screen.ClearVRAM: flags are booleans, since the source stores only 0 and 1 in them.
