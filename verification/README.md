# SlobOS verified: memory, processes and data paths

This project models the core of the SlobOS kernel and of its user-side library in
Dafny and proves what that code does. Four groups of results build on each other.

**Memory.** Physical memory is 2^32 bytes. The heap table at 0x7E00, the page
directories and the page tables are bytes and little-endian words in it, and every
operation is a method that writes that memory in place, proved equal to a function on
its contents. On top of those functions: the heap table decodes uniquely into disjoint
runs; allocation adds one run and freeing removes one; two-level paging behaves like a
flat map of 2^20 pages; an address space costs 1026 blocks and gives all of them back.

**Processes.** A kernel state is memory, the process table, the scheduler's three globals
and the assignment of heap runs to owners (image, stack, task, page tables, allocation
slots, structures). The invariant `Isolation.Inv` says that slots, runs and writable pages
agree, process by process. It holds after every step of every run of loads, argument
passing, allocations, frees, string reads, terminations, task switches, the kernel's own
notes, other kernel work and single-byte stores by user code, and it gives write
isolation: no frame is ever writable by two processes, and no store of a process reaches
another process's memory, a page table or the heap table. Six kinds of step can go wrong
on some inputs: allocations answered with too short a block, exits and loads that store
through stale task pointers, loads of images that reach past their memory, the write of
argc and argv to an address user code picks, and task_next from a block that is no task
any more. Each has its condition in `Machine.Next`, and a lemma that the condition is
exact: for the invariant (`Requests.MallocKeepsInvIff`, `Terminate.TerminateExact`,
`Machine.LoadKeepsInv`, `Switches.SwitchNextKeepsInvIff`) or for the bytes written
(`Links.SetNextKeepsIff`, `GetArguments.GetSparesIff`). If in addition every exiting
task's `prev` serves, the scheduler's ring lists exactly the live processes' tasks in
every state, and each gets its turn (`RingRuns`). The process of a finished load finds its
stack and its program through its own page tables (`Machine.LoadShows`).

**Data paths.** Disk streams and FAT16 reads against plain byte slices; `strtok`, the
command line parser and argument injection, joined from the typed line to `argv` in the
program's own memory and to what the program reads when it asks for its arguments on its
stack (`StartedProgram.StartedProgramReads`); `copy_string_from_task`; path parsing into
the heap and back.

**Small structures.** The scheduler's ring in memory, the keyboard buffer, `itoa`, and
the address range recorded for an ELF file.

The code is modelled as it is, faults included. Where a promise fails, the lemma says
exactly when it holds:

- A request too large for the heap is answered with a short block when the last block
  of the table is free (`HeapTable.ScanTruthfulIff`). The comment at
  src/memory/heap/heap.c:99-102 asks for an error. `Requests.MallocKeepsInvIff` says for
  every 32-bit size when that harms the kernel; `malloc(-1)` is answered with the last
  free block and clears memory round to it (`Requests.MallocOfAllDestroys`).
- A finished task is taken out of the list through its own `prev`, which nobody keeps up
  to date. The store is harmless exactly under `Terminate.ExitSafe`; a task's `prev` that
  names a freed block makes a later exit write into whatever owns the block by then
  (`StaleLinks.ReusedBlockOverwritten`), and with a page directory there the kernel is
  no longer sound (`StaleLinks.ReusedDirectoryBroken`). A load stores through
  `task_tail`, which can be stale in the same way (`Machine.TailServes`).
- `process_get_arguments` writes argc and argv wherever the given address leads, page
  flags unseen. That spares everything but the process's own memory exactly where
  `GetArguments.AlwaysSparesIff` says; the heap table and the process's own page table
  root are both in reach (`GetArguments.HeapTableOverwritten`,
  `GetArguments.ChunkOverwritten`).
- `copy_string_from_task` takes, clears and maps a heap block before it reads. A string
  seen through that block, its page table entry or its heap table entry arrives changed
  while the call answers 0: read from the first free block it arrives empty
  (`CopyDelivery.FreeBlockArrivesEmpty`). `CopyDelivery.CopyDelivers` is exact.
- A program whose writable segment reaches past its image, as a large .bss at the end of
  the file does, can write memory that is not its own (`Machine.LoadPastImageBreaks`).
- A FAT entry of 0xFFF0 or more, where the format's end markers are, never ends a walk
  (`Fat16.WalkEndsRightIff`).
- Terminating calls `kfree(0)` on empty slots; the chain walk then starts 8 KB below
  the heap table. It is harmless exactly under `KernelHeap.KfreeNullHarmlessIff`, and
  the invariant carries that condition.
- A load that fails at a segment keeps the process structure, the file's data and the stack
  allocated for good (`AbandonedLoad.AbandonedRestoresTable`).
- Terminating never frees the process structure (`Terminate.TerminateExact`).
- A segment is seen at its addresses exactly when file offset and address agree modulo the
  page size and no later segment covers its pages (`Elf.ElfImageCorrectIff`). That holds
  for all p_memsz bytes: those past p_filesz are what follows in the file, never zeros as
  the ELF format asks.
- FAT entries are looked up at a product where a sum is meant; with the boot sector's
  200 reserved sectors no entry is ever read from its place
  (`Fat16.BootVolumeEntriesMisplaced`). "Next cluster" means what the code looks up.
- A read that starts inside a cluster and crosses into the next delivers the wrong
  bytes exactly where the chain is not contiguous (`Fat16.SourceRightIff`).
- `task_list_remove` breaks the ring exactly when the removed task's `prev` is not its
  predecessor or, for the first task, is a task still in the ring
  (`Tasks.RemoveSoundIff`); it leaves such a `prev` behind unless the task was first or
  last (`Tasks.AllServeAfterIff`).
- The keyboard ring delivers the newest key first once it overruns
  (`Keyboard.OverrunReadsNewestFirst`).
- The ELF base address is the lowest one exactly under `ElfRange.RangeRecorded`,
  because 0 also stands for "none yet".

Assumptions: the disk is a function from sector numbers to sectors, and a sector read
fails only for a disk the kernel has not found (src/disk/disk.c:20-88); the kernel's own
accesses are physical, since its space maps every page to itself; file contents,
keyboard input and the success of user-side allocations are parameters. 32-bit
wrap-around is written out wherever the code can reach it.

## Model

| member | source | states |
|---|---|---|
| HeapTable.RunsDisjoint | src/memory/heap/heap.h:10-15 | two allocations that share a block are the same allocation |
| HeapTable.WellFormedIffEntriesOk | src/memory/heap/heap.h:10-15 | the neighbour conditions on flag bytes say exactly that the table decodes into runs FIRST, HAS_NEXT, last |
| HeapTable.RunsDetermineTable | src/memory/heap/heap.h:10-15 | decoding is injective: two well-formed tables with the same runs are equal |
| HeapTable.ScanTruthfulIff | src/memory/heap/heap.c:91-139 | the scan's answer is truthful exactly when n consecutive blocks are free somewhere or the table's last block is taken |
| HeapTable.ShortTailAnswered | src/memory/heap/heap.c:131-137 | a concrete table on which a request for two blocks is answered with one |
| HeapTable.TakeAddsRun | src/memory/heap/heap.c:151-170 | marking n free blocks adds exactly one run and keeps the table well formed |
| HeapTable.ReleaseRemovesRun | src/memory/heap/heap.c:213-225 | clearing a run removes exactly that run |
| HeapTable.AllocationSets | src/memory/heap/heap.c:151-225 | on the set of allocations a table stands for, marking a free range adds that one element and clearing an allocation removes it |
| HeapTable.TakeThenRelease | src/memory/heap/heap.c:151-225 | freeing straight after allocating restores the table entry for entry |
| HeapTable.ClearedPart | src/memory/heap/heap.c:213-225 | following HAS_NEXT from a run's head clears exactly that run |
| HeapTable.FreeKeepsWellFormedIff | src/memory/heap/heap.c:213-225 | freeing at any block keeps the table well formed exactly when the block is free or an allocation's first |
| Heap.Heap.Create | src/memory/heap/heap.c:13-72 | succeeds exactly for aligned bounds whose 32-bit difference matches the table size, and leaves a well-formed table without runs |
| Heap.Heap.GetStartBlock | src/memory/heap/heap.c:103-139 | the least index with n free blocks if there is one, else the free tail of the table, else -ENOMEM |
| Heap.Heap.MarkBlocksTaken | src/memory/heap/heap.c:151-170 | writes the n flag bytes of one run and nothing else |
| Heap.Heap.Malloc | src/memory/heap/heap.c:183-246 | memory and address after heap_malloc, size rounding with 32-bit wrap included |
| Heap.BlockOfAddress | src/memory/heap/heap.c:228-231 | an address at or above the heap's start leads to the block it lies in; below it the division goes towards zero |
| Heap.Heap.MarkBlocksFree | src/memory/heap/heap.c:213-225 | clears the chain that starts at the given, possibly negative, block index |
| Heap.Heap.Free | src/memory/heap/heap.c:228-257 | memory after heap_free of any address |
| KernelHeap.HeldApart | src/memory/heap/heap.c:145-202 | blocks of different owners do not overlap |
| KernelHeap.KzallocFits | src/memory/heap/kheap.c:38-48 | a request that fits takes blocks nobody holds, marks exactly them and clears exactly the bytes asked for |
| KernelHeap.KzallocKeeps | src/memory/heap/kheap.c:38-48 | every other allocation stays, byte for byte |
| KernelHeap.KfreeRun | src/memory/heap/kheap.c:32-35 | freeing an allocation's address removes exactly that run and writes to the table only |
| KernelHeap.KfreeNullHarmlessIff | src/memory/heap/heap.c:213-231 | kfree(NULL) leaves the heap table alone exactly when a byte in the 8 KB below it ends the walk, or the first block is free |
| KernelHeap.KfreeAllRuns | src/memory/heap/kheap.c:32-35 | freeing a list of held blocks removes exactly their runs |
| Paging.Masks | src/memory/paging/paging.c:196-257 | the masks of paging_set and paging_get agree exactly on entries below 2^28 |
| Paging.GetIsEntry | src/memory/paging/paging.c:249-257 | paging_get reads the flat map's entry, because tables lie in the heap |
| Paging.SetEntry | src/memory/paging/paging.c:196-217 | paging_set changes the entry of its page and no other of the 2^20 |
| Paging.InsideAPage | src/memory/paging/paging.c:178-257 | paging_set refuses exactly the unaligned addresses, changing nothing; paging_get answers for them the entry of page 0 |
| Paging.PhysicalAddressIsTranslation | src/memory/paging/paging.c:263-268 | paging_get_physical_address is the hardware's translation |
| Paging.MapToTranslation | src/memory/paging/paging.c:95-138 | after paging_map_to the range translates linearly, all other pages keep their entries; it fails, changing nothing, exactly on unaligned or reversed arguments |
| Paging.MapToShows | src/memory/paging/paging.c:95-138 | a range mapped with user flags is present, for users, at its physical addresses, and writable exactly if the flags say so |
| AddressSpace.SpaceBuilt | src/memory/paging/paging.c:12-46 | with 1026 free blocks, the new space is 1026 different blocks, maps every page to itself with the given flags, links all 1024 tables writable and present and for users as the flags say, and touches no byte anybody holds |
| AddressSpace.SpaceFreed | src/memory/paging/paging.c:150-163 | paging_free_4gb finds and gives up exactly those blocks |
| AddressSpace.NewThenFreeRestoresHeap | src/memory/paging/paging.c:12-163 | building and freeing a space restores the heap table entry for entry |
| KernelOps.Kernel.Kzalloc | src/memory/heap/kheap.c:38-48 | memory and result of kzalloc for every 32-bit size, clearing past 4 GB and round included |
| KernelOps.Kernel.PagingSet | src/memory/paging/paging.c:178-217 | memory and result of paging_set, indexes and mask as in the code |
| KernelOps.Kernel.PagingGet | src/memory/paging/paging.c:249-257 | the entry paging_get reads, with its 28-bit mask |
| KernelOps.Kernel.MapRange | src/memory/paging/paging.c:225-244 | memory and result of paging_map_range, addresses advancing with wrap |
| KernelOps.Kernel.MapTo | src/memory/paging/paging.c:95-138 | memory and result of paging_map_to |
| KernelOps.Kernel.PhysicalAddress | src/memory/paging/paging.c:263-268 | the address paging_get_physical_address answers |
| KernelOps.Kernel.New4gb | src/memory/paging/paging.c:12-46 | memory and chunk after the two loops of paging_new_4gb |
| KernelOps.Kernel.Free4gb | src/memory/paging/paging.c:150-163 | memory after paging_free_4gb |
| Elf.ElfMapped | src/task/process.c:144-193 | every page gets the entry of the last segment covering it; success exactly when no segment's rounded end lies below its start |
| Elf.CoversIff | src/task/process.c:144-193 | a segment is mapped to exactly the pages whose frames begin before its end; with congruent offset and address those are the pages in which it has bytes, and no other |
| Elf.ElfImageCorrectIff | src/task/process.c:144-193 | a segment's bytes are all seen at their virtual addresses exactly when p_offset and p_vaddr agree modulo 4096 and the last segment in each of its pages shows the same frame |
| Elf.DisjointShown | src/task/process.c:144-193 | if no page belongs to two segments, a congruent segment's pages show its frames, are present, for users, and writable exactly when PF_W is set |
| Elf.SegmentShown | src/task/process.c:144-193 | user code then sees each byte of the segment at elf_memory + p_offset plus its distance from p_vaddr |
| Elf.ElfConfinedIff | src/task/process.c:144-193 | all writable pages lie in a given range exactly when every page whose last segment is writable shows a frame there |
| Elf.WholeSegmentsIff | src/task/process.c:144-193 | if no page belongs to two segments, that is so exactly when every writable segment lies in the range |
| ElfRange.RangeRecorded | src/loader/formats/elfloader.c:140-159 | the end is the highest segment end; the base is a segment's start, and the lowest exactly if no segment starts at 0 or the last one does, whatever wraps |
| ElfRange.RangeIsFileRange | src/loader/formats/elfloader.c:140-159 | in plain numbers: both ends are those of one segment, p_vaddr + p_filesz and elf_memory + p_offset + p_filesz modulo 4 GB, likewise both bases; where no sum passes 4 GB they are those sums, and no segment's p_vaddr + p_filesz is higher |
| ElfRange.ElfFile.ProcessHeaders | src/loader/formats/elfloader.c:140-195 | the four addresses after all program headers, which RangeRecorded and RangeIsFileRange are about |
| Process.KzallocSparesRuns | src/memory/heap/kheap.c:38-48 | whatever kzalloc answers, a short block included, it writes to no byte of an allocation unless it clears past 4 GB |
| ProcessOps.ProcessObject.FindFreeAllocationIndex | src/task/process.c:367-381 | the first empty slot, or -ENOMEM |
| ProcessOps.ProcessObject.UnjoinAllocation | src/task/process.c:445-460 | every slot holding the pointer is emptied, the others stay |
| ProcessOps.ProcessObject.Malloc | src/task/process.c:384-423 | memory, slots and result of process_malloc for every 32-bit size |
| ProcessOps.ProcessObject.GetArguments | src/isr80h/process.c:92-101 | the eight bytes argc and argv at the physical address of the pointer user code passes; GetArguments.ArgumentsReadIff says what the process reads there |
| ProcessOps.ProcessObject.Free | src/task/process.c:478-509 | memory and slots after process_free |
| ProcessOps.ProcessObject.TerminateAllocations | src/task/process.c:609-618 | memory and slots after process_free on every slot |
| ProcessOps.ProcessObject.Terminate | src/task/process.c:690-715 | memory and ring after slots, program data, stack and page tables have been freed in order, the task unlinked through its prev, and its block freed |
| ProcessOps.ProcessObject.MapElf | src/task/process.c:144-193 | memory and result of process_map_elf |
| ProcessOps.ProcessObject.MapMemory | src/task/process.c:196-225 | memory and result of process_map_memory; Load.MemoryShown says what the process then finds |
| Isolation.WriteableFrameOwned | src/task/process.c:196-423 | a frame writable for a process lies in that process's image, stack or one of its allocations |
| Isolation.WriteIsolation | src/task/process.c:196-509 | no frame is writable for two processes, nor holds a page table, a kernel structure or the heap table |
| Steps.UserStoreConfined | src/task/process.c:196-423 | a store of any value to any address changes no byte held by another process, no page table and nothing below the heap |
| Steps.MallocGranted | src/task/process.c:384-423 | a granted request adds one run, one slot and exactly that run's identity pages with flags P, W, U |
| Requests.MallocKeepsInvIff | src/task/process.c:384-423 | for every 32-bit size process_malloc keeps the invariant exactly when the blocks fit, or the heap's last block is taken, or a short answer ending below 4 GB finds no slot, or clearing past 4 GB reaches only table entries in front of everything held and not inside an allocation |
| Requests.MallocWithoutSlot | src/task/process.c:398-404 | without a free slot a granted answer, or a short one that ends below 4 GB, is undone |
| Requests.MallocOfAllDestroys | src/task/process.c:384-423 | sizes in the last page of 32 bits never keep the invariant while the heap's last block is free |
| Requests.NotGranted | src/task/process.c:384-423 | a sound request that is not granted answers NULL and leaves what the process holds |
| GetArguments.AlwaysSparesIff | src/isr80h/process.c:92-101 | whatever argc and argv are, the write changes no byte of the kernel below the heap, of another process or of a kernel structure, exactly if none of the eight bytes at the translated address is one |
| GetArguments.AlwaysSparesPageIff | src/isr80h/process.c:92-101 | for a target inside one page that is so exactly if the frame lies in the heap or above and is held by nobody, or by the process as image, stack or allocation |
| GetArguments.GetKeepsInv | src/isr80h/process.c:92-101 | then the kernel stays sound |
| GetArguments.WriteablePageHarmless | src/task/process.c:511-517 | a target inside one page that is writable for the process is harmless for all argc and argv |
| GetArguments.WordsWritten | src/task/process.c:511-517 | argc is the word at the target and argv the word after it, and no other byte changes |
| GetArguments.ArgumentsReadIff | src/isr80h/process.c:92-101 | after a harmless write the process reads argc at the address it passed; four bytes on it reads argv exactly if that word follows the first in physical memory, or held argv before |
| GetArguments.ArgumentsRead | src/isr80h/process.c:92-101 | at an address in a writable page it reads both, for all argc and argv |
| GetArguments.HeapTableOverwritten | src/isr80h/process.c:92-101 | address 0x7E00 and no arguments: the invariant is lost when the heap's first block is held |
| GetArguments.ChunkOverwritten | src/isr80h/process.c:92-101 | the process's own chunk as address: the invariant is lost unless argc happens to be the page directory |
| Frees.FreeAllocation | src/task/process.c:478-509 | process_free removes exactly that slot, makes exactly those pages inaccessible and removes exactly that run |
| Frees.FreeKeepsInv | src/task/process.c:478-509 | process_free keeps the invariant for every pointer, unknown ones and NULL included |
| Frees.FreeUnknown | src/task/process.c:478-509 | a pointer in no slot changes nothing at all |
| Links.RelinkKeepsIff | src/task/task.c:86-92 | the store through a task pointer changes nothing held but a task's next exactly if the pointer is null or a task's block, or the word is held by nobody or has that value already |
| Links.SetNextKeepsIff | src/task/task.c:59-64 | the store through task_tail changes nothing held but a task's next exactly if the tail is a task's block or its next word is held by nobody, unless that word names the new task already |
| Links.RelinkKeepsInv | src/task/task.c:86-92 | such a store keeps the invariant |
| Terminate.RestExact | src/task/process.c:609-715 | all of process_terminate but task_list_remove removes exactly the process's runs but its structure, changes no byte of anybody else and keeps the invariant |
| Terminate.TerminateExact | src/task/process.c:609-715 | terminating removes exactly the process's runs but its structure; the invariant and every byte of anybody else but a task's next stay exactly if the store through the task's prev is safe |
| Load.MemoryMapped | src/task/process.c:129-225 | after mapping, only the image's and the stack's frames are writable exactly if every page the stack does not cover shows last no segment, a read-only one, or such a frame; success exactly when every segment can be mapped |
| Load.MemoryShown | src/task/process.c:129-225 | after a successful process_map_memory the program finds its 16 KB stack at 0x3FB000 and a flat binary at 0x400000, each byte at its place in the stack or image, present, for users and writable; every other page has the entry process_map_elf gave it, or its old one |
| Load.SegmentsInsideFit | src/task/process.c:144-193 | writable segments inside the image, no page in two segments: the image fits |
| Load.Prepared | src/task/process.c:232-313 | up to task_new a load gains exactly the new process's runs, and the new space maps every page to itself, for users, read-only, through tables linked for users and writing |
| Machine.AfterHeapInit | src/memory/heap/kheap.c:10-23 | after kheap_init the table decodes into no allocation, which is where every run starts |
| Machine.LoadKeepsInv | src/task/process.c:232-313 | a load that is linked behind a tail that serves, finished or abandoned at a segment, keeps the kernel sound exactly if the image fits |
| Machine.LoadPastImageBreaks | src/task/process.c:144-193 | a finished load whose last segment is writable and ends past the image loses the invariant |
| Machine.LoadSpares | src/task/process.c:232-313 | a finished load changes nothing that is held but tasks' next words |
| Machine.LoadShows | src/task/process.c:129-313 | the process of a finished load finds its stack, and its flat binary or segments, through its own page tables; every other page maps to itself read-only |
| Machine.SegmentFound | src/task/process.c:144-313 | with disjoint segments, a congruent segment outside the stack's pages is there byte for byte, writable exactly if PF_W is set |
| AbandonedLoad.AbandonedRestoresTable | src/task/process.c:232-313 | a load abandoned at a segment gives back exactly what task_new took: the heap table is entry for entry what it was before, and the structure, the file's data and the stack stay allocated without an owner |
| Machine.StoppedLoadIsOther | src/task/process.c:232-295 | what a load that stops before task_new leaves behind is one step of the environment |
| Machine.NextKeepsInv | src/task/process.c:232-715 | every step, within its guard, and every user store keeps the invariant |
| Machine.LiveCanAct | src/task/process.c:384-715 | freeing, storing and terminating are defined for every live process of a sound kernel |
| Machine.AlwaysSound | src/task/process.c:232-715 | the invariant holds in every state of every run from boot |
| Machine.AlwaysIsolated | src/task/process.c:232-715 | write isolation in every state of every run |
| Switches.SwitchToKeepsInv | src/task/task.c:169-178 | switching to a live process's task keeps the invariant |
| Switches.SwitchNextKeepsInvIff | src/task/task.c:127-138 | task_next keeps the invariant exactly if the current block's next word is null or a heap page |
| Switches.CurrentLiveLinked | src/task/task.c:74-83 | it is, if the current task is a live process's |
| Switches.NoteKeepsInv | src/keyboard/keyboard.c:59-117 | any change of a live process's structure and of its task's saved registers keeps the invariant |
| RingRuns.ExitScheduledIff | src/task/task.c:86-123 | in a ring that lists exactly the live processes' tasks, an exit leaves the rest of the list as such a ring exactly if the task's prev serves |
| RingRuns.LoadScheduled | src/task/process.c:276-313 | a finished load adds its task at the end of the list, an abandoned one leaves the list |
| RingRuns.AlwaysScheduled | src/task/task.c:34-138 | in every state of every run whose exits go through a prev that serves, the ring is sound and lists exactly the live processes' tasks |
| RingRuns.AlwaysTurns | src/task/task.c:74-138 | in all those states every live process's task becomes current within one round of switches |
| RingRuns.RingTailServes | src/task/task.c:59-64 | on such a ring every load's tail serves |
| RingRuns.RingExitSafe | src/task/task.c:86-92 | on such a ring an exit through a prev that serves, null for the list's head, is safe |
| StaleLinks.LivePrevIsSafe | src/task/task.c:86-92 | an exit is safe when prev is null or the task of another live process |
| StaleLinks.LiveTailServes | src/task/task.c:59-64 | a load's tail serves when it is the task of a live process |
| StaleLinks.StaleTailHits | src/task/task.c:59-64 | a tail that names a block of anybody's but a task: the load does not serve, and its store changes that block |
| StaleLinks.ReusedBlockOverwritten | src/task/process.c:690-715 | two neighbours at the list's end, the first exits, a program is loaded into its task's block, the second exits: the kernel overwrites four bytes of the new program's memory |
| StaleLinks.ReusedDirectoryBroken | src/task/process.c:690-715 | the same with the new program's page directory in that block: the invariant is lost |
| Streamer.DiskStream.Read | src/disk/streamer.c:35-70 | delivers the disk bytes [pos, pos + total) and advances pos by exactly total, ends on sector boundaries included; a disk the kernel has not found is refused, nothing changed |
| Fat16.WalkOn | src/fs/fat/fat16.c:388-431 | walking n + k steps is walking n steps and then k |
| Fat16.WalkEndsRightIff | src/fs/fat/fat16.c:395-425 | entries from 0xFFF0 on never end a walk; a step ends where the format ends it exactly if the entry is 0, or below 0xFFF0 and none of the five 12-bit markers |
| Fat16.EntryIsLittleEndian | src/fs/fat/fat16.c:374-381 | an entry is the little-endian value of the two disk bytes at its position |
| Fat16.EntryPosition | src/fs/fat/fat16.c:367-368 | the position is 1024 times reserved sectors times cluster, as a signed 32-bit number; below 2 GB it is where the format puts the entry exactly for cluster 0 without reserved sectors |
| Fat16.BootVolumeEntriesMisplaced | src/fs/fat/fat16.c:367-368 | with 200 reserved sectors no FAT entry is read from the position the format gives it |
| Fat16.FileByteAt | src/fs/fat/fat16.c:347-431 | byte k of the concatenated clusters is the disk byte at cluster k / size of the chain, offset k % size |
| Fat16.ClustersFollow | src/fs/fat/fat16.c:347-350 | cluster 2 starts at the root directory's end, and each cluster where the one before it ends |
| Fat16.FileByteSector | src/fs/fat/fat16.c:347-431 | byte j of sector s of the q-th cluster of a file is byte j of disk sector (root directory's end) + (cluster - 2) * sectors_per_cluster + s |
| Fat16.FirstFileBytes | src/fs/fat/fat16.c:347-350 | the first cluster of a file that starts in cluster 2 is the disk from the root directory's end on |
| Fat16.ReadExact | src/fs/fat/fat16.c:432-470 | a read succeeds exactly if the walk reaches its last chunk, and every byte delivered, also by a failing read, comes from a stated position |
| Fat16.SourceRightIff | src/fs/fat/fat16.c:438-448 | a byte is taken from the file's own position exactly if it lies in the cluster where its chunk starts or the chain is contiguous there |
| Fat16.ReadIsSlice | src/fs/fat/fat16.c:432-470 | reads inside the file that straddle only where the chain is contiguous deliver bytes [offset, offset + total) of the concatenated clusters |
| Fat16.AlignedNeverStraddles | src/fs/fat/fat16.c:438-448 | reads from a cluster's start or inside one cluster never straddle |
| Fat16.SucceedsPastTheEndIff | src/fs/fat/fat16.c:432-470 | success is reported past the end of the file exactly if the last byte straddles where the chain breaks |
| Fat16.SampleChain | src/fs/fat/fat16.c:357-431 | on that volume cluster 2 is followed by cluster 0x0D0C |
| Fat16.MidClusterReadWrong | src/fs/fat/fat16.c:448 | a concrete volume, with three reserved sectors, two sectors a cluster and the entry 0x0D0C, and a read that delivers a byte of the wrong cluster |
| Fat16.ItemsAreSlice | src/fs/fat/fat16.c:675-696 | fat16_read of items that fit the clusters delivers one slice of the file |
| Fat16.ItemsExact | src/fs/fat/fat16.c:675-696 | the items stand one after the other, up to the first that cannot be read, of which what could be read stands there too; success exactly if there is no such item |
| FatOps.FatPrivate.GetFatEntry | src/fs/fat/fat16.c:357-384 | the entry, which EntryIsLittleEndian and EntryPosition fix |
| FatOps.FatPrivate.GetClusterForOffset | src/fs/fat/fat16.c:388-431 | the cluster reached by the walk, or -EIO at a marker |
| FatOps.FatPrivate.ReadInternal | src/fs/fat/fat16.c:432-470 | result and buffer of the recursive read, which ReadExact, SourceRightIff and FileByteSector are about |
| FatOps.FatPrivate.Read | src/fs/fat/fat16.c:675-696 | result and buffer of fat16_read's loop |
| CStrings.StrncpyWithin | src/string/string.c:119-132 | the same inside one buffer, the two strings apart |
| CStrings.Strncpy | programs/stdlib/src/string.c:119-132 | the destination holds the string cut to count - 1 characters, none for counts below 1, and a terminator; nothing else changes |
| Strtok.SplitUnique | programs/stdlib/src/string.c:138-193 | the maximal delimiter-free runs are the only way to split a text, and they are the computed spans |
| Strtok.WordsOf | programs/stdlib/src/string.c:138-193 | the words of a text are its first word and the words after it |
| Strtok.PastDelimiters | programs/stdlib/src/string.c:151-167 | the loop stops at the first character that is no delimiter |
| Strtok.CutToken | programs/stdlib/src/string.c:176-190 | the token ends at its first delimiter, which alone is overwritten, or at the text's end |
| Strtok.StringLibrary.Strtok | programs/stdlib/src/string.c:138-193 | token, cursor and buffer after one call; a string passed while the cursor is set is ignored |
| Strtok.StringLibrary.Tokens | programs/blank/blank.c:35-42 | one call with the string and then calls with NULL yield exactly its words, in place, overwrite delimiters only and leave the cursor null |
| CommandLine.Shell.ParseCommand | programs/stdlib/src/slobos.c:12-64 | a linked list of the words, cut to 511 characters, as far as the allocations succeed; the cursor is left null exactly if all do |
| CommandLine.Shell.SystemRun | programs/stdlib/src/slobos.c:124-136 | the same for the line cut to 1023 characters |
| Arguments.InjectDelivers | src/task/process.c:538-592 | the kernel stays sound whatever the answer, and no other process's memory and no kernel structure changes; on success argv[i] points at argument i cut to 511 characters, each in an allocation of its own; -EIO exactly for no arguments |
| Arguments.ArrayAnswered | src/task/process.c:551-556 | for up to 1024 arguments the array's request is answered truthfully |
| Arguments.OwnBytesVisible | src/task/process.c:405-411 | a process reaches every byte of its allocations at that byte's own address, and can write it |
| ArgumentOps.CountArguments | src/task/process.c:520-534 | the length of the list in the caller's memory |
| ArgumentOps.ListPhysical | src/isr80h/process.c:58 | for a list in a process's allocations the kernel's addresses are the process's pointers |
| ArgumentOps.ListStays | src/task/process.c:538-592 | what process_inject_arguments does for another process leaves the list as it was |
| ArgumentOps.InjectArguments | src/task/process.c:538-592 | memory, slots, result, argc and argv of process_inject_arguments, walking the list in the caller's memory |
| CommandToArgv.CommandReachesProgram | src/task/process.c:538-592 | whenever the words of a line are injected, on success argc is their number and argv[i] is word i cut to 511 characters |
| CommandToArgv.LoadedCanTake | src/isr80h/process.c:56-88 | a finished load of an image that fits leaves a process that the words of any line can be injected into |
| CommandToArgv.LoadKeepsList | src/isr80h/process.c:56-88 | the list in the caller's memory is still there after the load |
| CommandToArgv.LaidOutIsList | programs/stdlib/src/slobos.c:12-64 | the shell's list, laid out byte for byte in its allocations, is a list for the kernel with the same strings |
| CommandToArgv.RunCommand | src/isr80h/process.c:56-88 | slobos_system_run and process_inject_arguments in sequence, the latter out of the shell's memory: no words exactly for result -1; on success the program's memory holds the line's words as argv |
| ProgramArguments.EntrySeen | src/task/process.c:538-592 | each pointer of argv and each string is what the process sees at its address |
| ProgramArguments.ProgramReads | src/isr80h/process.c:92-101 | a process given arguments that asks for them at a writable address outside them reads argc, argv, and through argv each argument cut to 511 characters |
| ProgramArguments.CommandSeen | src/task/process.c:511-592 | whenever the words of a line are injected, that is what the program reads, wherever it asks |
| ProgramArguments.TakeArguments | src/isr80h/process.c:92-101 | the system call on the objects that RunCommand leaves: the same |
| StartedProgram.InjectKeepsLow | src/task/process.c:538-592 | giving a process its arguments keeps every page entry below the heap's addresses, its stack's and program's among them |
| StartedProgram.StartedProgramReads | src/isr80h/process.c:56-101 | load, argument passing and the system call in sequence: at any address of its stack, page ends excepted, the started program reads the number of the line's words and, through argv, the words |
| CopyString.CopyRestores | src/task/task.c:256-304 | for every string and address the call fails and changes nothing, or restores heap table and page tables and leaves all memory but its destination and one free block as it was |
| CopyDelivery.CopyArrives | src/task/task.c:256-304 | what arrives, for every address: the bytes found with the block cleared, its page mapped, its table entry 0x41 and the characters so far copied into it |
| CopyDelivery.CopyDelivers | src/task/task.c:256-304 | the destination holds the string the process saw, cut to max - 1 characters, exactly if each byte found that way is the byte the process saw |
| CopyDelivery.FreeBlockArrivesEmpty | src/task/task.c:256-304 | the first free block, not empty and mapped to itself: the call answers 0 and delivers an empty string |
| CopyDelivery.UndisturbedDelivered | src/task/task.c:256-304 | a string read apart from the block, its page and its two entries is delivered |
| CopyDelivery.OwnByteUndisturbed | src/task/task.c:256-304 | bytes of memory a process owns are read apart from them |
| CopyString.CopyKeepsInv | src/task/task.c:256-304 | the call keeps the kernel sound |
| CopyOps.TaskMemory.CopyStringFromTask | src/task/task.c:256-304 | memory and result, and the kernel's directory loaded again afterwards |
| PathParser.PartsAreComponents | src/fs/pparser.c:44-68 | the parser delivers the slash-separated components before the first empty one |
| PathParser.PrintThenParse | src/fs/pparser.c:109-147 | parsing the printed form of a drive and its parts gives them back |
| PathParser.ParseThenPrintIff | src/fs/pparser.c:109-147 | printing what was parsed gives the path back exactly if it names the root or has no empty component |
| PathParser.ValidIff | src/fs/pparser.c:11-32 | a path is valid exactly if it has at most 108 characters and starts with a drive's prefix, whose digit is the drive |
| PathParser.PartsFit | src/fs/pparser.c:44-68 | every part and its terminator fit the 108 bytes allocated for it |
| PathHeap.ParseBuilds | src/fs/pparser.c:109-147 | given two blocks a part and two more, the heap holds the root and a list of exactly those parts, in blocks of their own |
| PathHeap.ParseThenFree | src/fs/pparser.c:93-147 | parsing and then freeing restores the heap table entry for entry |
| PathOps.Parser.GetPathPart | src/fs/pparser.c:44-68 | memory, text and cursor after one part |
| PathOps.Parser.ParsePathPart | src/fs/pparser.c:71-89 | memory, node and cursor after one part |
| PathOps.Parser.Parse | src/fs/pparser.c:11-147 | memory and root, failing allocations and refused paths included |
| PathOps.Parser.Free | src/fs/pparser.c:93-105 | gives back text and node of each part in order, then the root |
| Tasks.EnlistAppends | src/task/task.c:51-64 | the new task joins the end of the ring, which stays sound, whatever stale pointers name its block |
| Tasks.NextIsSuccessor | src/task/task.c:74-83 | the next task is the successor in the ring, the first after the last |
| Tasks.RoundVisitsAll | src/task/task.c:74-138 | on a sound ring of n tasks, n switches by task_next make each task current exactly once and restore the globals |
| Tasks.RemoveSoundIff | src/task/task.c:86-110 | the ring without the task is sound, and the current position handed on, exactly if prev is the predecessor or, for the first task, no task still in the ring |
| Tasks.AllServeAfterIff | src/task/task.c:86-110 | where all prevs serve, a removal leaves one that does not exactly if the task was neither first nor last |
| Tasks.RemovedTaskStaysScheduled | src/task/task.c:86-110 | three tasks of which a removed one is still in the ring |
| Tasks.ReusedBlockLoops | src/task/task.c:86-110 | a prev whose block has become a later task's makes that task its own successor |
| Tasks.Scheduler.Add | src/task/task.c:51-64 | memory and globals after the list part of task_new |
| Tasks.Scheduler.GetNext | src/task/task.c:74-83 | the task task_get_next answers |
| Tasks.Scheduler.Next | src/task/task.c:127-138 | the next task becomes the current one, nothing else changes |
| Tasks.Scheduler.ListRemove | src/task/task.c:86-110 | memory and globals after task_list_remove |
| Keyboard.PushAppends | src/keyboard/keyboard.c:72-90 | a push with room appends to the queue of unread keys |
| Keyboard.PopTakesOldest | src/keyboard/keyboard.c:94-117 | a pop takes the oldest key, and answers 0 exactly if there is none |
| Keyboard.BackspaceTakesNewest | src/keyboard/keyboard.c:59-64 | a backspace takes back the newest unread key |
| Keyboard.RunsLikeQueue | src/keyboard/keyboard.c:52-117 | over every run of keys, backspaces and reads that neither overfills the buffer nor takes back what is not there, counters wrapping included, reads answer what an unbounded queue would |
| Keyboard.OverrunReadsNewestFirst | src/keyboard/keyboard.c:72-90 | after an overrun the newest key is read first, and a queue would agree exactly if it equals the oldest |
| Keyboard.BackspaceOnEmptyLosesKey | src/keyboard/keyboard.c:59-64 | a backspace with nothing unread makes the next key unreadable |
| Keyboard.KeyboardBuffer.KeyboardPush | src/keyboard/keyboard.c:72-90 | buffer and tail after a push |
| Keyboard.KeyboardBuffer.KeyboardPop | src/keyboard/keyboard.c:94-117 | buffer, head and answer of a pop |
| Keyboard.KeyboardBuffer.KeyboardBackspace | src/keyboard/keyboard.c:59-64 | buffer and tail after a backspace |
| Itoa.NumeralReadsBack | programs/stdlib/src/stdlib.c:5-35 | the numeral is canonical and reads back as the number |
| Itoa.NumeralUnique | programs/stdlib/src/stdlib.c:5-35 | a canonical string is the numeral of the number it reads as |
| Itoa.NumeralFits | programs/stdlib/src/stdlib.c:7-10 | every 32-bit numeral and its terminator fit the 12-byte buffer |
| Itoa.WriteDigits | programs/stdlib/src/stdlib.c:21-26 | the loop writes exactly the digits of the number, backwards, without leaving the buffer |
| Itoa.Itoa | programs/stdlib/src/stdlib.c:5-35 | the numeral of every 32-bit int, -2^31 included, stands at the answered position, with no intermediate overflow |

## Left out

- Heap.Heap.MarkBlocksFree: block indexes so negative that the entry's address falls below 0 are excluded.
- Heap.Heap.Free: addresses so far above the heap that their signed distance gives such an index are excluded; kfree's callers pass NULL or addresses below the heap's end.
- KernelOps.Kernel.Free4gb: requires a sound space; task_free after a failed paging_new_4gb passes a null chunk.
- Machine.LoadKeepsInv: a load is a step on values whose kernel structure, elf_file, image, stack and task allocations are granted and for which paging_new_4gb finds 1026 free blocks; with fewer it writes through null page tables, and a task_new that fails hands back an error number that is used as a task.
- Load.Prepared: the same loads.
- Machine.NextKeepsInv: allocations, exits, loads, argument reads and switches outside their conditions are not steps of a run. task_next reads and keyboard and register writes through a current task or process that has exited are not steps either. The kernel's code and stack are in memory, but nothing is claimed about them. The file layer may do anything to memory nobody holds.
- RingRuns.AlwaysScheduled: task_next without any task, which panics, is not a step.
- Steps.UserStoreConfined: the user/supervisor bit is not looked at, so more stores go through than on the hardware.
- GetArguments.ArgumentsReadIff: targets whose eight bytes go round at 4 GB are excluded.
- StartedProgram.StartedProgramReads: addresses less than eight bytes before a page's end are excluded; ArgumentsReadIff covers those whose two words do not cross it.
- GetArguments.AlwaysSparesIff: argc and argv are any two words, as the process structure's fields are not read back from memory; a write across the end of memory goes round.
- ArgumentOps.InjectArguments: the list is one that slobos_parse_command builds, terminated and inside allocations of a process that is not the one it is given to; the kernel does not check that.
- CommandToArgv.RunCommand: the shell's library works on objects; that its blocks hold the list in the caller's memory is a condition, and the user-side allocations succeed.
- CStrings.Strncpy: source and destination do not overlap.
- CommandLine.Shell.ParseCommand: the cursor is null at the call; after a parse whose allocation failed it points into a dead stack frame.
- CommandLine.Shell.SystemRun: the same cursor.
- CopyDelivery.CopyDelivers: reads of pages that are not present, which fault, are not modelled.
- CopyString.CopyRestores: a buffer size below 1 is excluded, and the kernel's destination lies between heap table and heap, where its stack is.
- The registers a new task starts with (entry point, stack pointer, segment selectors): not read by anything modelled.
- FatOps.FatPrivate.GetFatEntry: clusters whose position is negative as a signed int are excluded; the code then reads before its sector buffer.
- FatOps.FatPrivate.GetClusterForOffset: walks over such clusters are excluded.
- FatOps.FatPrivate.ReadInternal: requires that positions and offsets fit a signed int; beyond that the C code is undefined.
- FatOps.FatPrivate.Read: the same for every item.
- PathHeap.ParseBuilds: requires enough free blocks; with fewer the parser writes through null pointers, which `PathOps.Parser.Parse` models but this lemma does not cover.
- Keyboard.RunsLikeQueue: the current process is fixed and signed counters wrap.
- slobos_terminal_readline: a simple editing loop without a second component to agree with.
- FAT directory lookup, subdirectories, 8.3 names, fat16_seek and fat16_stat: not on the read path.
- ELF headers, the boot sector and directory entries as bytes: their fields are parameters.
- ATA ports, boot sector code, PIC, VGA, PS/2 scancodes, GDT, IDT, interrupt entry, register save and restore: hardware and assembly.
- System call dispatch: the table from numbers to handlers, and the words handlers read from the user's stack, are parameters of the steps; the path buffers on the kernel's stack that handlers fill are not modelled.
- The virtual file system's function pointers and file descriptors: forwarding to the functions modelled.
