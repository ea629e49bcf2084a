/** Loading a program into a process slot (process_load_for_slot). The file layer
    is an environment: it may do anything to memory nobody holds. */
module Load {
  import opened Memory
  import opened HeapTable
  import opened Heap
  import opened KernelHeap
  import opened Owners
  import opened Paging
  import opened AddressSpace
  import opened Elf
  import opened Process
  import opened Tasks
  import opened Isolation
  import opened Steps
  import opened Frees
  import opened Terminate

  /** Kernel work that neither frees nor writes what is held: opening, reading and
      closing files, and whatever the file layer leaks. */
  ghost predicate Environment(m: Mem, m': Mem, held: map<Owner, Run>) {
    && Held(m', held) && (LowGuard(m) ==> LowGuard(m'))
    && forall o :: o in held ==> SameRun(m, m', held[o])
  }

  ghost predicate Granted(m: Mem, size: uint32, m': Mem, p: uint32) {
    Fits(Table(m), BlocksFor(size)) && Kzalloc(m, size) == (m', p)
  }

  /** The pointers a load obtains and memory after each of its stages. */
  datatype Trace = Trace(
    struct: uint32, m1: Mem, file: uint32, m2: Mem, afterOpen: Mem, image: uint32, m4: Mem, afterRead: Mem,
    stack: uint32, m6: Mem, task: uint32, m7: Mem, chunk: uint32, m8: Mem)

  function HeldForData(held: map<Owner, Run>, pid: nat, elf: bool, t: Trace): map<Owner, Run> {
    var held1 := held[Owner(pid, ProcessStruct) := Run(t.struct, BlocksFor(PROCESS_SIZE))];
    if elf then held1[Owner(pid, ElfFile) := Run(t.file, BlocksFor(ELF_FILE_SIZE))] else held1
  }

  function HeldForImage(held: map<Owner, Run>, pid: nat, elf: bool, imageSize: uint32, t: Trace): map<Owner, Run> {
    HeldForData(held, pid, elf, t)[Owner(pid, Image) := Run(t.image, BlocksFor(imageSize))]
  }

  function HeldForTask(held: map<Owner, Run>, pid: nat, elf: bool, imageSize: uint32, t: Trace): map<Owner, Run> {
    HeldForImage(held, pid, elf, imageSize, t)
      [Owner(pid, Stack) := Run(t.stack, BlocksFor(STACK_SIZE))][Owner(pid, Task) := Run(t.task, BlocksFor(TASK_SIZE))]
  }

  /** The stages up to and including task_new. For a program that is not ELF the
      failed ELF attempt and its leaks belong to `afterOpen`. */
  ghost predicate Prepares(k: KState, pid: nat, elf: bool, imageSize: uint32, t: Trace) {
    && Granted(k.m, PROCESS_SIZE, t.m1, t.struct)
    && (if elf then Granted(t.m1, ELF_FILE_SIZE, t.m2, t.file) else t.m2 == t.m1)
    && Environment(t.m2, t.afterOpen, HeldForData(k.held, pid, elf, t))
    && Granted(t.afterOpen, imageSize, t.m4, t.image)
    && Environment(t.m4, t.afterRead, HeldForImage(k.held, pid, elf, imageSize, t))
    && Granted(t.afterRead, STACK_SIZE, t.m6, t.stack)
    && Granted(t.m6, TASK_SIZE, t.m7, t.task)
    && |FreeBlocks(Table(t.m7))| >= SPACE_BLOCKS
    && New4gb(t.m7, SPACE_FLAGS) == (t.m8, t.chunk)
  }

  // ---- Preparing ----

  ghost predicate Kept(m: Mem, m': Mem, held: map<Owner, Run>) {
    forall o :: o in held ==> SameRun(m, m', held[o])
  }

  /** Memory moved on while everything in `held` stayed held and untouched. */
  ghost predicate Advanced(m: Mem, m': Mem, held: map<Owner, Run>, held': map<Owner, Run>) {
    Held(m', held') && LowGuard(m') && Extends(held, held') && Kept(m, m', held)
  }

  lemma AdvancedTrans(m: Mem, m1: Mem, m2: Mem, held: map<Owner, Run>, held1: map<Owner, Run>, held2: map<Owner, Run>)
    requires Advanced(m, m1, held, held1) && Advanced(m1, m2, held1, held2)
    ensures Advanced(m, m2, held, held2)
  {
    hide Held, LowGuard;
    forall o | o in held ensures SameRun(m, m2, held[o]) {
      assert SameRun(m, m1, held[o]) && SameRun(m1, m2, held1[o]);
    }
  }

  lemma GrantAdvances(m: Mem, held: map<Owner, Run>, o: Owner, size: uint32, m': Mem, p: uint32)
    requires Held(m, held) && LowGuard(m) && o !in held && Granted(m, size, m', p)
    ensures Advanced(m, m', held, held[o := Run(p, BlocksFor(size))])
    ensures HEAP_ADDRESS <= p && p % PAGE_SIZE == 0
  {
    hide Held, LowGuard, Kzalloc, Fits, BlocksFor, IsRun, WellFormed, Table;
    InHeld(m, held);
    KzallocHeld(m, held, o, size);
    KzallocFits(m, size);
    BelowTableSame(m, m', p, size);
  }

  lemma InHeld(m: Mem, held: map<Owner, Run>)
    requires Held(m, held)
    ensures WellFormed(Table(m))
  {
  }

  lemma EnvironmentAdvances(m: Mem, m': Mem, held: map<Owner, Run>)
    requires LowGuard(m) && Environment(m, m', held)
    ensures Advanced(m, m', held, held)
  {
  }

  lemma SelfAdvances(m: Mem, held: map<Owner, Run>)
    requires Held(m, held) && LowGuard(m)
    ensures Advanced(m, m, held, held)
  {
    hide WellFormed, IsRun;
    forall o | o in held ensures SameRun(m, m, held[o]) {
      HeldBounds(m, held, o);
    }
  }

  lemma NobodyYet(k: KState, pid: nat)
    requires Inv(k) && pid < MAX_PROCESSES && k.procs[pid].None?
    ensures forall o :: o in k.held ==> o.pid != pid
    ensures Held(k.m, k.held) && LowGuard(k.m)
  {
  }

  lemma ThenGranted(m0: Mem, held0: map<Owner, Run>, m: Mem, held: map<Owner, Run>, o: Owner, size: uint32, m': Mem,
                    p: uint32)
    requires Advanced(m0, m, held0, held) && o !in held && Granted(m, size, m', p)
    ensures Advanced(m0, m', held0, held[o := Run(p, BlocksFor(size))])
  {
    AdvancedHeld(m0, m, held0, held);
    hide *;
    GrantAdvances(m, held, o, size, m', p);
    AdvancedTrans(m0, m, m', held0, held, held[o := Run(p, BlocksFor(size))]);
  }

  lemma ThenEnvironment(m0: Mem, held0: map<Owner, Run>, m: Mem, held: map<Owner, Run>, m': Mem)
    requires Advanced(m0, m, held0, held) && Environment(m, m', held)
    ensures Advanced(m0, m', held0, held)
  {
    AdvancedHeld(m0, m, held0, held);
    hide *;
    EnvironmentAdvances(m, m', held);
    AdvancedTrans(m0, m, m', held0, held, held);
  }

  /** After the file has been read. */
  lemma DataRead(k: KState, pid: nat, elf: bool, imageSize: uint32, t: Trace)
    requires Held(k.m, k.held) && LowGuard(k.m) && forall o :: o in k.held ==> o.pid != pid
    requires Prepares(k, pid, elf, imageSize, t)
    ensures Advanced(k.m, t.afterRead, k.held, HeldForImage(k.held, pid, elf, imageSize, t))
  {
    hide Held, LowGuard, Granted, BlocksFor, Environment, FreeBlocks, New4gb, Advanced;
    SelfAdvances(k.m, k.held);
    var held1 := k.held[Owner(pid, ProcessStruct) := Run(t.struct, BlocksFor(PROCESS_SIZE))];
    var held2 := HeldForData(k.held, pid, elf, t);
    var held4 := HeldForImage(k.held, pid, elf, imageSize, t);
    ThenGranted(k.m, k.held, k.m, k.held, Owner(pid, ProcessStruct), PROCESS_SIZE, t.m1, t.struct);
    if elf {
      ThenGranted(k.m, k.held, t.m1, held1, Owner(pid, ElfFile), ELF_FILE_SIZE, t.m2, t.file);
    }
    ThenEnvironment(k.m, k.held, t.m2, held2, t.afterOpen);
    ThenGranted(k.m, k.held, t.afterOpen, held2, Owner(pid, Image), imageSize, t.m4, t.image);
    ThenEnvironment(k.m, k.held, t.m4, held4, t.afterRead);
  }

  lemma AdvancedHeld(m: Mem, m': Mem, held: map<Owner, Run>, held': map<Owner, Run>)
    requires Advanced(m, m', held, held')
    ensures Held(m', held') && LowGuard(m')
  {
  }

  /** After the stack and the task structure have been allocated. */
  lemma TaskGranted(k: KState, pid: nat, elf: bool, imageSize: uint32, t: Trace)
    requires Held(k.m, k.held) && LowGuard(k.m) && forall o :: o in k.held ==> o.pid != pid
    requires Prepares(k, pid, elf, imageSize, t)
    ensures Advanced(k.m, t.m7, k.held, HeldForTask(k.held, pid, elf, imageSize, t))
  {
    hide Held, LowGuard, Granted, BlocksFor, Environment, FreeBlocks, New4gb, Advanced, Table;
    DataRead(k, pid, elf, imageSize, t);
    var held4 := HeldForImage(k.held, pid, elf, imageSize, t);
    var held6 := held4[Owner(pid, Stack) := Run(t.stack, BlocksFor(STACK_SIZE))];
    ThenGranted(k.m, k.held, t.afterRead, held4, Owner(pid, Stack), STACK_SIZE, t.m6, t.stack);
    ThenGranted(k.m, k.held, t.m6, held6, Owner(pid, Task), TASK_SIZE, t.m7, t.task);
  }

  lemma SpaceStage(k: KState, pid: nat, elf: bool, imageSize: uint32, t: Trace)
    requires Prepares(k, pid, elf, imageSize, t)
    ensures |FreeBlocks(Table(t.m7))| >= SPACE_BLOCKS && New4gb(t.m7, SPACE_FLAGS) == (t.m8, t.chunk)
  {
  }

  /** Every page maps to itself, readable only, through tables linked for users and
      for writing. */
  ghost predicate FreshSpace(m: Mem, dir: nat)
    requires dir + PAGE_SIZE <= RAM_SIZE
  {
    && (forall v :: 0 <= v < TOTAL_PAGES ==> PageEntry(m, dir, v) == v * PAGE_SIZE + SPACE_FLAGS)
    && (forall i :: 0 <= i < TABLE_ENTRIES ==> LinkedAs(DirectoryEntry(m, dir, i), SPACE_FLAGS))
  }

  lemma FreshSpaceIs(m: Mem, dir: nat)
    requires dir + PAGE_SIZE <= RAM_SIZE
    requires forall v :: 0 <= v < TOTAL_PAGES ==> PageEntry(m, dir, v) == v * PAGE_SIZE + SPACE_FLAGS
    requires forall i :: 0 <= i < TABLE_ENTRIES ==> LinkedAs(DirectoryEntry(m, dir, i), SPACE_FLAGS)
    ensures FreshSpace(m, dir)
  {
  }

  /** After task_new: everything the process needs is held, and its space is fresh. */
  lemma Prepared(k: KState, pid: nat, elf: bool, imageSize: uint32, t: Trace) returns (held': map<Owner, Run>)
    requires Held(k.m, k.held) && LowGuard(k.m) && forall o :: o in k.held ==> o.pid != pid
    requires Prepares(k, pid, elf, imageSize, t)
    ensures Advanced(k.m, t.m8, k.held, held')
    ensures HoldsSpace(t.m8, held', pid, t.chunk)
    ensures Extends(HeldForTask(k.held, pid, elf, imageSize, t), held')
    ensures held'.Keys == HeldForTask(k.held, pid, elf, imageSize, t).Keys + SpaceOwners(pid)
    ensures DirectoryOf(t.m8, t.chunk) + PAGE_SIZE <= RAM_SIZE
    ensures HeapPage(t.task) && NextOf(t.m8, t.task) == 0 && PrevOf(t.m8, t.task) == 0
    ensures FreshSpace(t.m8, DirectoryOf(t.m8, t.chunk))
  {
    var held7 := HeldForTask(k.held, pid, elf, imageSize, t);
    TaskGranted(k, pid, elf, imageSize, t);
    AdvancedHeld(k.m, t.m7, k.held, held7);
    InHeld(t.m7, held7);
    SpaceStage(k, pid, elf, imageSize, t);
    NoSpaceYet(k.held, pid, elf, imageSize, t);
    hide *;
    held' := SpaceBuilt(t.m7, held7, pid, SPACE_FLAGS);
    SpaceAdvances(t.m7, held7, held', SPACE_FLAGS);
    RunsGrewExtends(t.m7, t.m8, held7, held');
    AdvancedTrans(k.m, t.m7, t.m8, k.held, held7, held');
    HoldsSpaceBounds(t.m8, held', pid, t.chunk);
    FreshSpaceIs(t.m8, DirectoryOf(t.m8, t.chunk));
    FreshTask(k, pid, elf, imageSize, t, held7);
  }

  /** The new task's block is still clear when it is linked. */
  lemma FreshTask(k: KState, pid: nat, elf: bool, imageSize: uint32, t: Trace, held7: map<Owner, Run>)
    requires Prepares(k, pid, elf, imageSize, t) && held7 == HeldForTask(k.held, pid, elf, imageSize, t)
    requires Held(t.m7, held7) && forall o :: o in held7 ==> SameRun(t.m7, t.m8, held7[o])
    ensures HeapPage(t.task) && NextOf(t.m8, t.task) == 0 && PrevOf(t.m8, t.task) == 0
  {
    hide Load32, Held, Prepares, HeldForTask, Environment, Granted;
    TaskStage(k, pid, elf, imageSize, t);
    TaskRun(k.held, pid, elf, imageSize, t);
    HeldBounds(t.m7, held7, Owner(pid, Task));
    ClearedTask(t.m6, t.m7, t.task);
    LoadSame(t.m7, t.m8, t.task + NEXT_WORD);
    LoadSame(t.m7, t.m8, t.task + PREV_WORD);
  }

  lemma TaskStage(k: KState, pid: nat, elf: bool, imageSize: uint32, t: Trace)
    requires Prepares(k, pid, elf, imageSize, t)
    ensures Granted(t.m6, TASK_SIZE, t.m7, t.task)
  {
    hide Granted, Environment, New4gb, FreeBlocks;
  }

  lemma TaskRun(held: map<Owner, Run>, pid: nat, elf: bool, imageSize: uint32, t: Trace)
    ensures var held7 := HeldForTask(held, pid, elf, imageSize, t);
            Owner(pid, Task) in held7 && held7[Owner(pid, Task)] == Run(t.task, 1)
  {
    assert BlocksFor(TASK_SIZE) == 1;
  }

  lemma ClearedTask(m: Mem, m': Mem, task: uint32)
    requires Granted(m, TASK_SIZE, m', task)
    ensures HeapPage(task) && NextOf(m', task) == 0 && PrevOf(m', task) == 0
  {
    assert BlocksFor(TASK_SIZE) == 1;
    hide Fits, BlocksFor, Kzalloc, Load32;
    KzallocMemory(m, TASK_SIZE);
    FittingStart(Table(m), 1);
    ZeroWord(m', task + NEXT_WORD);
    ZeroWord(m', task + PREV_WORD);
  }

  lemma ZeroWord(m: Mem, a: nat)
    requires a + 4 <= RAM_SIZE && forall k :: a <= k < a + 4 ==> m[k] == 0
    ensures Load32(m, a) == 0
  {
    FourBytes(m[a..a + 4]);
  }

  lemma NoSpaceYet(held: map<Owner, Run>, pid: nat, elf: bool, imageSize: uint32, t: Trace)
    requires forall o :: o in held ==> o.pid != pid
    ensures HeldForTask(held, pid, elf, imageSize, t).Keys !! SpaceOwners(pid)
  {
    hide BlocksFor;
    forall o | o in SpaceOwners(pid) ensures o !in HeldForTask(held, pid, elf, imageSize, t) {
      assert o.pid == pid && SpaceRole(o.role);
    }
  }

  /** Building a space leaves the bytes below the table alone. */
  lemma SpaceAdvances(m: Mem, held: map<Owner, Run>, held': map<Owner, Run>, flags: nat)
    requires flags < 256 && LowGuard(m) && WellFormed(Table(m)) && |FreeBlocks(Table(m))| >= SPACE_BLOCKS
    requires Held(New4gb(m, flags).0, held') && RunsGrew(m, New4gb(m, flags).0, held, held')
    requires forall o :: o in held ==> SameRun(m, New4gb(m, flags).0, held[o])
    requires SameBelowTable(m, New4gb(m, flags).0)
    ensures Advanced(m, New4gb(m, flags).0, held, held')
  {
    hide New4gb, Held, SameRun, IsRun, Table;
    var j :| NULL_ENTRY <= j < TABLE_ADDRESS && !HasNext(m[j]);
    assert !HasNext(New4gb(m, flags).0[j]);
  }

  // ---- Mapping ----

  /** The pages the stack is mapped to, after the image. */
  predicate StackPage(v: nat) {
    STACK_END / PAGE_SIZE <= v < STACK_TOP / PAGE_SIZE
  }

  /** Page v shows no segment last, a read-only one, or a frame of image or stack. */
  ghost predicate PageFits(image: Run, headers: seq<ProgramHeader>, stack: Run, v: nat)
    requires image.ptr < RAM_SIZE && AllMappable(image.ptr, headers)
  {
    var i := LastSegment(image.ptr, headers, v);
    i < 0 || !Writes(headers[i])
      || Inside(SegmentFrame(image.ptr, headers[i], v), image) || Inside(SegmentFrame(image.ptr, headers[i], v), stack)
  }

  /** Every page the stack does not cover fits: what a program must meet for its
      writeable segments to stay inside the memory loaded for it. */
  ghost predicate ImageFits(program: Program, image: Run, stack: Run)
    requires image.ptr < RAM_SIZE
  {
    program.ElfProgram? && AllMappable(image.ptr, program.headers) ==>
      forall v :: 0 <= v < TOTAL_PAGES && !StackPage(v) ==> PageFits(image, program.headers, stack, v)
  }

  /** Every writeable page of the space shows a frame of one of the two runs. */
  ghost predicate WritesInEither(m: Mem, dir: nat, r: Run, r': Run)
    requires dir + PAGE_SIZE <= RAM_SIZE
  {
    forall v :: 0 <= v < TOTAL_PAGES ==> EntryInEither(PageEntry(m, dir, v), r, r')
  }

  ghost predicate EntryInEither(entry: uint32, r: Run, r': Run) {
    IsWriteable(entry) ==> Inside(FrameOf(entry), r) || Inside(FrameOf(entry), r')
  }

  /** The same for the pages that the stack does not cover. */
  ghost predicate RestInEither(m: Mem, dir: nat, r: Run, r': Run)
    requires dir + PAGE_SIZE <= RAM_SIZE
  {
    forall v :: 0 <= v < TOTAL_PAGES && !StackPage(v) ==> EntryInEither(PageEntry(m, dir, v), r, r')
  }

  lemma ElfRestIff(m: Mem, chunk: nat, headers: seq<ProgramHeader>, image: Run, stack: Run)
    requires SpaceOk(m, chunk) && image.ptr < RAM_SIZE && AllMappable(image.ptr, headers)
    requires forall v :: 0 <= v < TOTAL_PAGES ==> !IsWriteable(PageEntry(m, DirectoryOf(m, chunk), v))
    ensures DirectoryOf(m, chunk) + PAGE_SIZE <= RAM_SIZE
    ensures RestInEither(MapElf(m, chunk, image.ptr, headers).0, DirectoryOf(m, chunk), image, stack) <==>
            forall v :: 0 <= v < TOTAL_PAGES && !StackPage(v) ==> PageFits(image, headers, stack, v)
  {
    DirectoryFits(m, chunk);
    hide Load32, PageEntry, MapElf, SpaceOk, OnlyTables, Mappable, LastSegment, ElfEntry, SegmentFrame, FrameOf,
      IsWriteable, Writes, StackPage, Inside, AllMappable;
    var m', dir := MapElf(m, chunk, image.ptr, headers).0, DirectoryOf(m, chunk);
    ElfAll(m, chunk, image.ptr, headers);
    forall v | 0 <= v < TOTAL_PAGES
      ensures EntryInEither(PageEntry(m', dir, v), image, stack) <==> PageFits(image, headers, stack, v)
    {
      LastDecides(image.ptr, headers, v, PageEntry(m, dir, v));
    }
  }

  /** Mapping one run writeably shows its frames and leaves the other pages' entries. */
  lemma MappedWrites(m: Mem, chunk: nat, virt: uint32, r: Run)
    requires SpaceOk(m, chunk) && virt % PAGE_SIZE == 0
    requires HEAP_ADDRESS <= r.ptr && r.ptr % PAGE_SIZE == 0 && r.End() <= HEAP_END
    ensures var m' := MapTo(m, chunk, virt, r.ptr, r.End(), USER_FLAGS).0; var dir := DirectoryOf(m, chunk);
            && OnlyTables(m, m', chunk)
            && forall v :: 0 <= v < TOTAL_PAGES ==>
                 if PagesAfter(virt / PAGE_SIZE, v) < r.blocks then Inside(FrameOf(PageEntry(m', dir, v)), r)
                 else PageEntry(m', dir, v) == PageEntry(m, dir, v)
  {
    hide Load32, PageEntry, MapTo, SpaceOk, OnlyTables, IsWriteable, FrameOf, Mapped, PagesAfter, Inside, DirectoryOf;
    DirectoryFits(m, chunk);
    var m', dir := MapTo(m, chunk, virt, r.ptr, r.End(), USER_FLAGS).0, DirectoryOf(m, chunk);
    MapToMaps(m, chunk, virt, r.ptr, r.blocks, USER_FLAGS);
    MappedEntries(m, m', chunk, virt / PAGE_SIZE, r.ptr, r.blocks, USER_FLAGS);
    forall v | 0 <= v < TOTAL_PAGES
      ensures if PagesAfter(virt / PAGE_SIZE, v) < r.blocks then Inside(FrameOf(PageEntry(m', dir, v)), r)
              else PageEntry(m', dir, v) == PageEntry(m, dir, v)
    {
      MappedPage(r, PagesAfter(virt / PAGE_SIZE, v), PageEntry(m, dir, v), PageEntry(m', dir, v));
    }
  }

  lemma MappedPage(r: Run, d: nat, e: uint32, e': uint32)
    requires r.ptr % PAGE_SIZE == 0 && r.End() <= HEAP_END
    requires e' == if d < r.blocks then r.ptr + PAGE_SIZE * d + USER_FLAGS else e
    ensures if d < r.blocks then Inside(FrameOf(e'), r) else e' == e
  {
    hide Inside, FrameOf;
    RunPage(r, d);
  }

  lemma RunPage(r: Run, d: nat)
    requires r.ptr % PAGE_SIZE == 0 && r.End() <= HEAP_END
    ensures d < r.blocks ==> Inside(FrameOf(r.ptr + PAGE_SIZE * d + USER_FLAGS), r)
  {
    if d < r.blocks {
      assert PAGE_SIZE * d + PAGE_SIZE <= PAGE_SIZE * r.blocks;
      FrameOfSum(r.ptr + PAGE_SIZE * d, USER_FLAGS);
    }
  }

  lemma BinaryRest(m: Mem, chunk: nat, image: uint32, imageSize: uint32, stack: Run)
    requires SpaceOk(m, chunk) && HEAP_ADDRESS <= image && image % PAGE_SIZE == 0 && BlocksFor(imageSize) >= 1
    requires image + PAGE_SIZE * BlocksFor(imageSize) <= HEAP_END
    requires forall v :: 0 <= v < TOTAL_PAGES ==> !IsWriteable(PageEntry(m, DirectoryOf(m, chunk), v))
    ensures var m' := MapImage(m, chunk, BinaryProgram, image, imageSize).0; var dir := DirectoryOf(m, chunk);
            OnlyTables(m, m', chunk) && RestInEither(m', dir, Run(image, BlocksFor(imageSize)), stack)
  {
    hide Load32, PageEntry, MapTo, SpaceOk, OnlyTables, IsWriteable, FrameOf, BlocksFor, AlignUp, StackPage, Inside;
    RunEnd(image, imageSize);
    var r := Run(image, BlocksFor(imageSize));
    MappedWrites(m, chunk, PROGRAM_ADDRESS, r);
    assert SlotEnd(Slot(image, imageSize)) == AlignUp((image + imageSize) % RAM_SIZE);
  }

  /** The image is mapped. */
  lemma ImageMapped(m: Mem, chunk: nat, program: Program, image: uint32, imageSize: uint32, stack: Run)
    requires SpaceOk(m, chunk) && HEAP_ADDRESS <= image && image % PAGE_SIZE == 0 && BlocksFor(imageSize) >= 1
    requires image + PAGE_SIZE * BlocksFor(imageSize) <= HEAP_END
    requires forall v :: 0 <= v < TOTAL_PAGES ==> !IsWriteable(PageEntry(m, DirectoryOf(m, chunk), v))
    ensures var (m', res) := MapImage(m, chunk, program, image, imageSize); var r := Run(image, BlocksFor(imageSize));
            && OnlyTables(m, m', chunk)
            && (res == 0 <==> program.ElfProgram? ==> AllMappable(image, program.headers))
            && (res == 0 ==> (RestInEither(m', DirectoryOf(m, chunk), r, stack) <==> ImageFits(program, r, stack)))
  {
    hide Load32, MapTo, SpaceOk, OnlyTables, BlocksFor, AlignUp, PageFits, RestInEither, PageEntry, Mappable;
    match program
    case ElfProgram(_, headers) =>
      ElfMapped(m, chunk, image, headers);
      if AllMappable(image, headers) {
        ElfRestIff(m, chunk, headers, Run(image, BlocksFor(imageSize)), stack);
      }
    case BinaryProgram =>
      BinaryRest(m, chunk, image, imageSize, stack);
  }

  lemma StackPages(v: nat)
    requires v < TOTAL_PAGES
    ensures PagesAfter(STACK_END / PAGE_SIZE, v) < 4 <==> StackPage(v)
  {
  }

  lemma StackRun(stack: uint32)
    requires HEAP_ADDRESS <= stack && stack % PAGE_SIZE == 0 && stack + PAGE_SIZE * BlocksFor(STACK_SIZE) <= HEAP_END
    ensures BlocksFor(STACK_SIZE) == 4 && Run(stack, 4).End() == stack + STACK_SIZE <= HEAP_END
    ensures AlignUp((stack + STACK_SIZE) % RAM_SIZE) == stack + STACK_SIZE
  {
    RunEnd(stack, STACK_SIZE);
  }

  /** The stack is mapped over that: its pages show its frames, the others are as they were. */
  lemma StackMapped(m: Mem, chunk: nat, image: Run, stack: uint32)
    requires SpaceOk(m, chunk)
    requires HEAP_ADDRESS <= stack && stack % PAGE_SIZE == 0 && stack + PAGE_SIZE * BlocksFor(STACK_SIZE) <= HEAP_END
    ensures var m' := MapTo(m, chunk, STACK_END, stack, AlignUp((stack + STACK_SIZE) % RAM_SIZE), USER_FLAGS).0;
            var dir := DirectoryOf(m, chunk); var r := Run(stack, BlocksFor(STACK_SIZE));
            && OnlyTables(m, m', chunk)
            && (WritesInEither(m', dir, image, r) <==> RestInEither(m, dir, image, r))
  {
    hide Load32, PageEntry, MapTo, SpaceOk, OnlyTables, IsWriteable, FrameOf, StackPage, PagesAfter, Inside, BlocksFor,
      AlignUp, DirectoryOf;
    DirectoryFits(m, chunk);
    StackRun(stack);
    MappedWrites(m, chunk, STACK_END, Run(stack, 4));
    var m', dir := MapTo(m, chunk, STACK_END, stack, stack + STACK_SIZE, USER_FLAGS).0, DirectoryOf(m, chunk);
    forall v | 0 <= v < TOTAL_PAGES
      ensures if StackPage(v) then EntryInEither(PageEntry(m', dir, v), image, Run(stack, 4))
              else PageEntry(m', dir, v) == PageEntry(m, dir, v)
    {
      StackPages(v);
    }
  }

  /** Both halves together: the writeable pages lie in image and stack exactly if the
      image fits. */
  lemma MemoryMapped(m: Mem, chunk: nat, program: Program, image: uint32, imageSize: uint32, stack: uint32)
    requires SpaceOk(m, chunk) && HEAP_ADDRESS <= image && image % PAGE_SIZE == 0 && BlocksFor(imageSize) >= 1
    requires image + PAGE_SIZE * BlocksFor(imageSize) <= HEAP_END
    requires HEAP_ADDRESS <= stack && stack % PAGE_SIZE == 0 && stack + PAGE_SIZE * BlocksFor(STACK_SIZE) <= HEAP_END
    requires forall v :: 0 <= v < TOTAL_PAGES ==> !IsWriteable(PageEntry(m, DirectoryOf(m, chunk), v))
    ensures var (m', res) := MapMemory(m, chunk, program, image, imageSize, stack);
            var r, r' := Run(image, BlocksFor(imageSize)), Run(stack, BlocksFor(STACK_SIZE));
            && OnlyTables(m, m', chunk)
            && (res == 0 <==> program.ElfProgram? ==> AllMappable(image, program.headers))
            && (res == 0 ==> (WritesInEither(m', DirectoryOf(m, chunk), r, r') <==> ImageFits(program, r, r')))
  {
    hide Load32, SpaceOk, RestInEither, WritesInEither, MapTo, BlocksFor, AlignUp, MapImage, ImageFits, PageEntry,
      IsWriteable, AllMappable, OnlyTables;
    ImageMapped(m, chunk, program, image, imageSize, Run(stack, BlocksFor(STACK_SIZE)));
    var (m1, res) := MapImage(m, chunk, program, image, imageSize);
    if res >= 0 {
      OnlyTablesTells(m, m1, chunk);
      StackMapped(m1, chunk, Run(image, BlocksFor(imageSize)), stack);
      OnlyTablesTrans(m, m1, MapMemory(m, chunk, program, image, imageSize, stack).0, chunk);
    }
  }

  // ---- What the loaded program finds ----

  /** Where no page of the range was mapped anew, it shows what it showed. */
  lemma RangeKept(m: Mem, m': Mem, dir: nat, lo: nat, n: nat, p: int, writeable: bool)
    requires dir + PAGE_SIZE <= RAM_SIZE && ShowsRange(m, dir, lo, n, p, writeable)
    requires forall v :: 0 <= v < TOTAL_PAGES && lo / PAGE_SIZE <= v ==> PageEntry(m', dir, v) == PageEntry(m, dir, v)
    ensures ShowsRange(m', dir, lo, n, p, writeable)
  {
    hide PageEntry, FrameOf, IsPresent, IsUser, IsWriteable;
    forall a: uint32 | lo <= a < lo + n
      ensures Translate(m', dir, a) == p + (a - lo) && OpenAt(m', dir, a, writeable)
    {
      assert Translate(m, dir, a) == p + (a - lo) && OpenAt(m, dir, a, writeable);
    }
  }

  /** The 16 KB of the stack, below 0x3FF000, are there to write; the other pages keep
      their entries. */
  lemma StackShown(m: Mem, chunk: nat, stack: uint32)
    requires SpaceOk(m, chunk)
    requires HEAP_ADDRESS <= stack && stack % PAGE_SIZE == 0 && stack + PAGE_SIZE * BlocksFor(STACK_SIZE) <= HEAP_END
    ensures DirectoryOf(m, chunk) + PAGE_SIZE <= RAM_SIZE
    ensures var m' := MapTo(m, chunk, STACK_END, stack, AlignUp((stack + STACK_SIZE) % RAM_SIZE), USER_FLAGS).0;
            var dir := DirectoryOf(m, chunk);
            && ShowsRange(m', dir, 0x3F_B000, 0x4000, stack, true)
            && forall v :: 0 <= v < TOTAL_PAGES && !(0x3FB <= v < 0x3FF) ==>
                 PageEntry(m', dir, v) == PageEntry(m, dir, v)
  {
    hide Load32, PageEntry, MapTo, SpaceOk, OnlyTables, PagesAfter, Inside, BlocksFor, AlignUp, DirectoryOf, ShowsRange,
      Mapped;
    DirectoryFits(m, chunk);
    StackRun(stack);
    MappedWrites(m, chunk, STACK_END, Run(stack, 4));
    MapToMaps(m, chunk, STACK_END, stack, 4, USER_FLAGS);
    MapToShows(m, chunk, STACK_END, stack, stack + STACK_SIZE, USER_FLAGS);
    forall v | 0 <= v < TOTAL_PAGES && !(0x3FB <= v < 0x3FF)
      ensures !(PagesAfter(STACK_END / PAGE_SIZE, v) < 4)
    {
      StackPages(v);
    }
  }

  /** A flat binary is there at 0x400000, to write; the pages that hold none of it keep
      their entries. */
  lemma BinaryShown(m: Mem, chunk: nat, image: uint32, imageSize: uint32)
    requires SpaceOk(m, chunk) && HEAP_ADDRESS <= image && image % PAGE_SIZE == 0 && BlocksFor(imageSize) >= 1
    requires image + PAGE_SIZE * BlocksFor(imageSize) <= HEAP_END
    ensures DirectoryOf(m, chunk) + PAGE_SIZE <= RAM_SIZE
    ensures var m' := MapImage(m, chunk, BinaryProgram, image, imageSize).0; var dir := DirectoryOf(m, chunk);
            && ShowsRange(m', dir, 0x40_0000, imageSize, image, true)
            && forall v :: 0 <= v < TOTAL_PAGES && (v < 0x400 || 0x40_0000 + imageSize <= v * PAGE_SIZE) ==>
                 PageEntry(m', dir, v) == PageEntry(m, dir, v)
  {
    hide Load32, PageEntry, MapTo, SpaceOk, OnlyTables, PagesAfter, Inside, BlocksFor, AlignUp, DirectoryOf, Mapped,
      Translate, OpenAt;
    DirectoryFits(m, chunk);
    var r := Run(image, BlocksFor(imageSize));
    RunEnd(image, imageSize);
    assert SlotEnd(Slot(image, imageSize)) == AlignUp((image + imageSize) % RAM_SIZE);
    MappedWrites(m, chunk, PROGRAM_ADDRESS, r);
    MapToMaps(m, chunk, PROGRAM_ADDRESS, image, r.blocks, USER_FLAGS);
    MapToShows(m, chunk, PROGRAM_ADDRESS, image, r.End(), USER_FLAGS);
    BlocksCover(imageSize);
    forall v | 0 <= v < TOTAL_PAGES && (v < 0x400 || 0x40_0000 + imageSize <= v * PAGE_SIZE)
      ensures !(PagesAfter(PROGRAM_ADDRESS / PAGE_SIZE, v) < r.blocks)
    {
      PastBinary(v, imageSize);
    }
  }

  lemma PastBinary(v: nat, imageSize: uint32)
    requires v < TOTAL_PAGES && (v < 0x400 || 0x40_0000 + imageSize <= v * PAGE_SIZE)
    requires HEAP_ADDRESS + PAGE_SIZE * BlocksFor(imageSize) <= HEAP_END
    ensures PagesAfter(PROGRAM_ADDRESS / PAGE_SIZE, v) >= BlocksFor(imageSize)
  {
  }

  /** After process_map_memory the program finds its stack at 0x3FB000 and, if it is a
      flat binary, its image at 0x400000, both to write; every other page is as
      process_map_elf, or nothing, has left it. */
  lemma MemoryShown(m: Mem, chunk: nat, program: Program, image: uint32, imageSize: uint32, stack: uint32)
    requires SpaceOk(m, chunk) && HEAP_ADDRESS <= image && image % PAGE_SIZE == 0 && BlocksFor(imageSize) >= 1
    requires image + PAGE_SIZE * BlocksFor(imageSize) <= HEAP_END
    requires HEAP_ADDRESS <= stack && stack % PAGE_SIZE == 0 && stack + PAGE_SIZE * BlocksFor(STACK_SIZE) <= HEAP_END
    requires MapMemory(m, chunk, program, image, imageSize, stack).1 == 0
    ensures DirectoryOf(m, chunk) + PAGE_SIZE <= RAM_SIZE
    ensures var m' := MapMemory(m, chunk, program, image, imageSize, stack).0; var dir := DirectoryOf(m, chunk);
            && ShowsRange(m', dir, 0x3F_B000, 0x4000, stack, true)
            && (program.BinaryProgram? ==>
                  && ShowsRange(m', dir, 0x40_0000, imageSize, image, true)
                  && forall v :: 0 <= v < TOTAL_PAGES && !(0x3FB <= v < 0x3FF)
                                 && (v < 0x400 || 0x40_0000 + imageSize <= v * PAGE_SIZE) ==>
                       PageEntry(m', dir, v) == PageEntry(m, dir, v))
            && (program.ElfProgram? ==>
                  && AllMappable(image, program.headers)
                  && forall v :: 0 <= v < TOTAL_PAGES && !(0x3FB <= v < 0x3FF) ==>
                       PageEntry(m', dir, v) == ElfEntry(image, program.headers, v, PageEntry(m, dir, v)))
  {
    hide Load32, SpaceOk, MapTo, BlocksFor, AlignUp, PageEntry, AllMappable, OnlyTables, ShowsRange, MapElf, Mappable,
      ElfEntry;
    DirectoryFits(m, chunk);
    var dir := DirectoryOf(m, chunk);
    var m1 := MapImage(m, chunk, program, image, imageSize).0;
    var m' := MapMemory(m, chunk, program, image, imageSize, stack).0;
    match program
    case ElfProgram(_, headers) =>
      ElfMapped(m, chunk, image, headers);
      assert AllMappable(image, headers) by { AllMappableIs(image, headers); }
      ElfAll(m, chunk, image, headers);
      OnlyTablesTells(m, m1, chunk);
      StackShown(m1, chunk, stack);
    case BinaryProgram =>
      BinaryShown(m, chunk, image, imageSize);
      BinaryTables(m, chunk, image, imageSize);
      OnlyTablesTells(m, m1, chunk);
      StackShown(m1, chunk, stack);
      RangeKept(m1, m', dir, 0x40_0000, imageSize, image, true);
  }

  lemma AllMappableIs(elfMemory: uint32, phs: seq<ProgramHeader>)
    requires forall i :: 0 <= i < |phs| ==> Mappable(elfMemory, phs[i])
    ensures AllMappable(elfMemory, phs)
  {
  }

  lemma BinaryTables(m: Mem, chunk: nat, image: uint32, imageSize: uint32)
    requires SpaceOk(m, chunk)
    ensures OnlyTables(m, MapImage(m, chunk, BinaryProgram, image, imageSize).0, chunk)
  {
    hide Load32, SpaceOk, MapTo, AlignUp, PageEntry, OnlyTables;
    MapToTranslation(m, chunk, PROGRAM_ADDRESS, image, AlignUp((image + imageSize) % RAM_SIZE), USER_FLAGS);
  }

  lemma OnlyTablesTells(m: Mem, m': Mem, chunk: nat)
    requires SpaceOk(m, chunk) && OnlyTables(m, m', chunk)
    ensures DirectoryOf(m', chunk) == DirectoryOf(m, chunk)
  {
    hide Load32;
  }

  // ---- Segments that reach past the image ----

  /** If no page belongs to two segments, it is enough for the image to fit that its
      writeable segments lie inside it. */
  lemma SegmentsInsideFit(program: Program, image: Run, stack: Run)
    requires image.ptr < RAM_SIZE && program.ElfProgram? && AllMappable(image.ptr, program.headers)
    requires WritesInside(image.ptr, program.headers, image.ptr, image.End())
    requires PageDisjoint(image.ptr, program.headers)
    ensures ImageFits(program, image, stack)
  {
    hide Mappable, Covers, SegmentFrame, LastSegment, SegmentPages, PageDisjoint;
    WholeSegmentsIff(image.ptr, program.headers, image.ptr, image.End());
    forall v | 0 <= v < TOTAL_PAGES ensures PageFits(image, program.headers, stack, v) {
      assert PageStays(image.ptr, program.headers, v, image.ptr, image.End());
    }
  }

  /** The last segment is writeable and ends past the image, as with a large .bss, in a
      page and a frame that are not the stack's. */
  ghost predicate PastImage(program: Program, image: Run, stack: Run)
    requires image.ptr < RAM_SIZE
  {
    && image.blocks >= 1
    && program.ElfProgram? && AllMappable(image.ptr, program.headers) && program.headers != []
    && var ph := program.headers[|program.headers| - 1]; var pages := SegmentPages(image.ptr, ph);
    && Writes(ph) && pages > 0 && SegmentEnd(image.ptr, ph) > image.End()
    && !Inside(SegmentEnd(image.ptr, ph) - PAGE_SIZE, stack)
    && !StackPage((ph.vaddr / PAGE_SIZE + pages - 1) % TOTAL_PAGES)
  }

  lemma SegmentPastImage(program: Program, image: Run, stack: Run)
    requires image.ptr < RAM_SIZE && PastImage(program, image, stack)
    ensures !ImageFits(program, image, stack)
  {
    var i := |program.headers| - 1;
    var ph := program.headers[i];
    assert Mappable(image.ptr, ph);
    hide Mappable, Covers, SegmentFrame, SegmentPages, SegmentEnd, StackPage, Inside;
    var first, last := EdgePages(image.ptr, ph);
    EdgeFrames(image.ptr, ph, first, last);
    LastIsLast(image.ptr, program.headers, last);
    PastEnd(SegmentFrame(image.ptr, ph, last), image);
    assert !PageFits(image, program.headers, stack, last);
  }

  lemma PastEnd(frame: nat, r: Run)
    requires frame + PAGE_SIZE > r.End()
    ensures !Inside(frame, r)
  {
  }

  lemma LastIsLast(elfMemory: uint32, headers: seq<ProgramHeader>, v: nat)
    requires AllMappable(elfMemory, headers) && headers != [] && Covers(elfMemory, headers[|headers| - 1], v)
    ensures LastSegment(elfMemory, headers, v) == |headers| - 1
  {
    hide Mappable, Covers;
  }
}
