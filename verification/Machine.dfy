/** Every run of the kernel: loads with their arguments, allocations, frees,
    terminations, strings read on behalf of a process, task switches, the kernel's
    notes, other kernel work and user stores, in any order and number. */
module Machine {
  import opened Memory
  import opened HeapTable
  import opened Heap
  import opened KernelHeap
  import opened Owners
  import opened Paging
  import opened AddressSpace
  import opened Elf
  import opened Process
  import opened Tasks
  import opened Isolation
  import opened Steps
  import opened Requests
  import opened Links
  import opened Switches
  import opened Frees
  import opened Terminate
  import opened Load
  import Arguments
  import CopyString
  import opened GetArguments

  // ---- The result of a load ----

  function NoSlots(): (s: seq<Slot>)
    ensures |s| == MAX_ALLOCATIONS && forall j :: 0 <= j < MAX_ALLOCATIONS ==> s[j] == EMPTY
  {
    seq(MAX_ALLOCATIONS, i => EMPTY)
  }

  function LoadedProc(program: Program, imageSize: uint32, t: Trace): Proc {
    Proc(t.struct, program, t.image, imageSize, t.stack, t.task, t.chunk, NoSlots())
  }

  function ImageOf(imageSize: uint32, t: Trace): (r: Run)
    ensures r.ptr == t.image
  {
    Run(t.image, BlocksFor(imageSize))
  }

  function StackOf(t: Trace): Run { Run(t.stack, BlocksFor(STACK_SIZE)) }

  /** What the new process holds besides its data: the pages of its address space. */
  ghost function SpaceHolding(m: Mem, pid: nat, chunk: nat): map<Owner, Run>
    requires chunk + 4 <= RAM_SIZE && DirectoryOf(m, chunk) + PAGE_SIZE <= RAM_SIZE
  {
    map o | o in SpaceOwners(pid) ::
      Run(if o.role.PageTable? && o.role.index < TABLE_ENTRIES then TableAddress(m, DirectoryOf(m, chunk), o.role.index)
          else if o.role == Chunk then chunk else DirectoryOf(m, chunk), 1)
  }

  lemma HoldingIs(m: Mem, held7: map<Owner, Run>, held': map<Owner, Run>, pid: nat, chunk: nat)
    requires HoldsSpace(m, held', pid, chunk) && Extends(held7, held')
    requires held'.Keys == held7.Keys + SpaceOwners(pid) && held7.Keys !! SpaceOwners(pid)
    ensures chunk + 4 <= RAM_SIZE && DirectoryOf(m, chunk) + PAGE_SIZE <= RAM_SIZE
    ensures held' == held7 + SpaceHolding(m, pid, chunk)
  {
    hide Load32;
    var space := SpaceHolding(m, pid, chunk);
    forall o | o in SpaceOwners(pid) ensures held'[o] == space[o] {
      if o.role.PageTable? {
        var i := o.role.index;
        assert HoldsPage(held', Owner(pid, PageTable(i)), TableAddress(m, DirectoryOf(m, chunk), i));
      }
    }
  }

  /** What is held once a load has come to the list: by everybody so far, and by the
      new process. */
  ghost function LoadedHeld(k: KState, pid: nat, elf: bool, imageSize: uint32, t: Trace): map<Owner, Run>
    requires t.chunk + 4 <= RAM_SIZE && DirectoryOf(t.m8, t.chunk) + PAGE_SIZE <= RAM_SIZE
  {
    HeldForTask(k.held, pid, elf, imageSize, t) + SpaceHolding(t.m8, pid, t.chunk)
  }

  /** The pointers task_new and, after a failure, task_list_remove store through. */
  ghost predicate CanEnlist(k: KState, t: Trace) {
    t.task + TASK_SIZE <= RAM_SIZE && (k.ring.head != 0 ==> k.ring.tail + TASK_SIZE <= RAM_SIZE)
  }

  /** task_new's store through task_tail hits a task's link or memory nobody holds. */
  ghost predicate TailServes(k: KState, pid: nat, elf: bool, imageSize: uint32, t: Trace)
    requires t.chunk + 4 <= RAM_SIZE && DirectoryOf(t.m8, t.chunk) + PAGE_SIZE <= RAM_SIZE
  {
    k.ring.head == 0 || LinkFree(LoadedHeld(k, pid, elf, imageSize, t) - {Owner(pid, Task)}, k.ring.tail)
  }

  /** A load of `program` into free slot pid, by the stages of t, leads from k to k'.
      When a segment cannot be mapped, task and page tables are given back and the
      slot stays free. */
  ghost predicate LoadNext(k: KState, k': KState, pid: nat, program: Program, imageSize: uint32, t: Trace) {
    hide Load32, Prepares, MapMemory, Kfree, Free4gb, Unlist, RingWithout, PrevOf;
    && pid < MAX_PROCESSES && pid < |k.procs| && k.procs[pid].None?
    && (program.ElfProgram? ==> program.file == t.file)
    && Prepares(k, pid, program.ElfProgram?, imageSize, t)
    && SpaceOk(t.m8, t.chunk) && Freeable(t.task) && CanEnlist(k, t)
    && var (m8, ring) := Enlist(t.m8, k.ring, t.task);
    && SpaceOk(m8, t.chunk)
    && var (m9, res) := MapMemory(m8, t.chunk, program, t.image, imageSize, t.stack);
       if res < 0 then
         var m10 := Free4gb(m9, t.chunk);
         && PrevOf(m10, t.task) + TASK_SIZE <= RAM_SIZE
         && k' == k.(m := Kfree(Unlist(m10, t.task), t.task),
                     ring := RingWithout(Unlist(m10, t.task), ring, t.task))
       else
         k' == KState(m9, k.procs[pid := Some(LoadedProc(program, imageSize, t))],
                      LoadedHeld(k, pid, program.ElfProgram?, imageSize, t), ring)
  }

  lemma ReadOnlySpace(m: Mem, dir: nat)
    requires dir + PAGE_SIZE <= RAM_SIZE
    requires FreshSpace(m, dir)
    ensures forall v :: 0 <= v < TOTAL_PAGES ==> !IsWriteable(PageEntry(m, dir, v))
  {
    hide Load32, PageEntry, IsWriteable, LinkedAs;
    forall v | 0 <= v < TOTAL_PAGES ensures !IsWriteable(PageEntry(m, dir, v)) {
      FlagBits(v * PAGE_SIZE, SPACE_FLAGS);
    }
  }

  lemma LoadedParts(held: map<Owner, Run>, held': map<Owner, Run>, pid: nat, program: Program, imageSize: uint32,
                    t: Trace)
    requires Extends(HeldForTask(held, pid, program.ElfProgram?, imageSize, t), held')
    requires program.ElfProgram? ==> program.file == t.file
    ensures PartsOk(held', pid, LoadedProc(program, imageSize, t))
  {
    assert BlocksFor(TASK_SIZE) == 1 && BlocksFor(ELF_FILE_SIZE) == 1;
    hide BlocksFor;
    var held7 := HeldForTask(held, pid, program.ElfProgram?, imageSize, t);
    assert HoldsRun(held7, Owner(pid, ProcessStruct), t.struct, BlocksFor(PROCESS_SIZE));
    assert HoldsRun(held7, Owner(pid, Image), t.image, BlocksFor(imageSize));
    assert HoldsRun(held7, Owner(pid, Stack), t.stack, BlocksFor(STACK_SIZE));
    assert HoldsRun(held7, Owner(pid, Task), t.task, BlocksFor(TASK_SIZE));
    if program.ElfProgram? {
      assert HoldsRun(held7, Owner(pid, ElfFile), t.file, BlocksFor(ELF_FILE_SIZE));
    }
  }

  lemma NewOwners(held: map<Owner, Run>, held': map<Owner, Run>, pid: nat, elf: bool, imageSize: uint32, t: Trace)
    requires forall o :: o in held ==> o.pid != pid
    requires held'.Keys == HeldForTask(held, pid, elf, imageSize, t).Keys + SpaceOwners(pid)
    ensures forall o :: o in held' && o.pid != pid ==> o in held
    ensures forall o :: o in held' && o.pid == pid ==>
              !o.role.Allocation? && (o.role == ElfFile ==> elf) && (o.role.PageTable? ==> o.role.index < TABLE_ENTRIES)
  {
    hide BlocksFor, HeldForTask, SpaceOwners;
    forall o | o in held'
      ensures o.pid != pid ==> o in held
      ensures o.pid == pid ==>
                !o.role.Allocation? && (o.role == ElfFile ==> elf) && (o.role.PageTable? ==>
                      o.role.index < TABLE_ENTRIES)
    {
      if o in HeldForTask(held, pid, elf, imageSize, t) {
        DataOwner(held, pid, elf, imageSize, t, o);
      } else {
        SpaceOwnerIs(pid, o);
      }
    }
  }

  lemma DataOwner(held: map<Owner, Run>, pid: nat, elf: bool, imageSize: uint32, t: Trace, o: Owner)
    requires o in HeldForTask(held, pid, elf, imageSize, t)
    ensures o in held || (o.pid == pid && !o.role.Allocation? && !o.role.PageTable? && (o.role == ElfFile ==> elf))
  {
    hide BlocksFor;
  }

  lemma SpaceOwnerIs(pid: nat, o: Owner)
    requires o in SpaceOwners(pid)
    ensures o.pid == pid && SpaceRole(o.role) && (o.role.PageTable? ==> o.role.index < TABLE_ENTRIES)
  {
  }

  lemma LoadedPages(m: Mem, held: map<Owner, Run>, pid: nat, dir: nat, image: Run, stack: Run)
    requires dir + PAGE_SIZE <= RAM_SIZE
    requires Owner(pid, Image) in held && held[Owner(pid, Image)] == image
    requires Owner(pid, Stack) in held && held[Owner(pid, Stack)] == stack
    requires forall j :: Owner(pid, Allocation(j)) !in held
    ensures PagesOk(m, held, pid, dir) <==> WritesInEither(m, dir, image, stack)
  {
    hide Load32, PageEntry, FrameOf, IsWriteable;
    if PagesOk(m, held, pid, dir) {
      forall v | 0 <= v < TOTAL_PAGES ensures EntryInEither(PageEntry(m, dir, v), image, stack) {
        assert IsWriteable(PageEntry(m, dir, v)) ==> Backed(held, pid, v, FrameOf(PageEntry(m, dir, v)));
      }
    }
    if WritesInEither(m, dir, image, stack) {
      forall v | 0 <= v < TOTAL_PAGES && IsWriteable(PageEntry(m, dir, v))
        ensures Backed(held, pid, v, FrameOf(PageEntry(m, dir, v)))
      {
        assert EntryInEither(PageEntry(m, dir, v), image, stack);
      }
    }
  }

  lemma LoadedSlots(held: map<Owner, Run>, pid: nat)
    requires forall j :: Owner(pid, Allocation(j)) !in held
    ensures SlotsOk(held, pid, NoSlots())
  {
  }

  lemma PartPointers(m: Mem, held: map<Owner, Run>, pid: nat, p: Proc)
    requires Held(m, held) && PartsOk(held, pid, p)
    ensures HEAP_ADDRESS <= p.image && p.image % PAGE_SIZE == 0 && BlocksFor(p.imageSize) >= 1
    ensures p.image + PAGE_SIZE * BlocksFor(p.imageSize) <= HEAP_END
    ensures HEAP_ADDRESS <= p.stack && p.stack % PAGE_SIZE == 0
    ensures p.stack + PAGE_SIZE * BlocksFor(STACK_SIZE) <= HEAP_END
    ensures Freeable(p.task)
  {
    hide BlocksFor, WellFormed, IsRun;
    RunBounds(m, held[Owner(pid, Image)]);
    RunBounds(m, held[Owner(pid, Stack)]);
    RunBounds(m, held[Owner(pid, Task)]);
  }

  /** Each process's page tables are as in k, and its task still has links. */
  ghost predicate SpacesKept(k: KState, m: Mem) {
    forall q :: 0 <= q < |k.procs| && k.procs[q].Some? ==>
      SpaceRunsSame(k.m, m, k.held, q) && LinkWords(m, k.procs[q].value.task)
  }

  /** Memory and globals after task_new, with everything in `held` where it belongs. */
  ghost predicate Enlisted(k: KState, pid: nat, t: Trace, held: map<Owner, Run>, m8: Mem, ring: Ring) {
    && Held(m8, held) && LowGuard(m8) && Extends(k.held, held) && KeptButNext(k.m, m8, k.held)
    && HoldsSpace(m8, held, pid, t.chunk) && HoldsRun(held, Owner(pid, Task), t.task, 1)
    && SpacesKept(k, m8) && LinkWords(m8, t.task) && RingLinks(ring)
  }

  lemma KeptSpace(k: KState, m8: Mem, m9: Mem, held': map<Owner, Run>, pid: nat, q: nat)
    requires q < |k.procs| && k.procs[q].Some? && q != pid
    requires SpacesKept(k, m8) && Extends(k.held, held') && PartsOk(k.held, q, k.procs[q].value)
    requires forall o :: o in held' && !(o.pid == pid && o.role.PageTable?) ==> SameRun(m8, m9, held'[o])
    requires forall o :: o in held' && o.pid != pid ==> o in k.held
    ensures SpaceRunsSame(k.m, m9, k.held, q) && AgreeOn(k.held, held', q)
    ensures LinkWords(m9, k.procs[q].value.task)
  {
    hide LinkWords, PartsOk, SameRun;
    forall r: Role | SpaceRole(r) && Owner(q, r) in k.held ensures SameRun(k.m, m9, k.held[Owner(q, r)]) {
      assert SameRun(m8, m9, held'[Owner(q, r)]);
      SameTwice(k.m, m8, m9, k.held[Owner(q, r)]);
    }
    TaskKept(m8, m9, k.held, q, k.procs[q].value);
  }

  lemma OthersLoaded(k: KState, m8: Mem, m9: Mem, held': map<Owner, Run>, pid: nat)
    requires Held(k.m, k.held) && |k.procs| == MAX_PROCESSES && SpacesKept(k, m8) && Extends(k.held, held')
    requires forall q :: 0 <= q < MAX_PROCESSES && k.procs[q].Some? ==> ProcOk(k.m, k.held, q, k.procs[q].value)
    requires forall o :: o in held' && !(o.pid == pid && o.role.PageTable?) ==> SameRun(m8, m9, held'[o])
    requires forall o :: o in held' && o.pid != pid ==> o in k.held
    ensures forall q :: 0 <= q < MAX_PROCESSES && q != pid && k.procs[q].Some? ==>
              ProcOk(m9, held', q, k.procs[q].value)
  {
    hide Held, ProcOk, SpaceRunsSame, AgreeOn, SpacesKept, Extends, SameRun, LinkWords;
    forall q | 0 <= q < MAX_PROCESSES && q != pid && k.procs[q].Some?
      ensures ProcOk(m9, held', q, k.procs[q].value)
    {
      ProcParts(k.m, k.held, q, k.procs[q].value);
      KeptSpace(k, m8, m9, held', pid, q);
      ProcSpaceUntouched(k.m, m9, k.held, held', q, k.procs[q].value);
    }
  }

  lemma AdvancedParts(m: Mem, m': Mem, held: map<Owner, Run>, held': map<Owner, Run>)
    requires Advanced(m, m', held, held')
    ensures Held(m', held') && LowGuard(m') && Extends(held, held') && Kept(m, m', held)
  {
  }

  lemma EnlistedTells(k: KState, pid: nat, t: Trace, held: map<Owner, Run>, m8: Mem, ring: Ring)
    requires Enlisted(k, pid, t, held, m8, ring)
    ensures Held(m8, held) && LowGuard(m8) && Extends(k.held, held) && HoldsSpace(m8, held, pid, t.chunk)
    ensures SpacesKept(k, m8) && LinkWords(m8, t.task) && RingLinks(ring)
    ensures HoldsRun(held, Owner(pid, Task), t.task, 1) && KeptButNext(k.m, m8, k.held)
  {
  }

  /** A finished load keeps the kernel sound exactly if the new process writes in its
      image and stack only. */
  lemma LoadDone(k: KState, pid: nat, program: Program, imageSize: uint32, t: Trace, held': map<Owner, Run>,
                 m8: Mem, ring: Ring, m9: Mem)
    requires Inv(k) && pid < MAX_PROCESSES && k.procs[pid].None? && forall o :: o in k.held ==> o.pid != pid
    requires program.ElfProgram? ==> program.file == t.file
    requires Enlisted(k, pid, t, held', m8, ring)
    requires Extends(HeldForTask(k.held, pid, program.ElfProgram?, imageSize, t), held')
    requires held'.Keys == HeldForTask(k.held, pid, program.ElfProgram?, imageSize, t).Keys + SpaceOwners(pid)
    requires OnlyTables(m8, m9, t.chunk)
    ensures Inv(KState(m9, k.procs[pid := Some(LoadedProc(program, imageSize, t))], held', ring)) <==>
            WritesInEither(m9, DirectoryOf(m8, t.chunk), ImageOf(imageSize, t), StackOf(t))
  {
    hide Inv, Load32, Held, LowGuard, HoldsSpace, ProcOk, OnlyTables, WritesInEither, BlocksFor, HeldForTask,
      SpaceOwners, KeptButNext, OwnersLive, SameRun, Extends, Enlisted, SpacesKept, LinkWords, RingLinks;
    var p := LoadedProc(program, imageSize, t);
    InvProcs(k);
    EnlistedTells(k, pid, t, held', m8, ring);
    NewOwners(k.held, held', pid, program.ElfProgram?, imageSize, t);
    LoadedParts(k.held, held', pid, program, imageSize, t);
    LoadedOwners(k, held', pid, p);
    OnlyTablesSpares(m8, m9, held', pid, t.chunk);
    OthersLoaded(k, m8, m9, held', pid);
    HoldsSpaceBounds(m8, held', pid, t.chunk);
    LoadedPages(m9, held', pid, DirectoryOf(m8, t.chunk), ImageOf(imageSize, t), StackOf(t));
    LoadedSlots(held', pid);
    TaskKept(m8, m9, held', pid, p);
    var k' := KState(m9, k.procs[pid := Some(p)], held', ring);
    if WritesInEither(m9, DirectoryOf(m8, t.chunk), ImageOf(imageSize, t), StackOf(t)) {
      NewProcOk(m9, held', pid, p);
      InvFrom(k');
    }
    if Inv(k') {
      InvProcs(k');
      ProcPages(m9, held', pid, p);
    }
  }

  lemma ProcPages(m: Mem, held: map<Owner, Run>, pid: nat, p: Proc)
    requires ProcOk(m, held, pid, p)
    ensures p.chunk + 4 <= RAM_SIZE && DirectoryOf(m, p.chunk) + PAGE_SIZE <= RAM_SIZE
    ensures PagesOk(m, held, pid, DirectoryOf(m, p.chunk))
  {
    hide Load32, PagesOk, SlotsOk, PartsOk, LinkWords;
  }

  lemma LoadedOwners(k: KState, held': map<Owner, Run>, pid: nat, p: Proc)
    requires OwnersLive(k.procs, k.held) && pid < |k.procs|
    requires forall o :: o in held' && o.pid != pid ==> o in k.held
    requires forall o :: o in held' && o.pid == pid ==> RoleLive(p, o.role)
    ensures OwnersLive(k.procs[pid := Some(p)], held')
  {
  }

  // ---- An abandoned load ----

  lemma SpacesKeptByTables(k: KState, m8: Mem, m9: Mem, held': map<Owner, Run>, pid: nat)
    requires Inv(k) && SpacesKept(k, m8) && Extends(k.held, held') && pid < |k.procs| && k.procs[pid].None?
    requires forall o :: o in held' && !(o.pid == pid && o.role.PageTable?) ==> SameRun(m8, m9, held'[o])
    requires forall o :: o in held' && o.pid != pid ==> o in k.held
    ensures SpacesKept(k, m9)
  {
    hide LinkWords, PartsOk, SameRun, Inv, SpaceRunsSame, Held, ProcOk, Extends;
    InvProcs(k);
    forall q | 0 <= q < |k.procs| && k.procs[q].Some?
      ensures SpaceRunsSame(k.m, m9, k.held, q) && LinkWords(m9, k.procs[q].value.task)
    {
      ProcParts(k.m, k.held, q, k.procs[q].value);
      KeptSpace(k, m8, m9, held', pid, q);
    }
  }

  /** Writing the heap table keeps every process's page tables and links. */
  lemma SpacesKeptOutside(k: KState, m: Mem, m': Mem)
    requires Inv(k) && SpacesKept(k, m) && SameOutsideTable(m, m')
    ensures SpacesKept(k, m')
  {
    hide LinkWords, PartsOk, Inv, Held, ProcOk, SameOutsideTable, SameRun;
    InvProcs(k);
    forall q | 0 <= q < |k.procs| && k.procs[q].Some?
      ensures SpaceRunsSame(k.m, m', k.held, q) && LinkWords(m', k.procs[q].value.task)
    {
      forall r: Role | SpaceRole(r) && Owner(q, r) in k.held ensures SameRun(k.m, m', k.held[Owner(q, r)]) {
        RunOutsideTable(k.m, m, m', k.held, Owner(q, r));
        SameTwice(k.m, m, m', k.held[Owner(q, r)]);
      }
      ProcParts(k.m, k.held, q, k.procs[q].value);
      RunOutsideTable(k.m, m, m', k.held, Owner(q, Task));
      TaskKept(m, m', k.held, q, k.procs[q].value);
    }
  }

  lemma RunOutsideTable(m0: Mem, m: Mem, m': Mem, held: map<Owner, Run>, o: Owner)
    requires Held(m0, held) && o in held && SameOutsideTable(m, m')
    ensures SameRun(m, m', held[o])
  {
    hide WellFormed, IsRun;
    HeldBounds(m0, held, o);
  }

  /** So does a store through a link that is free. */
  lemma SpacesKeptByRelink(k: KState, m: Mem, p: nat, v: uint32)
    requires Inv(k) && SpacesKept(k, m) && Held(m, k.held) && Link(p) && Link(v) && LinkFree(k.held, p)
    ensures p + TASK_SIZE <= RAM_SIZE && SpacesKept(k, Relinked(m, p, v))
    ensures KeptButNext(m, Relinked(m, p, v), k.held)
  {
    hide Load32, LinkWords, Inv, Held, ProcOk, SameRun, Link, LinkFree, TasksSingle, KeptButNext, LinkSafe, Relinked;
    InvProcs(k);
    InvTasksSingle(k);
    FreeIsSafe(m, k.held, p, v);
    RelinkKeepsIff(m, k.held, p, v);
    var m' := Relinked(m, p, v);
    forall q | 0 <= q < |k.procs| && k.procs[q].Some?
      ensures SpaceRunsSame(k.m, m', k.held, q) && LinkWords(m', k.procs[q].value.task)
    {
      KeptSpaces(m, m', k.held, q);
      forall r: Role | SpaceRole(r) && Owner(q, r) in k.held ensures SameRun(k.m, m', k.held[Owner(q, r)]) {
        SameTwice(k.m, m, m', k.held[Owner(q, r)]);
      }
      TaskIsPage(k.m, k.held, q, k.procs[q].value);
      RelinkKeepsWords(m, k.held, p, v, k.procs[q].value.task);
    }
  }

  lemma InvFromSpaces(k: KState, m': Mem, ring: Ring)
    requires Inv(k) && Held(m', k.held) && LowGuard(m') && SpacesKept(k, m') && RingLinks(ring)
    ensures Inv(k.(m := m', ring := ring))
  {
    hide LinkWords, Inv, Held, LowGuard, ProcOk, SpaceRunsSame, AgreeOn, RingLinks, OwnersLive;
    InvProcs(k);
    forall q | 0 <= q < MAX_PROCESSES && k.procs[q].Some? ensures ProcOk(m', k.held, q, k.procs[q].value) {
      AgreeSelf(k.held, q);
      ProcSpaceUntouched(k.m, m', k.held, k.held, q, k.procs[q].value);
    }
    InvFrom(k.(m := m', ring := ring));
  }

  /** What the new process held is given back, its page tables first. */
  lemma SpaceGivenBack(k: KState, pid: nat, t: Trace, held': map<Owner, Run>, m8: Mem, ring: Ring, m9: Mem)
    requires Inv(k) && pid < |k.procs| && k.procs[pid].None? && Enlisted(k, pid, t, held', m8, ring)
    requires (forall o :: o in k.held ==> o.pid != pid) && forall o :: o in held' && o.pid != pid ==> o in k.held
    requires OnlyTables(m8, m9, t.chunk)
    ensures SpaceOk(m9, t.chunk)
    ensures var m10 := Free4gb(m9, t.chunk); var held10 := held' - SpaceOwners(pid);
            && Held(m10, held10) && LowGuard(m10) && HoldsRun(held10, Owner(pid, Task), t.task, 1)
            && Extends(k.held, held10 - {Owner(pid, Task)}) && SpacesKept(k, m10)
            && SameRun(m8, m10, Run(t.task, 1)) && LinkWords(m10, t.task) && SameOutsideTable(m9, m10)
  {
    hide Load32, Inv, Held, LowGuard, HoldsSpace, KeptButNext, SameRun, Free4gb, SpaceOwners, SpaceOk, OnlyTables,
      SameOutsideTable, Extends, Enlisted, SpacesKept, LinkWords, RingLinks;
    EnlistedTells(k, pid, t, held', m8, ring);
    OnlyTablesSpares(m8, m9, held', pid, t.chunk);
    HeldSpaceOk(m9, held', pid, t.chunk);
    SpaceFreed(m9, held', pid, t.chunk);
    TaskNotSpace(pid);
    var m10, held10 := Free4gb(m9, t.chunk), held' - SpaceOwners(pid);
    TableOnlyGuard(m9, m10);
    StillThere(k.held, held', pid);
    SpacesKeptByTables(k, m8, m9, held', pid);
    SpacesKeptOutside(k, m9, m10);
    RunOutsideTable(m9, m9, m10, held', Owner(pid, Task));
    SameTwice(m8, m9, m10, Run(t.task, 1));
    LinkWordsSame(m8, m10, t.task);
  }

  lemma StillThere(held: map<Owner, Run>, held': map<Owner, Run>, pid: nat)
    requires Extends(held, held') && forall o :: o in held ==> o.pid != pid
    ensures Extends(held, held' - SpaceOwners(pid) - {Owner(pid, Task)})
  {
    forall o | o in SpaceOwners(pid) ensures o.pid == pid {}
  }

  /** An abandoned load gives task and page tables back and keeps the kernel sound. */
  lemma LoadAbandoned(k: KState, pid: nat, t: Trace, held': map<Owner, Run>, m8: Mem, ring: Ring, m9: Mem)
    requires Inv(k) && pid < |k.procs| && k.procs[pid].None? && Enlisted(k, pid, t, held', m8, ring)
    requires (forall o :: o in k.held ==> o.pid != pid) && forall o :: o in held' && o.pid != pid ==> o in k.held
    requires OnlyTables(m8, m9, t.chunk) && HeapPage(t.task) && LinkFree(k.held, PrevOf(m8, t.task))
    ensures SpaceOk(m9, t.chunk) && Freeable(t.task)
    ensures PrevOf(Free4gb(m9, t.chunk), t.task) + TASK_SIZE <= RAM_SIZE
    ensures var m11 := Unlist(Free4gb(m9, t.chunk), t.task);
            Inv(k.(m := Kfree(m11, t.task), ring := RingWithout(m11, ring, t.task)))
  {
    hide Load32, Inv, Held, LowGuard, HoldsSpace, KeptButNext, SameRun, Free4gb, SpaceOwners, SpaceOk, OnlyTables,
      Kfree, SameOutsideTable, Extends, Enlisted, SpacesKept, LinkWords, RingLinks, RingWithout, LinkFree, Table;
    EnlistedTells(k, pid, t, held', m8, ring);
    SpaceGivenBack(k, pid, t, held', m8, ring, m9);
    var m10, held10 := Free4gb(m9, t.chunk), held' - SpaceOwners(pid);
    TaskWords(m8, m10, t.task);
    UnlistTells(m10, t.task);
    var m11, prev, next := Unlist(m10, t.task), PrevOf(m10, t.task), NextOf(m10, t.task);
    HeldShrinks(m10, held10 - {Owner(pid, Task)}, k.held) by { HeldLess(m10, held10, Owner(pid, Task)); }
    assert m11 == Relinked(m10, prev, next);
    RelinkTable(m10, prev, next);
    SpacesKeptByRelink(k, m10, prev, next);
    HeldByTable(m10, m11, held10);
    KfreeHeld(m11, held10, Owner(pid, Task));
    var m12 := Kfree(m11, t.task);
    KfreeOutside(m11, t.task);
    TableOnlyGuard(m11, m12);
    HeldShrinks(m12, held10 - {Owner(pid, Task)}, k.held);
    SpacesKeptOutside(k, m11, m12);
    RingWithoutLinks(m11, ring, t.task);
    InvFromSpaces(k, m12, RingWithout(m11, ring, t.task));
  }

  lemma HeldLess(m: Mem, held: map<Owner, Run>, o: Owner)
    requires Held(m, held)
    ensures Held(m, held - {o})
  {
  }

  lemma KfreeOutside(m: Mem, ptr: uint32)
    requires HEAP_ADDRESS <= ptr < HEAP_END
    ensures SameOutsideTable(m, Kfree(m, ptr))
  {
    KfreeTouchesTable(m, ptr);
  }

  // ---- task_new ----

  lemma ChunkKept(m: Mem, m': Mem, held: map<Owner, Run>, pid: nat, chunk: nat)
    requires Held(m, held) && HoldsSpace(m, held, pid, chunk) && SpaceRunsSame(m, m', held, pid)
    ensures chunk + 4 <= RAM_SIZE && DirectoryOf(m, chunk) + PAGE_SIZE <= RAM_SIZE
    ensures SpaceOk(m', chunk) && HoldsSpace(m', held, pid, chunk) && DirectoryOf(m', chunk) == DirectoryOf(m, chunk)
    ensures forall v :: 0 <= v < TOTAL_PAGES ==>
              PageEntry(m', DirectoryOf(m, chunk), v) == PageEntry(m, DirectoryOf(m, chunk), v)
    ensures SameDirectory(m, m', chunk)
  {
    hide Load32, PageEntry, Held, HoldsSpace, SpaceOk, SpaceRunsSame, AgreeOn;
    HoldsSpaceBounds(m, held, pid, chunk);
    SpaceRunsSamePages(m, m', held, pid, chunk);
    SpaceUnchanged(m, m', chunk);
    AgreeSelf(held, pid);
    SpaceStillHeld(m, m', held, held, pid, chunk);
  }

  lemma FreeForFewer(held: map<Owner, Run>, held': map<Owner, Run>, pid: nat, p: nat)
    requires Extends(held, held') && LinkFree(held' - {Owner(pid, Task)}, p)
    requires forall o :: o in held ==> o.pid != pid
    requires forall o :: o in held' && o.pid != pid ==> o in held
    requires forall o :: o in held' && o.pid == pid ==> o.role != Task || o == Owner(pid, Task)
    ensures LinkFree(held, p)
  {
    if p != 0 && TaskBlock(held' - {Owner(pid, Task)}, p) {
      var q :| Owner(q, Task) in held' - {Owner(pid, Task)} && (held' - {Owner(pid, Task)})[Owner(q, Task)].ptr == p;
      assert q != pid && Owner(q, Task) in held;
    } else if p != 0 {
      forall o | o in held ensures p + PREV_WORD <= held[o].ptr || held[o].End() <= p + NEXT_WORD {
        assert o in held' - {Owner(pid, Task)};
      }
    }
  }

  /** The owners after a load's preparations are those before and the new process's. */
  ghost predicate OwnersSplit(held: map<Owner, Run>, held': map<Owner, Run>, pid: nat) {
    && (forall o :: o in held ==> o.pid != pid)
    && (forall o :: o in held' && o.pid != pid ==> o in held)
    && Extends(held, held')
  }

  lemma AdvancedSpaces(k: KState, m: Mem, held': map<Owner, Run>)
    requires Inv(k) && Advanced(k.m, m, k.held, held')
    ensures SpacesKept(k, m) && KeptButNext(k.m, m, k.held)
  {
    hide LinkWords, PartsOk, SameRun, Inv, Held, ProcOk, LowGuard;
    InvProcs(k);
    forall q | 0 <= q < |k.procs| && k.procs[q].Some?
      ensures SpaceRunsSame(k.m, m, k.held, q) && LinkWords(m, k.procs[q].value.task)
    {
      ProcParts(k.m, k.held, q, k.procs[q].value);
      ProcTask(k.m, k.held, q, k.procs[q].value);
      TaskKept(k.m, m, k.held, q, k.procs[q].value);
    }
    forall o | o in k.held ensures SameButNext(k.m, m, k.held[o]) {
      SameIsButNext(k.m, m, k.held[o]);
    }
  }

  lemma SameIsButNext(m: Mem, m': Mem, r: Run)
    requires SameRun(m, m', r)
    ensures SameButNext(m, m', r)
  {
  }

  lemma ButNextTwice(m: Mem, m1: Mem, m2: Mem, held: map<Owner, Run>)
    requires KeptButNext(m, m1, held) && KeptButNext(m1, m2, held)
    ensures KeptButNext(m, m2, held)
  {
    forall o | o in held
      ensures if o.role == Task then SameButNext(m, m2, held[o]) else SameRun(m, m2, held[o])
    {
      assert if o.role == Task then SameButNext(m, m1, held[o]) else SameRun(m, m1, held[o]);
    }
  }

  lemma ButNextFewer(m: Mem, m': Mem, held: map<Owner, Run>, held': map<Owner, Run>)
    requires KeptButNext(m, m', held') && Extends(held, held')
    ensures KeptButNext(m, m', held)
  {
    hide SameRun, SameButNext;
    forall o | o in held
      ensures if o.role == Task then SameButNext(m, m', held[o]) else SameRun(m, m', held[o])
    {
      assert o in held' && held'[o] == held[o];
    }
  }

  /** The two stores of task_new. */
  lemma TailLinked(m: Mem, held': map<Owner, Run>, pid: nat, tail: nat, task: nat) returns (m1: Mem, m2: Mem)
    requires Held(m, held') && TasksSingle(held') && LowGuard(m) && HoldsRun(held', Owner(pid, Task), task, 1)
    requires Link(tail) && LinkFree(held' - {Owner(pid, Task)}, tail) && HeapPage(task)
    ensures tail + TASK_SIZE <= RAM_SIZE && m1 == SetNext(m, tail, task) && m2 == Store32(m1, task + PREV_WORD, tail)
    ensures Held(m2, held') && LowGuard(m2) && KeptButNext(m, m2, held' - {Owner(pid, Task)})
  {
    hide Load32, Store32, Held, LowGuard, LinkFree, KeptButNext, SameRun, TasksSingle, Table;
    var fewer := held' - {Owner(pid, Task)};
    HeldLess(m, held', Owner(pid, Task));
    FewerSingle(held', Owner(pid, Task));
    SetNextKept(m, fewer, tail, task);
    m1 := SetNext(m, tail, task);
    HeldByTable(m, m1, held');
    OwnWordKept(m1, held', Owner(pid, Task), task + PREV_WORD, tail);
    m2 := Store32(m1, task + PREV_WORD, tail);
    HeldByTable(m1, m2, held');
    AllButNext(m1, m2, fewer);
    ButNextTwice(m, m1, m2, fewer);
  }

  lemma FewerSingle(held: map<Owner, Run>, o: Owner)
    requires TasksSingle(held)
    ensures TasksSingle(held - {o})
  {
  }

  lemma AllButNext(m: Mem, m': Mem, held: map<Owner, Run>)
    requires forall o :: o in held ==> SameRun(m, m', held[o])
    ensures KeptButNext(m, m', held)
  {
    hide SameRun;
    forall o | o in held ensures SameButNext(m, m', held[o]) { SameIsButNext(m, m', held[o]); }
  }

  lemma SpacesKeptLinked(k: KState, m: Mem, m1: Mem, m2: Mem, held': map<Owner, Run>, pid: nat, tail: nat, task: nat)
    requires Inv(k) && SpacesKept(k, m) && OwnersSplit(k.held, held', pid)
    requires KeptButNext(m, m2, held' - {Owner(pid, Task)}) && Link(tail) && HeapPage(task)
    requires tail + TASK_SIZE <= RAM_SIZE && m1 == SetNext(m, tail, task) && m2 == Store32(m1, task + PREV_WORD, tail)
    ensures SpacesKept(k, m2)
  {
    hide Load32, Store32, LinkWords, Inv, Held, ProcOk, SameRun, SameButNext, Link;
    InvProcs(k);
    forall q | 0 <= q < |k.procs| && k.procs[q].Some?
      ensures SpaceRunsSame(k.m, m2, k.held, q) && LinkWords(m2, k.procs[q].value.task)
    {
      forall r: Role | SpaceRole(r) && Owner(q, r) in k.held ensures SameRun(k.m, m2, k.held[Owner(q, r)]) {
        assert Owner(q, r) in held' - {Owner(pid, Task)};
        SameTwice(k.m, m, m2, k.held[Owner(q, r)]);
      }
      TaskIsPage(k.m, k.held, q, k.procs[q].value);
      PageLinks(task);
      SetNextWords(m, tail, task, k.procs[q].value.task);
      SetPrevWords(m1, task, tail, k.procs[q].value.task);
    }
  }

  lemma PageLinks(a: nat)
    requires HeapPage(a)
    ensures Link(a)
  {
  }

  lemma OwnSpaceLinked(m: Mem, m2: Mem, held': map<Owner, Run>, pid: nat)
    requires KeptButNext(m, m2, held' - {Owner(pid, Task)})
    ensures SpaceRunsSame(m, m2, held', pid)
  {
    hide SameRun, SameButNext;
    forall r: Role | SpaceRole(r) && Owner(pid, r) in held' ensures SameRun(m, m2, held'[Owner(pid, r)]) {
      assert Owner(pid, r) in held' - {Owner(pid, Task)};
    }
  }

  lemma OwnLinks(m: Mem, m1: Mem, m2: Mem, tail: nat, task: nat)
    requires HeapPage(task) && Link(tail) && LinkWords(m, task)
    requires tail + TASK_SIZE <= RAM_SIZE && m1 == SetNext(m, tail, task) && m2 == Store32(m1, task + PREV_WORD, tail)
    ensures LinkWords(m2, task) && PrevOf(m2, task) == tail
  {
    hide Load32, Store32;
    PageLinks(task);
    SetNextWords(m, tail, task, task);
    SetPrevWords(m1, task, tail, task);
    PrevSet(m1, task, tail, task);
  }

  /** task_new through a tail that serves: everything is where it belongs, and the
      new space is as it was built. */
  lemma EnlistReady(k: KState, pid: nat, t: Trace, held': map<Owner, Run>)
    requires Inv(k) && Advanced(k.m, t.m8, k.held, held') && OwnersSplit(k.held, held', pid) && TasksSingle(held')
    requires HoldsSpace(t.m8, held', pid, t.chunk) && HoldsRun(held', Owner(pid, Task), t.task, 1)
    requires HeapPage(t.task) && NextOf(t.m8, t.task) == 0 && PrevOf(t.m8, t.task) == 0
    requires k.ring.head == 0 || LinkFree(held' - {Owner(pid, Task)}, k.ring.tail)
    ensures CanEnlist(k, t)
    ensures t.chunk + 4 <= RAM_SIZE && DirectoryOf(t.m8, t.chunk) + PAGE_SIZE <= RAM_SIZE
    ensures var (m8, ring) := Enlist(t.m8, k.ring, t.task);
            && Enlisted(k, pid, t, held', m8, ring)
            && SpaceOk(m8, t.chunk) && DirectoryOf(m8, t.chunk) == DirectoryOf(t.m8, t.chunk)
            && LinkFree(k.held, PrevOf(m8, t.task)) && SameDirectory(t.m8, m8, t.chunk)
            && forall v :: 0 <= v < TOTAL_PAGES ==>
                 PageEntry(m8, DirectoryOf(t.m8, t.chunk), v) == PageEntry(t.m8, DirectoryOf(t.m8, t.chunk), v)
  {
    hide Load32, Store32, Inv, Held, LowGuard, HoldsSpace, KeptButNext, SameRun, SpaceOk, Extends, SpacesKept,
      LinkWords, LinkFree, PageEntry, OwnersSplit, Kept, TasksSingle;
    InvProcs(k);
    AdvancedParts(k.m, t.m8, k.held, held');
    AdvancedSpaces(k, t.m8, held');
    SplitTells(k.held, held', pid);
    HoldsSpaceBounds(t.m8, held', pid, t.chunk);
    ClearLinks(t.m8, t.task);
    if k.ring.head == 0 {
      HeldSpaceOk(t.m8, held', pid, t.chunk);
      NullFree(k.held);
      PageLinks(t.task);
    } else {
      var m1, m2 := TailLinked(t.m8, held', pid, k.ring.tail, t.task);
      SpacesKeptLinked(k, t.m8, m1, m2, held', pid, k.ring.tail, t.task);
      OwnSpaceLinked(t.m8, m2, held', pid);
      ChunkKept(t.m8, m2, held', pid, t.chunk);
      OwnLinks(t.m8, m1, m2, k.ring.tail, t.task);
      PageLinks(t.task);
      ButNextFewer(t.m8, m2, k.held, held' - {Owner(pid, Task)});
      ButNextTwice(k.m, t.m8, m2, k.held);
      SplitFewer(k.held, held', pid, k.ring.tail);
    }
  }

  lemma SplitTells(held: map<Owner, Run>, held': map<Owner, Run>, pid: nat)
    requires OwnersSplit(held, held', pid)
    ensures Extends(held, held' - {Owner(pid, Task)}) && Extends(held, held')
  {
  }

  lemma SplitFewer(held: map<Owner, Run>, held': map<Owner, Run>, pid: nat, p: nat)
    requires OwnersSplit(held, held', pid) && LinkFree(held' - {Owner(pid, Task)}, p)
    ensures LinkFree(held, p)
  {
    hide LinkFree;
    FreeForFewer(held, held', pid, p);
  }

  lemma NullFree(held: map<Owner, Run>)
    ensures LinkFree(held, 0)
  {
  }

  lemma ClearLinks(m: Mem, task: nat)
    requires HeapPage(task) && NextOf(m, task) == 0 && PrevOf(m, task) == 0
    ensures LinkWords(m, task)
  {
  }

  // ---- The whole load ----

  /** A load that is linked behind a tail that serves keeps the kernel sound, finished
      or abandoned, exactly if the image fits. */
  lemma LoadKeepsInv(k: KState, k': KState, pid: nat, program: Program, imageSize: uint32, t: Trace)
    requires Inv(k) && LoadNext(k, k', pid, program, imageSize, t)
    requires TailServes(k, pid, program.ElfProgram?, imageSize, t)
    ensures Inv(k') <==> ImageFits(program, ImageOf(imageSize, t), StackOf(t))
  {
    hide Load32, Inv, Prepares, Advanced, HeldForTask, SpaceOwners, SpaceHolding, Enlisted, LinkFree, TasksSingle,
      Held, PageEntry, HoldsSpace, LowGuard, Unlist, RingWithout, PrevOf, NextOf, ImageFits, MapMemory, Free4gb,
      Kfree, SpaceOk, PartsOk, OnlyTables, WritesInEither, BlocksFor, LoadedProc, OwnersSplit, Extends;
    LoadTells(k, k', pid, program, imageSize, t);
    var held' := LoadPrepared(k, pid, program, imageSize, t);
    EnlistReady(k, pid, t, held');
    var (m8, ring) := Enlist(t.m8, k.ring, t.task);
    LoadMapped(k, pid, program, imageSize, t, held', m8, ring);
    var (m9, res) := MapMemory(m8, t.chunk, program, t.image, imageSize, t.stack);
    SplitBack(k.held, held', pid);
    if res == 0 {
      LoadDone(k, pid, program, imageSize, t, held', m8, ring, m9);
    } else {
      LoadAbandoned(k, pid, t, held', m8, ring, m9);
    }
  }

  lemma SplitBack(held: map<Owner, Run>, held': map<Owner, Run>, pid: nat)
    requires OwnersSplit(held, held', pid)
    ensures forall o :: o in held ==> o.pid != pid
    ensures forall o :: o in held' && o.pid != pid ==> o in held
  {
  }

  /** A finished load changes nothing that is held but tasks' next words. */
  lemma LoadSpares(k: KState, k': KState, pid: nat, program: Program, imageSize: uint32, t: Trace)
    requires t.chunk + 4 <= RAM_SIZE && DirectoryOf(t.m8, t.chunk) + PAGE_SIZE <= RAM_SIZE
    requires TailServes(k, pid, program.ElfProgram?, imageSize, t)
    requires Inv(k) && LoadNext(k, k', pid, program, imageSize, t) && Live(k', pid)
    ensures Extends(k.held, k'.held)
    ensures forall o :: o in k.held && o.role != Task ==> SameRun(k.m, k'.m, k.held[o])
  {
    hide Load32, Inv, Prepares, Advanced, HeldForTask, SpaceOwners, SpaceHolding, Enlisted, LinkFree, TasksSingle,
      Held, PageEntry, HoldsSpace, LowGuard, Unlist, RingWithout, PrevOf, NextOf, PageFits, MapMemory, Free4gb,
      Kfree, SpaceOk, PartsOk, OnlyTables, WritesInEither, BlocksFor, LoadedProc, OwnersSplit, Extends, LoadNext,
      TailServes, ImageFits, LoadedHeld, KeptButNext, Enlist;
    LoadTells(k, k', pid, program, imageSize, t);
    var held' := LoadPrepared(k, pid, program, imageSize, t);
    EnlistReady(k, pid, t, held');
    var (m8, ring) := Enlist(t.m8, k.ring, t.task);
    LoadMapped(k, pid, program, imageSize, t, held', m8, ring);
    EnlistedTells(k, pid, t, held', m8, ring);
    FinishedLoad(k, k', pid, program, imageSize, t, m8, ring);
    OnlyTablesSpares(m8, k'.m, held', pid, t.chunk);
    SplitBack(k.held, held', pid);
    NextOnly(k.m, m8, k'.m, k.held, held', pid);
  }

  lemma FinishedLoad(k: KState, k': KState, pid: nat, program: Program, imageSize: uint32, t: Trace, m8: Mem,
                     ring: Ring)
    requires t.chunk + 4 <= RAM_SIZE && DirectoryOf(t.m8, t.chunk) + PAGE_SIZE <= RAM_SIZE
    requires CanEnlist(k, t) && Enlist(t.m8, k.ring, t.task) == (m8, ring) && SpaceOk(m8, t.chunk)
    requires LoadNext(k, k', pid, program, imageSize, t) && Live(k', pid)
    ensures k'.m == MapMemory(m8, t.chunk, program, t.image, imageSize, t.stack).0
    ensures MapMemory(m8, t.chunk, program, t.image, imageSize, t.stack).1 == 0
    ensures k'.procs == k.procs[pid := Some(LoadedProc(program, imageSize, t))]
    ensures k'.held == LoadedHeld(k, pid, program.ElfProgram?, imageSize, t)
  {
    hide Load32, Prepares, MapMemory, Kfree, Free4gb, Unlist, RingWithout, PrevOf, SpaceOk, LoadedHeld, Enlist,
      LoadedProc;
  }

  lemma NextOnly(m: Mem, m8: Mem, m9: Mem, held: map<Owner, Run>, held': map<Owner, Run>, pid: nat)
    requires KeptButNext(m, m8, held) && Extends(held, held') && forall o :: o in held ==> o.pid != pid
    requires forall o :: o in held' && !(o.pid == pid && o.role.PageTable?) ==> SameRun(m8, m9, held'[o])
    ensures forall o :: o in held && o.role != Task ==> SameRun(m, m9, held[o])
  {
    hide SameRun, SameButNext;
    forall o | o in held && o.role != Task ensures SameRun(m, m9, held[o]) {
      SameTwice(m, m8, m9, held[o]);
    }
  }

  /** The stack is at 0x3FB000 and a flat binary at 0x400000, both to write, and segments
      are as process_map_elf has left them. Every other page maps to itself, to read
      only, and no table's link stands in the way. */
  ghost predicate Finds(m: Mem, dir: nat, program: Program, image: uint32, imageSize: uint32, stack: uint32)
    requires dir + PAGE_SIZE <= RAM_SIZE
  {
    && (forall i :: 0 <= i < TABLE_ENTRIES ==> LinkedAs(DirectoryEntry(m, dir, i), 5))
    && ShowsRange(m, dir, 0x3F_B000, 0x4000, stack, true)
    && match program
       case BinaryProgram =>
         && ShowsRange(m, dir, 0x40_0000, imageSize, image, true)
         && forall v :: 0 <= v < TOTAL_PAGES && !(0x3FB <= v < 0x3FF)
                        && (v < 0x400 || 0x40_0000 + imageSize <= v * PAGE_SIZE) ==>
              PageEntry(m, dir, v) == v * PAGE_SIZE + 5
       case ElfProgram(_, headers) =>
         && AllMappable(image, headers)
         && forall v :: 0 <= v < TOTAL_PAGES && !(0x3FB <= v < 0x3FF) ==>
              PageEntry(m, dir, v) == ElfEntry(image, headers, v, v * PAGE_SIZE + 5)
  }

  /** So a segment is there at its address, writeable exactly if it asks for that, if no
      page belongs to two segments and none of its pages to the stack. */
  lemma SegmentFound(m: Mem, dir: nat, program: Program, image: uint32, imageSize: uint32, stack: uint32, i: nat)
    requires program.ElfProgram? && image % PAGE_SIZE == 0 && AllMappable(image, program.headers)
    requires PageDisjoint(image, program.headers) && i < |program.headers| && InBounds(image, program.headers[i])
    requires program.headers[i].offset % PAGE_SIZE == program.headers[i].vaddr % PAGE_SIZE
    requires forall v: nat :: BytePage(program.headers[i], v) ==> !(0x3FB <= v < 0x3FF)
    requires dir + PAGE_SIZE <= RAM_SIZE && Finds(m, dir, program, image, imageSize, stack)
    ensures var ph := program.headers[i];
      ShowsRange(m, dir, ph.vaddr, ph.memsz, image + ph.offset, Writes(ph))
  {
    hide ShowsRange, PageEntry, ElfEntry, LinkedAs, DirectoryEntry, Mappable, PageDisjoint, InBounds, BytePage, Writes;
    var prior := seq<uint32>(TOTAL_PAGES, v requires 0 <= v < TOTAL_PAGES => v * PAGE_SIZE + 5);
    SegmentShown(m, dir, image, program.headers, i, prior);
  }

  /** The process, through its own page tables. */
  ghost predicate ProgramFound(k: KState, pid: nat, program: Program, imageSize: uint32, t: Trace) {
    && SpaceDefined(k, pid) && k.procs[pid].value == LoadedProc(program, imageSize, t)
    && Finds(k.m, DirectoryOf(k.m, k.procs[pid].value.chunk), program, t.image, imageSize, t.stack)
  }

  /** A finished load's process finds its stack and its program. */
  lemma LoadShows(k: KState, k': KState, pid: nat, program: Program, imageSize: uint32, t: Trace)
    requires Inv(k) && LoadNext(k, k', pid, program, imageSize, t) && Live(k', pid)
    requires TailServes(k, pid, program.ElfProgram?, imageSize, t)
    ensures ProgramFound(k', pid, program, imageSize, t)
  {
    hide Load32, Inv, Prepares, Advanced, HeldForTask, SpaceOwners, SpaceHolding, Enlisted, LinkFree, TasksSingle,
      Held, PageEntry, HoldsSpace, LowGuard, PrevOf, NextOf, MapMemory, SpaceOk, PartsOk, OnlyTables, BlocksFor,
      LoadedProc, OwnersSplit, Extends, LoadNext, TailServes, LoadedHeld, Enlist, ShowsRange, AllMappable, ElfEntry,
      LinkedAs, DirectoryEntry, SameDirectory, IsWriteable, SpacesKept, KeptButNext, LinkWords;
    LoadTells(k, k', pid, program, imageSize, t);
    var held' := LoadPrepared(k, pid, program, imageSize, t);
    EnlistReady(k, pid, t, held');
    var (m8, ring) := Enlist(t.m8, k.ring, t.task);
    FinishedLoad(k, k', pid, program, imageSize, t, m8, ring);
    EnlistedTells(k, pid, t, held', m8, ring);
    PartPointers(m8, held', pid, LoadedProc(program, imageSize, t));
    LoadedFields(program, imageSize, t);
    MemoryShown(m8, t.chunk, program, t.image, imageSize, t.stack);
    MemoryMapped(m8, t.chunk, program, t.image, imageSize, t.stack);
    LinksKept(t.m8, m8, k'.m, t.chunk);
  }

  lemma LoadedFields(program: Program, imageSize: uint32, t: Trace)
    ensures var p := LoadedProc(program, imageSize, t);
      && p.program == program && p.image == t.image && p.imageSize == imageSize && p.stack == t.stack
      && p.chunk == t.chunk && p.task == t.task
  {
  }

  lemma LinksKept(m: Mem, m8: Mem, m9: Mem, chunk: nat)
    requires chunk + 4 <= RAM_SIZE && DirectoryOf(m, chunk) + PAGE_SIZE <= RAM_SIZE
    requires SameDirectory(m, m8, chunk) && OnlyTables(m8, m9, chunk)
    ensures DirectoryOf(m9, chunk) == DirectoryOf(m, chunk)
    ensures forall i :: 0 <= i < TABLE_ENTRIES ==>
              DirectoryEntry(m9, DirectoryOf(m, chunk), i) == DirectoryEntry(m, DirectoryOf(m, chunk), i)
  {
    hide Load32;
  }

  /** A finished load of a program whose writeable last segment ends past its image,
      in a page the stack does not cover, leaves the kernel unsound. */
  lemma LoadPastImageBreaks(k: KState, k': KState, pid: nat, program: Program, imageSize: uint32, t: Trace)
    requires Inv(k) && LoadNext(k, k', pid, program, imageSize, t)
    requires TailServes(k, pid, program.ElfProgram?, imageSize, t)
    requires PastImage(program, ImageOf(imageSize, t), StackOf(t))
    ensures !Inv(k')
  {
    hide *;
    LoadKeepsInv(k, k', pid, program, imageSize, t);
    SegmentPastImage(program, ImageOf(imageSize, t), StackOf(t));
  }

  /** Everything up to task_new. */
  lemma LoadPrepared(k: KState, pid: nat, program: Program, imageSize: uint32, t: Trace)
    returns (held': map<Owner, Run>)
    requires Inv(k) && pid < MAX_PROCESSES && pid < |k.procs| && k.procs[pid].None?
    requires program.ElfProgram? ==> program.file == t.file
    requires Prepares(k, pid, program.ElfProgram?, imageSize, t)
    requires t.chunk + 4 <= RAM_SIZE && DirectoryOf(t.m8, t.chunk) + PAGE_SIZE <= RAM_SIZE
    requires TailServes(k, pid, program.ElfProgram?, imageSize, t)
    ensures Advanced(k.m, t.m8, k.held, held') && OwnersSplit(k.held, held', pid) && TasksSingle(held')
    ensures HoldsSpace(t.m8, held', pid, t.chunk) && HoldsRun(held', Owner(pid, Task), t.task, 1)
    ensures HeapPage(t.task) && NextOf(t.m8, t.task) == 0 && PrevOf(t.m8, t.task) == 0
    ensures k.ring.head == 0 || LinkFree(held' - {Owner(pid, Task)}, k.ring.tail)
    ensures held' == LoadedHeld(k, pid, program.ElfProgram?, imageSize, t)
    ensures Extends(HeldForTask(k.held, pid, program.ElfProgram?, imageSize, t), held')
    ensures held'.Keys == HeldForTask(k.held, pid, program.ElfProgram?, imageSize, t).Keys + SpaceOwners(pid)
    ensures PartsOk(held', pid, LoadedProc(program, imageSize, t))
    ensures forall v :: 0 <= v < TOTAL_PAGES ==> !IsWriteable(PageEntry(t.m8, DirectoryOf(t.m8, t.chunk), v))
    ensures FreshSpace(t.m8, DirectoryOf(t.m8, t.chunk))
  {
    hide Load32, Inv, Prepares, Advanced, HeldForTask, SpaceOwners, SpaceHolding, LinkFree, TasksSingle, Held,
      PageEntry, HoldsSpace, LowGuard, PrevOf, NextOf, ImageFits, PartsOk, BlocksFor, LoadedProc, IsWriteable,
      Extends, Kept, FreshSpace;
    NobodyYet(k, pid);
    held' := Prepared(k, pid, program.ElfProgram?, imageSize, t);
    LoadedParts(k.held, held', pid, program, imageSize, t);
    NoSpaceYet(k.held, pid, program.ElfProgram?, imageSize, t);
    AdvancedParts(k.m, t.m8, k.held, held');
    ReadOnlySpace(t.m8, DirectoryOf(t.m8, t.chunk));
    HoldingIs(t.m8, HeldForTask(k.held, pid, program.ElfProgram?, imageSize, t), held', pid, t.chunk);
    NewOwners(k.held, held', pid, program.ElfProgram?, imageSize, t);
    PartsTask(held', pid, LoadedProc(program, imageSize, t), t.task) by { LoadedTask(program, imageSize, t); }
    InvTasksSingle(k);
    SplitSingle(k.held, held', pid, t.task);
  }

  lemma LoadTells(k: KState, k': KState, pid: nat, program: Program, imageSize: uint32, t: Trace)
    requires LoadNext(k, k', pid, program, imageSize, t)
    ensures pid < MAX_PROCESSES && pid < |k.procs| && k.procs[pid].None?
    ensures program.ElfProgram? ==> program.file == t.file
    ensures Prepares(k, pid, program.ElfProgram?, imageSize, t)
    ensures t.chunk + 4 <= RAM_SIZE && DirectoryOf(t.m8, t.chunk) + PAGE_SIZE <= RAM_SIZE
  {
    hide Load32, Prepares, MapMemory, Kfree, Free4gb, Unlist, RingWithout;
  }

  lemma LoadedTask(program: Program, imageSize: uint32, t: Trace)
    ensures LoadedProc(program, imageSize, t).task == t.task
  {
  }

  lemma PartsTask(held: map<Owner, Run>, pid: nat, p: Proc, task: nat)
    requires PartsOk(held, pid, p) && p.task == task
    ensures HoldsRun(held, Owner(pid, Task), task, 1)
  {
    hide BlocksFor;
  }

  lemma SplitSingle(held: map<Owner, Run>, held': map<Owner, Run>, pid: nat, task: nat)
    requires TasksSingle(held) && Extends(held, held') && HoldsRun(held', Owner(pid, Task), task, 1)
    requires forall o :: o in held' && o.pid != pid ==> o in held
    requires forall o :: o in held ==> o.pid != pid
    ensures TasksSingle(held') && OwnersSplit(held, held', pid)
  {
    forall o | o in held' && o.role == Task ensures held'[o].blocks == 1 {
      if o.pid == pid { assert o == Owner(pid, Task); }
    }
  }

  /** The mapping that follows writes the new space only. */
  lemma LoadMapped(k: KState, pid: nat, program: Program, imageSize: uint32, t: Trace, held': map<Owner, Run>,
                   m8: Mem, ring: Ring)
    requires Enlisted(k, pid, t, held', m8, ring) && SpaceOk(m8, t.chunk)
    requires PartsOk(held', pid, LoadedProc(program, imageSize, t))
    requires forall v :: 0 <= v < TOTAL_PAGES ==> !IsWriteable(PageEntry(m8, DirectoryOf(m8, t.chunk), v))
    ensures var (m9, res) := MapMemory(m8, t.chunk, program, t.image, imageSize, t.stack);
            && res <= 0 && OnlyTables(m8, m9, t.chunk)
            && (res < 0 ==> ImageFits(program, ImageOf(imageSize, t), StackOf(t)))
            && (res == 0 ==> (WritesInEither(m9, DirectoryOf(m8, t.chunk), ImageOf(imageSize, t), StackOf(t)) <==>
                              ImageFits(program, ImageOf(imageSize, t), StackOf(t))))
  {
    hide Load32, PageEntry, IsWriteable, PageFits, MapMemory, SpaceOk, PartsOk, BlocksFor, OnlyTables, WritesInEither,
      Held, HoldsSpace, LowGuard, SpacesKept, LinkWords, KeptButNext, AllMappable;
    EnlistedTells(k, pid, t, held', m8, ring);
    PartPointers(m8, held', pid, LoadedProc(program, imageSize, t));
    MemoryMapped(m8, t.chunk, program, t.image, imageSize, t.stack);
  }

  // ---- Loads that stop before task_new ----

  /** Each memory follows from the one before by kernel work that touches nothing
      held, or by an allocation that nobody comes to own. */
  ghost predicate Leaks(ms: seq<Mem>, held: map<Owner, Run>) {
    forall i :: 0 <= i < |ms| - 1 ==> Environment(ms[i], ms[i + 1], held) || Leaked(ms[i], ms[i + 1])
  }

  ghost predicate Leaked(m: Mem, m': Mem) {
    exists size: uint32, p: uint32 :: Granted(m, size, m', p)
  }

  /** A load that is refused an allocation, or whose file cannot be read, before it
      comes to task_new keeps what it has obtained: to everybody else all of it is
      one step of the environment. */
  lemma {:induction false} LeaksAreEnvironment(ms: seq<Mem>, held: map<Owner, Run>)
    requires ms != [] && Held(ms[0], held) && LowGuard(ms[0]) && PASSING !in held && Leaks(ms, held)
    ensures Environment(ms[0], ms[|ms| - 1], held)
    decreases |ms|
  {
    hide Held, LowGuard, Leaked, SameRun;
    if |ms| == 1 {
      SelfAdvances(ms[0], held);
    } else {
      if Leaked(ms[0], ms[1]) { LeakIsEnvironment(ms[0], ms[1], held); }
      RestLeaks(ms, held);
      LeaksAreEnvironment(ms[1..], held);
      EnvironmentTwice(ms[0], ms[1], ms[|ms| - 1], held);
    }
  }

  lemma RestLeaks(ms: seq<Mem>, held: map<Owner, Run>)
    requires |ms| >= 2 && Leaks(ms, held)
    ensures Leaks(ms[1..], held)
  {
    hide Environment, Leaked;
    forall i | 0 <= i < |ms[1..]| - 1
      ensures Environment(ms[1..][i], ms[1..][i + 1], held) || Leaked(ms[1..][i], ms[1..][i + 1])
    {
      assert Environment(ms[i + 1], ms[i + 2], held) || Leaked(ms[i + 1], ms[i + 2]);
    }
  }

  lemma LeakIsEnvironment(m: Mem, m': Mem, held: map<Owner, Run>)
    requires Held(m, held) && LowGuard(m) && PASSING !in held && Leaked(m, m')
    ensures Environment(m, m', held)
  {
    hide Held, LowGuard, Granted, BlocksFor;
    var size: uint32, p: uint32 :| Granted(m, size, m', p);
    GrantAdvances(m, held, PASSING, size, m', p);
    HeldShrinks(m', held[PASSING := Run(p, BlocksFor(size))], held);
  }

  lemma EnvironmentTwice(m: Mem, m1: Mem, m2: Mem, held: map<Owner, Run>)
    requires Environment(m, m1, held) && Environment(m1, m2, held)
    ensures Environment(m, m2, held)
  {
    hide Held, LowGuard;
    forall o | o in held ensures SameRun(m, m2, held[o]) {
      SameTwice(m, m1, m2, held[o]);
    }
  }

  lemma StoppedLoadIsOther(k: KState, ms: seq<Mem>)
    requires Inv(k) && ms != [] && ms[0] == k.m && Leaks(ms, k.held)
    ensures Next(k, Other(ms[|ms| - 1]), k.(m := ms[|ms| - 1]))
  {
    hide Inv, Held, LowGuard, Leaks, Environment;
    InvProcs(k);
    NobodyPassing(k);
    LeaksAreEnvironment(ms, k.held);
  }

  // ---- Runs ----

  datatype Action =
    | Malloc(pid: nat, size: uint32)
    | Free(pid: nat, ptr: uint32)
    | Store(pid: nat, address: uint32, value: byte)
    | Exit(pid: nat)
    | Start(pid: nat, program: Program, imageSize: uint32, trace: Trace)
    | GiveArguments(pid: nat, args: seq<seq<byte>>)
    | TakeArguments(pid: nat, address: uint32, argc: uint32, argv: uint32)
    | ReadString(pid: nat, address: uint32, buffer: nat, max: int)
    | Switch(pid: nat)
    | NextTurn
    | Note(pid: nat, memory: Mem)
    | Other(memory: Mem)

  ghost predicate Next(k: KState, a: Action, k': KState) {
    hide Load32, Kzalloc, Fits, TrailingStart, LiveSpace, BeforeExit, CanTerminate, Prepares, MapMemory, LinkSafe,
      LinkFree, WellFormed, SlotOf, Table, Unlist, RingWithout, Expendable, LoadedHeld;
    match a
    case Malloc(pid, size) => CanCall(k, pid) && MallocSound(k, pid, size) && k' == MallocStep(k, pid, size)
    case Free(pid, ptr) => CanCall(k, pid) && k' == FreeStep(k, pid, ptr)
    case Store(pid, address, value) => SpaceDefined(k, pid) && k' == UserStore(k, pid, address, value)
    case Exit(pid) =>
      pid < |k.procs| && k.procs[pid].Some? && CanExit(k.m, k.procs[pid].value) && ExitSafe(k, pid)
      && k' == TerminateStep(k, pid)
    case Start(pid, program, imageSize, trace) =>
      LoadNext(k, k', pid, program, imageSize, trace)
      && TailServes(k, pid, program.ElfProgram?, imageSize, trace)
      && ImageFits(program, ImageOf(imageSize, trace), StackOf(trace))
    case GiveArguments(pid, args) => Arguments.CanInject(k, pid, args) && k' == Arguments.Inject(k, pid, args).k
    case TakeArguments(pid, address, argc, argv) =>
      SpaceDefined(k, pid) && Harmless(k, pid, address, argc, argv) && k' == GetStep(k, pid, address, argc, argv)
    case ReadString(pid, address, buffer, max) =>
      CanCall(k, pid) && CopyString.KernelBuffer(buffer, max)
      && k' == k.(m := CopyString.CopyString(k.m, k.procs[pid].value.chunk, address, buffer, max).0)
    case Switch(pid) => Live(k, pid) && k' == SwitchTo(k, pid)
    case NextTurn =>
      && k.ring.current + TASK_SIZE <= RAM_SIZE && Link(NextOf(k.m, k.ring.current)) && k' == SwitchNext(k)
    case Note(pid, memory) => Live(k, pid) && Noted(k.m, memory, k.procs[pid].value) && k' == k.(m := memory)
    case Other(memory) => Environment(k.m, memory, k.held) && k' == k.(m := memory)
  }

  /** The guards ask nothing of a sound kernel but that the process exists. */
  lemma LiveCanAct(k: KState, pid: nat)
    requires Inv(k) && Live(k, pid)
    ensures CanCall(k, pid) && SpaceDefined(k, pid) && CanExit(k.m, k.procs[pid].value)
  {
    hide *;
    LiveCanCall(k, pid);
    LiveSpaceDefined(k, pid);
    TerminateExact(k, pid);
  }

  lemma OtherKeepsInv(k: KState, memory: Mem)
    requires Inv(k) && Environment(k.m, memory, k.held)
    ensures Inv(k.(m := memory))
  {
    hide Held, LowGuard, ProcOk, SameRun, OwnersLive;
    forall q | 0 <= q < MAX_PROCESSES && k.procs[q].Some? ensures KernelRunsSame(k.m, memory, k.held, q) {
      AllRunsSame(k.m, memory, k.held, q);
    }
    FrameKeepsInv(k, memory);
  }

  lemma NextLive(k: KState, pid: nat)
    requires pid < |k.procs| && k.procs[pid].Some?
    ensures Live(k, pid)
  {
  }

  lemma CanCallLive(k: KState, pid: nat)
    requires CanCall(k, pid) || SpaceDefined(k, pid)
    ensures Live(k, pid)
  {
    hide Load32, LiveSpace;
  }

  /** Every step keeps the kernel sound. */
  lemma NextKeepsInv(k: KState, a: Action, k': KState)
    requires Inv(k) && Next(k, a, k')
    ensures Inv(k')
  {
    hide Inv, CanCall, MallocStep, FreeStep, UserStore, TerminateStep, LoadNext, Environment, SpaceDefined, CanExit,
      ExitSafe, TailServes, ImageFits, Noted, SwitchTo, SwitchNext, NextOf, MallocSound, Live, Harmless, GetStep,
      CopyString.CopyString, Arguments.Inject, Arguments.CanInject;
    match a
    case Malloc(pid, size) =>
      CanCallLive(k, pid);
      MallocKeepsInvIff(k, pid, size);
    case Free(pid, ptr) =>
      CanCallLive(k, pid);
      FreeKeepsInv(k, pid, ptr);
    case Store(pid, address, value) =>
      CanCallLive(k, pid);
      UserStoreKeepsInv(k, pid, address, value);
    case Exit(pid) =>
      NextLive(k, pid);
      TerminateExact(k, pid);
    case Start(pid, program, imageSize, trace) =>
      LoadKeepsInv(k, k', pid, program, imageSize, trace);
    case GiveArguments(pid, args) =>
      ArgumentsSound(k, pid, args);
    case TakeArguments(pid, address, argc, argv) =>
      CanCallLive(k, pid);
      GetKeepsInv(k, pid, address, argc, argv);
    case ReadString(pid, address, buffer, max) =>
      CanCallLive(k, pid);
      CopyString.CopyKeepsInv(k, pid, address, buffer, max);
    case Switch(pid) =>
      SwitchToKeepsInv(k, pid);
    case NextTurn =>
      SwitchNextKeepsInvIff(k);
    case Note(pid, memory) =>
      NoteKeepsInv(k, pid, memory);
    case Other(memory) =>
      OtherKeepsInv(k, memory);
  }

  lemma ArgumentsSound(k: KState, pid: nat, args: seq<seq<byte>>)
    requires Arguments.CanInject(k, pid, args)
    ensures Inv(Arguments.Inject(k, pid, args).k)
  {
    hide *;
    var _, _ := Arguments.InjectDelivers(k, pid, args);
  }

  /** A kernel that has booted: no process, a sound heap, and the byte that stops
      kfree(NULL) below the table. */
  ghost predicate Booted(k: KState) {
    && k.procs == seq(MAX_PROCESSES, i => None) && k.held == map[] && k.ring == NO_TASKS
    && WellFormed(Table(k.m)) && LowGuard(k.m)
  }

  /** kheap_init leaves such a kernel: the table it has cleared decodes into no
      allocation at all. */
  lemma AfterHeapInit(m: Mem)
    requires LowGuard(m)
    ensures var m' := Zero(m, TABLE_ADDRESS, TOTAL_BLOCKS);
      Booted(KState(m', seq(MAX_PROCESSES, i => None), map[], NO_TASKS))
  {
    var m' := Zero(m, TABLE_ADDRESS, TOTAL_BLOCKS);
    forall k | 0 <= k < TOTAL_BLOCKS ensures Table(m')[k] == ENTRY_FREE {
      assert Table(m')[k] == m'[TABLE_ADDRESS + k];
    }
    AllFreeNoRuns(Table(m'));
    var j :| NULL_ENTRY <= j < TABLE_ADDRESS && !HasNext(m[j]);
    assert m'[j] == m[j];
  }

  ghost predicate Execution(states: seq<KState>, actions: seq<Action>) {
    && |states| == |actions| + 1 && Booted(states[0])
    && forall i :: 0 <= i < |actions| ==> Next(states[i], actions[i], states[i + 1])
  }

  lemma BootedSound(k: KState)
    requires Booted(k)
    ensures Inv(k)
  {
  }

  /** In every state of every run the kernel is sound. */
  lemma {:induction false} AlwaysSound(states: seq<KState>, actions: seq<Action>, i: nat)
    requires Execution(states, actions) && i < |states|
    ensures Inv(states[i])
    decreases i
  {
    hide Inv, Next, Booted;
    if i == 0 {
      BootedSound(states[0]);
    } else {
      AlwaysSound(states, actions, i - 1);
      NextKeepsInv(states[i - 1], actions[i - 1], states[i]);
    }
  }

  /** Write isolation over every run: at no time is a frame writeable for two
      processes, and at no time does a store by one process reach a byte another
      process holds, a page table, or the heap table. */
  lemma AlwaysIsolated(states: seq<KState>, actions: seq<Action>, i: nat, pid: nat, pid': nat, v: nat, v': nat,
                       a: uint32, b: byte)
    requires Execution(states, actions) && i < |states|
    requires Live(states[i], pid) && Live(states[i], pid') && pid != pid' && v < TOTAL_PAGES && v' < TOTAL_PAGES
    ensures SpaceDefined(states[i], pid) && SpaceDefined(states[i], pid')
    ensures var k := states[i];
            && (IsWriteable(EntryOf(k, k.procs[pid].value, v)) && IsWriteable(EntryOf(k, k.procs[pid'].value, v'))
                ==> FrameOf(EntryOf(k, k.procs[pid].value, v)) != FrameOf(EntryOf(k, k.procs[pid'].value, v')))
            && var k' := UserStore(k, pid, a, b);
               && (forall o :: o in k.held && (o.pid == pid' || KernelRole(o.role)) ==> SameRun(k.m, k'.m, k.held[o]))
               && Table(k'.m) == Table(k.m)
  {
    hide Inv, Execution, Load32, PageEntry, UserStore, FrameOf, IsWriteable;
    var k := states[i];
    AlwaysSound(states, actions, i);
    LiveSpaceDefined(k, pid);
    LiveSpaceDefined(k, pid');
    if IsWriteable(EntryOf(k, k.procs[pid].value, v)) {
      WriteIsolation(k, pid, v, pid', v', Owner(pid, Chunk));
    }
    UserStoreConfined(k, pid, a, b);
    BelowHeapSame(k.m, UserStore(k, pid, a, b).m);
  }
}
