/** A load that stops at a segment that cannot be mapped: what it leaves behind. */
module AbandonedLoad {
  import opened Memory
  import opened HeapTable
  import opened Heap
  import opened KernelHeap
  import opened Owners
  import opened Paging
  import opened AddressSpace
  import opened Process
  import opened Tasks
  import opened Isolation
  import opened Steps
  import opened Links
  import opened Terminate
  import opened Load
  import opened Machine

  /** The runs of the space are the ones it added. */
  lemma SpaceRuns(held7: map<Owner, Run>, held': map<Owner, Run>, pid: nat, a: int, b: int)
    requires held'.Keys == held7.Keys + SpaceOwners(pid) && held7.Keys !! SpaceOwners(pid)
    ensures NewlyNamed(held7, held', a, b) <==> Names(held', SpaceOwnerList(pid), a, b)
  {
    TaskNotSpace(pid);
  }

  /** What the load holds before and after its space is built, and the runs between. */
  lemma SpaceGrew(k: KState, pid: nat, elf: bool, imageSize: uint32, t: Trace)
    requires Held(k.m, k.held) && LowGuard(k.m) && forall o :: o in k.held ==> o.pid != pid
    requires t.chunk + 4 <= RAM_SIZE && DirectoryOf(t.m8, t.chunk) + PAGE_SIZE <= RAM_SIZE
    requires Prepares(k, pid, elf, imageSize, t)
    ensures RunsGrew(t.m7, t.m8, HeldForTask(k.held, pid, elf, imageSize, t), LoadedHeld(k, pid, elf, imageSize, t))
    ensures WellFormed(Table(t.m7))
  {
    var held7 := HeldForTask(k.held, pid, elf, imageSize, t);
    TaskGranted(k, pid, elf, imageSize, t);
    AdvancedHeld(k.m, t.m7, k.held, held7);
    InHeld(t.m7, held7);
    SpaceStage(k, pid, elf, imageSize, t);
    NoSpaceYet(k.held, pid, elf, imageSize, t);
    hide HeldForTask, Prepares, Held, Load32, PageEntry, DirectoryEntry, SpaceOwners, RunsGrew, SpaceHolding, New4gb,
      HoldsSpace, LinkedAs, LowGuard, WellFormed, FreeBlocks, Table;
    var held' := SpaceBuilt(t.m7, held7, pid, SPACE_FLAGS);
    RunsGrewExtends(t.m7, t.m8, held7, held');
    HoldingIs(t.m8, held7, held', pid, t.chunk);
  }

  /** Page tables given back: the heap table is as before they were built. */
  lemma SpaceGone(m7: Mem, m8: Mem, m9: Mem, held7: map<Owner, Run>, held': map<Owner, Run>, pid: nat, chunk: nat)
    requires RunsGrew(m7, m8, held7, held') && WellFormed(Table(m7)) && Table(m9) == Table(m8)
    requires held'.Keys == held7.Keys + SpaceOwners(pid) && held7.Keys !! SpaceOwners(pid)
    requires Held(m9, held') && HoldsSpace(m9, held', pid, chunk)
    ensures SpaceOk(m9, chunk) && Table(Free4gb(m9, chunk)) == Table(m7)
  {
    hide Load32, IsRun, Free4gb, HoldsSpace, WellFormed, Table, SpaceOwners, SpaceOk, Names, NewlyNamed, Extends;
    SpaceFreed(m9, held', pid, chunk);
    var m10 := Free4gb(m9, chunk);
    StillWellFormed(m10, held' - SpaceOwners(pid));
    forall a, b ensures IsRun(Table(m10), a, b) <==> IsRun(Table(m7), a, b) {
      SpaceRuns(held7, held', pid, a, b);
    }
    RunsDetermineTable(Table(m10), Table(m7));
  }

  lemma StillWellFormed(m: Mem, held: map<Owner, Run>)
    requires Held(m, held)
    ensures WellFormed(Table(m))
  {
  }

  lemma StoreTable(m: Mem, a: nat, v: uint32)
    requires a + 4 <= TABLE_ADDRESS || HEAP_ADDRESS <= a
    requires a + 4 <= RAM_SIZE
    ensures Table(Store32(m, a, v)) == Table(m)
  {
    StoreKeeps(m, a, v);
    hide Store32;
  }

  /** task_new's stores into the list miss the heap table. */
  lemma EnlistTable(m: Mem, ring: Ring, task: uint32)
    requires HeapPage(task) && RingLinks(ring)
    ensures ring.head != 0 ==> ring.tail + TASK_SIZE <= RAM_SIZE
    ensures Table(Enlist(m, ring, task).0) == Table(m)
  {
    hide Table, Store32;
    if ring.head != 0 {
      StoreTable(m, ring.tail + NEXT_WORD, task);
      StoreTable(SetNext(m, ring.tail, task), task + PREV_WORD, ring.tail);
    }
  }

  /** The task's block, taken last, is given back last. */
  lemma TaskGone(m6: Mem, m7: Mem, m11: Mem, task: uint32)
    requires Granted(m6, TASK_SIZE, m7, task) && WellFormed(Table(m6)) && Table(m11) == Table(m7)
    ensures Freeable(task) && Table(Kfree(m11, task)) == Table(m6)
  {
    assert BlocksFor(TASK_SIZE) == 1;
    hide Kzalloc, Kfree, WellFormed, IsRun, Fits, FirstFit, BlocksFor, RunsAdded, Take, Release, Table, FreeRun;
    KzallocFits(m6, TASK_SIZE);
    FittingStart(Table(m6), 1);
    BlockOfStart(FirstFit(Table(m6), 1, 0));
    RunByTable(m7, m11, Run(task, 1));
    KfreeRun(m11, Run(task, 1));
    TakeThenRelease(Table(m6), BlockOf(task), 1);
  }

  lemma RunByTable(m: Mem, m': Mem, r: Run)
    requires RunAt(m, r) && WellFormed(Table(m)) && Table(m') == Table(m)
    ensures RunAt(m', r) && WellFormed(Table(m'))
  {
  }

  lemma Abandoned(k: KState, k': KState, pid: nat, program: Program, imageSize: uint32, t: Trace, m8: Mem, ring: Ring)
    requires t.chunk + 4 <= RAM_SIZE && DirectoryOf(t.m8, t.chunk) + PAGE_SIZE <= RAM_SIZE
    requires CanEnlist(k, t) && Enlist(t.m8, k.ring, t.task) == (m8, ring) && SpaceOk(m8, t.chunk)
    requires LoadNext(k, k', pid, program, imageSize, t) && !Live(k', pid)
    ensures var m9 := MapMemory(m8, t.chunk, program, t.image, imageSize, t.stack).0; var m10 := Free4gb(m9, t.chunk);
      && PrevOf(m10, t.task) + TASK_SIZE <= RAM_SIZE && Freeable(t.task)
      && k'.m == Kfree(Unlist(m10, t.task), t.task) && k'.procs == k.procs && k'.held == k.held
  {
    hide Load32, Prepares, MapMemory, Kfree, Free4gb, Unlist, RingWithout, PrevOf, SpaceOk, LoadedHeld, Enlist,
      LoadedProc;
  }

  lemma BeforeTask(k: KState, pid: nat, elf: bool, imageSize: uint32, t: Trace)
    requires Held(k.m, k.held) && LowGuard(k.m) && forall o :: o in k.held ==> o.pid != pid
    requires Prepares(k, pid, elf, imageSize, t)
    ensures WellFormed(Table(t.m6)) && Granted(t.m6, TASK_SIZE, t.m7, t.task)
  {
    hide Held, LowGuard, Granted, BlocksFor, Environment, FreeBlocks, New4gb, Advanced, Table, WellFormed;
    DataRead(k, pid, elf, imageSize, t);
    var held4 := HeldForImage(k.held, pid, elf, imageSize, t);
    var held6 := held4[Owner(pid, Stack) := Run(t.stack, BlocksFor(STACK_SIZE))];
    ThenGranted(k.m, k.held, t.afterRead, held4, Owner(pid, Stack), STACK_SIZE, t.m6, t.stack);
    AdvancedHeld(k.m, t.m6, k.held, held6);
    InHeld(t.m6, held6);
  }

  /** An abandoned load gives back exactly what task_new took: the heap table is, entry
      for entry, what it was before. The process structure, the file's data and the
      stack stay allocated, and nobody owns them. */
  lemma AbandonedRestoresTable(k: KState, k': KState, pid: nat, program: Program, imageSize: uint32, t: Trace)
    requires t.chunk + 4 <= RAM_SIZE && DirectoryOf(t.m8, t.chunk) + PAGE_SIZE <= RAM_SIZE
    requires TailServes(k, pid, program.ElfProgram?, imageSize, t)
    requires Inv(k) && LoadNext(k, k', pid, program, imageSize, t) && !Live(k', pid)
    ensures Table(k'.m) == Table(t.m6) && k'.procs == k.procs && k'.held == k.held
  {
    hide Load32, Inv, Prepares, Advanced, HeldForTask, SpaceOwners, SpaceHolding, Enlisted, LinkFree, TasksSingle,
      Held, PageEntry, HoldsSpace, LowGuard, PrevOf, NextOf, MapMemory, SpaceOk, PartsOk, OnlyTables, BlocksFor,
      LoadedProc, OwnersSplit, Extends, LoadNext, TailServes, LoadedHeld, Enlist, FreshSpace, Granted, RunsGrew,
      SameDirectory, IsWriteable, SpacesKept, KeptButNext, LinkWords, Table, WellFormed, Free4gb, Kfree, Unlist,
      RingLinks, ImageFits, WritesInEither, SameRun;
    LoadTells(k, k', pid, program, imageSize, t);
    NobodyYet(k, pid);
    InvProcs(k);
    var elf := program.ElfProgram?;
    var held7 := HeldForTask(k.held, pid, elf, imageSize, t);
    var held' := LoadPrepared(k, pid, program, imageSize, t);
    EnlistReady(k, pid, t, held');
    var (m8, ring) := Enlist(t.m8, k.ring, t.task);
    LoadMapped(k, pid, program, imageSize, t, held', m8, ring);
    EnlistedTells(k, pid, t, held', m8, ring);
    Abandoned(k, k', pid, program, imageSize, t, m8, ring);
    var m9 := MapMemory(m8, t.chunk, program, t.image, imageSize, t.stack).0;
    EnlistTable(t.m8, k.ring, t.task);
    OnlyTablesSpares(m8, m9, held', pid, t.chunk);
    SpaceGrew(k, pid, elf, imageSize, t);
    NoSpaceYet(k.held, pid, elf, imageSize, t);
    SpaceGone(t.m7, t.m8, m9, held7, held', pid, t.chunk);
    SplitBack(k.held, held', pid);
    SpaceGivenBack(k, pid, t, held', m8, ring, m9);
    var m10 := Free4gb(m9, t.chunk);
    UnlistTable(m10, t.task);
    BeforeTask(k, pid, elf, imageSize, t);
    TaskGone(t.m6, t.m7, Unlist(m10, t.task), t.task);
  }

  lemma UnlistTable(m: Mem, task: nat)
    requires LinkWords(m, task)
    ensures PrevOf(m, task) + TASK_SIZE <= RAM_SIZE && Table(Unlist(m, task)) == Table(m)
  {
    hide Load32, Table;
    RelinkTable(m, PrevOf(m, task), NextOf(m, task));
  }
}
