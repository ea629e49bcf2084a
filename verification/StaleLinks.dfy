/** What the scheduler's stale pointers do to memory: four loads and exits after which
    the kernel writes into a live process's blocks. */
module StaleLinks {
  import opened Memory
  import opened HeapTable
  import opened Heap
  import opened KernelHeap
  import opened Owners
  import opened Paging
  import opened AddressSpace
  import opened Elf
  import opened Process
  import opened Tasks
  import opened Isolation
  import opened Steps
  import opened Links
  import opened Frees
  import opened Terminate
  import opened Load
  import opened Machine

  // ---- Pointers that are not stale ----

  /** An exit is safe when prev is null or the task of another live process. */
  lemma LivePrevIsSafe(k: KState, pid: nat, q: nat)
    requires Inv(k) && Live(k, pid) && k.procs[pid].value.task + TASK_SIZE <= RAM_SIZE
    requires var prev := PrevOf(k.m, k.procs[pid].value.task);
             prev == 0 || (Live(k, q) && q != pid && prev == k.procs[q].value.task)
    ensures ExitSafe(k, pid)
  {
    hide Load32, Inv, Held, WellFormed;
    InvProcs(k);
    if PrevOf(k.m, k.procs[pid].value.task) != 0 {
      ProcTask(k.m, k.held, q, k.procs[q].value);
      TaskBlockAt(WithoutPid(k.held, pid), Owner(q, Task));
    }
  }

  lemma InHeldForTask(held: map<Owner, Run>, pid: nat, elf: bool, imageSize: uint32, t: Trace, o: Owner)
    requires o in held && o.pid != pid
    ensures var held' := HeldForTask(held, pid, elf, imageSize, t); o in held' && held'[o] == held[o]
  {
    hide BlocksFor;
  }

  /** A load is safe when the list's tail is the task of a live process. */
  lemma LiveTailServes(k: KState, pid: nat, elf: bool, imageSize: uint32, t: Trace, q: nat)
    requires t.chunk + 4 <= RAM_SIZE && DirectoryOf(t.m8, t.chunk) + PAGE_SIZE <= RAM_SIZE
    requires Inv(k) && Live(k, q) && q != pid && k.ring.tail == k.procs[q].value.task
    ensures TailServes(k, pid, elf, imageSize, t)
  {
    hide Load32, Inv, Held, ProcOk, OwnersLive, LowGuard, LoadedHeld, TaskBlock, LinkWords;
    InvProcs(k);
    ProcTask(k.m, k.held, q, k.procs[q].value);
    InLoadedHeld(k, pid, elf, imageSize, t, Owner(q, Task));
    TaskBlockAt(LoadedHeld(k, pid, elf, imageSize, t) - {Owner(pid, Task)}, Owner(q, Task));
  }

  lemma InLoadedHeld(k: KState, pid: nat, elf: bool, imageSize: uint32, t: Trace, o: Owner)
    requires t.chunk + 4 <= RAM_SIZE && DirectoryOf(t.m8, t.chunk) + PAGE_SIZE <= RAM_SIZE
    requires o in k.held && o.pid != pid
    ensures var held := LoadedHeld(k, pid, elf, imageSize, t); o in held && held[o] == k.held[o]
  {
    hide Load32, HeldForTask;
    InHeldForTask(k.held, pid, elf, imageSize, t, o);
    forall s | s in SpaceOwners(pid) ensures s != o {}
  }

  /** A tail that names a block the new program has obtained, or anybody's but a task's:
      the load is not safe, and its store changes that block. */
  lemma StaleTailHits(k: KState, pid: nat, elf: bool, imageSize: uint32, t: Trace, o: Owner)
    requires t.chunk + 4 <= RAM_SIZE && DirectoryOf(t.m8, t.chunk) + PAGE_SIZE <= RAM_SIZE
    requires k.ring.head != 0 && HeapPage(k.ring.tail) && NextOf(t.m8, k.ring.tail) != t.task
    requires var held := LoadedHeld(k, pid, elf, imageSize, t);
      && Held(t.m8, held) && o in held && o.role != Task && held[o].ptr <= k.ring.tail < held[o].End()
    ensures !TailServes(k, pid, elf, imageSize, t)
    ensures !SameRun(t.m8, SetNext(t.m8, k.ring.tail, t.task), LoadedHeld(k, pid, elf, imageSize, t)[o])
  {
    hide Load32, Store32, Held, LoadedHeld, LinkSafe, LinkFree, SameRun;
    var held := LoadedHeld(k, pid, elf, imageSize, t);
    var others := held - {Owner(pid, Task)};
    HitByPrev(t.m8, held, others, o, k.ring.tail, t.task);
    if LinkFree(others, k.ring.tail) { FreeIsSafe(t.m8, others, k.ring.tail, t.task); }
    LoadStored(t.m8, k.ring.tail + NEXT_WORD, t.task);
    WordDiffers(t.m8, SetNext(t.m8, k.ring.tail, t.task), held[o], k.ring.tail);
  }

  // ---- Loading A, B and C, and exiting B ----

  /** B exits: C's prev still names B's block, which is free now. */
  lemma PrevGoesStale(k0: KState, b: nat, c: nat)
    requires Inv(k0) && Live(k0, b) && Live(k0, c) && b != c
    requires CanExit(k0.m, k0.procs[b].value) && ExitSafe(k0, b)
    requires k0.procs[c].value.task + TASK_SIZE <= RAM_SIZE
    requires PrevOf(k0.m, k0.procs[c].value.task) == k0.procs[b].value.task
    requires k0.ring.head != k0.procs[b].value.task && k0.ring.tail == k0.procs[c].value.task
    ensures var k1 := TerminateStep(k0, b); var p := k0.procs[b].value.task;
      && Inv(k1) && Live(k1, c) && k1.procs[c] == k0.procs[c]
      && PrevOf(k1.m, k0.procs[c].value.task) == p && HeapPage(p)
      && k1.ring.head == k0.ring.head && k1.ring.tail == k0.ring.tail
  {
    hide Load32, Inv, Held, CanExit, ExitSafe, TerminateStep, KeptButNext, RunsLost, ProcOk;
    TerminateExact(k0, b);
    InvProcs(k0);
    var k1 := TerminateStep(k0, b);
    ProcTask(k0.m, k0.held, b, k0.procs[b].value);
    ProcTask(k0.m, k0.held, c, k0.procs[c].value);
    TaskIsPage(k0.m, k0.held, b, k0.procs[b].value);
    TaskIsPage(k0.m, k0.held, c, k0.procs[c].value);
    TasksDiffer(k0.m, k0.held, b, k0.procs[b].value.task, c, k0.procs[c].value.task);
    PrevKept(k0.m, k1.m, k1.held, c, k0.procs[c].value.task);
    EndsKept(k0, b);
  }

  lemma TasksDiffer(m: Mem, held: map<Owner, Run>, b: nat, task: nat, c: nat, task': nat)
    requires Held(m, held) && b != c
    requires HoldsRun(held, Owner(b, Task), task, 1) && HoldsRun(held, Owner(c, Task), task', 1)
    ensures task != task' && Owner(c, Task) in WithoutPid(held, b)
    ensures WithoutPid(held, b)[Owner(c, Task)] == Run(task', 1)
  {
  }

  lemma PrevKept(m: Mem, m': Mem, held: map<Owner, Run>, c: nat, task: nat)
    requires KeptButNext(m, m', held) && HoldsRun(held, Owner(c, Task), task, 1) && task + TASK_SIZE <= RAM_SIZE
    ensures PrevOf(m', task) == PrevOf(m, task)
  {
    hide Load32;
    assert SameButNext(m, m', held[Owner(c, Task)]);
    LoadSame(m, m', task + PREV_WORD);
  }

  lemma EndsKept(k: KState, pid: nat)
    requires Live(k, pid) && CanExit(k.m, k.procs[pid].value)
    requires k.procs[pid].value.task != k.ring.head && k.procs[pid].value.task != k.ring.tail
    ensures var k' := TerminateStep(k, pid);
      && k'.ring.head == k.ring.head && k'.ring.tail == k.ring.tail
      && k'.procs == k.procs[pid := None]
  {
    hide Load32, CanTerminate, BeforeExit, Unlist, Kfree, WithoutPid, PrevOf, NextTask;
    CanExitTells(k.m, k.procs[pid].value);
  }

  lemma CanExitTells(m: Mem, p: Proc)
    requires CanExit(m, p)
    ensures p.task + TASK_SIZE <= RAM_SIZE && CanTerminate(m, p)
    ensures PrevOf(BeforeExit(m, p), p.task) + TASK_SIZE <= RAM_SIZE
  {
    hide Load32, CanTerminate, BeforeExit;
  }

  // ---- Loading D ----

  /** D joins the list behind C. Whatever block C's prev names, it still names it. */
  lemma LoadedBehind(k1: KState, k2: KState, c: nat, d: nat, program: Program, imageSize: uint32, t: Trace)
    requires Inv(k1) && Live(k1, c) && k1.ring.head != 0 && k1.ring.tail == k1.procs[c].value.task
    requires LoadNext(k1, k2, d, program, imageSize, t) && Live(k2, d)
    requires ImageFits(program, ImageOf(imageSize, t), StackOf(t))
    ensures t.chunk + 4 <= RAM_SIZE && DirectoryOf(t.m8, t.chunk) + PAGE_SIZE <= RAM_SIZE
    ensures TailServes(k1, d, program.ElfProgram?, imageSize, t) && Inv(k2) && c != d && Live(k2, c)
    ensures k2.procs[c] == k1.procs[c] && k2.procs[d].value.task == t.task
    ensures var task := k1.procs[c].value.task;
      task + TASK_SIZE <= RAM_SIZE && NextOf(k2.m, task) == t.task && PrevOf(k2.m, task) == PrevOf(k1.m, task)
  {
    hide Load32, Store32, Inv, Prepares, Advanced, HeldForTask, SpaceOwners, SpaceHolding, Enlisted, LinkFree,
      TasksSingle, Held, PageEntry, HoldsSpace, LowGuard, PrevOf, NextOf, SpaceOk, PartsOk, OnlyTables,
      WritesInEither, BlocksFor, OwnersSplit, Extends, LoadNext, TailServes, LoadedHeld, MapMemory, Enlist,
      LoadedProc, LinkWords;
    LoadTells(k1, k2, d, program, imageSize, t);
    LiveTailServes(k1, d, program.ElfProgram?, imageSize, t, c);
    LoadKeepsInv(k1, k2, d, program, imageSize, t);
    var held' := LoadPrepared(k1, d, program, imageSize, t);
    EnlistReady(k1, d, t, held');
    var (m8, ring) := Enlist(t.m8, k1.ring, t.task);
    LoadMapped(k1, d, program, imageSize, t, held', m8, ring);
    FinishedIs(k1, k2, d, program, imageSize, t, m8, ring);
    BehindWords(k1, k2, c, d, t, held', m8, ring);
  }

  lemma FinishedIs(k1: KState, k2: KState, d: nat, program: Program, imageSize: uint32, t: Trace, m8: Mem, ring: Ring)
    requires LoadNext(k1, k2, d, program, imageSize, t) && Live(k2, d)
    requires t.task + TASK_SIZE <= RAM_SIZE && (k1.ring.head != 0 ==> k1.ring.tail + TASK_SIZE <= RAM_SIZE)
    requires Enlist(t.m8, k1.ring, t.task) == (m8, ring) && SpaceOk(m8, t.chunk)
    ensures MapMemory(m8, t.chunk, program, t.image, imageSize, t.stack).0 == k2.m
    ensures d < |k1.procs| && k1.procs[d].None? && k2.procs == k1.procs[d := k2.procs[d]]
    ensures k2.procs[d].value.task == t.task
  {
    hide Load32, Prepares, MapMemory, Kfree, Free4gb, Unlist, RingWithout, PrevOf, SpaceOk, LoadedHeld,
      Enlist;
  }

  /** The words of C's task after the load. */
  lemma BehindWords(k1: KState, k2: KState, c: nat, d: nat, t: Trace, held': map<Owner, Run>, m8: Mem, ring: Ring)
    requires Inv(k1) && Live(k1, c) && c != d && k1.ring.head != 0 && k1.ring.tail == k1.procs[c].value.task
    requires CanEnlist(k1, t) && Enlist(t.m8, k1.ring, t.task) == (m8, ring)
    requires Advanced(k1.m, t.m8, k1.held, held') && HeapPage(t.task)
    requires Enlisted(k1, d, t, held', m8, ring) && HoldsRun(held', Owner(d, Task), t.task, 1)
    requires t.chunk + 4 <= RAM_SIZE && DirectoryOf(m8, t.chunk) + PAGE_SIZE <= RAM_SIZE
    requires OnlyTables(m8, k2.m, t.chunk)
    ensures var task := k1.procs[c].value.task;
      task + TASK_SIZE <= RAM_SIZE && NextOf(k2.m, task) == t.task && PrevOf(k2.m, task) == PrevOf(k1.m, task)
  {
    hide Load32, Store32, Inv, Held, HoldsSpace, LowGuard, PrevOf, NextOf, OnlyTables, SetNext, KeptButNext, SpacesKept,
      LinkWords, SameRun, ProcOk, OwnersLive, Advanced, Extends;
    InvProcs(k1);
    var task, o := k1.procs[c].value.task, Owner(c, Task);
    ProcTask(k1.m, k1.held, c, k1.procs[c].value);
    TaskIsPage(k1.m, k1.held, c, k1.procs[c].value);
    AdvancedTask(k1.m, t.m8, k1.held, held', o);
    TasksDiffer(m8, held', d, t.task, c, task);
    EnlistWords(t.m8, task, t.task);
    OnlyTablesSpares(m8, k2.m, held', d, t.chunk);
    SameWords(k1.m, t.m8, task);
    SameWords(m8, k2.m, task);
  }

  lemma AdvancedTask(m: Mem, m': Mem, held: map<Owner, Run>, held': map<Owner, Run>, o: Owner)
    requires Advanced(m, m', held, held') && o in held
    ensures SameRun(m, m', held[o]) && o in held' && held'[o] == held[o]
  {
    hide Held, LowGuard, SameRun;
  }

  lemma SameWords(m: Mem, m': Mem, task: nat)
    requires SameRun(m, m', Run(task, 1)) && task + TASK_SIZE <= RAM_SIZE
    ensures NextOf(m', task) == NextOf(m, task) && PrevOf(m', task) == PrevOf(m, task)
  {
    hide Load32;
    LoadSame(m, m', task + NEXT_WORD);
    LoadSame(m, m', task + PREV_WORD);
  }

  /** The hole is taken by the first request of one block that finds none below. */
  lemma HoleTaken(m: Mem, size: uint32, p: nat)
    requires WellFormed(Table(m)) && 1 <= size <= PAGE_SIZE && HeapPage(p)
    requires FirstFit(Table(m), 1, 0) == BlockOf(p)
    ensures Kzalloc(m, size).1 == p && RunAt(Kzalloc(m, size).0, Run(p, 1))
  {
    hide Kzalloc, WellFormed, IsRun, Table, FirstFit, BlocksFor, Take, RunsAdded;
    OneBlock(size);
    KzallocFits(m, size);
  }

  // ---- Exiting C ----

  /** A prev that names a block inside another process's memory, no task's: the exit
      is not safe, and it changes that memory. */
  lemma StoreHitsHolder(k: KState, pid: nat, o: Owner)
    requires Inv(k) && Live(k, pid) && k.procs[pid].value.task + TASK_SIZE <= RAM_SIZE
    requires o in k.held && o.pid != pid && o.role != Task
    requires var prev := PrevOf(k.m, k.procs[pid].value.task);
      && k.held[o].ptr <= prev < k.held[o].End() && prev + TASK_SIZE <= RAM_SIZE
      && NextOf(k.m, prev) != NextOf(k.m, k.procs[pid].value.task)
    ensures !ExitSafe(k, pid) && CanExit(k.m, k.procs[pid].value)
    ensures var task := k.procs[pid].value.task; var k' := TerminateStep(k, pid);
      && o in k'.held && !SameRun(k.m, k'.m, k'.held[o])
      && NextOf(k'.m, PrevOf(k.m, task)) == NextOf(k.m, task)
  {
    hide Load32, Store32, Inv, Held, CanExit, CanTerminate, RestStep, SameRun, TerminateStep, LinkSafe, RunsLost,
      Leftover, KeptButNext, Relinked, WithoutPid, NextOf, PrevOf, Link, RingLinks;
    var task := k.procs[pid].value.task;
    var prev, next := PrevOf(k.m, task), NextOf(k.m, task);
    InvProcs(k);
    ExitIsRestAndStore(k, pid);
    TerminateExact(k, pid);
    HeldBounds(k.m, k.held, o);
    OtherStays(k.held, pid, o);
    HitByPrev(k.m, k.held, WithoutPid(k.held, pid), o, prev, next);
    WordStored(RestStep(k, pid).m, prev, next);
    WordDiffers(k.m, TerminateStep(k, pid).m, k.held[o], prev);
  }

  lemma OtherStays(held: map<Owner, Run>, pid: nat, o: Owner)
    requires o in held && o.pid != pid
    ensures o in WithoutPid(held, pid) && WithoutPid(held, pid)[o] == held[o] && Extends(WithoutPid(held, pid), held)
  {
  }

  lemma WordStored(m: Mem, p: nat, v: uint32)
    requires 0 < p && p + TASK_SIZE <= RAM_SIZE
    ensures NextOf(Relinked(m, p, v), p) == v
  {
    hide Load32, Store32;
    LoadStored(m, p + NEXT_WORD, v);
  }

  lemma WordDiffers(m: Mem, m': Mem, r: Run, p: nat)
    requires r.ptr <= p && p + PAGE_SIZE <= r.End() <= RAM_SIZE && NextOf(m, p) != NextOf(m', p)
    ensures !SameRun(m, m', r)
  {
    hide Load32;
    if SameRun(m, m', r) { LoadSame(m, m', p + NEXT_WORD); }
  }

  lemma HitByPrev(m: Mem, held: map<Owner, Run>, held': map<Owner, Run>, o: Owner, p: nat, v: uint32)
    requires Held(m, held) && Extends(held', held) && o in held' && o.role != Task && Link(p)
    requires held[o].ptr <= p < held[o].End() && NextOf(m, p) != v
    ensures 0 < p && p + PAGE_SIZE <= held[o].End() <= RAM_SIZE && !LinkSafe(m, held', p, v)
  {
    hide Load32, Held, TaskBlock, NextOf, LinkSafe;
    InsidePage(m, held, o, p);
    NoTaskInside(m, held, held', o, p);
    UnsafeInside(m, held', o, p, v);
  }

  lemma InsidePage(m: Mem, held: map<Owner, Run>, o: Owner, p: nat)
    requires Held(m, held) && o in held && Link(p) && held[o].ptr <= p < held[o].End()
    ensures 0 < p && p + PAGE_SIZE <= held[o].End() <= RAM_SIZE
  {
    hide Held;
    HeldBounds(m, held, o);
    RunAligned(m, held, o);
    WholePage(held[o], p);
  }

  lemma WholePage(r: Run, p: nat)
    requires r.ptr % PAGE_SIZE == 0 && p % PAGE_SIZE == 0 && r.ptr <= p < r.End()
    ensures p + PAGE_SIZE <= r.End()
  {
    assert r.ptr == PAGE_SIZE * (r.ptr / PAGE_SIZE) && p == PAGE_SIZE * (p / PAGE_SIZE);
  }

  lemma UnsafeInside(m: Mem, held: map<Owner, Run>, o: Owner, p: nat, v: uint32)
    requires o in held && held[o].ptr <= p && p + PAGE_SIZE <= held[o].End() <= RAM_SIZE
    requires p != 0 && !TaskBlock(held, p) && NextOf(m, p) != v
    ensures !LinkSafe(m, held, p, v)
  {
    hide Load32, TaskBlock, NextOf;
  }

  lemma NoTaskInside(m: Mem, held: map<Owner, Run>, held': map<Owner, Run>, o: Owner, p: nat)
    requires Held(m, held) && Extends(held', held) && o in held && o.role != Task
    requires held[o].ptr <= p < held[o].End()
    ensures !TaskBlock(held', p)
  {
    hide Held;
    if TaskBlock(held', p) {
      var q :| Owner(q, Task) in held' && held'[Owner(q, Task)].ptr == p;
      HeldApart(m, held, o, Owner(q, Task));
      HeldBounds(m, held, Owner(q, Task));
    }
  }

  /** Processes b and c stand next to each other at the end of the list, b not at its
      head; b exits, and then program d is loaded. The load's single-block requests,
      from elf_file to the last page table, take the lowest free blocks, so that one of
      them takes the hole b's task has left once the holes below it are taken. */
  ghost predicate StaleRun(k0: KState, k1: KState, k2: KState, b: nat, c: nat, d: nat,
                           program: Program, imageSize: uint32, t: Trace, p: nat) {
    hide Load32, CanTerminate, BeforeExit, LinkSafe, LoadNext, TerminateStep, PrevOf;
    && Live(k0, b) && Live(k0, c) && b != c
    && var task, task' := k0.procs[b].value.task, k0.procs[c].value.task;
    && task == p && CanExit(k0.m, k0.procs[b].value) && ExitSafe(k0, b) && k1 == TerminateStep(k0, b)
    && task' + TASK_SIZE <= RAM_SIZE && PrevOf(k0.m, task') == task
    && k0.ring.head !in {0, task} && k0.ring.tail == task'
    && LoadNext(k1, k2, d, program, imageSize, t) && Live(k2, d)
    && ImageFits(program, ImageOf(imageSize, t), StackOf(t))
  }

  /** Some of d's memory takes over the block of b's task, and then c exits. Its stale
      prev makes the kernel write into d's memory. */
  lemma ReusedBlockOverwritten(k0: KState, k1: KState, k2: KState, b: nat, c: nat, d: nat,
                               program: Program, imageSize: uint32, t: Trace, p: nat, o: Owner)
    requires p + TASK_SIZE <= RAM_SIZE && NextOf(k2.m, p) != t.task
    requires o in k2.held && o.pid == d && o.role != Task && k2.held[o].ptr <= p < k2.held[o].End()
    requires Inv(k0) && StaleRun(k0, k1, k2, b, c, d, program, imageSize, t, p)
    ensures Overwritten(k2, c, o, p, t.task)
  {
    hide Load32, Inv, CanExit, ExitSafe, TerminateStep, LoadNext, NextOf, PrevOf, SameRun, TailServes;
    PrevGoesStale(k0, b, c);
    LoadedBehind(k1, k2, c, d, program, imageSize, t);
    StoreHitsHolder(k2, c, o);
  }

  /** In a sound kernel the exit of c is not safe: it changes o's memory, and the word at
      p's next is v afterwards. */
  ghost predicate Overwritten(k: KState, c: nat, o: Owner, p: nat, v: uint32)
    requires p + TASK_SIZE <= RAM_SIZE
  {
    hide Load32, CanTerminate, BeforeExit, LinkSafe, TerminateStep, NextOf, SameRun;
    && Inv(k) && Live(k, c) && CanExit(k.m, k.procs[c].value) && !ExitSafe(k, c)
    && var k' := TerminateStep(k, c);
    && o in k'.held && !SameRun(k.m, k'.m, k'.held[o]) && NextOf(k'.m, p) == v
  }

  // ---- When it is d's page directory ----

  const HIT_ENTRY := 14

  /** Directory entry 14 lies where a task's next lies. */
  lemma HitEntryIs(m: Mem, dir: nat)
    requires dir + PAGE_SIZE <= RAM_SIZE
    ensures NEXT_WORD == 4 * HIT_ENTRY && NextOf(m, dir) == DirectoryEntry(m, dir, HIT_ENTRY)
  {
    hide Load32;
  }

  /** In a sound kernel that entry names a page table and no task. */
  lemma EntryIsNoTask(k: KState, pid: nat)
    requires Inv(k) && Live(k, pid)
    ensures SpaceDefined(k, pid) && Owner(pid, Directory) in k.held
    ensures var p := k.procs[pid].value; var dir := DirectoryOf(k.m, p.chunk);
      k.held[Owner(pid, Directory)] == Run(dir, 1) && HeapPage(p.task) && NextOf(k.m, dir) != p.task
  {
    hide Load32, Held, PagesOk, SlotsOk, BlocksFor, LinkWords, Inv;
    LiveSpaceDefined(k, pid);
    InvProcs(k);
    var p := k.procs[pid].value;
    var dir := DirectoryOf(k.m, p.chunk);
    TaskIsPage(k.m, k.held, pid, p);
    HitEntryIs(k.m, dir);
    assert HoldsPage(k.held, Owner(pid, PageTable(HIT_ENTRY)), TableAddress(k.m, dir, HIT_ENTRY));
    HeldApart(k.m, k.held, Owner(pid, PageTable(HIT_ENTRY)), Owner(pid, Task));
    FrameOfPage(p.task);
  }

  lemma FrameOfPage(a: uint32)
    requires a % PAGE_SIZE == 0
    ensures FrameOf(a) == a
  {
  }

  /** The same run, with d's page directory in the reused block: the kernel is not
      sound any more, for the directory's entry 14 names d's task. */
  lemma ReusedDirectoryBroken(k0: KState, k1: KState, k2: KState, b: nat, c: nat, d: nat,
                              program: Program, imageSize: uint32, t: Trace, p: nat)
    requires p + TASK_SIZE <= RAM_SIZE
    requires Owner(d, Directory) in k2.held && k2.held[Owner(d, Directory)].ptr == p
    requires Inv(k0) && StaleRun(k0, k1, k2, b, c, d, program, imageSize, t, p)
    ensures ExitBreaks(k2, c)
  {
    hide Load32, Inv, CanExit, ExitSafe, TerminateStep, LoadNext, NextOf, PrevOf, SameRun, TailServes;
    PrevGoesStale(k0, b, c);
    LoadedBehind(k1, k2, c, d, program, imageSize, t);
    EntryIsNoTask(k2, d);
    ReusedBlockOverwritten(k0, k1, k2, b, c, d, program, imageSize, t, p, Owner(d, Directory));
    var k3 := TerminateStep(k2, c);
    StillLive(k2, c, d);
    if Inv(k3) { EntryIsNoTask(k3, d); }
  }

  /** A sound kernel that is not sound any more once c has exited. */
  ghost predicate ExitBreaks(k: KState, c: nat) {
    hide Load32, CanTerminate, BeforeExit, TerminateStep;
    Inv(k) && Live(k, c) && CanExit(k.m, k.procs[c].value) && !Inv(TerminateStep(k, c))
  }

  lemma StillLive(k: KState, c: nat, d: nat)
    requires Live(k, c) && Live(k, d) && c != d && CanExit(k.m, k.procs[c].value)
    ensures Live(TerminateStep(k, c), d) && TerminateStep(k, c).procs[d] == k.procs[d]
    ensures Owner(d, Directory) in k.held ==>
      TerminateStep(k, c).held[Owner(d, Directory)] == k.held[Owner(d, Directory)]
  {
    hide Load32, CanTerminate, BeforeExit, Unlist, Kfree, PrevOf, RingWithout;
    CanExitTells(k.m, k.procs[c].value);
  }
}
