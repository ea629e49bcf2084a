/** Each kernel operation and each user store keeps the invariant. */
module Steps {
  import opened Memory
  import opened HeapTable
  import opened Heap
  import opened KernelHeap
  import opened Owners
  import opened Paging
  import opened AddressSpace
  import opened Elf
  import opened Process
  import opened Tasks
  import opened Isolation

  // ---- Frames ----

  /** held and held' agree about what belongs to pid. */
  ghost predicate AgreeOn(held: map<Owner, Run>, held': map<Owner, Run>, pid: nat) {
    forall r: Role :: (Owner(pid, r) in held <==> Owner(pid, r) in held')
      && (Owner(pid, r) in held ==> held[Owner(pid, r)] == held'[Owner(pid, r)])
  }

  predicate SpaceRole(r: Role) {
    r == Chunk || r == Directory || r.PageTable?
  }

  ghost predicate SpaceRunsSame(m: Mem, m': Mem, held: map<Owner, Run>, pid: nat) {
    forall r: Role :: SpaceRole(r) && Owner(pid, r) in held ==> SameRun(m, m', held[Owner(pid, r)])
  }

  /** What the kernel relies on for each process: its page tables and its task. */
  predicate KernelRole(r: Role) {
    SpaceRole(r) || r == Task
  }

  ghost predicate KernelRunsSame(m: Mem, m': Mem, held: map<Owner, Run>, pid: nat) {
    forall r: Role :: KernelRole(r) && Owner(pid, r) in held ==> SameRun(m, m', held[Owner(pid, r)])
  }

  lemma SpaceRunsSamePages(m: Mem, m': Mem, held: map<Owner, Run>, pid: nat, chunk: nat)
    requires Held(m, held) && HoldsSpace(m, held, pid, chunk) && SpaceRunsSame(m, m', held, pid)
    ensures SpaceOk(m, chunk) && SameSpacePages(m, m', chunk)
  {
    HeldSpaceOk(m, held, pid, chunk);
    hide Load32, Held, SpaceOk;
    var dir := DirectoryOf(m, chunk);
    assert HoldsPage(held, Owner(pid, Chunk), chunk) && HoldsPage(held, Owner(pid, Directory), dir);
    forall i | 0 <= i < TABLE_ENTRIES ensures SamePage(m, m', TableAddress(m, dir, i)) {
      assert HoldsPage(held, Owner(pid, PageTable(i)), TableAddress(m, dir, i));
    }
  }

  /** A process whose page tables and possessions did not change, and whose task's
      links are still links, is as sound as before. */
  lemma ProcSpaceUntouched(m: Mem, m': Mem, held: map<Owner, Run>, held': map<Owner, Run>, pid: nat, p: Proc)
    requires Held(m, held) && ProcOk(m, held, pid, p) && LinkWords(m', p.task)
    requires SpaceRunsSame(m, m', held, pid) && AgreeOn(held, held', pid)
    ensures ProcOk(m', held', pid, p)
    ensures DirectoryOf(m', p.chunk) == DirectoryOf(m, p.chunk)
    ensures forall v :: 0 <= v < TOTAL_PAGES ==>
              PageEntry(m', DirectoryOf(m, p.chunk), v) == PageEntry(m, DirectoryOf(m, p.chunk), v)
  {
    hide Load32, PageEntry, Held, SpaceOk, SlotsOk, HoldsSpace, PartsOk, PagesOk, LinkWords, SpaceRunsSame, AgreeOn;
    HoldsSpaceBounds(m, held, pid, p.chunk);
    SpaceRunsSamePages(m, m', held, pid, p.chunk);
    SpaceUnchanged(m, m', p.chunk);
    SpaceStillHeld(m, m', held, held', pid, p.chunk);
    SlotsStillOk(held, held', pid, p.slots);
    PagesStillOk(m, m', held, held', pid, DirectoryOf(m, p.chunk));
    PartsStillOk(held, held', pid, p);
  }

  lemma KernelRunsTell(m: Mem, m': Mem, held: map<Owner, Run>, pid: nat, p: Proc)
    requires KernelRunsSame(m, m', held, pid) && PartsOk(held, pid, p) && LinkWords(m, p.task)
    ensures SpaceRunsSame(m, m', held, pid) && LinkWords(m', p.task)
  {
    hide Load32, BlocksFor;
    assert KernelRole(Task) && Owner(pid, Task) in held;
    LinkWordsSame(m, m', p.task);
  }

  lemma LinkWordsSame(m: Mem, m': Mem, task: nat)
    requires LinkWords(m, task) && SameRun(m, m', Run(task, 1))
    ensures LinkWords(m', task)
  {
    hide Load32;
    LoadSame(m, m', task + NEXT_WORD);
    LoadSame(m, m', task + PREV_WORD);
  }

  /** A process whose page tables, task and possessions did not change is as sound as before. */
  lemma ProcUntouched(m: Mem, m': Mem, held: map<Owner, Run>, held': map<Owner, Run>, pid: nat, p: Proc)
    requires Held(m, held) && ProcOk(m, held, pid, p)
    requires KernelRunsSame(m, m', held, pid) && AgreeOn(held, held', pid)
    ensures ProcOk(m', held', pid, p)
    ensures DirectoryOf(m', p.chunk) == DirectoryOf(m, p.chunk)
    ensures forall v :: 0 <= v < TOTAL_PAGES ==>
              PageEntry(m', DirectoryOf(m, p.chunk), v) == PageEntry(m, DirectoryOf(m, p.chunk), v)
  {
    hide Load32, PageEntry, Held, SlotsOk, HoldsSpace, PartsOk, PagesOk, LinkWords, SpaceRunsSame, KernelRunsSame,
      AgreeOn;
    KernelRunsTell(m, m', held, pid, p);
    ProcSpaceUntouched(m, m', held, held', pid, p);
  }

  lemma HoldsSpaceBounds(m: Mem, held: map<Owner, Run>, pid: nat, chunk: nat)
    requires HoldsSpace(m, held, pid, chunk)
    ensures chunk + 4 <= RAM_SIZE && DirectoryOf(m, chunk) + PAGE_SIZE <= RAM_SIZE
  {
  }

  lemma InvProcs(k: KState)
    requires Inv(k)
    ensures |k.procs| == MAX_PROCESSES && Held(k.m, k.held) && OwnersLive(k.procs, k.held)
    ensures RingLinks(k.ring) && LowGuard(k.m)
    ensures forall q :: 0 <= q < MAX_PROCESSES && k.procs[q].Some? ==> ProcOk(k.m, k.held, q, k.procs[q].value)
  {
  }

  lemma InvFrom(k: KState)
    requires |k.procs| == MAX_PROCESSES && Held(k.m, k.held) && LowGuard(k.m) && OwnersLive(k.procs, k.held)
    requires RingLinks(k.ring)
    requires forall q :: 0 <= q < MAX_PROCESSES && k.procs[q].Some? ==> ProcOk(k.m, k.held, q, k.procs[q].value)
    ensures Inv(k)
  {
  }

  lemma ProcBounds(m: Mem, held: map<Owner, Run>, pid: nat, p: Proc)
    requires ProcOk(m, held, pid, p)
    ensures p.chunk + 4 <= RAM_SIZE && DirectoryOf(m, p.chunk) + PAGE_SIZE <= RAM_SIZE
  {
  }

  lemma NewProcOk(m: Mem, held: map<Owner, Run>, pid: nat, p: Proc)
    requires PartsOk(held, pid, p) && HoldsSpace(m, held, pid, p.chunk) && SlotsOk(held, pid, p.slots)
    requires PagesOk(m, held, pid, DirectoryOf(m, p.chunk)) && LinkWords(m, p.task)
    ensures ProcOk(m, held, pid, p)
  {
  }

  /** A task whose run did not change still has links. */
  lemma TaskKept(m: Mem, m': Mem, held: map<Owner, Run>, pid: nat, p: Proc)
    requires PartsOk(held, pid, p) && LinkWords(m, p.task)
    requires Owner(pid, Task) in held ==> SameRun(m, m', held[Owner(pid, Task)])
    ensures LinkWords(m', p.task)
  {
    hide LinkWords, BlocksFor;
    LinkWordsSame(m, m', p.task);
  }

  lemma PartsStillOk(held: map<Owner, Run>, held': map<Owner, Run>, pid: nat, p: Proc)
    requires PartsOk(held, pid, p) && AgreeOn(held, held', pid)
    ensures PartsOk(held', pid, p)
  {
    hide BlocksFor;
    assert Owner(pid, ProcessStruct) in held' && Owner(pid, Image) in held' && Owner(pid, Stack) in held';
    assert Owner(pid, Task) in held';
    if p.program.ElfProgram? { assert Owner(pid, ElfFile) in held'; }
  }

  lemma SlotsStillOk(held: map<Owner, Run>, held': map<Owner, Run>, pid: nat, slots: seq<Slot>)
    requires SlotsOk(held, pid, slots) && AgreeOn(held, held', pid)
    ensures SlotsOk(held', pid, slots)
  {
    hide BlocksFor;
    forall j | 0 <= j < MAX_ALLOCATIONS ensures SlotOk(held', pid, j, slots[j]) {
      assert SlotOk(held, pid, j, slots[j]);
      assert Owner(pid, Allocation(j)) in held <==> Owner(pid, Allocation(j)) in held';
    }
  }

  lemma SpaceStillHeld(m: Mem, m': Mem, held: map<Owner, Run>, held': map<Owner, Run>, pid: nat, chunk: nat)
    requires HoldsSpace(m, held, pid, chunk) && AgreeOn(held, held', pid)
    requires SameDirectory(m, m', chunk)
    requires forall i :: 0 <= i < TABLE_ENTRIES ==>
               TableAddress(m', DirectoryOf(m, chunk), i) == TableAddress(m, DirectoryOf(m, chunk), i)
    ensures HoldsSpace(m', held', pid, chunk)
  {
    hide Load32;
    var dir := DirectoryOf(m, chunk);
    assert Owner(pid, Chunk) in held' && Owner(pid, Directory) in held';
    forall i | 0 <= i < TABLE_ENTRIES ensures HoldsPage(held', Owner(pid, PageTable(i)), TableAddress(m', dir, i)) {
      assert HoldsPage(held, Owner(pid, PageTable(i)), TableAddress(m, dir, i));
      assert Owner(pid, PageTable(i)) in held';
    }
  }

  lemma BackedSame(held: map<Owner, Run>, held': map<Owner, Run>, pid: nat, v: nat, frame: nat)
    requires AgreeOn(held, held', pid)
    ensures Backed(held, pid, v, frame) <==> Backed(held', pid, v, frame)
    ensures InAllocation(held, pid, frame) <==> InAllocation(held', pid, frame)
  {
    assert Owner(pid, Image) in held <==> Owner(pid, Image) in held';
    assert Owner(pid, Stack) in held <==> Owner(pid, Stack) in held';
    forall j: nat ensures Owner(pid, Allocation(j)) in held <==> Owner(pid, Allocation(j)) in held' {}
  }

  lemma PagesStillOk(m: Mem, m': Mem, held: map<Owner, Run>, held': map<Owner, Run>, pid: nat, dir: nat)
    requires dir + PAGE_SIZE <= RAM_SIZE && PagesOk(m, held, pid, dir) && AgreeOn(held, held', pid)
    requires forall v :: 0 <= v < TOTAL_PAGES ==> PageEntry(m', dir, v) == PageEntry(m, dir, v)
    ensures PagesOk(m', held', pid, dir)
  {
    hide Load32, PageEntry, AgreeOn, Backed, InAllocation, FrameOf, IsWriteable;
    forall v | 0 <= v < TOTAL_PAGES
      ensures IsWriteable(PageEntry(m', dir, v)) ==> Backed(held', pid, v, FrameOf(PageEntry(m', dir, v)))
      ensures InAllocation(held', pid, v * PAGE_SIZE) ==> PageEntry(m', dir, v) == v * PAGE_SIZE + USER_FLAGS
    {
      BackedSame(held, held', pid, v, FrameOf(PageEntry(m, dir, v)));
      BackedSame(held, held', pid, v, v * PAGE_SIZE);
    }
  }

  lemma AgreeSelf(held: map<Owner, Run>, pid: nat)
    ensures AgreeOn(held, held, pid)
  {
  }

  /** Memory may change in any way that keeps what is held, the guard, and every
      process's page tables. */
  lemma FrameKeepsInv(k: KState, m': Mem)
    requires Inv(k) && Held(m', k.held) && LowGuard(m')
    requires forall pid :: 0 <= pid < MAX_PROCESSES && k.procs[pid].Some? ==> KernelRunsSame(k.m, m', k.held, pid)
    ensures Inv(k.(m := m'))
  {
    hide ProcOk, Held, LowGuard, KernelRunsSame, OwnersLive, AgreeOn;
    forall pid | 0 <= pid < MAX_PROCESSES && k.procs[pid].Some?
      ensures ProcOk(m', k.held, pid, k.procs[pid].value)
    {
      AgreeSelf(k.held, pid);
      ProcUntouched(k.m, m', k.held, k.held, pid, k.procs[pid].value);
    }
  }

  // ---- Stores by user code ----

  /** A store of one byte by process pid: the hardware lets it through when the
      page is present and writeable, and it lands at the translated address. */
  function UserStore(k: KState, pid: nat, a: uint32, b: byte): (k': KState)
    requires pid < |k.procs| && k.procs[pid].Some?
    requires var c := k.procs[pid].value.chunk; c + 4 <= RAM_SIZE && DirectoryOf(k.m, c) + PAGE_SIZE <= RAM_SIZE
  {
    var dir := DirectoryOf(k.m, k.procs[pid].value.chunk);
    var entry := PageEntry(k.m, dir, a / PAGE_SIZE);
    if IsPresent(entry) && IsWriteable(entry) then k.(m := k.m[Translate(k.m, dir, a) := b])
    else k
  }

  ghost predicate SpaceDefined(k: KState, pid: nat) {
    && pid < |k.procs| && k.procs[pid].Some?
    && var c := k.procs[pid].value.chunk; c + 4 <= RAM_SIZE && DirectoryOf(k.m, c) + PAGE_SIZE <= RAM_SIZE
  }

  lemma LiveSpaceDefined(k: KState, pid: nat)
    requires Inv(k) && Live(k, pid)
    ensures SpaceDefined(k, pid)
  {
    hide Load32, Held, PagesOk, SlotsOk, PartsOk;
    assert ProcOk(k.m, k.held, pid, k.procs[pid].value);
  }

  /** Whatever address and value user code picks, its store changes no byte held
      by another process, no page table, and no part of the heap table. */
  lemma UserStoreConfined(k: KState, pid: nat, a: uint32, b: byte)
    requires Inv(k) && Live(k, pid)
    ensures SpaceDefined(k, pid)
    ensures var k' := UserStore(k, pid, a, b);
            && k' == k.(m := k'.m)
            && (forall j :: 0 <= j < HEAP_ADDRESS ==> k'.m[j] == k.m[j])
            && (forall o :: o in k.held && (o.pid != pid || !(o.role == Image || o.role == Stack || o.role.Allocation?))
                  ==> SameRun(k.m, k'.m, k.held[o]))
  {
    hide Load32, PageEntry, ProcOk, OwnersLive, Held, LowGuard;
    LiveSpaceDefined(k, pid);
    var k' := UserStore(k, pid, a, b);
    var entry := EntryOf(k, k.procs[pid].value, a / PAGE_SIZE);
    if IsPresent(entry) && IsWriteable(entry) {
      var mine := WriteableFrameOwned(k, pid, a / PAGE_SIZE);
      HeldBounds(k.m, k.held, mine);
    }
    forall o | o in k.held && (o.pid != pid || !(o.role == Image || o.role == Stack || o.role.Allocation?))
      ensures SameRun(k.m, k'.m, k.held[o])
    {
      HeldBounds(k.m, k.held, o);
      if IsPresent(entry) && IsWriteable(entry) {
        var mine := WriteableFrameOwned(k, pid, a / PAGE_SIZE);
        HeldApart(k.m, k.held, mine, o);
      }
    }
  }

  lemma HeldBounds(m: Mem, held: map<Owner, Run>, o: Owner)
    requires Held(m, held) && o in held
    ensures HEAP_ADDRESS <= held[o].ptr < held[o].End() <= HEAP_END
  {
    RunBounds(m, held[o]);
  }

  lemma BelowHeapSame(m: Mem, m': Mem)
    requires forall j :: 0 <= j < HEAP_ADDRESS ==> m'[j] == m[j]
    ensures Table(m') == Table(m) && (LowGuard(m) ==> LowGuard(m'))
  {
    TableSame(m, m');
    if LowGuard(m) {
      var j :| NULL_ENTRY <= j < TABLE_ADDRESS && !HasNext(m[j]);
      assert !HasNext(m'[j]);
    }
  }

  lemma UserStoreKeepsInv(k: KState, pid: nat, a: uint32, b: byte)
    requires Inv(k) && Live(k, pid)
    ensures SpaceDefined(k, pid) && Inv(UserStore(k, pid, a, b))
  {
    hide UserStore, ProcOk, OwnersLive, WellFormed, IsRun, Load32;
    UserStoreConfined(k, pid, a, b);
    var k' := UserStore(k, pid, a, b);
    BelowHeapSame(k.m, k'.m);
    HeldByTable(k.m, k'.m, k.held);
    FrameKeepsInv(k, k'.m);
    assert k' == k.(m := k'.m);
  }

  // ---- Rewriting one process's page tables ----

  /** Changing only the page tables of a held space spares everything else that is held. */
  lemma OnlyTablesSpares(m: Mem, m': Mem, held: map<Owner, Run>, pid: nat, chunk: nat)
    requires Held(m, held) && HoldsSpace(m, held, pid, chunk) && OnlyTables(m, m', chunk)
    ensures Held(m', held) && HoldsSpace(m', held, pid, chunk)
    ensures Table(m') == Table(m) && (LowGuard(m) ==> LowGuard(m'))
    ensures forall o :: o in held && !(o.pid == pid && o.role.PageTable?) ==> SameRun(m, m', held[o])
    ensures DirectoryOf(m', chunk) == DirectoryOf(m, chunk)
  {
    HeldSpaceOk(m, held, pid, chunk);
    hide Load32, Held, LowGuard, Table, RunAt;
    var dir := DirectoryOf(m, chunk);
    forall j | 0 <= j < HEAP_ADDRESS ensures m'[j] == m[j] {
      assert !InTables(m, dir, j);
    }
    BelowHeapSame(m, m');
    HeldByTable(m, m', held);
    forall o | o in held && !(o.pid == pid && o.role.PageTable?) ensures SameRun(m, m', held[o]) {
      RunOutsideTables(m, m', held, pid, dir, o);
    }
    forall i | 0 <= i < TABLE_ENTRIES ensures HoldsPage(held, Owner(pid, PageTable(i)), TableAddress(m', dir, i)) {
      assert HoldsPage(held, Owner(pid, PageTable(i)), TableAddress(m, dir, i));
      assert DirectoryEntry(m', dir, i) == DirectoryEntry(m, dir, i);
    }
  }

  lemma RunOutsideTables(m: Mem, m': Mem, held: map<Owner, Run>, pid: nat, dir: nat, o: Owner)
    requires Held(m, held) && o in held && !(o.pid == pid && o.role.PageTable?)
    requires dir + PAGE_SIZE <= RAM_SIZE && HoldsTables(m, held, pid, dir, TABLE_ENTRIES)
    requires forall k :: 0 <= k < RAM_SIZE && !InTables(m, dir, k) ==> m'[k] == m[k]
    ensures SameRun(m, m', held[o])
  {
    hide Load32, WellFormed, IsRun;
    RunBounds(m, held[o]);
    forall k | held[o].ptr <= k < held[o].End() ensures m'[k] == m[k] {
      forall i | 0 <= i < TABLE_ENTRIES
        ensures !(TableAddress(m, dir, i) <= k < TableAddress(m, dir, i) + PAGE_SIZE)
      {
        assert HoldsPage(held, Owner(pid, PageTable(i)), TableAddress(m, dir, i));
        HeldApart(m, held, o, Owner(pid, PageTable(i)));
      }
      assert !InTables(m, dir, k);
    }
  }

  // ---- process_malloc ----

  const LAST_PAGE := 0xffff_f000

  /** The answer's end, rounded up to a page, stays below 4 GB. */
  predicate EndsBelow(m: Mem, size: uint32) {
    Kzalloc(m, size).1 + size <= LAST_PAGE
  }

  ghost predicate CanCall(k: KState, pid: nat) {
    && SpaceDefined(k, pid) && WellFormed(Table(k.m))
    && LiveSpace(k.m, k.procs[pid].value.chunk) && SlotsFreeable(k.procs[pid].value.slots)
  }

  lemma LiveCanCall(k: KState, pid: nat)
    requires Inv(k) && Live(k, pid)
    ensures CanCall(k, pid)
  {
    LiveSpaceDefined(k, pid);
    var p := k.procs[pid].value;
    assert ProcOk(k.m, k.held, pid, p);
    HeldSpaceLive(k.m, k.held, pid, p.chunk);
    hide Load32, LiveSpace, PagesOk, PartsOk, BlocksFor, HoldsSpace;
    forall i | 0 <= i < |p.slots| ensures Freeable(p.slots[i].ptr) {
      assert SlotOk(k.held, pid, i, p.slots[i]);
      if p.slots[i].ptr != 0 {
        RunBounds(k.m, k.held[Owner(pid, Allocation(i))]);
      }
    }
  }

  /** One process calls process_malloc. */
  function MallocStep(k: KState, pid: nat, size: uint32): (k': KState)
    requires CanCall(k, pid)
  {
    var p := k.procs[pid].value;
    var (m', slots', ptr) := ProcessMalloc(k.m, p.chunk, p.slots, size);
    var held' := if ptr == 0 then k.held
                 else k.held[Owner(pid, Allocation(SlotOf(p.slots, 0))) := Run(ptr, BlocksFor(size))];
    k.(m := m', procs := k.procs[pid := Some(p.(slots := slots'))], held := held')
  }

  lemma PagesOfRun(ptr: nat, n: nat, v: nat)
    requires HEAP_ADDRESS <= ptr && ptr % PAGE_SIZE == 0 && ptr + PAGE_SIZE * n <= HEAP_END && v < TOTAL_PAGES
    ensures PagesAfter(ptr / PAGE_SIZE, v) < n <==> Inside(v * PAGE_SIZE, Run(ptr, n))
    ensures PagesAfter(ptr / PAGE_SIZE, v) < n ==> ptr + PAGE_SIZE * PagesAfter(ptr / PAGE_SIZE, v) == v * PAGE_SIZE
  {
    var q := ptr / PAGE_SIZE;
    assert ptr == PAGE_SIZE * q;
    if v >= q {
      assert PagesAfter(q, v) == v - q;
    } else {
      assert PagesAfter(q, v) == v - q + TOTAL_PAGES;
    }
  }

  lemma RoundedEnd(ptr: nat, size: uint32)
    requires ptr + size <= LAST_PAGE && ptr % PAGE_SIZE == 0
    ensures ptr + size < RAM_SIZE
    ensures AlignUp(ptr + size) == ptr + PAGE_SIZE * BlocksFor(size)
  {
    assert ptr == PAGE_SIZE * (ptr / PAGE_SIZE);
  }

  lemma BackedGrows(held: map<Owner, Run>, held': map<Owner, Run>, pid: nat, v: nat, frame: nat)
    requires Extends(held, held') && Backed(held, pid, v, frame)
    ensures Backed(held', pid, v, frame)
  {
    if InAllocation(held, pid, frame) {
      var j :| Owner(pid, Allocation(j)) in held && Inside(frame, held[Owner(pid, Allocation(j))]);
      assert Owner(pid, Allocation(j)) in held';
    }
  }

  /** Mapping a fresh run to itself keeps the page conditions. */
  lemma NewPagesOk(m1: Mem, m2: Mem, held: map<Owner, Run>, pid: nat, i: nat, r: Run, chunk: nat)
    requires Held(m1, held[Owner(pid, Allocation(i)) := r]) && Owner(pid, Allocation(i)) !in held
    requires chunk + 4 <= RAM_SIZE && DirectoryOf(m1, chunk) + PAGE_SIZE <= RAM_SIZE
    requires PagesOk(m1, held, pid, DirectoryOf(m1, chunk))
    requires Mapped(m1, m2, chunk, r.ptr / PAGE_SIZE, r.ptr, r.blocks, USER_FLAGS)
    ensures PagesOk(m2, held[Owner(pid, Allocation(i)) := r], pid, DirectoryOf(m1, chunk))
  {
    var o, dir := Owner(pid, Allocation(i)), DirectoryOf(m1, chunk);
    var held1 := held[o := r];
    RunBounds(m1, held1[o]);
    MappedEntries(m1, m2, chunk, r.ptr / PAGE_SIZE, r.ptr, r.blocks, USER_FLAGS);
    hide Load32, PageEntry, Held, Mapped, Backed, FrameOf, IsWriteable, PagesAfter, InAllocation;
    forall v | 0 <= v < TOTAL_PAGES
      ensures IsWriteable(PageEntry(m2, dir, v)) ==> Backed(held1, pid, v, FrameOf(PageEntry(m2, dir, v)))
      ensures InAllocation(held1, pid, v * PAGE_SIZE) ==> PageEntry(m2, dir, v) == v * PAGE_SIZE + USER_FLAGS
    {
      NewPageOk(m1, held, pid, i, r, v, PageEntry(m1, dir, v), PageEntry(m2, dir, v));
    }
  }

  lemma NewPageOk(m1: Mem, held: map<Owner, Run>, pid: nat, i: nat, r: Run, v: nat, e1: uint32, e2: uint32)
    requires Held(m1, held[Owner(pid, Allocation(i)) := r]) && Owner(pid, Allocation(i)) !in held && v < TOTAL_PAGES
    requires IsWriteable(e1) ==> Backed(held, pid, v, FrameOf(e1))
    requires InAllocation(held, pid, v * PAGE_SIZE) ==> e1 == v * PAGE_SIZE + USER_FLAGS
    requires e2 == var d := PagesAfter(r.ptr / PAGE_SIZE, v);
                   if d < r.blocks then r.ptr + PAGE_SIZE * d + USER_FLAGS else e1
    ensures var held1 := held[Owner(pid, Allocation(i)) := r];
            && (IsWriteable(e2) ==> Backed(held1, pid, v, FrameOf(e2)))
            && (InAllocation(held1, pid, v * PAGE_SIZE) ==> e2 == v * PAGE_SIZE + USER_FLAGS)
  {
    var o := Owner(pid, Allocation(i));
    var held1 := held[o := r];
    RunBounds(m1, held1[o]);
    PagesOfRun(r.ptr, r.blocks, v);
    hide Held, Backed, FrameOf, IsWriteable, PagesAfter;
    if Inside(v * PAGE_SIZE, r) {
      FrameOfSum(v * PAGE_SIZE, USER_FLAGS);
      OwnPageBacked(held1, pid, i, v);
    } else {
      if IsWriteable(e1) {
        BackedGrows(held, held1, pid, v, FrameOf(e1));
      }
      if InAllocation(held1, pid, v * PAGE_SIZE) {
        var j :| Owner(pid, Allocation(j)) in held1 && Inside(v * PAGE_SIZE, held1[Owner(pid, Allocation(j))]);
        assert Owner(pid, Allocation(j)) in held && held[Owner(pid, Allocation(j))] == held1[Owner(pid, Allocation(j))];
      }
    }
  }

  lemma OwnPageBacked(held: map<Owner, Run>, pid: nat, i: nat, v: nat)
    requires Owner(pid, Allocation(i)) in held && Inside(v * PAGE_SIZE, held[Owner(pid, Allocation(i))])
    ensures Backed(held, pid, v, v * PAGE_SIZE)
  {
  }

  lemma SlotAdded(held: map<Owner, Run>, pid: nat, slots: seq<Slot>, i: nat, ptr: uint32, size: uint32)
    requires SlotsOk(held, pid, slots) && i < |slots| && ptr != 0
    ensures SlotsOk(held[Owner(pid, Allocation(i)) := Run(ptr, BlocksFor(size))], pid, slots[i := Slot(ptr, size)])
  {
    hide BlocksFor;
    var held' := held[Owner(pid, Allocation(i)) := Run(ptr, BlocksFor(size))];
    var slots' := slots[i := Slot(ptr, size)];
    forall j | 0 <= j < MAX_ALLOCATIONS ensures SlotOk(held', pid, j, slots'[j]) {
      assert SlotOk(held, pid, j, slots[j]);
    }
  }

  // ---- Granted requests ----

  lemma SlotFor(k: KState, pid: nat)
    requires Inv(k) && Live(k, pid) && SlotOf(k.procs[pid].value.slots, 0) < MAX_ALLOCATIONS
    ensures var p := k.procs[pid].value; var i := SlotOf(p.slots, 0);
            |p.slots| == MAX_ALLOCATIONS && Owner(pid, Allocation(i)) !in k.held
  {
    hide Load32, Held, PagesOk, PartsOk, HoldsSpace;
    var p := k.procs[pid].value;
    assert ProcOk(k.m, k.held, pid, p);
    assert SlotOk(k.held, pid, SlotOf(p.slots, 0), p.slots[SlotOf(p.slots, 0)]);
  }

  /** What a granted request does: one more run, its slot, and its pages. */
  lemma MallocGranted(k: KState, pid: nat, size: uint32)
    requires Inv(k) && Live(k, pid)
    requires Fits(Table(k.m), BlocksFor(size)) && SlotOf(k.procs[pid].value.slots, 0) < MAX_ALLOCATIONS
    ensures CanCall(k, pid)
    ensures var p := k.procs[pid].value; var i := SlotOf(p.slots, 0); var n := BlocksFor(size);
            var (m1, ptr) := Kzalloc(k.m, size);
            var m2 := MallocStep(k, pid, size).m; var held1 := k.held[Owner(pid, Allocation(i)) := Run(ptr, n)];
            && i < |p.slots| && HEAP_ADDRESS <= ptr < HEAP_END && Owner(pid, Allocation(i)) !in k.held
            && MallocStep(k, pid, size)
               == k.(m := m2, procs := k.procs[pid := Some(p.(slots := p.slots[i := Slot(ptr, size)]))], held := held1)
            && Held(m1, held1) && (forall o :: o in k.held ==> SameRun(k.m, m1, k.held[o]))
            && LowGuard(m1) && SpaceOk(m1, p.chunk) && DirectoryOf(m1, p.chunk) == DirectoryOf(k.m, p.chunk)
            && OnlyTables(m1, m2, p.chunk)
            && Mapped(m1, m2, p.chunk, ptr / PAGE_SIZE, ptr, n, USER_FLAGS)
            && RunsGrew(k.m, m2, k.held, held1)
  {
    LiveCanCall(k, pid);
    SlotFor(k, pid);
    hide Load32, Held, LowGuard, Fits, ProcOk, OwnersLive, IsRun, WellFormed, SpaceOk, Mapped, Kzalloc, MapTo,
      BlocksFor, ProcessMalloc, OnlyTables, SlotOf, RunsGrew, RunsAdded, Take, FirstFit;
    var p := k.procs[pid].value;
    var i, n := SlotOf(p.slots, 0), BlocksFor(size);
    var o := Owner(pid, Allocation(i));
    KzallocHeld(k.m, k.held, o, size);
    KzallocFits(k.m, size);
    FitsEndsBelow(k.m, size);
    KzallocSparesSpace(k.m, size, p.chunk);
    var m1, ptr, m2 := ProcessMallocMaps(k.m, p.chunk, p.slots, size);
    BelowTableSame(k.m, m1, ptr, size);
    OneNewRun(k.m, m1, k.held, o, Run(ptr, n));
    MappedTable(m1, m2, p.chunk);
    RunsGrewTable(k.m, m1, m2, k.held, k.held[o := Run(ptr, n)]);
  }

  lemma ProcessMallocResult(m: Mem, chunk: nat, slots: seq<Slot>, size: uint32, m1: Mem, ptr: uint32, m2: Mem)
    requires WellFormed(Table(m)) && LiveSpace(m, chunk) && ptr + size < RAM_SIZE
    requires Kzalloc(m, size) == (m1, ptr) && ptr != 0 && SlotOf(slots, 0) < |slots|
    requires SpaceOk(m1, chunk) && MapTo(m1, chunk, ptr, ptr, AlignUp(ptr + size), USER_FLAGS) == (m2, 0)
    ensures ProcessMalloc(m, chunk, slots, size) == (m2, slots[SlotOf(slots, 0) := Slot(ptr, size)], ptr)
  {
    hide Load32, WellFormed, SpaceOk, Kzalloc, MapTo, SlotOf, AlignUp, LiveSpace, Kfree;
  }

  lemma FitsEndsBelow(m: Mem, size: uint32)
    requires Fits(Table(m), BlocksFor(size))
    ensures EndsBelow(m, size) && Below4gb(m, size)
  {
    hide Kzalloc, Fits, BlocksFor;
    FitsSmall(Table(m), size);
  }

  lemma ProcessMallocMaps(m: Mem, chunk: nat, slots: seq<Slot>, size: uint32) returns (m1: Mem, ptr: uint32, m2: Mem)
    requires WellFormed(Table(m)) && LiveSpace(m, chunk) && EndsBelow(m, size)
    requires Kzalloc(m, size).1 != 0 && SlotOf(slots, 0) < |slots|
    ensures Kzalloc(m, size) == (m1, ptr)
    ensures ProcessMalloc(m, chunk, slots, size) == (m2, slots[SlotOf(slots, 0) := Slot(ptr, size)], ptr)
    ensures SpaceOk(m1, chunk) && OnlyTables(m1, m2, chunk)
    ensures Mapped(m1, m2, chunk, ptr / PAGE_SIZE, ptr, BlocksFor(size), USER_FLAGS)
  {
    hide Load32, WellFormed, SpaceOk, LiveSpace, Kzalloc, MapTo, SlotOf, AlignUp, BlocksFor, Kfree, ProcessMalloc,
      Mapped, OnlyTables, SameSpacePages, DirectoryOf, Table;
    KzallocSparesSpace(m, size, chunk);
    m1, ptr := Kzalloc(m, size).0, Kzalloc(m, size).1;
    LiveIsOk(m1, chunk);
    RoundedEnd(ptr, size);
    MapToMaps(m1, chunk, ptr, ptr, BlocksFor(size), USER_FLAGS);
    m2 := MapTo(m1, chunk, ptr, ptr, AlignUp(ptr + size), USER_FLAGS).0;
    ProcessMallocResult(m, chunk, slots, size, m1, ptr, m2);
  }

  lemma BelowTableSame(m: Mem, m': Mem, p: nat, size: nat)
    requires SameElsewhere(m, m', p, size) && p >= HEAP_ADDRESS && LowGuard(m)
    ensures LowGuard(m')
  {
    var j :| NULL_ENTRY <= j < TABLE_ADDRESS && !HasNext(m[j]);
    assert m'[j] == m[j];
  }

  lemma MappedTable(m: Mem, m': Mem, chunk: nat)
    requires SpaceOk(m, chunk) && OnlyTables(m, m', chunk)
    ensures Table(m') == Table(m)
  {
    hide Load32;
    forall j | 0 <= j < HEAP_ADDRESS ensures m'[j] == m[j] {
      assert !InTables(m, DirectoryOf(m, chunk), j);
    }
    TableSame(m, m');
  }

  /** A granted request keeps the invariant. */
  lemma MallocGrantedKeepsInv(k: KState, pid: nat, size: uint32)
    requires Inv(k) && Live(k, pid)
    requires Fits(Table(k.m), BlocksFor(size)) && SlotOf(k.procs[pid].value.slots, 0) < MAX_ALLOCATIONS
    ensures CanCall(k, pid) && Inv(MallocStep(k, pid, size))
  {
    hide Load32, Held, LowGuard, Fits, MallocStep, OwnersLive, IsRun, SpaceOk, Mapped, Kzalloc, CanCall, PartsOk,
      SlotOf, SlotsOk, PagesOk, HoldsSpace, BlocksFor, RunsGrew, AgreeOn, KernelRunsSame, Inv, ProcOk, LinkWords,
      OnlyTables;
    SlotCount(k, pid);
    MallocGranted(k, pid, size);
    var p := k.procs[pid].value;
    var i, n := SlotOf(p.slots, 0), BlocksFor(size);
    var o := Owner(pid, Allocation(i));
    var (m1, ptr) := Kzalloc(k.m, size);
    var k2 := MallocStep(k, pid, size);
    var held1 := k.held[o := Run(ptr, n)];
    AllUntouched(k, m1);
    InvProcs(k);
    ProcBounds(m1, k.held, pid, p);
    GrantedProcOk(k, m1, k2.m, pid, i, ptr, size);
    OthersUntouched(m1, k2.m, k.procs, k.held, held1, pid);
    OwnersStillLive(k, pid, i, Run(ptr, n), Slot(ptr, size));
    OnlyTablesSpares(m1, k2.m, held1, pid, p.chunk);
    InvFrom(k2);
  }

  /** The process that asked. */
  lemma GrantedProcOk(k: KState, m1: Mem, m2: Mem, pid: nat, i: nat, ptr: uint32, size: uint32)
    requires Live(k, pid) && i < |k.procs[pid].value.slots| && ptr != 0 && Owner(pid, Allocation(i)) !in k.held
    requires var held1 := k.held[Owner(pid, Allocation(i)) := Run(ptr, BlocksFor(size))]; var p := k.procs[pid].value;
             && ProcOk(m1, k.held, pid, p) && Held(m1, held1)
             && p.chunk + 4 <= RAM_SIZE && DirectoryOf(m1, p.chunk) + PAGE_SIZE <= RAM_SIZE
             && OnlyTables(m1, m2, p.chunk)
             && Mapped(m1, m2, p.chunk, ptr / PAGE_SIZE, ptr, BlocksFor(size), USER_FLAGS)
    ensures var held1 := k.held[Owner(pid, Allocation(i)) := Run(ptr, BlocksFor(size))]; var p := k.procs[pid].value;
            && ProcOk(m2, held1, pid, p.(slots := p.slots[i := Slot(ptr, size)]))
            && HoldsSpace(m1, held1, pid, p.chunk) && Held(m1, k.held)
            && forall q :: q in held1 && !(q.pid == pid && q.role.PageTable?) ==> SameRun(m1, m2, held1[q])
  {
    hide Load32, Held, Mapped, OnlyTables, PartsOk, SlotsOk, PagesOk, HoldsSpace, BlocksFor, SameRun, LinkWords;
    var p, o := k.procs[pid].value, Owner(pid, Allocation(i));
    var held1 := k.held[o := Run(ptr, BlocksFor(size))];
    var p' := p.(slots := p.slots[i := Slot(ptr, size)]);
    OwnSpace(m1, k.held, held1, pid, p);
    OnlyTablesSpares(m1, m2, held1, pid, p.chunk);
    HeldShrinks(m1, held1, k.held);
    NewPagesOk(m1, m2, k.held, pid, i, Run(ptr, BlocksFor(size)), p.chunk);
    SlotAdded(k.held, pid, p.slots, i, ptr, size);
    PartsGrow(k.held, o, Run(ptr, BlocksFor(size)), pid, p, p'.slots);
    TaskKept(m1, m2, held1, pid, p');
    NewProcOk(m2, held1, pid, p');
  }

  /** Memory changed outside everything that is held: every process is as before. */
  lemma AllUntouched(k: KState, m': Mem)
    requires Inv(k) && forall o :: o in k.held ==> SameRun(k.m, m', k.held[o])
    ensures forall q :: 0 <= q < MAX_PROCESSES && k.procs[q].Some? ==> ProcOk(m', k.held, q, k.procs[q].value)
  {
    hide ProcOk, Held, LowGuard, OwnersLive, KernelRunsSame, AgreeOn, SameRun;
    forall q | 0 <= q < MAX_PROCESSES && k.procs[q].Some?
      ensures ProcOk(m', k.held, q, k.procs[q].value)
    {
      AllRunsSame(k.m, m', k.held, q);
      AgreeSelf(k.held, q);
      ProcUntouched(k.m, m', k.held, k.held, q, k.procs[q].value);
    }
  }

  /** Memory changed in one process's page tables: the other processes are as before. */
  lemma OthersUntouched(m: Mem, m': Mem, procs: seq<Option<Proc>>, held: map<Owner, Run>, held': map<Owner, Run>,
                        pid: nat)
    requires Held(m, held) && |procs| == MAX_PROCESSES
    requires forall q :: 0 <= q < MAX_PROCESSES && procs[q].Some? ==> ProcOk(m, held, q, procs[q].value)
    requires Extends(held, held') && forall o :: o in held' && o !in held ==> o.pid == pid
    requires forall o :: o in held' && !(o.pid == pid && o.role.PageTable?) ==> SameRun(m, m', held'[o])
    ensures forall q :: 0 <= q < MAX_PROCESSES && q != pid && procs[q].Some? ==> ProcOk(m', held', q, procs[q].value)
  {
    hide ProcOk, Held, KernelRunsSame, AgreeOn, SameRun;
    forall q | 0 <= q < MAX_PROCESSES && q != pid && procs[q].Some?
      ensures ProcOk(m', held', q, procs[q].value)
    {
      OthersSame(m, m', held, held', pid, q);
      ProcUntouched(m, m', held, held', q, procs[q].value);
    }
  }

  lemma AllRunsSame(m: Mem, m': Mem, held: map<Owner, Run>, pid: nat)
    requires forall o :: o in held ==> SameRun(m, m', held[o])
    ensures KernelRunsSame(m, m', held, pid)
  {
  }

  lemma OwnSpace(m: Mem, held: map<Owner, Run>, held': map<Owner, Run>, pid: nat, p: Proc)
    requires ProcOk(m, held, pid, p) && Extends(held, held')
    ensures HoldsSpace(m, held', pid, p.chunk)
  {
    hide Load32;
    forall i | 0 <= i < TABLE_ENTRIES
      ensures HoldsPage(held', Owner(pid, PageTable(i)), TableAddress(m, DirectoryOf(m, p.chunk), i))
    {
      assert HoldsPage(held, Owner(pid, PageTable(i)), TableAddress(m, DirectoryOf(m, p.chunk), i));
    }
  }

  lemma HeldShrinks(m: Mem, held': map<Owner, Run>, held: map<Owner, Run>)
    requires Held(m, held') && Extends(held, held')
    ensures Held(m, held)
  {
  }

  lemma OthersSame(m: Mem, m': Mem, held: map<Owner, Run>, held': map<Owner, Run>, pid: nat, q: nat)
    requires q != pid && Extends(held, held') && forall o :: o in held' && o !in held ==> o.pid == pid
    requires forall o :: o in held' && !(o.pid == pid && o.role.PageTable?) ==> SameRun(m, m', held'[o])
    ensures KernelRunsSame(m, m', held, q) && AgreeOn(held, held', q)
  {
  }

  lemma PartsGrow(held: map<Owner, Run>, o: Owner, r: Run, pid: nat, p: Proc, slots: seq<Slot>)
    requires PartsOk(held, pid, p) && o.role.Allocation?
    ensures PartsOk(held[o := r], pid, p.(slots := slots))
  {
  }

  lemma OwnersStillLive(k: KState, pid: nat, i: nat, r: Run, slot: Slot)
    requires OwnersLive(k.procs, k.held) && Live(k, pid) && i < |k.procs[pid].value.slots|
    ensures var p := k.procs[pid].value;
            OwnersLive(k.procs[pid := Some(p.(slots := p.slots[i := slot]))], k.held[Owner(pid, Allocation(i)) := r])
  {
  }

  // ---- Refused requests, and the requests that are not refused but should be ----

  /** The scan finds nothing to answer. */
  lemma MallocRefused(k: KState, pid: nat, size: uint32)
    requires Inv(k) && Live(k, pid)
    requires !Fits(Table(k.m), BlocksFor(size)) && TrailingStart(Table(k.m)) == TOTAL_BLOCKS
    ensures CanCall(k, pid) && MallocStep(k, pid, size) == k
  {
    LiveCanCall(k, pid);
    NoAnswer(k.m, size);
    hide Load32, ProcOk, Held, Kzalloc, Fits, TrailingStart, LiveSpace;
    var p := k.procs[pid].value;
    assert p.(slots := p.slots) == p;
    assert k.procs[pid := Some(p)] == k.procs;
  }

  lemma NoSlot(m: Mem, chunk: nat, slots: seq<Slot>, size: uint32)
    requires WellFormed(Table(m)) && LiveSpace(m, chunk)
    requires Kzalloc(m, size).1 != 0 && SlotOf(slots, 0) == |slots|
    ensures Freeable(Kzalloc(m, size).1)
    ensures ProcessMalloc(m, chunk, slots, size) == (Kfree(Kzalloc(m, size).0, Kzalloc(m, size).1), slots, 0)
  {
    hide Load32, Kzalloc, LiveSpace, Kfree;
  }

  /** An owner outside the process table, for a block held only in passing. */
  const PASSING := Owner(MAX_PROCESSES, Image)

  /** Allocating a granted block and giving it straight back touches nothing held. */
  lemma GrantedThenFreed(m: Mem, held: map<Owner, Run>, size: uint32)
    requires Held(m, held) && PASSING !in held && LowGuard(m) && Fits(Table(m), BlocksFor(size))
    ensures var (m1, p) := Kzalloc(m, size);
            p != 0 && Held(Kfree(m1, p), held) && LowGuard(Kfree(m1, p))
            && forall o :: o in held ==> SameRun(m, Kfree(m1, p), held[o])
  {
    hide Fits, WellFormed, IsRun, Kzalloc, Kfree, BlocksFor;
    KzallocFits(m, size);
    KzallocHeld(m, held, PASSING, size);
    var (m1, p) := Kzalloc(m, size);
    var held1 := held[PASSING := Run(p, BlocksFor(size))];
    BelowTableSame(m, m1, p, size);
    KfreeHeld(m1, held1, PASSING);
    assert held1 - {PASSING} == held;
    var m2 := Kfree(m1, p);
    TableOnlyGuard(m1, m2);
    forall o | o in held ensures SameRun(m, m2, held[o]) {
      HeldBounds(m, held, o);
      assert SameRun(m, m1, held[o]);
    }
  }

  lemma TableOnlyGuard(m: Mem, m': Mem)
    requires SameOutsideTable(m, m') && LowGuard(m)
    ensures LowGuard(m')
  {
    var j :| NULL_ENTRY <= j < TABLE_ADDRESS && !HasNext(m[j]);
    assert m'[j] == m[j];
  }

  lemma ShortIsShort(t: seq<byte>, n: nat)
    requires n >= 1 && !Fits(t, n)
    ensures TrailingStart(t) + n > |t|
  {
    if TrailingStart(t) + n <= |t| {
      TailFits(t, n);
    }
  }

  lemma TailFits(t: seq<byte>, n: nat)
    requires n >= 1 && TrailingStart(t) + n <= |t|
    ensures Fits(t, n)
  {
    assert FreeRun(t, TrailingStart(t), n);
  }

  lemma ShortMarks(m: Mem, size: uint32, s: nat)
    requires Below4gb(m, size) && !Fits(Table(m), BlocksFor(size)) && BlocksFor(size) >= 1
    requires s == TrailingStart(Table(m)) < TOTAL_BLOCKS
    ensures forall k :: TABLE_ADDRESS + s <= k < TABLE_ADDRESS + TOTAL_BLOCKS ==> HasNext(Kzalloc(m, size).0[k])
  {
    var n := BlocksFor(size);
    ShortIsShort(Table(m), n);
    assert StartBlock(Table(m), n) == s;
    var m1 := Kmalloc(m, size).0;
    forall k | TABLE_ADDRESS + s <= k < TABLE_ADDRESS + TOTAL_BLOCKS ensures HasNext(Kzalloc(m, size).0[k]) {
      assert m1[k] == RunEntry(0, n, k - (TABLE_ADDRESS + s));
    }
  }

  /** A block too short for its request, given straight back: the table is whole again. */
  lemma ShortThenFreed(m: Mem, size: uint32)
    requires WellFormed(Table(m)) && Below4gb(m, size) && !Fits(Table(m), BlocksFor(size))
    requires TrailingStart(Table(m)) < TOTAL_BLOCKS
    ensures var (m1, p) := Kzalloc(m, size); var m2 := Kfree(m1, p);
            && p == HEAP_ADDRESS + BLOCK_SIZE * TrailingStart(Table(m)) && Freeable(p)
            && Table(m2) == Table(m)
            && forall k :: 0 <= k < TABLE_ADDRESS || HEAP_ADDRESS <= k < p ==> m2[k] == m[k]
  {
    var s := TrailingStart(Table(m));
    ShortAnswer(m, size, s);
    ShortCleared(m, size, s);
    hide Kzalloc, Kfree, Fits, TrailingStart, BlocksFor;
    var (m1, p) := Kzalloc(m, size);
    var m2 := Kfree(m1, p);
    forall k | 0 <= k < TOTAL_BLOCKS ensures Table(m2)[k] == Table(m)[k] {
      assert Table(m2)[k] == m2[TABLE_ADDRESS + k] && Table(m)[k] == m[TABLE_ADDRESS + k];
    }
  }

  lemma ShortCleared(m: Mem, size: uint32, s: nat)
    requires WellFormed(Table(m)) && Below4gb(m, size) && !Fits(Table(m), BlocksFor(size))
    requires s == TrailingStart(Table(m)) < TOTAL_BLOCKS
    ensures var m1 := Kzalloc(m, size).0; var p := HEAP_ADDRESS + BLOCK_SIZE * s; var m2 := Kfree(m1, p);
            && (forall k :: TABLE_ADDRESS + s <= k < TABLE_ADDRESS + TOTAL_BLOCKS ==> m2[k] == ENTRY_FREE == m[k])
            && (forall k :: 0 <= k < TABLE_ADDRESS + s || TABLE_ADDRESS + TOTAL_BLOCKS <= k < RAM_SIZE ==>
                  m2[k] == m1[k])
  {
    hide Kzalloc, Fits, TrailingStart, BlocksFor, Table, WellFormed, Kfree, HasNext, Below4gb;
    TailFreed(m, s);
    ShortAnswer(m, size, s);
    var m1 := Kzalloc(m, size).0;
    if BlocksFor(size) >= 1 {
      ShortMarks(m, size, s);
      TailChainFreed(m1, s);
    } else {
      EmptyRequest(m, size);
      TailChainFreed(m1, s);
    }
  }

  /** kfree at the first trailing block, when the whole tail is one chain or free. */
  lemma TailChainFreed(m1: Mem, s: nat)
    requires s < TOTAL_BLOCKS
    requires (forall k :: TABLE_ADDRESS + s <= k < TABLE_ADDRESS + TOTAL_BLOCKS ==> HasNext(m1[k]))
          || (forall k :: TABLE_ADDRESS + s <= k < TABLE_ADDRESS + TOTAL_BLOCKS ==> m1[k] == ENTRY_FREE)
    ensures var m2 := Kfree(m1, HEAP_ADDRESS + BLOCK_SIZE * s);
            && (forall k :: TABLE_ADDRESS + s <= k < TABLE_ADDRESS + TOTAL_BLOCKS ==> m2[k] == ENTRY_FREE)
            && (forall k :: 0 <= k < TABLE_ADDRESS + s || TABLE_ADDRESS + TOTAL_BLOCKS <= k < RAM_SIZE ==>
                  m2[k] == m1[k])
  {
    var base, end := TABLE_ADDRESS + s, TABLE_ADDRESS + TOTAL_BLOCKS;
    assert AddressToBlock(HEAP_ADDRESS, HEAP_ADDRESS + BLOCK_SIZE * s) == s;
    if HasNext(m1[base]) {
      ClearedPart(m1, base, TOTAL_BLOCKS - s, end);
    } else {
      assert ClearChain(m1, base, end) == m1[base := ENTRY_FREE];
    }
  }

  lemma TailFreed(m: Mem, s: nat)
    requires WellFormed(Table(m)) && s == TrailingStart(Table(m))
    ensures forall k :: TABLE_ADDRESS + s <= k < TABLE_ADDRESS + TOTAL_BLOCKS ==> m[k] == ENTRY_FREE
  {
    hide WellFormed, TrailingStart;
    forall k | TABLE_ADDRESS + s <= k < TABLE_ADDRESS + TOTAL_BLOCKS ensures m[k] == ENTRY_FREE {
      assert m[k] == Table(m)[k - TABLE_ADDRESS];
      RunEntriesOk(Table(m), k - TABLE_ADDRESS);
    }
  }

  /** kzalloc(0) marks and clears nothing. */
  lemma EmptyRequest(m: Mem, size: uint32)
    requires Below4gb(m, size) && Kzalloc(m, size).1 != 0 && BlocksFor(size) == 0
    ensures size == 0 && Kzalloc(m, size).0 == m
  {
    hide BlocksFor, Table, TrailingStart, FirstFit, Fits;
    NoBlocks(size);
    var s := StartBlock(Table(m), 0);
    if s >= 0 {
      assert Splice(m, TABLE_ADDRESS + s, RunBytes(0)) == m;
      assert Zero(m, HEAP_ADDRESS + s * BLOCK_SIZE, 0) == m;
    }
  }

  lemma NoBlocks(size: uint32)
    requires BlocksFor(size) == 0
    ensures size == 0 || size > LAST_PAGE
  {
  }

  /** A block given straight back, its clearing having stayed below 4 GB, leaves the
      kernel as sound as it was. */
  lemma AnswerUndone(k: KState, size: uint32)
    requires Inv(k) && Kzalloc(k.m, size).1 != 0 && Below4gb(k.m, size)
    ensures Freeable(Kzalloc(k.m, size).1)
    ensures Inv(k.(m := Kfree(Kzalloc(k.m, size).0, Kzalloc(k.m, size).1)))
  {
    hide Load32, Inv, ProcOk, Held, LowGuard, IsRun, Kzalloc, Fits, TrailingStart, Kfree, BlocksFor, WellFormed, Table,
      KernelRunsSame, SameRun, OwnersLive;
    InvProcs(k);
    NobodyPassing(k);
    if Fits(Table(k.m), BlocksFor(size)) {
      GrantedThenFreed(k.m, k.held, size);
    } else {
      AnsweredTrailing(k.m, size);
      ShortFreedSpares(k, size);
    }
    var m2 := Kfree(Kzalloc(k.m, size).0, Kzalloc(k.m, size).1);
    forall q | 0 <= q < MAX_PROCESSES && k.procs[q].Some? ensures KernelRunsSame(k.m, m2, k.held, q) {
      AllRunsSame(k.m, m2, k.held, q);
    }
    FrameKeepsInv(k, m2);
  }

  lemma NobodyPassing(k: KState)
    requires Inv(k)
    ensures PASSING !in k.held
  {
  }

  lemma AnsweredTrailing(m: Mem, size: uint32)
    requires !Fits(Table(m), BlocksFor(size)) && Kzalloc(m, size).1 != 0
    ensures TrailingStart(Table(m)) < TOTAL_BLOCKS
  {
    if TrailingStart(Table(m)) >= TOTAL_BLOCKS { NoAnswer(m, size); }
  }

  lemma ShortFreedSpares(k: KState, size: uint32)
    requires Held(k.m, k.held) && LowGuard(k.m) && Below4gb(k.m, size) && !Fits(Table(k.m), BlocksFor(size))
    requires TrailingStart(Table(k.m)) < TOTAL_BLOCKS
    ensures var (m1, p) := Kzalloc(k.m, size);
            && Freeable(p) && Held(Kfree(m1, p), k.held) && LowGuard(Kfree(m1, p))
            && forall o :: o in k.held ==> SameRun(k.m, Kfree(m1, p), k.held[o])
  {
    hide Kzalloc, Fits, BlocksFor, Held, LowGuard, Kfree, TrailingStart, Table, Below4gb;
    HeldTable(k.m, k.held);
    ShortThenFreed(k.m, size);
    var m2 := Kfree(Kzalloc(k.m, size).0, Kzalloc(k.m, size).1);
    HeldByTable(k.m, m2, k.held);
    GuardBelowTable(k.m, m2);
    forall o | o in k.held ensures SameRun(k.m, m2, k.held[o]) {
      HeldBelowTrailing(k.m, k.held, o);
    }
  }

  lemma HeldTable(m: Mem, held: map<Owner, Run>)
    requires Held(m, held)
    ensures WellFormed(Table(m))
  {
  }

  lemma GuardBelowTable(m: Mem, m': Mem)
    requires LowGuard(m) && forall k :: 0 <= k < TABLE_ADDRESS ==> m'[k] == m[k]
    ensures LowGuard(m')
  {
    var j :| NULL_ENTRY <= j < TABLE_ADDRESS && !HasNext(m[j]);
    assert !HasNext(m'[j]);
  }

  /** Nothing held lies in the trailing free blocks. */
  lemma HeldBelowTrailing(m: Mem, held: map<Owner, Run>, o: Owner)
    requires Held(m, held) && o in held && TrailingStart(Table(m)) < TOTAL_BLOCKS
    ensures 0 <= BlockOf(held[o].ptr) < TrailingStart(Table(m))
    ensures HEAP_ADDRESS <= held[o].ptr < held[o].End() <= HEAP_ADDRESS + BLOCK_SIZE * TrailingStart(Table(m))
  {
    hide TrailingStart, WellFormed, IsRun, Table;
    var t, r := Table(m), held[o];
    TrailingFree(t);
    HeldBounds(m, held, o);
    RunAvoidsFree(t, BlockOf(r.ptr), r.blocks, TrailingStart(t), |t| - TrailingStart(t));
    RunEndsBefore(m, r, TrailingStart(t));
  }

  lemma SlotCount(k: KState, pid: nat)
    requires Inv(k) && Live(k, pid)
    ensures |k.procs[pid].value.slots| == MAX_ALLOCATIONS && pid < |k.procs| && k.procs[pid].Some?
  {
    hide Load32, Held, PagesOk, PartsOk, HoldsSpace;
    assert ProcOk(k.m, k.held, pid, k.procs[pid].value);
  }
}
