/** process_free and process_terminate keep the invariant and give back exactly
    what they should. */
module Frees {
  import opened Memory
  import opened HeapTable
  import opened Heap
  import opened KernelHeap
  import opened Owners
  import opened Paging
  import opened AddressSpace
  import opened Elf
  import opened Process
  import opened Isolation
  import opened Steps

  /** What process_free gives up: the allocation in the first slot holding ptr. */
  function FreedHeld(held: map<Owner, Run>, pid: nat, slots: seq<Slot>, ptr: uint32): map<Owner, Run> {
    if ptr == 0 || SlotOf(slots, ptr) == |slots| then held
    else held - {Owner(pid, Allocation(SlotOf(slots, ptr)))}
  }

  /** One process calls process_free, with any pointer. */
  function FreeStep(k: KState, pid: nat, ptr: uint32): (k': KState)
    requires CanCall(k, pid)
  {
    var p := k.procs[pid].value;
    var (m', slots') := ProcessFree(k.m, p.chunk, p.slots, ptr);
    k.(m := m', procs := k.procs[pid := Some(p.(slots := slots'))], held := FreedHeld(k.held, pid, p.slots, ptr))
  }

  // ---- Pointers that are in no slot, and NULL ----

  lemma FreeUnknown(k: KState, pid: nat, ptr: uint32)
    requires Inv(k) && Live(k, pid) && SlotOf(k.procs[pid].value.slots, ptr) == |k.procs[pid].value.slots|
    ensures CanCall(k, pid) && FreeStep(k, pid, ptr) == k
  {
    LiveCanCall(k, pid);
    hide Load32, ProcOk, Held, LiveSpace;
    var p := k.procs[pid].value;
    assert p.(slots := p.slots) == p;
    assert k.procs[pid := Some(p)] == k.procs;
  }

  lemma ProcessFreeResult(m: Mem, chunk: nat, slots: seq<Slot>, ptr: uint32, end: uint32, m1: Mem)
    requires SpaceOk(m, chunk) && SlotsFreeable(slots) && SlotOf(slots, ptr) < |slots|
    requires end == SlotEnd(slots[SlotOf(slots, ptr)])
    requires MapTo(m, chunk, ptr, ptr, end, 0) == (m1, 0)
    ensures Freeable(ptr) && ProcessFree(m, chunk, slots, ptr) == (Kfree(m1, ptr), Unjoin(slots, ptr))
  {
    hide Load32, SpaceOk, Kfree, MapTo, SlotEnd, Unjoin, SlotOf, DirectoryOf;
    assert Freeable(slots[SlotOf(slots, ptr)].ptr);
  }

  /** Mapping no pages does nothing. */
  lemma NullMapsNothing(m: Mem, chunk: nat, slots: seq<Slot>, held: map<Owner, Run>, pid: nat)
    requires SpaceOk(m, chunk) && SlotsFreeable(slots) && SlotsOk(held, pid, slots)
    requires SlotOf(slots, 0) < |slots|
    ensures ProcessFree(m, chunk, slots, 0) == (Kfree(m, 0), slots)
  {
    var i := SlotOf(slots, 0);
    assert SlotOk(held, pid, i, slots[i]);
    forall j | 0 <= j < |slots| ensures Unjoin(slots, 0)[j] == slots[j] {
      assert SlotOk(held, pid, j, slots[j]);
    }
    assert Unjoin(slots, 0) == slots;
    hide SpaceOk, Kfree, Load32, ProcessFree;
    assert MapTo(m, chunk, 0, 0, 0, 0) == (m, 0);
    ProcessFreeResult(m, chunk, slots, 0, 0, m);
  }

  lemma NullGuard(m: Mem, held: map<Owner, Run>)
    requires LowGuard(m) && Held(m, held)
    ensures LowGuard(Kfree(m, 0)) && Held(Kfree(m, 0), held)
    ensures forall o :: o in held ==> SameRun(m, Kfree(m, 0), held[o])
  {
    hide Kfree, WellFormed, IsRun;
    KfreeNull(m);
    HeldByTable(m, Kfree(m, 0), held);
    forall o | o in held ensures SameRun(m, Kfree(m, 0), held[o]) {
      HeldBounds(m, held, o);
    }
  }

  /** free(NULL) is harmless as long as the guard byte stands, which it does. */
  lemma FreeNull(k: KState, pid: nat)
    requires Inv(k) && Live(k, pid) && SlotOf(k.procs[pid].value.slots, 0) < |k.procs[pid].value.slots|
    ensures CanCall(k, pid) && Inv(FreeStep(k, pid, 0))
    ensures FreeStep(k, pid, 0) == k.(m := Kfree(k.m, 0))
  {
    hide Load32, Inv, ProcOk, Held, LowGuard, Kfree, LiveSpace, ProcessFree, KernelRunsSame, SlotsOk, SlotOf,
      SameRun, Table, WellFormed, HoldsSpace;
    LiveCanCall(k, pid);
    LiveParts(k, pid);
    var p := k.procs[pid].value;
    LiveIsOk(k.m, p.chunk);
    NullMapsNothing(k.m, p.chunk, p.slots, k.held, pid);
    assert p.(slots := p.slots) == p;
    assert k.procs[pid := Some(p)] == k.procs;
    NullGuard(k.m, k.held);
    var m2 := Kfree(k.m, 0);
    forall q: nat ensures KernelRunsSame(k.m, m2, k.held, q) {
      AllRunsSame(k.m, m2, k.held, q);
    }
    FrameKeepsInv(k, m2);
  }

  // ---- Freeing an allocation ----

  lemma RunEnd(ptr: nat, size: uint32)
    requires HEAP_ADDRESS <= ptr && ptr % PAGE_SIZE == 0 && BlocksFor(size) >= 1
    requires ptr + PAGE_SIZE * BlocksFor(size) <= HEAP_END
    ensures ptr < RAM_SIZE && SlotEnd(Slot(ptr, size)) == ptr + PAGE_SIZE * BlocksFor(size)
  {
    BlocksCover(size);
    RoundedEnd(ptr, size);
  }

  /** The slot a pointer is found in is the only one that holds it. */
  lemma OnlySlot(m: Mem, held: map<Owner, Run>, pid: nat, slots: seq<Slot>, ptr: uint32)
    requires Held(m, held) && SlotsOk(held, pid, slots) && ptr != 0 && SlotOf(slots, ptr) < |slots|
    ensures var i := SlotOf(slots, ptr); var o := Owner(pid, Allocation(i));
            && HoldsRun(held, o, ptr, BlocksFor(slots[i].size))
            && Unjoin(slots, ptr) == slots[i := EMPTY]
  {
    hide BlocksFor, WellFormed, IsRun;
    var i := SlotOf(slots, ptr);
    assert SlotOk(held, pid, i, slots[i]);
    forall j | 0 <= j < |slots| && j != i ensures slots[j].ptr != ptr {
      assert SlotOk(held, pid, j, slots[j]);
      assert Owner(pid, Allocation(j)) != Owner(pid, Allocation(i));
    }
    assert Unjoin(slots, ptr) == slots[i := EMPTY];
  }

  /** What freeing an allocation does, exactly: its pages become inaccessible and
      every other page keeps its entry; its run leaves the heap table and every
      other run stays; its slot is emptied and every other slot stays; and no byte
      held by anybody changes apart from this process's page tables. */
  lemma FreeAllocation(k: KState, pid: nat, ptr: uint32)
    requires Inv(k) && Live(k, pid) && ptr != 0
    requires SlotOf(k.procs[pid].value.slots, ptr) < |k.procs[pid].value.slots|
    ensures CanCall(k, pid)
    ensures var p := k.procs[pid].value; var i := SlotOf(p.slots, ptr); var o := Owner(pid, Allocation(i));
            var k' := FreeStep(k, pid, ptr); var dir := DirectoryOf(k.m, p.chunk);
            && o in k.held && k.held[o] == Run(ptr, BlocksFor(p.slots[i].size))
            && k'.procs == k.procs[pid := Some(p.(slots := p.slots[i := EMPTY]))]
            && k'.held == k.held - {o} && k'.ring == k.ring && Held(k'.m, k'.held) && LowGuard(k'.m)
            && dir + PAGE_SIZE <= RAM_SIZE && DirectoryOf(k'.m, p.chunk) == dir
            && (forall v :: 0 <= v < TOTAL_PAGES ==>
                  PageEntry(k'.m, dir, v)
                  == (if Inside(v * PAGE_SIZE, k.held[o]) then v * PAGE_SIZE else PageEntry(k.m, dir, v)))
            && (forall a, b :: IsRun(Table(k'.m), a, b) <==>
                  IsRun(Table(k.m), a, b) && !(a == BlockOf(ptr) && b == k.held[o].blocks))
            && (forall q :: q in k.held && !(q.pid == pid && q.role.PageTable?) ==> SameRun(k.m, k'.m, k.held[q]))
            && HoldsSpace(k'.m, k.held, pid, p.chunk)
  {
    LiveCanCall(k, pid);
    LiveParts(k, pid);
    hide Load32, Held, LowGuard, IsRun, SlotsOk, ProcOk, LiveSpace, HoldsSpace, OwnersLive, FreeStep, Table, BlocksFor;
    var p := k.procs[pid].value;
    OnlySlot(k.m, k.held, pid, p.slots, ptr);
    var m2 := FreedMemory(k.m, k.held, pid, p.chunk, p.slots, ptr);
    FreeStepIs(k, pid, ptr, m2);
  }

  lemma LiveParts(k: KState, pid: nat)
    requires Inv(k) && Live(k, pid)
    ensures var p := k.procs[pid].value;
            && Held(k.m, k.held) && LowGuard(k.m) && HoldsSpace(k.m, k.held, pid, p.chunk)
            && SlotsOk(k.held, pid, p.slots)
  {
    hide Load32, Held, PagesOk, SlotsOk, PartsOk;
    assert ProcOk(k.m, k.held, pid, k.procs[pid].value);
  }

  /** The memory side of freeing an allocation. */
  lemma FreedMemory(m: Mem, held: map<Owner, Run>, pid: nat, chunk: nat, slots: seq<Slot>, ptr: uint32)
    returns (m2: Mem)
    requires Held(m, held) && LowGuard(m) && HoldsSpace(m, held, pid, chunk)
    requires SlotsOk(held, pid, slots) && SlotsFreeable(slots) && ptr != 0 && SlotOf(slots, ptr) < |slots|
    ensures SpaceOk(m, chunk)
    ensures ProcessFree(m, chunk, slots, ptr) == (m2, slots[SlotOf(slots, ptr) := EMPTY])
    ensures var i := SlotOf(slots, ptr); var o := Owner(pid, Allocation(i)); var dir := DirectoryOf(m, chunk);
            && o in held && held[o] == Run(ptr, BlocksFor(slots[i].size))
            && Held(m2, held - {o}) && LowGuard(m2) && HoldsSpace(m2, held, pid, chunk)
            && DirectoryOf(m2, chunk) == dir
            && (forall v :: 0 <= v < TOTAL_PAGES ==>
                  PageEntry(m2, dir, v)
                  == (if Inside(v * PAGE_SIZE, held[o]) then v * PAGE_SIZE else PageEntry(m, dir, v)))
            && (forall a, b :: IsRun(Table(m2), a, b) <==>
                  IsRun(Table(m), a, b) && !(a == BlockOf(ptr) && b == held[o].blocks))
            && (forall q :: q in held && !(q.pid == pid && q.role.PageTable?) ==> SameRun(m, m2, held[q]))
  {
    HeldSpaceOk(m, held, pid, chunk);
    OnlySlot(m, held, pid, slots, ptr);
    var i := SlotOf(slots, ptr);
    var o := Owner(pid, Allocation(i));
    var r := held[o];
    RunBounds(m, r);
    RunEnd(ptr, slots[i].size);
    hide Load32, Held, LowGuard, IsRun, WellFormed, Kfree, SlotsOk, BlocksFor, SpaceOk, HoldsSpace, SlotOf, SlotEnd,
      Table, PageEntry, ProcessFree, MapTo, Unjoin, RunAt;
    var m1 := FreedPages(m, held, pid, chunk, o);
    assert slots[i] == Slot(ptr, slots[i].size);
    ProcessFreeResult(m, chunk, slots, ptr, r.End(), m1);
    m2 := Kfree(m1, ptr);
    FreedTable(m1, m2, held, pid, chunk, o);
    forall q | q in held && !(q.pid == pid && q.role.PageTable?) ensures SameRun(m, m2, held[q]) {
      assert SameRun(m, m1, held[q]) && SameRun(m1, m2, held[q]);
    }
  }

  lemma FreedTable(m1: Mem, m2: Mem, held: map<Owner, Run>, pid: nat, chunk: nat, o: Owner)
    requires Held(m1, held) && LowGuard(m1) && HoldsSpace(m1, held, pid, chunk) && o in held
    requires Freeable(held[o].ptr) && held[o].ptr < RAM_SIZE && m2 == Kfree(m1, held[o].ptr)
    ensures Held(m2, held - {o}) && LowGuard(m2) && HoldsSpace(m2, held, pid, chunk)
    ensures DirectoryOf(m2, chunk) == DirectoryOf(m1, chunk)
    ensures forall v :: 0 <= v < TOTAL_PAGES ==>
              PageEntry(m2, DirectoryOf(m1, chunk), v) == PageEntry(m1, DirectoryOf(m1, chunk), v)
    ensures forall a, b :: IsRun(Table(m2), a, b) <==>
              IsRun(Table(m1), a, b) && !(a == BlockOf(held[o].ptr) && b == held[o].blocks)
    ensures forall q :: q in held ==> SameRun(m1, m2, held[q])
  {
    hide Load32, PageEntry, HoldsSpace, Kfree, LowGuard;
    KfreeHeld(m1, held, o);
    KfreeRun(m1, held[o]);
    TableOnlyGuard(m1, m2);
    AfterTableWrite(m1, m2, held, pid, chunk);
  }

  lemma FreeStepIs(k: KState, pid: nat, ptr: uint32, m2: Mem)
    requires CanCall(k, pid) && ptr != 0
    requires var p := k.procs[pid].value; var i := SlotOf(p.slots, ptr);
             && i < |p.slots| && ProcessFree(k.m, p.chunk, p.slots, ptr) == (m2, p.slots[i := EMPTY])
    ensures var p := k.procs[pid].value; var i := SlotOf(p.slots, ptr);
            FreeStep(k, pid, ptr) == k.(m := m2, procs := k.procs[pid := Some(p.(slots := p.slots[i := EMPTY]))],
                                        held := k.held - {Owner(pid, Allocation(i))})
  {
    hide Load32, ProcessFree, LiveSpace;
  }

  /** The pages of a run, mapped to themselves without any flag. */
  lemma FreedPages(m: Mem, held: map<Owner, Run>, pid: nat, chunk: nat, o: Owner) returns (m1: Mem)
    requires Held(m, held) && HoldsSpace(m, held, pid, chunk) && o in held && LowGuard(m)
    requires held[o].End() < RAM_SIZE && held[o].ptr % PAGE_SIZE == 0
    ensures SpaceOk(m, chunk)
    ensures MapTo(m, chunk, held[o].ptr, held[o].ptr, held[o].End(), 0) == (m1, 0)
    ensures Held(m1, held) && HoldsSpace(m1, held, pid, chunk) && LowGuard(m1) && Table(m1) == Table(m)
    ensures DirectoryOf(m1, chunk) == DirectoryOf(m, chunk)
    ensures forall v :: 0 <= v < TOTAL_PAGES ==>
              PageEntry(m1, DirectoryOf(m, chunk), v)
              == (if Inside(v * PAGE_SIZE, held[o]) then v * PAGE_SIZE else PageEntry(m, DirectoryOf(m, chunk), v))
    ensures forall q :: q in held && !(q.pid == pid && q.role.PageTable?) ==> SameRun(m, m1, held[q])
  {
    hide Load32, Held, LowGuard, MapTo, PageEntry, HoldsSpace, PagesAfter, Table, Mapped, OnlyTables;
    HeldSpaceOk(m, held, pid, chunk);
    var r, dir := held[o], DirectoryOf(m, chunk);
    HeldBounds(m, held, o);
    MapToMaps(m, chunk, r.ptr, r.ptr, r.blocks, 0);
    hide SpaceOk;
    m1 := MapTo(m, chunk, r.ptr, r.ptr, r.End(), 0).0;
    OnlyTablesSpares(m, m1, held, pid, chunk);
    MappedEntries(m, m1, chunk, r.ptr / PAGE_SIZE, r.ptr, r.blocks, 0);
    hide Inside;
    forall v | 0 <= v < TOTAL_PAGES
      ensures PageEntry(m1, dir, v) == if Inside(v * PAGE_SIZE, r) then v * PAGE_SIZE else PageEntry(m, dir, v)
    {
      PagesOfRun(r.ptr, r.blocks, v);
    }
  }

  /** A write to the heap table leaves page tables and held memory as they were. */
  lemma AfterTableWrite(m1: Mem, m2: Mem, held: map<Owner, Run>, pid: nat, chunk: nat)
    requires Held(m1, held) && HoldsSpace(m1, held, pid, chunk) && SameOutsideTable(m1, m2)
    ensures forall q :: q in held ==> SameRun(m1, m2, held[q])
    ensures HoldsSpace(m2, held, pid, chunk) && DirectoryOf(m2, chunk) == DirectoryOf(m1, chunk)
    ensures forall v :: 0 <= v < TOTAL_PAGES ==>
              PageEntry(m2, DirectoryOf(m1, chunk), v) == PageEntry(m1, DirectoryOf(m1, chunk), v)
  {
    hide Load32, PageEntry, IsRun, WellFormed;
    forall q | q in held ensures SameRun(m1, m2, held[q]) {
      HeldBounds(m1, held, q);
    }
    AllRunsSame(m1, m2, held, pid);
    SpaceRunsSamePages(m1, m2, held, pid, chunk);
    SpaceUnchanged(m1, m2, chunk);
    AgreeSelf(held, pid);
    SpaceStillHeld(m1, m2, held, held, pid, chunk);
  }

  lemma FreedPageOk(m: Mem, held: map<Owner, Run>, pid: nat, i: nat, v: nat, e1: uint32, e2: uint32)
    requires Held(m, held) && Owner(pid, Allocation(i)) in held && v < TOTAL_PAGES
    requires IsWriteable(e1) ==> Backed(held, pid, v, FrameOf(e1))
    requires InAllocation(held, pid, v * PAGE_SIZE) ==> e1 == v * PAGE_SIZE + USER_FLAGS
    requires e2 == if Inside(v * PAGE_SIZE, held[Owner(pid, Allocation(i))]) then v * PAGE_SIZE else e1
    ensures var held1 := held - {Owner(pid, Allocation(i))};
            && (IsWriteable(e2) ==> Backed(held1, pid, v, FrameOf(e2)))
            && (InAllocation(held1, pid, v * PAGE_SIZE) ==> e2 == v * PAGE_SIZE + USER_FLAGS)
  {
    var o := Owner(pid, Allocation(i));
    var held1 := held - {o};
    hide Held, FrameOf, IsWriteable;
    if Inside(v * PAGE_SIZE, held[o]) {
      FlagBits(v * PAGE_SIZE, 0);
      if InAllocation(held1, pid, v * PAGE_SIZE) {
        var j :| Owner(pid, Allocation(j)) in held1 && Inside(v * PAGE_SIZE, held1[Owner(pid, Allocation(j))]);
        HeldApart(m, held, o, Owner(pid, Allocation(j)));
      }
    } else if IsWriteable(e1) {
      BackedWithout(held, pid, i, v, FrameOf(e1));
    }
  }

  lemma BackedWithout(held: map<Owner, Run>, pid: nat, i: nat, v: nat, frame: nat)
    requires Owner(pid, Allocation(i)) in held && Backed(held, pid, v, frame)
    requires !Inside(v * PAGE_SIZE, held[Owner(pid, Allocation(i))])
    ensures Backed(held - {Owner(pid, Allocation(i))}, pid, v, frame)
  {
    var held1 := held - {Owner(pid, Allocation(i))};
    if frame == v * PAGE_SIZE && InAllocation(held, pid, frame) {
      var j :| Owner(pid, Allocation(j)) in held && Inside(frame, held[Owner(pid, Allocation(j))]);
      assert Owner(pid, Allocation(j)) in held1;
    }
    if Owner(pid, Image) in held { assert Owner(pid, Image) in held1; }
    if Owner(pid, Stack) in held { assert Owner(pid, Stack) in held1; }
  }

  lemma FreedPagesOk(m: Mem, m2: Mem, held: map<Owner, Run>, pid: nat, i: nat, dir: nat)
    requires Held(m, held) && Owner(pid, Allocation(i)) in held && dir + PAGE_SIZE <= RAM_SIZE
    requires PagesOk(m, held, pid, dir)
    requires forall v :: 0 <= v < TOTAL_PAGES ==>
               PageEntry(m2, dir, v)
               == (if Inside(v * PAGE_SIZE, held[Owner(pid, Allocation(i))]) then v * PAGE_SIZE
                   else PageEntry(m, dir, v))
    ensures PagesOk(m2, held - {Owner(pid, Allocation(i))}, pid, dir)
  {
    hide Load32, PageEntry, Held, Backed, InAllocation, FrameOf, IsWriteable;
    var held1 := held - {Owner(pid, Allocation(i))};
    forall v | 0 <= v < TOTAL_PAGES
      ensures IsWriteable(PageEntry(m2, dir, v)) ==> Backed(held1, pid, v, FrameOf(PageEntry(m2, dir, v)))
      ensures InAllocation(held1, pid, v * PAGE_SIZE) ==> PageEntry(m2, dir, v) == v * PAGE_SIZE + USER_FLAGS
    {
      FreedPageOk(m, held, pid, i, v, PageEntry(m, dir, v), PageEntry(m2, dir, v));
    }
  }

  lemma SlotEmptied(held: map<Owner, Run>, pid: nat, slots: seq<Slot>, i: nat)
    requires SlotsOk(held, pid, slots) && i < |slots|
    ensures SlotsOk(held - {Owner(pid, Allocation(i))}, pid, slots[i := EMPTY])
  {
    hide BlocksFor;
    var held1, slots1 := held - {Owner(pid, Allocation(i))}, slots[i := EMPTY];
    forall j | 0 <= j < MAX_ALLOCATIONS ensures SlotOk(held1, pid, j, slots1[j]) {
      assert SlotOk(held, pid, j, slots[j]);
    }
  }

  lemma PartsShrink(m: Mem, held: map<Owner, Run>, pid: nat, i: nat, p: Proc, slots: seq<Slot>)
    requires PartsOk(held, pid, p) && HoldsSpace(m, held, pid, p.chunk)
    ensures PartsOk(held - {Owner(pid, Allocation(i))}, pid, p.(slots := slots))
    ensures HoldsSpace(m, held - {Owner(pid, Allocation(i))}, pid, p.chunk)
  {
    hide Load32, BlocksFor;
    var held1 := held - {Owner(pid, Allocation(i))};
    forall j | 0 <= j < TABLE_ENTRIES
      ensures HoldsPage(held1, Owner(pid, PageTable(j)), TableAddress(m, DirectoryOf(m, p.chunk), j))
    {
      assert HoldsPage(held, Owner(pid, PageTable(j)), TableAddress(m, DirectoryOf(m, p.chunk), j));
    }
  }

  lemma NotTheirs(m: Mem, m': Mem, held: map<Owner, Run>, o: Owner, q: nat)
    requires q != o.pid
    requires forall r :: r in held && !(r.pid == o.pid && r.role.PageTable?) ==> SameRun(m, m', held[r])
    ensures KernelRunsSame(m, m', held, q) && AgreeOn(held, held - {o}, q)
  {
  }

  lemma OthersAfterFree(m: Mem, m': Mem, procs: seq<Option<Proc>>, held: map<Owner, Run>, o: Owner)
    requires Held(m, held) && |procs| == MAX_PROCESSES
    requires forall q :: 0 <= q < MAX_PROCESSES && procs[q].Some? ==> ProcOk(m, held, q, procs[q].value)
    requires forall q :: q in held && !(q.pid == o.pid && q.role.PageTable?) ==> SameRun(m, m', held[q])
    ensures forall q :: 0 <= q < MAX_PROCESSES && q != o.pid && procs[q].Some? ==>
              ProcOk(m', held - {o}, q, procs[q].value)
  {
    hide ProcOk, Held, KernelRunsSame, AgreeOn, SameRun;
    forall q | 0 <= q < MAX_PROCESSES && q != o.pid && procs[q].Some?
      ensures ProcOk(m', held - {o}, q, procs[q].value)
    {
      NotTheirs(m, m', held, o, q);
      ProcUntouched(m, m', held, held - {o}, q, procs[q].value);
    }
  }

  /** process_free keeps the invariant, whatever pointer it is given. */
  lemma FreeKeepsInv(k: KState, pid: nat, ptr: uint32)
    requires Inv(k) && Live(k, pid)
    ensures CanCall(k, pid) && Inv(FreeStep(k, pid, ptr))
  {
    hide Load32, Held, LowGuard, IsRun, SlotsOk, LiveSpace, HoldsSpace, FreeStep, Table, BlocksFor, PartsOk, PagesOk,
      SlotOf, CanCall;
    SlotCount(k, pid);
    var p := k.procs[pid].value;
    if SlotOf(p.slots, ptr) >= |p.slots| {
      SlotBound(p.slots, ptr);
      FreeUnknown(k, pid, ptr);
    } else if ptr == 0 {
      FreeNull(k, pid);
    } else {
      FreeFoundKeepsInv(k, pid, ptr);
    }
  }

  lemma FreeFoundKeepsInv(k: KState, pid: nat, ptr: uint32)
    requires Inv(k) && Live(k, pid) && ptr != 0
    requires SlotOf(k.procs[pid].value.slots, ptr) < |k.procs[pid].value.slots|
    ensures CanCall(k, pid) && Inv(FreeStep(k, pid, ptr))
  {
    hide Load32, Held, LowGuard, IsRun, SlotsOk, LiveSpace, HoldsSpace, FreeStep, Table, BlocksFor, PartsOk, PagesOk,
      SlotOf, CanCall, Inv, ProcOk, OwnersLive, LinkWords, SpaceDefined, SameRun, Inside;
    FreeAllocation(k, pid, ptr);
    InvProcs(k);
    var k', p, i := FreeStep(k, pid, ptr), k.procs[pid].value, SlotOf(k.procs[pid].value.slots, ptr);
    OthersAfterFree(k.m, k'.m, k.procs, k.held, Owner(pid, Allocation(i)));
    ProcBounds(k.m, k.held, pid, p);
    FreedProcOk(k, k'.m, pid, i);
    OwnersLeft(k.procs, k.held, pid, i, p.(slots := p.slots[i := EMPTY]));
    InvFrom(k');
  }

  lemma OwnersLeft(procs: seq<Option<Proc>>, held: map<Owner, Run>, pid: nat, i: nat, p: Proc)
    requires OwnersLive(procs, held) && pid < |procs| && procs[pid].Some? && |p.slots| == |procs[pid].value.slots|
    requires p == procs[pid].value.(slots := p.slots)
    ensures OwnersLive(procs[pid := Some(p)], held - {Owner(pid, Allocation(i))})
  {
  }

  lemma FreedProcOk(k: KState, m': Mem, pid: nat, i: nat)
    requires Live(k, pid) && ProcOk(k.m, k.held, pid, k.procs[pid].value) && Held(k.m, k.held)
    requires i < |k.procs[pid].value.slots| && Owner(pid, Allocation(i)) in k.held
    requires var p := k.procs[pid].value; var r := k.held[Owner(pid, Allocation(i))];
             && p.chunk + 4 <= RAM_SIZE && DirectoryOf(k.m, p.chunk) + PAGE_SIZE <= RAM_SIZE
             && DirectoryOf(m', p.chunk) == DirectoryOf(k.m, p.chunk) && HoldsSpace(m', k.held, pid, p.chunk)
             && (forall v :: 0 <= v < TOTAL_PAGES ==>
                   PageEntry(m', DirectoryOf(k.m, p.chunk), v)
                   == if Inside(v * PAGE_SIZE, r) then v * PAGE_SIZE else PageEntry(k.m, DirectoryOf(k.m, p.chunk), v))
    requires Owner(pid, Task) in k.held ==> SameRun(k.m, m', k.held[Owner(pid, Task)])
    ensures var p := k.procs[pid].value;
            ProcOk(m', k.held - {Owner(pid, Allocation(i))}, pid, p.(slots := p.slots[i := EMPTY]))
  {
    hide Load32, Held, SlotsOk, HoldsSpace, BlocksFor, PartsOk, PagesOk, LinkWords, SameRun, Inside, PageEntry;
    var p := k.procs[pid].value;
    FreedPagesOk(k.m, m', k.held, pid, i, DirectoryOf(k.m, p.chunk));
    SlotEmptied(k.held, pid, p.slots, i);
    PartsShrink(m', k.held, pid, i, p, p.slots[i := EMPTY]);
    TaskKept(k.m, m', k.held, pid, p);
    NewProcOk(m', k.held - {Owner(pid, Allocation(i))}, pid, p.(slots := p.slots[i := EMPTY]));
  }

  lemma SlotBound(slots: seq<Slot>, ptr: uint32)
    ensures SlotOf(slots, ptr) <= |slots|
  {
  }

  // ---- process_terminate ----

  /** Exactly the runs of the owners that disappear leave the heap table. */
  ghost predicate RunsLost(m: Mem, m': Mem, held: map<Owner, Run>, held': map<Owner, Run>) {
    && Extends(held', held)
    && forall a, b :: IsRun(Table(m'), a, b) <==> IsRun(Table(m), a, b) && !NewlyNamed(held', held, a, b)
  }

  lemma RunsLostTrans(m: Mem, m1: Mem, m2: Mem, held: map<Owner, Run>, held1: map<Owner, Run>, held2: map<Owner, Run>)
    requires RunsLost(m, m1, held, held1) && RunsLost(m1, m2, held1, held2)
    ensures RunsLost(m, m2, held, held2)
  {
    hide IsRun, Table;
    forall a, b ensures NewlyNamed(held2, held, a, b) <==>
        NewlyNamed(held1, held, a, b) || NewlyNamed(held2, held1, a, b) {
      if NewlyNamed(held2, held1, a, b) {
        var o :| o in held1 && o !in held2 && a == BlockOf(held1[o].ptr) && b == held1[o].blocks;
        assert o in held;
      }
    }
  }

  lemma NothingLost(m: Mem, m': Mem, held: map<Owner, Run>)
    requires Table(m') == Table(m)
    ensures RunsLost(m, m', held, held)
  {
  }

  lemma OneLost(m: Mem, m': Mem, held: map<Owner, Run>, o: Owner)
    requires o in held
    requires forall a, b :: IsRun(Table(m'), a, b) <==>
               IsRun(Table(m), a, b) && !(a == BlockOf(held[o].ptr) && b == held[o].blocks)
    ensures RunsLost(m, m', held, held - {o})
  {
    hide IsRun, Table;
    forall a, b ensures NewlyNamed(held - {o}, held, a, b) <==> a == BlockOf(held[o].ptr) && b == held[o].blocks {
      if a == BlockOf(held[o].ptr) && b == held[o].blocks {
        assert o in held && o !in held - {o};
      }
    }
  }

  lemma ListLost(m: Mem, m': Mem, held: map<Owner, Run>, os: seq<Owner>)
    requires forall i :: 0 <= i < |os| ==> os[i] in held
    requires forall a, b :: IsRun(Table(m'), a, b) <==> IsRun(Table(m), a, b) && !Names(held, os, a, b)
    ensures RunsLost(m, m', held, held - OwnersOf(os))
  {
    hide IsRun, Table;
    forall a, b ensures NewlyNamed(held - OwnersOf(os), held, a, b) <==> Names(held, os, a, b) {
      if Names(held, os, a, b) {
        var o :| o in os && o in held && a == BlockOf(held[o].ptr) && b == held[o].blocks;
        assert o !in held - OwnersOf(os);
      }
    }
  }

  /** Nothing that belongs to another process changes. */
  ghost predicate OthersKept(m: Mem, m': Mem, held: map<Owner, Run>, held': map<Owner, Run>, pid: nat) {
    forall o :: o in held && o.pid != pid ==> o in held' && held'[o] == held[o] && SameRun(m, m', held[o])
  }

  lemma OthersKeptTrans(m: Mem, m1: Mem, m2: Mem, held: map<Owner, Run>, held1: map<Owner, Run>, held2: map<Owner, Run>,
                        pid: nat)
    requires OthersKept(m, m1, held, held1, pid) && OthersKept(m1, m2, held1, held2, pid)
    ensures OthersKept(m, m2, held, held2, pid)
  {
    forall o | o in held && o.pid != pid ensures SameRun(m, m2, held[o]) {
      assert SameRun(m, m1, held[o]) && SameRun(m1, m2, held1[o]);
    }
  }

  /** Slot i is now empty, empty slots stayed empty, and the heap lost exactly the
      runs of the owners that disappeared, all of them allocations of pid. */
  ghost predicate SlotFreed(k: KState, k': KState, pid: nat, i: nat) {
    && Live(k, pid) && Live(k', pid) && |k'.procs| == |k.procs| && k'.ring == k.ring
    && var p, p' := k.procs[pid].value, k'.procs[pid].value;
    && (forall q :: 0 <= q < |k.procs| && q != pid ==> k'.procs[q] == k.procs[q])
    && p' == p.(slots := p'.slots) && |p'.slots| == |p.slots|
    && (i < |p.slots| ==> p'.slots[i] == EMPTY)
    && (forall j :: 0 <= j < |p.slots| && p.slots[j] == EMPTY ==> p'.slots[j] == EMPTY)
    && RunsLost(k.m, k'.m, k.held, k'.held) && OthersKept(k.m, k'.m, k.held, k'.held, pid)
    && (forall o :: o in k.held && !o.role.Allocation? ==> o in k'.held)
    && (Owner(pid, Task) in k.held ==> SameRun(k.m, k'.m, k.held[Owner(pid, Task)]))
  }

  lemma FreeEmptySlot(k: KState, pid: nat, i: nat)
    requires Inv(k) && Live(k, pid) && i < |k.procs[pid].value.slots| && k.procs[pid].value.slots[i].ptr == 0
    ensures CanCall(k, pid) && SlotFreed(k, FreeStep(k, pid, 0), pid, i)
  {
    hide Load32, Inv, Held, LowGuard, FreeStep, RunsLost, SameRun, SlotsOk, CanCall, HoldsSpace, SlotOf, Kfree;
    SlotCount(k, pid);
    LiveParts(k, pid);
    var p := k.procs[pid].value;
    SlotBound(p.slots, 0);
    EmptySlotFound(p.slots, i);
    EmptySlotIs(k.held, pid, p.slots, i);
    FreeNull(k, pid);
    NullLost(k);
  }

  lemma EmptySlotFound(slots: seq<Slot>, i: nat)
    requires i < |slots| && slots[i].ptr == 0
    ensures SlotOf(slots, 0) < |slots|
  {
  }

  lemma EmptySlotIs(held: map<Owner, Run>, pid: nat, slots: seq<Slot>, i: nat)
    requires SlotsOk(held, pid, slots) && i < |slots| && slots[i].ptr == 0
    ensures slots[i] == EMPTY
  {
    hide BlocksFor;
    assert SlotOk(held, pid, i, slots[i]);
  }

  lemma NullLost(k: KState)
    requires Inv(k)
    ensures RunsLost(k.m, Kfree(k.m, 0), k.held, k.held)
    ensures forall o :: o in k.held ==> SameRun(k.m, Kfree(k.m, 0), k.held[o])
  {
    hide Kfree, ProcOk, IsRun, WellFormed;
    KfreeNull(k.m);
    NullGuard(k.m, k.held);
    NothingLost(k.m, Kfree(k.m, 0), k.held);
  }

  lemma FreeFullSlot(k: KState, pid: nat, i: nat)
    requires Inv(k) && Live(k, pid) && i < |k.procs[pid].value.slots| && k.procs[pid].value.slots[i].ptr != 0
    ensures CanCall(k, pid) && SlotFreed(k, FreeStep(k, pid, k.procs[pid].value.slots[i].ptr), pid, i)
  {
    hide Load32, Held, LowGuard, FreeStep, ProcOk, SameRun, SlotsOk, CanCall, IsRun, HoldsSpace, Table, PageEntry,
      BlocksFor, RunsLost, SlotOf, Unjoin, SlotFreed, Inv;
    SlotCount(k, pid);
    LiveParts(k, pid);
    var p := k.procs[pid].value;
    var ptr := p.slots[i].ptr;
    SlotFound(p.slots, i);
    OnlySlot(k.m, k.held, pid, p.slots, ptr);
    FreeAllocation(k, pid, ptr);
    var k', o := FreeStep(k, pid, ptr), Owner(pid, Allocation(SlotOf(p.slots, ptr)));
    OneLost(k.m, k'.m, k.held, o);
    UnjoinEmpties(p.slots, i);
    AllocationGone(k, k', pid, i, o);
  }

  lemma SlotFound(slots: seq<Slot>, i: nat)
    requires i < |slots|
    ensures SlotOf(slots, slots[i].ptr) <= i
  {
  }

  lemma UnjoinEmpties(slots: seq<Slot>, i: nat)
    requires i < |slots|
    ensures Unjoin(slots, slots[i].ptr)[i] == EMPTY
  {
  }

  lemma AllocationGone(k: KState, k': KState, pid: nat, i: nat, o: Owner)
    requires Live(k, pid) && o in k.held && o.pid == pid && o.role.Allocation?
    requires var p := k.procs[pid].value; exists s ::
               && k'.procs == k.procs[pid := Some(p.(slots := s))] && |s| == |p.slots|
               && (i < |s| ==> s[i] == EMPTY) && (forall j :: 0 <= j < |s| && p.slots[j] == EMPTY ==> s[j] == EMPTY)
    requires k'.held == k.held - {o} && k'.ring == k.ring && RunsLost(k.m, k'.m, k.held, k'.held)
    requires forall q :: q in k.held && !(q.pid == pid && q.role.PageTable?) ==> SameRun(k.m, k'.m, k.held[q])
    ensures SlotFreed(k, k', pid, i)
  {
    hide RunsLost, SameRun;
  }

  /** What one process_free of a slot's own pointer does to that slot and the rest. */
  lemma FreeOneSlot(k: KState, pid: nat, i: nat)
    requires Inv(k) && Live(k, pid) && i < |k.procs[pid].value.slots|
    ensures CanCall(k, pid)
    ensures var k' := FreeStep(k, pid, k.procs[pid].value.slots[i].ptr); Inv(k') && SlotFreed(k, k', pid, i)
  {
    SlotCount(k, pid);
    hide *;
    FreeKeepsInv(k, pid, k.procs[pid].value.slots[i].ptr);
    if k.procs[pid].value.slots[i].ptr == 0 {
      FreeEmptySlot(k, pid, i);
    } else {
      FreeFullSlot(k, pid, i);
    }
  }
}
