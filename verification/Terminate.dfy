/** process_terminate: what it gives back, what it leaves, and what it spares. */
module Terminate {
  import opened Memory
  import opened HeapTable
  import opened Heap
  import opened KernelHeap
  import opened Owners
  import opened Paging
  import opened AddressSpace
  import opened Elf
  import opened Process
  import opened Tasks
  import opened Isolation
  import opened Steps
  import opened Links
  import opened Frees

  lemma {:induction false} KfreeAllSparesSpace(m: Mem, ptrs: seq<uint32>, chunk: nat)
    requires SpaceOk(m, chunk) && forall i :: 0 <= i < |ptrs| ==> Freeable(ptrs[i])
    ensures SpaceOk(KfreeAll(m, ptrs), chunk)
    ensures DirectoryOf(KfreeAll(m, ptrs), chunk) == DirectoryOf(m, chunk)
    decreases |ptrs|
  {
    hide Load32, Kfree, SpaceOk, SameSpacePages;
    if ptrs != [] {
      KfreeSparesSpace(m, ptrs[0], chunk);
      KfreeAllSparesSpace(Kfree(m, ptrs[0]), ptrs[1..], chunk);
    }
  }

  ghost predicate CanTerminate(m: Mem, p: Proc) {
    && SpaceOk(m, p.chunk) && SlotsFreeable(p.slots)
    && (forall i :: 0 <= i < |ProgramPointers(p.program, p.image, p.stack)| ==>
          Freeable(ProgramPointers(p.program, p.image, p.stack)[i]))
    && Freeable(p.task)
  }

  /** Memory when task_free comes to the list, the allocations being gone: program
      data, stack and page tables are given back. */
  function BeforeUnlist(m: Mem, program: Program, image: uint32, stack: uint32, chunk: nat): (r: Mem)
    requires SpaceOk(m, chunk)
    requires forall i :: 0 <= i < |ProgramPointers(program, image, stack)| ==>
          Freeable(ProgramPointers(program, image, stack)[i])
  {
    KfreeAllSparesSpace(m, ProgramPointers(program, image, stack), chunk);
    Free4gb(KfreeAll(m, ProgramPointers(program, image, stack)), chunk)
  }

  /** The same and the task's block, leaving out task_list_remove. */
  function FreeParts(m: Mem, program: Program, image: uint32, stack: uint32, chunk: nat, task: uint32): (r: Mem)
    requires SpaceOk(m, chunk) && Freeable(task)
    requires forall i :: 0 <= i < |ProgramPointers(program, image, stack)| ==>
          Freeable(ProgramPointers(program, image, stack)[i])
  {
    Kfree(BeforeUnlist(m, program, image, stack, chunk), task)
  }

  /** Memory when process_terminate comes to the list. */
  function BeforeExit(m: Mem, p: Proc): (r: Mem)
    requires CanTerminate(m, p)
  {
    BeforeUnlist(FreeSlots(m, p.chunk, p.slots, 0).0, p.program, p.image, p.stack, p.chunk)
  }

  /** The task's prev, when the list is reached, is an address with room for a task. */
  ghost predicate CanExit(m: Mem, p: Proc) {
    && CanTerminate(m, p) && p.task + TASK_SIZE <= RAM_SIZE
    && PrevOf(BeforeExit(m, p), p.task) + TASK_SIZE <= RAM_SIZE
  }

  /** process_terminate. */
  function TerminateMemory(m: Mem, p: Proc): (r: Mem)
    requires CanExit(m, p)
  {
    Kfree(Unlist(BeforeExit(m, p), p.task), p.task)
  }

  function WithoutPid(held: map<Owner, Run>, pid: nat): map<Owner, Run> {
    map o | o in held && o.pid != pid :: held[o]
  }

  function TerminateStep(k: KState, pid: nat): (k': KState)
    requires pid < |k.procs| && k.procs[pid].Some? && CanExit(k.m, k.procs[pid].value)
  {
    var p := k.procs[pid].value;
    KState(TerminateMemory(k.m, p), k.procs[pid := None], WithoutPid(k.held, pid),
           RingWithout(Unlist(BeforeExit(k.m, p), p.task), k.ring, p.task))
  }

  /** All of process_terminate but task_list_remove. */
  function RestStep(k: KState, pid: nat): (k': KState)
    requires pid < |k.procs| && k.procs[pid].Some? && CanTerminate(k.m, k.procs[pid].value)
  {
    var p := k.procs[pid].value;
    k.(m := Kfree(BeforeExit(k.m, p), p.task), procs := k.procs[pid := None], held := WithoutPid(k.held, pid))
  }

  lemma LiveCanTerminate(k: KState, pid: nat)
    requires Inv(k) && Live(k, pid)
    ensures CanTerminate(k.m, k.procs[pid].value)
  {
    hide Load32, Held, PagesOk, SlotsOk, BlocksFor, HoldsSpace;
    LiveCanCall(k, pid);
    var p := k.procs[pid].value;
    assert ProcOk(k.m, k.held, pid, p);
    HeldBounds(k.m, k.held, Owner(pid, Image));
    HeldBounds(k.m, k.held, Owner(pid, Stack));
    HeldBounds(k.m, k.held, Owner(pid, Task));
    if p.program.ElfProgram? {
      HeldBounds(k.m, k.held, Owner(pid, ElfFile));
    }
  }

  // ---- The loop over the slots ----

  lemma RunsLostSelf(m: Mem, held: map<Owner, Run>, pid: nat)
    requires Held(m, held)
    ensures RunsLost(m, m, held, held) && OthersKept(m, m, held, held, pid)
  {
    hide IsRun, WellFormed;
    forall o | o in held ensures SameRun(m, m, held[o]) {
      HeldBounds(m, held, o);
    }
    NothingLost(m, m, held);
  }

  /** The state after process_terminate_allocations has gone through the slots from i on. */
  lemma {:induction false} SlotsFreed(k: KState, pid: nat, i: nat) returns (k': KState)
    requires Inv(k) && Live(k, pid) && i <= |k.procs[pid].value.slots|
    requires forall j :: 0 <= j < i ==> k.procs[pid].value.slots[j] == EMPTY
    ensures CanTerminate(k.m, k.procs[pid].value)
    ensures Inv(k') && SlotFreed(k, k', pid, |k.procs[pid].value.slots|)
    ensures forall j :: 0 <= j < |k'.procs[pid].value.slots| ==> k'.procs[pid].value.slots[j] == EMPTY
    ensures var p := k.procs[pid].value;
            FreeSlots(k.m, p.chunk, p.slots, i) == (k'.m, k'.procs[pid].value.slots)
    decreases |k.procs[pid].value.slots| - i
  {
    hide Load32, Inv, Held, RunsLost, OthersKept, SameRun, FreeSlots, FreeStep, CanCall, SpaceOk, SlotsFreeable,
      SlotFreed, CanTerminate;
    LiveCanTerminate(k, pid);
    CanTerminateTells(k.m, k.procs[pid].value);
    var p := k.procs[pid].value;
    if i == |p.slots| {
      k' := k;
      NoSlotLeft(k, pid);
    } else {
      FreeOneSlot(k, pid, i);
      var k1 := FreeStep(k, pid, p.slots[i].ptr);
      FreeSlotsStep(k, pid, i);
      EmptySoFar(k, k1, pid, i);
      k' := SlotsFreed(k1, pid, i + 1);
      SlotFreedTrans(k, k1, k', pid, i, |k1.procs[pid].value.slots|);
    }
  }

  lemma CanTerminateTells(m: Mem, p: Proc)
    requires CanTerminate(m, p)
    ensures SpaceOk(m, p.chunk) && SlotsFreeable(p.slots)
  {
    hide SpaceOk, SlotsFreeable;
  }

  lemma NoSlotLeft(k: KState, pid: nat)
    requires Inv(k) && Live(k, pid) && SpaceOk(k.m, k.procs[pid].value.chunk) && SlotsFreeable(k.procs[pid].value.slots)
    ensures var p := k.procs[pid].value;
      && SlotFreed(k, k, pid, |p.slots|)
      && FreeSlots(k.m, p.chunk, p.slots, |p.slots|) == (k.m, p.slots)
  {
    hide Load32, Inv, Held, RunsLost, OthersKept, SpaceOk;
    InvHeld(k);
    RunsLostSelf(k.m, k.held, pid);
    if Owner(pid, Task) in k.held { HeldBounds(k.m, k.held, Owner(pid, Task)); }
  }

  lemma EmptySoFar(k: KState, k1: KState, pid: nat, i: nat)
    requires SlotFreed(k, k1, pid, i) && i < |k.procs[pid].value.slots|
    requires forall j :: 0 <= j < i ==> k.procs[pid].value.slots[j] == EMPTY
    ensures pid < |k1.procs| && k1.procs[pid].Some? && Live(k1, pid)
    ensures |k1.procs[pid].value.slots| == |k.procs[pid].value.slots|
    ensures forall j :: 0 <= j < i + 1 ==> k1.procs[pid].value.slots[j] == EMPTY
  {
    hide RunsLost, OthersKept;
  }

  lemma SlotFreedTrans(k: KState, k1: KState, k2: KState, pid: nat, i: nat, j: nat)
    requires SlotFreed(k, k1, pid, i) && SlotFreed(k1, k2, pid, j)
    ensures k2.procs[pid].value.chunk == k.procs[pid].value.chunk
    ensures |k2.procs[pid].value.slots| == |k.procs[pid].value.slots|
    ensures SlotFreed(k, k2, pid, |k.procs[pid].value.slots|)
  {
    hide RunsLost, OthersKept, SameRun;
    LostExtends(k.m, k1.m, k.held, k1.held);
    RunsLostTrans(k.m, k1.m, k2.m, k.held, k1.held, k2.held);
    OthersKeptTrans(k.m, k1.m, k2.m, k.held, k1.held, k2.held, pid);
    if Owner(pid, Task) in k.held { SameTwice(k.m, k1.m, k2.m, k.held[Owner(pid, Task)]); }
  }

  lemma InvHeld(k: KState)
    requires Inv(k)
    ensures Held(k.m, k.held)
  {
  }

  lemma FreeSlotsStep(k: KState, pid: nat, i: nat)
    requires CanCall(k, pid) && i < |k.procs[pid].value.slots|
    ensures SpaceOk(k.m, k.procs[pid].value.chunk)
    ensures var p := k.procs[pid].value; var k1 := FreeStep(k, pid, p.slots[i].ptr);
            && pid < |k1.procs| && k1.procs[pid].Some? && k1.procs[pid].value.chunk == p.chunk
            && SpaceOk(k1.m, p.chunk) && SlotsFreeable(k1.procs[pid].value.slots)
            && |k1.procs[pid].value.slots| == |p.slots|
            && FreeSlots(k.m, p.chunk, p.slots, i) == FreeSlots(k1.m, p.chunk, k1.procs[pid].value.slots, i + 1)
  {
    hide Load32, ProcessFree, SpaceOk, RunAt;
  }

  // ---- Program data, stack, page tables and task ----

  function ProgramOwners(pid: nat, program: Program): (os: seq<Owner>)
    ensures NoRepeats(os)
  {
    match program
    case ElfProgram(_, _) => [Owner(pid, Image), Owner(pid, ElfFile), Owner(pid, Stack)]
    case BinaryProgram => [Owner(pid, Image), Owner(pid, Stack)]
  }

  lemma ProgramOwned(held: map<Owner, Run>, pid: nat, p: Proc)
    requires PartsOk(held, pid, p)
    ensures forall i :: 0 <= i < |ProgramOwners(pid, p.program)| ==> ProgramOwners(pid, p.program)[i] in held
    ensures ProgramPointers(p.program, p.image, p.stack) == Owned(held, ProgramOwners(pid, p.program))
  {
    hide BlocksFor;
  }

  lemma FreeableSoon(m: Mem, held: map<Owner, Run>, pid: nat, p: Proc)
    requires Held(m, held) && PartsOk(held, pid, p) && HoldsSpace(m, held, pid, p.chunk)
    ensures SpaceOk(m, p.chunk) && Freeable(p.task)
    ensures forall i :: 0 <= i < |ProgramPointers(p.program, p.image, p.stack)| ==>
              Freeable(ProgramPointers(p.program, p.image, p.stack)[i])
  {
    HeldSpaceOk(m, held, pid, p.chunk);
    hide Load32, Held, BlocksFor, HoldsSpace, SpaceOk;
    HeldBounds(m, held, Owner(pid, Image));
    HeldBounds(m, held, Owner(pid, Stack));
    HeldBounds(m, held, Owner(pid, Task));
    if p.program.ElfProgram? {
      HeldBounds(m, held, Owner(pid, ElfFile));
    }
  }

  lemma SpaceWithout(m: Mem, held: map<Owner, Run>, gone: set<Owner>, pid: nat, chunk: nat)
    requires HoldsSpace(m, held, pid, chunk)
    requires forall o :: o in gone ==> !(o.pid == pid && SpaceRole(o.role))
    ensures HoldsSpace(m, held - gone, pid, chunk)
  {
    hide Load32;
    forall j | 0 <= j < TABLE_ENTRIES
      ensures HoldsPage(held - gone, Owner(pid, PageTable(j)), TableAddress(m, DirectoryOf(m, chunk), j))
    {
      assert HoldsPage(held, Owner(pid, PageTable(j)), TableAddress(m, DirectoryOf(m, chunk), j));
    }
  }

  /** The program's data and the stack go first. */
  lemma ProgramFreed(m: Mem, held: map<Owner, Run>, pid: nat, p: Proc)
    requires Held(m, held) && PartsOk(held, pid, p) && HoldsSpace(m, held, pid, p.chunk)
    ensures forall i :: 0 <= i < |ProgramPointers(p.program, p.image, p.stack)| ==>
              Freeable(ProgramPointers(p.program, p.image, p.stack)[i])
    ensures var m1 := KfreeAll(m, ProgramPointers(p.program, p.image, p.stack));
            var held1 := held - OwnersOf(ProgramOwners(pid, p.program));
            && Held(m1, held1) && SameOutsideTable(m, m1) && RunsLost(m, m1, held, held1)
            && HoldsSpace(m1, held1, pid, p.chunk)
  {
    hide Load32, Held, HoldsSpace, SpaceOk, KfreeAll, Table, IsRun, RunsLost, PartsOk, ProgramPointers;
    FreeableSoon(m, held, pid, p);
    ProgramOwned(held, pid, p);
    var os := ProgramOwners(pid, p.program);
    KfreeAllHeld(m, held, os, ProgramPointers(p.program, p.image, p.stack));
    KfreeAllRuns(m, held, os, ProgramPointers(p.program, p.image, p.stack));
    var m1 := KfreeAll(m, ProgramPointers(p.program, p.image, p.stack));
    ListLost(m, m1, held, os);
    AfterTableWrite(m, m1, held, pid, p.chunk);
    SpaceWithout(m1, held, OwnersOf(os), pid, p.chunk);
  }

  lemma SpaceListHeld(m: Mem, held: map<Owner, Run>, pid: nat, chunk: nat)
    requires HoldsSpace(m, held, pid, chunk)
    ensures forall i :: 0 <= i < SPACE_BLOCKS ==> SpaceOwnerList(pid)[i] in held
  {
    SpacePointersOwned(m, held, pid, chunk);
  }

  ghost function PartOwners(pid: nat, program: Program): set<Owner> {
    OwnersOf(ProgramOwners(pid, program)) + SpaceOwners(pid) + {Owner(pid, Task)}
  }

  /** Everything but the process structure is given back, and only the table changes. */
  lemma PartsFreed(m: Mem, held: map<Owner, Run>, pid: nat, p: Proc)
    requires Held(m, held) && PartsOk(held, pid, p) && HoldsSpace(m, held, pid, p.chunk)
    ensures SpaceOk(m, p.chunk) && Freeable(p.task)
    ensures forall i :: 0 <= i < |ProgramPointers(p.program, p.image, p.stack)| ==>
              Freeable(ProgramPointers(p.program, p.image, p.stack)[i])
    ensures var m' := FreeParts(m, p.program, p.image, p.stack, p.chunk, p.task);
            var held' := held - PartOwners(pid, p.program);
            Held(m', held') && SameOutsideTable(m, m') && RunsLost(m, m', held, held')
  {
    FreeableSoon(m, held, pid, p);
    ProgramFreed(m, held, pid, p);
    var m1 := KfreeAll(m, ProgramPointers(p.program, p.image, p.stack));
    var held1 := held - OwnersOf(ProgramOwners(pid, p.program));
    assert HoldsRun(held1, Owner(pid, Task), p.task, 1);
    hide *;
    var m3 := SpaceAndTaskFreed(m, m1, held1, pid, p);
    var held3 := held1 - SpaceOwners(pid) - {Owner(pid, Task)};
    RunsLostTrans(m, m1, m3, held, held1, held3);
    assert held3 == held - PartOwners(pid, p.program) by { PartOwnersSum(held, pid, p.program); }
    SameOutsideTrans(m, m1, m3);
  }

  lemma PartOwnersSum(held: map<Owner, Run>, pid: nat, program: Program)
    ensures held - OwnersOf(ProgramOwners(pid, program)) - SpaceOwners(pid) - {Owner(pid, Task)}
         == held - PartOwners(pid, program)
  {
    hide OwnersOf, SpaceOwners, ProgramOwners;
  }

  lemma SameOutsideTrans(m: Mem, m1: Mem, m2: Mem)
    requires SameOutsideTable(m, m1) && SameOutsideTable(m1, m2)
    ensures SameOutsideTable(m, m2)
  {
  }

  /** Then the page tables and the task. */
  lemma SpaceAndTaskFreed(m: Mem, m1: Mem, held1: map<Owner, Run>, pid: nat, p: Proc) returns (m3: Mem)
    requires SpaceOk(m, p.chunk) && Freeable(p.task)
    requires forall i :: 0 <= i < |ProgramPointers(p.program, p.image, p.stack)| ==>
               Freeable(ProgramPointers(p.program, p.image, p.stack)[i])
    requires m1 == KfreeAll(m, ProgramPointers(p.program, p.image, p.stack))
    requires Held(m1, held1) && HoldsSpace(m1, held1, pid, p.chunk) && HoldsRun(held1, Owner(pid, Task), p.task, 1)
    ensures m3 == FreeParts(m, p.program, p.image, p.stack, p.chunk, p.task)
    ensures var held3 := held1 - SpaceOwners(pid) - {Owner(pid, Task)};
            Held(m3, held3) && SameOutsideTable(m1, m3) && RunsLost(m1, m3, held1, held3)
  {
    SpaceFreed(m1, held1, pid, p.chunk);
    SpaceListHeld(m1, held1, pid, p.chunk);
    TaskNotSpace(pid);
    hide Load32, Held, HoldsSpace, SpaceOk, KfreeAll, Table, IsRun, RunsLost, ProgramPointers, SpacePointers,
      Free4gb, Kfree, SpaceOwners, OwnersOf, SpaceOwnerList, FreeParts;
    var m2, held2 := Free4gb(m1, p.chunk), held1 - SpaceOwners(pid);
    ListLost(m1, m2, held1, SpaceOwnerList(pid));
    assert HoldsRun(held2, Owner(pid, Task), p.task, 1);
    KfreeHeld(m2, held2, Owner(pid, Task));
    KfreeRunHeld(m2, held2, Owner(pid, Task));
    m3 := Kfree(m2, p.task);
    OneLost(m2, m3, held2, Owner(pid, Task));
    RunsLostTrans(m1, m2, m3, held1, held2, held2 - {Owner(pid, Task)});
    FreePartsIs(m, p, m1, m2, m3);
  }

  lemma TaskNotSpace(pid: nat)
    ensures Owner(pid, Task) !in SpaceOwners(pid)
    ensures OwnersOf(SpaceOwnerList(pid)) == SpaceOwners(pid)
  {
  }

  lemma KfreeRunHeld(m: Mem, held: map<Owner, Run>, o: Owner)
    requires Held(m, held) && o in held
    ensures Freeable(held[o].ptr) && held[o].ptr < RAM_SIZE
    ensures forall a, b :: IsRun(Table(Kfree(m, held[o].ptr)), a, b) <==>
              IsRun(Table(m), a, b) && !(a == BlockOf(held[o].ptr) && b == held[o].blocks)
  {
    hide Kfree;
    KfreeRun(m, held[o]);
  }

  lemma FreePartsIs(m: Mem, p: Proc, m1: Mem, m2: Mem, m3: Mem)
    requires SpaceOk(m, p.chunk) && Freeable(p.task)
    requires forall i :: 0 <= i < |ProgramPointers(p.program, p.image, p.stack)| ==>
               Freeable(ProgramPointers(p.program, p.image, p.stack)[i])
    requires m1 == KfreeAll(m, ProgramPointers(p.program, p.image, p.stack))
    requires SpaceOk(m1, p.chunk) && m2 == Free4gb(m1, p.chunk) && m3 == Kfree(m2, p.task)
    ensures FreeParts(m, p.program, p.image, p.stack, p.chunk, p.task) == m3
  {
    hide Load32, SpaceOk, KfreeAll, Free4gb, Kfree, ProgramPointers;
  }

  // ---- The whole of process_terminate ----

  /** What is still allocated for pid afterwards: its process structure. */
  function Leftover(held: map<Owner, Run>, pid: nat): map<Owner, Run> {
    map o | o in held && (o.pid != pid || o.role == ProcessStruct) :: held[o]
  }

  lemma LeftoverParts(k: KState, k1: KState, pid: nat)
    requires Live(k, pid) && Inv(k1) && Live(k1, pid) && SlotFreed(k, k1, pid, |k.procs[pid].value.slots|)
    requires forall j :: 0 <= j < |k1.procs[pid].value.slots| ==> k1.procs[pid].value.slots[j] == EMPTY
    ensures k1.held - PartOwners(pid, k1.procs[pid].value.program) == Leftover(k.held, pid)
  {
    var program := k1.procs[pid].value.program;
    hide Load32, Held, RunsLost, ProcOk, SameRun, PartOwners, Leftover, LowGuard, OwnersLive;
    LostExtends(k.m, k1.m, k.held, k1.held);
    forall o | o in k1.held && o.pid == pid && o.role != ProcessStruct ensures o in PartOwners(pid, program) {
      OwnerCase(k1, pid, o);
    }
    LeftoverMaps(k.held, k1.held, pid, program);
  }

  lemma LeftoverMaps(held: map<Owner, Run>, held1: map<Owner, Run>, pid: nat, program: Program)
    requires Extends(held1, held)
    requires forall o :: o in held && (o.pid != pid || !o.role.Allocation?) ==> o in held1
    requires forall o :: o in held1 && o.pid == pid && o.role != ProcessStruct ==> o in PartOwners(pid, program)
    ensures held1 - PartOwners(pid, program) == Leftover(held, pid)
  {
    hide PartOwners;
    forall o ensures o in held1 - PartOwners(pid, program) <==> o in Leftover(held, pid) {
      PartOwnersOnly(pid, program, o);
    }
  }

  lemma PartOwnersOnly(pid: nat, program: Program, o: Owner)
    ensures o in PartOwners(pid, program) ==> o.pid == pid && o.role != ProcessStruct && !o.role.Allocation?
  {
  }

  lemma LostExtends(m: Mem, m': Mem, held: map<Owner, Run>, held': map<Owner, Run>)
    requires RunsLost(m, m', held, held')
    ensures Extends(held', held)
  {
  }

  lemma OwnerCase(k1: KState, pid: nat, o: Owner)
    requires Inv(k1) && Live(k1, pid) && o in k1.held && o.pid == pid && o.role != ProcessStruct
    requires forall j :: 0 <= j < |k1.procs[pid].value.slots| ==> k1.procs[pid].value.slots[j] == EMPTY
    ensures o in PartOwners(pid, k1.procs[pid].value.program)
  {
    hide Inv, OwnersLive;
    NoAllocations(k1, pid);
    InvOwners(k1);
    PartOwner(k1.procs, k1.held, pid, o);
  }

  lemma PartOwner(procs: seq<Option<Proc>>, held: map<Owner, Run>, pid: nat, o: Owner)
    requires OwnersLive(procs, held) && pid < |procs| && procs[pid].Some? && o in held && o.pid == pid
    requires o.role != ProcessStruct && !o.role.Allocation?
    ensures o in PartOwners(pid, procs[pid].value.program)
  {
    var os := ProgramOwners(pid, procs[pid].value.program);
    assert os[0] == Owner(pid, Image) && os[|os| - 1] == Owner(pid, Stack);
    if o.role == ElfFile { assert os[1] == o; }
  }

  lemma NoAllocations(k1: KState, pid: nat)
    requires Inv(k1) && Live(k1, pid)
    requires forall j :: 0 <= j < |k1.procs[pid].value.slots| ==> k1.procs[pid].value.slots[j] == EMPTY
    ensures forall j :: Owner(pid, Allocation(j)) !in k1.held
  {
    hide Inv, SlotsOk, Held, LowGuard, HoldsSpace, OwnersLive;
    LiveParts(k1, pid);
    InvOwners(k1);
    var slots := k1.procs[pid].value.slots;
    forall j: nat ensures Owner(pid, Allocation(j)) !in k1.held {
      if j < |slots| {
        EmptySlotOwnsNothing(k1.held, pid, slots, j);
      } else {
        NoSlotNoOwner(k1.procs, k1.held, pid, j);
      }
    }
  }

  lemma InvOwners(k: KState)
    requires Inv(k)
    ensures OwnersLive(k.procs, k.held)
  {
    hide Held, LowGuard, ProcOk, OwnersLive;
  }

  lemma NoSlotNoOwner(procs: seq<Option<Proc>>, held: map<Owner, Run>, pid: nat, j: nat)
    requires OwnersLive(procs, held) && pid < |procs| && procs[pid].Some? && j >= |procs[pid].value.slots|
    ensures Owner(pid, Allocation(j)) !in held
  {
  }

  lemma EmptySlotOwnsNothing(held: map<Owner, Run>, pid: nat, slots: seq<Slot>, j: nat)
    requires SlotsOk(held, pid, slots) && j < |slots| && slots[j] == EMPTY
    ensures Owner(pid, Allocation(j)) !in held
  {
    assert SlotOk(held, pid, j, slots[j]);
  }

  /** But for the list, terminating keeps the kernel sound; it takes exactly the
      process's runs out of the heap table, all but its process structure, which the
      code never frees; and it changes no byte that belongs to anybody else. */
  lemma RestExact(k: KState, pid: nat)
    requires Inv(k) && Live(k, pid)
    ensures CanTerminate(k.m, k.procs[pid].value)
    ensures var k' := RestStep(k, pid);
            && Inv(k') && !Live(k', pid)
            && Held(k'.m, Leftover(k.held, pid))
            && RunsLost(k.m, k'.m, k.held, Leftover(k.held, pid))
            && OthersKept(k.m, k'.m, k.held, k'.held, pid)
    ensures var p := k.procs[pid].value;
            Owner(pid, Task) in k.held && k.held[Owner(pid, Task)] == Run(p.task, 1)
            && SameRun(k.m, BeforeExit(k.m, p), Run(p.task, 1))
  {
    hide Load32, Held, HoldsSpace, RunsLost, Inv, FreeParts, CanTerminate, PagesOk, SlotsOk, OthersKept, FreeSlots,
      BeforeExit, Leftover, WithoutPid, PartOwners, PartsOk, Table, IsRun, LinkWords, SameRun;
    LiveCanTerminate(k, pid);
    var k1 := SlotsFreed(k, pid, 0);
    LiveParts(k1, pid);
    InvProcs(k1);
    var p, p1 := k.procs[pid].value, k1.procs[pid].value;
    ProcParts(k1.m, k1.held, pid, p1);
    PartsFreed(k1.m, k1.held, pid, p1);
    LeftoverParts(k, k1, pid);
    var m2 := FreeParts(k1.m, p1.program, p1.image, p1.stack, p1.chunk, p1.task);
    RestIs(k, pid, k1, m2);
    RunsLostTrans(k.m, k1.m, m2, k.held, k1.held, Leftover(k.held, pid));
    EndState(k, k1, pid, m2);
    OwnTaskKept(k, k1, pid);
  }

  lemma ProcParts(m: Mem, held: map<Owner, Run>, pid: nat, p: Proc)
    requires ProcOk(m, held, pid, p)
    ensures PartsOk(held, pid, p) && HoldsRun(held, Owner(pid, Task), p.task, 1)
  {
  }

  /** When the list is reached, the task's block is as it was before. */
  lemma OwnTaskKept(k: KState, k1: KState, pid: nat)
    requires Inv(k) && Live(k, pid) && SlotFreed(k, k1, pid, |k.procs[pid].value.slots|)
    requires CanTerminate(k.m, k.procs[pid].value)
    requires var p := k.procs[pid].value;
             && FreeSlots(k.m, p.chunk, p.slots, 0).0 == k1.m
             && SameOutsideTable(k1.m, Kfree(BeforeExit(k.m, p), p.task))
    ensures var p := k.procs[pid].value;
            Owner(pid, Task) in k.held && k.held[Owner(pid, Task)] == Run(p.task, 1)
            && SameRun(k.m, BeforeExit(k.m, p), Run(p.task, 1))
  {
    hide Load32, Inv, CanTerminate, FreeSlots, BeforeExit, RunsLost, OthersKept, Kfree, Held;
    InvProcs(k);
    var p := k.procs[pid].value;
    ProcParts(k.m, k.held, pid, p);
    HeldBounds(k.m, k.held, Owner(pid, Task));
    KfreeTouchesTable(BeforeExit(k.m, p), p.task);
    assert SameRun(k.m, k1.m, k.held[Owner(pid, Task)]);
  }

  lemma RestIs(k: KState, pid: nat, k1: KState, m2: Mem)
    requires pid < |k.procs| && k.procs[pid].Some? && CanTerminate(k.m, k.procs[pid].value)
    requires var p := k.procs[pid].value;
             && FreeSlots(k.m, p.chunk, p.slots, 0).0 == k1.m
             && SpaceOk(k1.m, p.chunk) && m2 == FreeParts(k1.m, p.program, p.image, p.stack, p.chunk, p.task)
    ensures RestStep(k, pid) == k.(m := m2, procs := k.procs[pid := None], held := WithoutPid(k.held, pid))
    ensures m2 == Kfree(BeforeExit(k.m, k.procs[pid].value), k.procs[pid].value.task)
  {
    hide Load32, SpaceOk, FreeSlots, BeforeUnlist, WithoutPid, Kfree;
  }

  lemma EndState(k: KState, k1: KState, pid: nat, m2: Mem)
    requires Inv(k) && Live(k, pid) && Inv(k1) && SlotFreed(k, k1, pid, |k.procs[pid].value.slots|)
    requires SameOutsideTable(k1.m, m2) && Held(m2, Leftover(k.held, pid))
    ensures Inv(k.(m := m2, procs := k.procs[pid := None], held := WithoutPid(k.held, pid)))
    ensures OthersKept(k.m, m2, k.held, WithoutPid(k.held, pid), pid)
  {
    hide Load32, Inv, Held, ProcOk, LowGuard, OwnersLive, RingLinks, SlotFreed, SameOutsideTable, OthersKept,
      WithoutPid, Leftover, Extends;
    InvHeld(k1);
    InvProcs(k);
    OwnersEnd(k.procs, k.held, pid);
    LowGuardStays(k1, m2);
    HeldShrinks(m2, Leftover(k.held, pid), WithoutPid(k.held, pid));
    OthersKeptAfter(k, k1, pid, m2);
    OthersEnd(k.m, m2, k.procs, k.held, pid);
    InvFrom(k.(m := m2, procs := k.procs[pid := None], held := WithoutPid(k.held, pid)));
  }

  lemma OwnersEnd(procs: seq<Option<Proc>>, held: map<Owner, Run>, pid: nat)
    requires OwnersLive(procs, held) && pid < |procs|
    ensures OwnersLive(procs[pid := None], WithoutPid(held, pid))
    ensures Extends(WithoutPid(held, pid), Leftover(held, pid))
  {
  }

  lemma OthersEnd(m: Mem, m2: Mem, procs: seq<Option<Proc>>, held: map<Owner, Run>, pid: nat)
    requires Held(m, held) && |procs| == MAX_PROCESSES && OthersKept(m, m2, held, WithoutPid(held, pid), pid)
    requires forall q :: 0 <= q < MAX_PROCESSES && procs[q].Some? ==> ProcOk(m, held, q, procs[q].value)
    ensures forall q :: 0 <= q < MAX_PROCESSES && q != pid && procs[q].Some? ==>
              ProcOk(m2, WithoutPid(held, pid), q, procs[q].value)
  {
    hide Held, ProcOk, OthersKept, WithoutPid;
    forall q | 0 <= q < MAX_PROCESSES && q != pid && procs[q].Some?
      ensures ProcOk(m2, WithoutPid(held, pid), q, procs[q].value)
    {
      OthersAgree(m, m2, held, pid, q);
      ProcUntouched(m, m2, held, WithoutPid(held, pid), q, procs[q].value);
    }
  }

  lemma OthersKeptAfter(k: KState, k1: KState, pid: nat, m2: Mem)
    requires Live(k, pid) && Held(k1.m, k1.held) && SlotFreed(k, k1, pid, |k.procs[pid].value.slots|)
    requires SameOutsideTable(k1.m, m2)
    ensures OthersKept(k.m, m2, k.held, WithoutPid(k.held, pid), pid)
  {
    hide RunsLost, WellFormed, IsRun;
    forall o | o in k.held && o.pid != pid ensures SameRun(k.m, m2, k.held[o]) {
      assert SameRun(k.m, k1.m, k.held[o]) && o in k1.held;
      HeldBounds(k1.m, k1.held, o);
    }
  }

  lemma LowGuardStays(k: KState, m2: Mem)
    requires Inv(k) && SameOutsideTable(k.m, m2)
    ensures LowGuard(m2)
  {
    TableOnlyGuard(k.m, m2);
  }

  lemma OthersAgree(m: Mem, m2: Mem, held: map<Owner, Run>, pid: nat, q: nat)
    requires q != pid && OthersKept(m, m2, held, WithoutPid(held, pid), pid)
    ensures KernelRunsSame(m, m2, held, q) && AgreeOn(held, WithoutPid(held, pid), q)
  {
  }

  // ---- With task_list_remove ----

  lemma {:induction false} ChainBesideStore(m: Mem, k: nat, end: nat, a: nat, v: uint32)
    requires k <= end <= a && a + 4 <= RAM_SIZE
    ensures ClearChain(Store32(m, a, v), k, end) == Store32(ClearChain(m, k, end), a, v)
    decreases end - k
  {
    if k < end {
      var m1: Mem := m[k := ENTRY_FREE];
      assert Store32(m, a, v)[k := ENTRY_FREE] == Store32(m1, a, v);
      if HasNext(m[k]) { ChainBesideStore(m1, k + 1, end, a, v); }
    }
  }

  /** A store into the heap's blocks and a kfree do not disturb each other. */
  lemma KfreeBesideStore(m: Mem, ptr: uint32, a: nat, v: uint32)
    requires Freeable(ptr) && HEAP_ADDRESS <= a && a + 4 <= RAM_SIZE
    ensures Kfree(Store32(m, a, v), ptr) == Store32(Kfree(m, ptr), a, v)
  {
    var k := TABLE_ADDRESS + AddressToBlock(HEAP_ADDRESS, ptr);
    assert NULL_ENTRY <= k <= TABLE_ADDRESS + TOTAL_BLOCKS;
    ChainBesideStore(m, k, TABLE_ADDRESS + TOTAL_BLOCKS, a, v);
  }

  /** The store task_list_remove makes for the process spares the others. */
  ghost predicate ExitSafe(k: KState, pid: nat)
    requires Live(k, pid) && k.procs[pid].value.task + TASK_SIZE <= RAM_SIZE
  {
    var task := k.procs[pid].value.task;
    LinkSafe(k.m, WithoutPid(k.held, pid), PrevOf(k.m, task), NextOf(k.m, task))
  }

  lemma RingWithoutLinks(m: Mem, ring: Ring, task: nat)
    requires task + TASK_SIZE <= RAM_SIZE && RingLinks(ring) && LinkWords(m, task)
    ensures RingLinks(RingWithout(m, ring, task))
  {
    hide Load32;
  }

  /** The whole step is the rest and, in between, one store through the task's prev. */
  lemma ExitIsRestAndStore(k: KState, pid: nat)
    requires Inv(k) && Live(k, pid)
    ensures CanTerminate(k.m, k.procs[pid].value) && CanExit(k.m, k.procs[pid].value)
    ensures var p := k.procs[pid].value; var prev, next := PrevOf(k.m, p.task), NextOf(k.m, p.task);
            && Link(prev) && Link(next) && RingLinks(TerminateStep(k, pid).ring)
            && TerminateStep(k, pid)
               == RestStep(k, pid).(m := Relinked(RestStep(k, pid).m, prev, next), ring := TerminateStep(k, pid).ring)
  {
    hide Load32, Store32, Inv, Held, CanTerminate, FreeSlots, BeforeExit, Kfree, RunsLost, OthersKept, WithoutPid,
      LinkWords, Leftover, RingWithout, ProcOk, OwnersLive, LowGuard, RingLinks, SameRun, Table;
    RestExact(k, pid);
    InvProcs(k);
    var p := k.procs[pid].value;
    var m3 := BeforeExit(k.m, p);
    ProcTask(k.m, k.held, pid, p);
    TaskIsPage(k.m, k.held, pid, p);
    TaskWords(k.m, m3, p.task);
    UnlistTells(m3, p.task);
    RingWithoutLinks(Unlist(m3, p.task), k.ring, p.task);
    var prev := PrevOf(k.m, p.task);
    if prev != 0 { KfreeBesideStore(m3, p.task, prev + NEXT_WORD, NextOf(k.m, p.task)); }
  }

  lemma TaskWords(m: Mem, m': Mem, task: nat)
    requires LinkWords(m, task) && SameRun(m, m', Run(task, 1))
    ensures LinkWords(m', task) && Link(PrevOf(m, task)) && Link(NextOf(m, task))
    ensures PrevOf(m', task) == PrevOf(m, task) && NextOf(m', task) == NextOf(m, task)
  {
    hide Load32;
    LoadSame(m, m', task + NEXT_WORD);
    LoadSame(m, m', task + PREV_WORD);
  }

  lemma UnlistTells(m: Mem, task: nat)
    requires LinkWords(m, task) && HeapPage(task)
    ensures PrevOf(m, task) + TASK_SIZE <= RAM_SIZE && LinkWords(Unlist(m, task), task)
  {
    hide Load32;
    UnlistOwnWords(m, task);
  }

  ghost predicate AllKept(m: Mem, m': Mem, held: map<Owner, Run>) {
    forall o :: o in held ==> SameRun(m, m', held[o])
  }

  lemma SafeAmongKept(m: Mem, m': Mem, held: map<Owner, Run>, p: nat, v: uint32)
    requires Held(m', held) && AllKept(m, m', held) && Link(p)
    ensures LinkSafe(m, held, p, v) <==> LinkSafe(m', held, p, v)
  {
    hide Load32, WellFormed, IsRun;
    if p != 0 && !(forall o :: o in held ==> p + PREV_WORD <= held[o].ptr || held[o].End() <= p + NEXT_WORD) {
      var o :| o in held && !(p + PREV_WORD <= held[o].ptr || held[o].End() <= p + NEXT_WORD);
      RunAligned(m', held, o);
      HitInside(p, held[o]);
      assert SameRun(m, m', held[o]);
      LoadSame(m, m', p + NEXT_WORD);
    }
  }

  lemma KeptFromKept(m: Mem, m1: Mem, m2: Mem, held: map<Owner, Run>)
    requires AllKept(m, m1, held)
    ensures KeptButNext(m, m2, held) <==> KeptButNext(m1, m2, held)
  {
    forall o | o in held
      ensures SameRun(m, m2, held[o]) <==> SameRun(m1, m2, held[o])
      ensures SameButNext(m, m2, held[o]) <==> SameButNext(m1, m2, held[o])
    {
      assert SameRun(m, m1, held[o]);
    }
  }

  lemma OthersAllKept(m: Mem, m': Mem, held: map<Owner, Run>, pid: nat)
    requires OthersKept(m, m', held, WithoutPid(held, pid), pid)
    ensures AllKept(m, m', WithoutPid(held, pid))
  {
  }

  lemma LostByTable(m: Mem, m1: Mem, m2: Mem, held: map<Owner, Run>, held': map<Owner, Run>)
    requires RunsLost(m, m1, held, held') && Table(m2) == Table(m1)
    ensures RunsLost(m, m2, held, held')
  {
  }

  lemma InvRing(k: KState, ring: Ring)
    requires Inv(k) && RingLinks(ring)
    ensures Inv(k.(ring := ring))
  {
  }

  /** Terminating takes exactly the process's runs out of the heap table, all but its
      process structure, which the code never frees. Everything else that is held
      keeps its bytes, but for the predecessor's next, and the kernel stays sound,
      exactly if the store through the task's prev is safe. */
  lemma TerminateExact(k: KState, pid: nat)
    requires Inv(k) && Live(k, pid)
    ensures CanExit(k.m, k.procs[pid].value)
    ensures var k' := TerminateStep(k, pid);
            && !Live(k', pid) && k'.held == WithoutPid(k.held, pid)
            && Held(k'.m, Leftover(k.held, pid))
            && RunsLost(k.m, k'.m, k.held, Leftover(k.held, pid))
            && (Inv(k') && KeptButNext(k.m, k'.m, k'.held) <==> ExitSafe(k, pid))
  {
    hide Load32, Store32, Inv, Held, CanTerminate, RunsLost, OthersKept, WithoutPid, Leftover, KeptButNext, LinkSafe,
      TerminateStep, RestStep, RingLinks, Relinked, TasksSingle, AllKept, Table, SameRun, BeforeExit;
    RestExact(k, pid);
    ExitIsRestAndStore(k, pid);
    var task := k.procs[pid].value.task;
    var prev, next := PrevOf(k.m, task), NextOf(k.m, task);
    RestFields(k, pid);
    ExitEnds(k, RestStep(k, pid), TerminateStep(k, pid), pid, prev, next);
  }

  lemma RestFields(k: KState, pid: nat)
    requires pid < |k.procs| && k.procs[pid].Some? && CanTerminate(k.m, k.procs[pid].value)
    ensures RestStep(k, pid).held == WithoutPid(k.held, pid) && RestStep(k, pid).procs == k.procs[pid := None]
    ensures RestStep(k, pid).ring == k.ring
  {
    hide Load32, SpaceOk, BeforeExit, Kfree, WithoutPid;
  }

  lemma ExitEnds(k: KState, k1: KState, k': KState, pid: nat, prev: nat, next: uint32)
    requires Live(k, pid) && Inv(k1) && k1.held == WithoutPid(k.held, pid) && k1.procs == k.procs[pid := None]
    requires Held(k1.m, Leftover(k.held, pid)) && RunsLost(k.m, k1.m, k.held, Leftover(k.held, pid))
    requires OthersKept(k.m, k1.m, k.held, k1.held, pid)
    requires Link(prev) && Link(next) && RingLinks(k'.ring) && prev + TASK_SIZE <= RAM_SIZE
    requires k' == k1.(m := Relinked(k1.m, prev, next), ring := k'.ring)
    ensures !Live(k', pid) && k'.held == WithoutPid(k.held, pid)
    ensures Held(k'.m, Leftover(k.held, pid)) && RunsLost(k.m, k'.m, k.held, Leftover(k.held, pid))
    ensures Inv(k') && KeptButNext(k.m, k'.m, k'.held) <==> LinkSafe(k.m, k'.held, prev, next)
  {
    hide Load32, Store32, Inv, Held, RunsLost, OthersKept, WithoutPid, Leftover, KeptButNext, LinkSafe,
      RingLinks, Relinked, TasksSingle, AllKept, Table, SameRun, Link;
    InvHeld(k1);
    InvTasksSingle(k1);
    OthersAllKept(k.m, k1.m, k.held, pid);
    RelinkTable(k1.m, prev, next);
    HeldByTable(k1.m, k'.m, Leftover(k.held, pid));
    LostByTable(k.m, k1.m, k'.m, k.held, Leftover(k.held, pid));
    RelinkKeepsIff(k1.m, k1.held, prev, next);
    KeptFromKept(k.m, k1.m, k'.m, k1.held);
    SafeAmongKept(k.m, k1.m, k1.held, prev, next);
    if LinkSafe(k.m, k1.held, prev, next) {
      RelinkKeepsInv(k1, prev, next);
      InvRing(k1.(m := Relinked(k1.m, prev, next)), k'.ring);
    }
  }
}
