/** The kernel as a state machine over loads, allocations, frees, terminations,
    other kernel work and stores by user code, and the proof that no process can
    ever write to memory it does not own. */
module Isolation {
  import opened Memory
  import opened HeapTable
  import opened Heap
  import opened KernelHeap
  import opened Owners
  import opened Paging
  import opened AddressSpace
  import opened Elf
  import opened Process
  import opened Tasks

  const MAX_PROCESSES := 12

  datatype Option<T> = None | Some(value: T)

  datatype Proc = Proc(
    struct: uint32, program: Program, image: uint32, imageSize: uint32, stack: uint32,
    task: uint32, chunk: uint32, slots: seq<Slot>)

  /** Physical memory, the process table, which heap run plays which part, and the
      scheduler's globals. */
  datatype KState = KState(m: Mem, procs: seq<Option<Proc>>, held: map<Owner, Run>, ring: Ring)

  // ---- The invariant ----

  predicate Inside(frame: nat, r: Run) {
    r.ptr <= frame && frame + PAGE_SIZE <= r.End()
  }

  ghost predicate HoldsRun(held: map<Owner, Run>, o: Owner, ptr: nat, blocks: nat) {
    o in held && held[o] == Run(ptr, blocks)
  }

  ghost predicate InAllocation(held: map<Owner, Run>, pid: nat, frame: nat) {
    exists j :: Owner(pid, Allocation(j)) in held && Inside(frame, held[Owner(pid, Allocation(j))])
  }

  /** The frame lies in the process's image, in its stack, or, mapped to its own
      address, in one of its allocations. */
  ghost predicate Backed(held: map<Owner, Run>, pid: nat, v: nat, frame: nat) {
    || (Owner(pid, Image) in held && Inside(frame, held[Owner(pid, Image)]))
    || (Owner(pid, Stack) in held && Inside(frame, held[Owner(pid, Stack)]))
    || (frame == v * PAGE_SIZE && InAllocation(held, pid, frame))
  }

  /** One slot, one run of as many blocks as the size needs; an empty slot has size 0. */
  ghost predicate SlotOk(held: map<Owner, Run>, pid: nat, j: nat, slot: Slot) {
    if slot.ptr == 0 then slot.size == 0 && Owner(pid, Allocation(j)) !in held
    else HoldsRun(held, Owner(pid, Allocation(j)), slot.ptr, BlocksFor(slot.size))
  }

  ghost predicate SlotsOk(held: map<Owner, Run>, pid: nat, slots: seq<Slot>) {
    && |slots| == MAX_ALLOCATIONS
    && forall j :: 0 <= j < MAX_ALLOCATIONS ==> SlotOk(held, pid, j, slots[j])
  }

  ghost predicate PartsOk(held: map<Owner, Run>, pid: nat, p: Proc) {
    && HoldsRun(held, Owner(pid, ProcessStruct), p.struct, BlocksFor(PROCESS_SIZE))
    && HoldsRun(held, Owner(pid, Image), p.image, BlocksFor(p.imageSize))
    && HoldsRun(held, Owner(pid, Stack), p.stack, BlocksFor(STACK_SIZE))
    && HoldsRun(held, Owner(pid, Task), p.task, 1)
    && (p.program.ElfProgram? ==> HoldsRun(held, Owner(pid, ElfFile), p.program.file, 1))
  }

  /** Writeable pages are backed, and every allocation's pages map to themselves
      as present, writeable user pages. */
  ghost predicate PagesOk(m: Mem, held: map<Owner, Run>, pid: nat, dir: nat)
    requires dir + PAGE_SIZE <= RAM_SIZE
  {
    && (forall v :: 0 <= v < TOTAL_PAGES && IsWriteable(PageEntry(m, dir, v)) ==>
          Backed(held, pid, v, FrameOf(PageEntry(m, dir, v))))
    && (forall v :: 0 <= v < TOTAL_PAGES && InAllocation(held, pid, v * PAGE_SIZE) ==>
          PageEntry(m, dir, v) == v * PAGE_SIZE + USER_FLAGS)
  }

  /** The task's next and prev are null or pages of the heap, stale ones included. */
  ghost predicate LinkWords(m: Mem, task: nat) {
    task + TASK_SIZE <= RAM_SIZE && Link(NextOf(m, task)) && Link(PrevOf(m, task))
  }

  ghost predicate RingLinks(ring: Ring) {
    Link(ring.head) && Link(ring.tail) && Link(ring.current)
  }

  ghost predicate ProcOk(m: Mem, held: map<Owner, Run>, pid: nat, p: Proc) {
    && LinkWords(m, p.task)
    && PartsOk(held, pid, p)
    && HoldsSpace(m, held, pid, p.chunk)
    && SlotsOk(held, pid, p.slots)
    && PagesOk(m, held, pid, DirectoryOf(m, p.chunk))
  }

  predicate RoleLive(p: Proc, r: Role) {
    match r
    case ElfFile => p.program.ElfProgram?
    case PageTable(i) => i < TABLE_ENTRIES
    case Allocation(j) => j < |p.slots|
    case _ => true
  }

  /** Only live processes own anything. */
  ghost predicate OwnersLive(procs: seq<Option<Proc>>, held: map<Owner, Run>) {
    forall o :: o in held ==> o.pid < |procs| && procs[o.pid].Some? && RoleLive(procs[o.pid].value, o.role)
  }

  ghost predicate Live(k: KState, pid: nat) {
    pid < |k.procs| && k.procs[pid].Some?
  }

  ghost predicate Inv(k: KState) {
    && |k.procs| == MAX_PROCESSES
    && Held(k.m, k.held) && LowGuard(k.m)
    && OwnersLive(k.procs, k.held) && RingLinks(k.ring)
    && forall pid :: 0 <= pid < MAX_PROCESSES && k.procs[pid].Some? ==> ProcOk(k.m, k.held, pid, k.procs[pid].value)
  }

  // ---- What the invariant gives: isolation ----

  function EntryOf(k: KState, p: Proc, v: nat): uint32
    requires p.chunk + 4 <= RAM_SIZE && DirectoryOf(k.m, p.chunk) + PAGE_SIZE <= RAM_SIZE && v < TOTAL_PAGES
  {
    PageEntry(k.m, DirectoryOf(k.m, p.chunk), v)
  }

  /** A frame writeable for one process lies in a run only that process owns. */
  lemma WriteableFrameOwned(k: KState, pid: nat, v: nat) returns (o: Owner)
    requires Inv(k) && Live(k, pid) && v < TOTAL_PAGES
    requires IsWriteable(EntryOf(k, k.procs[pid].value, v))
    ensures o in k.held && o.pid == pid && (o.role == Image || o.role == Stack || o.role.Allocation?)
    ensures Inside(FrameOf(EntryOf(k, k.procs[pid].value, v)), k.held[o])
  {
    hide Load32, PageEntry, FrameOf, Held;
    var frame := FrameOf(EntryOf(k, k.procs[pid].value, v));
    assert ProcOk(k.m, k.held, pid, k.procs[pid].value);
    assert Backed(k.held, pid, v, frame);
    if Inside(frame, k.held[Owner(pid, Image)]) {
      o := Owner(pid, Image);
    } else if Inside(frame, k.held[Owner(pid, Stack)]) {
      o := Owner(pid, Stack);
    } else {
      var j :| Owner(pid, Allocation(j)) in k.held && Inside(frame, k.held[Owner(pid, Allocation(j))]);
      o := Owner(pid, Allocation(j));
    }
  }

  /** No frame is writeable for two processes, and no writeable frame holds a page
      table, a directory, a chunk, a kernel structure or part of the heap table. */
  lemma WriteIsolation(k: KState, pid: nat, v: nat, pid': nat, v': nat, o: Owner)
    requires Inv(k) && Live(k, pid) && v < TOTAL_PAGES && IsWriteable(EntryOf(k, k.procs[pid].value, v))
    ensures var frame := FrameOf(EntryOf(k, k.procs[pid].value, v));
            && frame >= HEAP_ADDRESS && frame + PAGE_SIZE <= HEAP_END
            && (Live(k, pid') && pid' != pid && v' < TOTAL_PAGES && IsWriteable(EntryOf(k, k.procs[pid'].value, v'))
                ==> FrameOf(EntryOf(k, k.procs[pid'].value, v')) != frame)
            && (o in k.held && (o.pid != pid || !(o.role == Image || o.role == Stack || o.role.Allocation?))
                ==> k.held[o].End() <= frame || frame + PAGE_SIZE <= k.held[o].ptr)
  {
    hide Load32, PageEntry, PagesOk, SlotsOk, PartsOk;
    var mine := WriteableFrameOwned(k, pid, v);
    RunBounds(k.m, k.held[mine]);
    if Live(k, pid') && pid' != pid && v' < TOTAL_PAGES
       && IsWriteable(EntryOf(k, k.procs[pid'].value, v')) {
      var theirs := WriteableFrameOwned(k, pid', v');
      HeldApart(k.m, k.held, mine, theirs);
    }
    if o in k.held && o != mine {
      HeldApart(k.m, k.held, mine, o);
    }
  }
}
