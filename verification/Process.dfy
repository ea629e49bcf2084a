/** What the process layer does to memory and to a process's allocation slots:
    process_malloc, process_free, loading and terminating. */
module Process {
  import opened Memory
  import opened HeapTable
  import opened Heap
  import opened KernelHeap
  import opened Owners
  import opened Paging
  import opened AddressSpace
  import opened Elf

  const MAX_ALLOCATIONS := 1024
  const USER_FLAGS := 7
  const SPACE_FLAGS := 5

  // Sizes of the kernel's structures on the 32-bit target.
  const PROCESS_SIZE := 9364
  const TASK_SIZE := 64
  const ELF_FILE_SIZE := 132
  const STACK_SIZE := 16384
  const STACK_TOP := 0x3FF000
  const STACK_END := STACK_TOP - STACK_SIZE
  const PROGRAM_ADDRESS := 0x400000

  datatype Slot = Slot(ptr: uint32, size: uint32)

  const EMPTY := Slot(0, 0)

  // ---- The allocation slots ----

  /** The first slot that holds `ptr`, or the number of slots. */
  function SlotOf(allocs: seq<Slot>, ptr: uint32): (i: nat)
    ensures i <= |allocs|
    ensures i < |allocs| ==> allocs[i].ptr == ptr
    ensures forall j :: 0 <= j < i ==> allocs[j].ptr != ptr
    decreases |allocs|
  {
    if allocs == [] || allocs[0].ptr == ptr then 0
    else
      var i := SlotOf(allocs[1..], ptr);
      assert forall j :: 1 <= j < i + 1 ==> allocs[j] == allocs[1..][j - 1];
      i + 1
  }

  /** process_unjoin_allocation_array: every slot that holds `ptr` is emptied. */
  function Unjoin(allocs: seq<Slot>, ptr: uint32): (r: seq<Slot>)
    ensures |r| == |allocs|
    ensures forall i :: 0 <= i < |allocs| ==> r[i] == if allocs[i].ptr == ptr then EMPTY else allocs[i]
  {
    seq(|allocs|, i requires 0 <= i < |allocs| => if allocs[i].ptr == ptr then EMPTY else allocs[i])
  }

  // ---- Spaces made of live heap blocks ----

  /** The space is sound and each of its pages is an allocation of the heap. */
  ghost predicate LiveSpace(m: Mem, chunk: nat) {
    && SpaceOk(m, chunk)
    && RunAt(m, Run(chunk, 1)) && RunAt(m, Run(DirectoryOf(m, chunk), 1))
    && forall i :: 0 <= i < TABLE_ENTRIES ==> RunAt(m, Run(TableAddress(m, DirectoryOf(m, chunk), i), 1))
  }

  lemma HeldSpaceLive(m: Mem, held: map<Owner, Run>, pid: nat, chunk: nat)
    requires Held(m, held) && HoldsSpace(m, held, pid, chunk)
    ensures LiveSpace(m, chunk)
  {
    HeldSpaceOk(m, held, pid, chunk);
    hide Load32, SpaceOk, RunAt;
    forall i | 0 <= i < TABLE_ENTRIES ensures RunAt(m, Run(TableAddress(m, DirectoryOf(m, chunk), i), 1)) {
      assert HoldsPage(held, Owner(pid, PageTable(i)), TableAddress(m, DirectoryOf(m, chunk), i));
    }
  }

  ghost predicate SameSpacePages(m: Mem, m': Mem, chunk: nat)
    requires SpaceOk(m, chunk)
  {
    && SamePage(m, m', chunk) && SamePage(m, m', DirectoryOf(m, chunk))
    && forall i :: 0 <= i < TABLE_ENTRIES ==> SamePage(m, m', TableAddress(m, DirectoryOf(m, chunk), i))
  }

  /** A space whose pages did not change reads as before. */
  lemma SpaceUnchanged(m: Mem, m': Mem, chunk: nat)
    requires SpaceOk(m, chunk) && SameSpacePages(m, m', chunk)
    ensures SpaceOk(m', chunk) && SameDirectory(m, m', chunk)
    ensures forall i :: 0 <= i < TABLE_ENTRIES ==>
              TableAddress(m', DirectoryOf(m, chunk), i) == TableAddress(m, DirectoryOf(m, chunk), i)
    ensures forall v :: 0 <= v < TOTAL_PAGES ==>
              PageEntry(m', DirectoryOf(m, chunk), v) == PageEntry(m, DirectoryOf(m, chunk), v)
  {
    hide Load32, PageEntry;
    LoadSame(m, m', chunk);
    var dir := DirectoryOf(m, chunk);
    forall i | 0 <= i < TABLE_ENTRIES ensures DirectoryEntry(m', dir, i) == DirectoryEntry(m, dir, i) {
      DirectoryEntrySame(m, m', dir, i);
    }
    SpaceStays(m, m', chunk);
    forall v | 0 <= v < TOTAL_PAGES ensures PageEntry(m', dir, v) == PageEntry(m, dir, v) {
      PageEntrySame(m, m', dir, v);
    }
  }

  /** What kzalloc clears ends below 4 GB. */
  predicate Below4gb(m: Mem, size: uint32) {
    Kzalloc(m, size).1 + size <= RAM_SIZE
  }

  /** Whatever kzalloc answers, even a block too short for the request, it writes
      to no byte of an allocation unless it clears past 4 GB. */
  lemma KzallocSparesRuns(m: Mem, size: uint32, r: Run)
    requires WellFormed(Table(m)) && RunAt(m, r) && Below4gb(m, size)
    ensures SameRun(m, Kzalloc(m, size).0, r) && RunAt(Kzalloc(m, size).0, r)
  {
    hide Kzalloc, Fits, TrailingStart;
    var t, n := Table(m), BlocksFor(size);
    RunBounds(m, r);
    if Fits(t, n) {
      KzallocKeeps(m, size, r);
    } else if TrailingStart(t) < |t| {
      ShortSparesRuns(m, size, r);
    } else {
      NoAnswer(m, size);
    }
  }

  lemma NoAnswer(m: Mem, size: uint32)
    requires !Fits(Table(m), BlocksFor(size))
    requires TrailingStart(Table(m)) == TOTAL_BLOCKS
    ensures Kzalloc(m, size) == (m, 0)
  {
  }

  lemma ShortSparesRuns(m: Mem, size: uint32, r: Run)
    requires !Fits(Table(m), BlocksFor(size)) && Below4gb(m, size)
    requires TrailingStart(Table(m)) < TOTAL_BLOCKS && RunAt(m, r)
    ensures SameRun(m, Kzalloc(m, size).0, r) && RunAt(Kzalloc(m, size).0, r)
  {
    hide Kzalloc, Fits, TrailingStart, BlocksFor, IsRun, Table;
    var t := Table(m);
    var s := TrailingStart(t);
    RunBounds(m, r);
    TrailingFree(t);
    RunAvoidsFree(t, BlockOf(r.ptr), r.blocks, s, |t| - s);
    ShortAnswer(m, size, s);
    RunEndsBefore(m, r, s);
    SameEntriesRun(m, Kzalloc(m, size).0, r, s);
  }

  lemma RunEndsBefore(m: Mem, r: Run, s: nat)
    requires RunAt(m, r) && s < TOTAL_BLOCKS
    requires BlockOf(r.ptr) + r.blocks <= s || TOTAL_BLOCKS <= BlockOf(r.ptr)
    ensures BlockOf(r.ptr) + r.blocks <= s && r.End() <= HEAP_ADDRESS + BLOCK_SIZE * s
  {
  }

  lemma SameEntriesRun(m: Mem, m': Mem, r: Run, s: nat)
    requires RunAt(m, r) && BlockOf(r.ptr) + r.blocks <= s <= TOTAL_BLOCKS
    requires forall k :: TABLE_ADDRESS <= k < TABLE_ADDRESS + s ==> m'[k] == m[k]
    ensures RunAt(m', r)
  {
    forall k | BlockOf(r.ptr) <= k < BlockOf(r.ptr) + r.blocks ensures Table(m')[k] == Table(m)[k] {
      assert Table(m')[k] == m'[TABLE_ADDRESS + k] && Table(m)[k] == m[TABLE_ADDRESS + k];
    }
  }

  lemma TrailingFree(t: seq<byte>)
    ensures FreeRun(t, TrailingStart(t), |t| - TrailingStart(t))
  {
  }

  lemma ShortAnswer(m: Mem, size: uint32, s: nat)
    requires !Fits(Table(m), BlocksFor(size))
    requires s == TrailingStart(Table(m)) < TOTAL_BLOCKS
    ensures var p := HEAP_ADDRESS + BLOCK_SIZE * s; var m' := Kzalloc(m, size).0;
            && Kzalloc(m, size).1 == p
            && (p + size <= RAM_SIZE ==>
                  forall k :: 0 <= k < TABLE_ADDRESS + s || HEAP_ADDRESS <= k < p ==> m'[k] == m[k])
  {
  }

  lemma KzallocSparesSpace(m: Mem, size: uint32, chunk: nat)
    requires WellFormed(Table(m)) && LiveSpace(m, chunk) && Below4gb(m, size)
    ensures LiveSpace(Kzalloc(m, size).0, chunk)
    ensures SameSpacePages(m, Kzalloc(m, size).0, chunk)
    ensures DirectoryOf(Kzalloc(m, size).0, chunk) == DirectoryOf(m, chunk)
  {
    var m', dir := Kzalloc(m, size).0, DirectoryOf(m, chunk);
    hide Load32, Kzalloc, SpaceOk, RunAt;
    KzallocSparesRuns(m, size, Run(chunk, 1));
    KzallocSparesRuns(m, size, Run(dir, 1));
    forall i | 0 <= i < TABLE_ENTRIES
      ensures SamePage(m, m', TableAddress(m, dir, i)) && RunAt(m', Run(TableAddress(m, dir, i), 1))
    {
      assert RunAt(m, Run(TableAddress(m, dir, i), 1));
      KzallocSparesRuns(m, size, Run(TableAddress(m, dir, i), 1));
    }
    SpaceUnchanged(m, m', chunk);
  }

  // ---- process_malloc and process_free ----

  /** Memory, slots and result of process_malloc. */
  function ProcessMalloc(m: Mem, chunk: nat, allocs: seq<Slot>, size: uint32): (r: (Mem, seq<Slot>, nat))
    requires WellFormed(Table(m)) && LiveSpace(m, chunk)
    ensures |r.1| == |allocs| && (r.2 == 0 || HEAP_ADDRESS <= r.2 < HEAP_END)
    ensures Below4gb(m, size) ==> SpaceOk(r.0, chunk)
  {
    CanMallocFrom(m, chunk, size);
    MallocFrom(m, chunk, allocs, size)
  }

  lemma CanMallocFrom(m: Mem, chunk: nat, size: uint32)
    requires WellFormed(Table(m)) && LiveSpace(m, chunk)
    ensures Below4gb(m, size) ==> SpaceOk(Kzalloc(m, size).0, chunk)
    ensures var (m1, p) := Kzalloc(m, size); SpaceOk(m1, chunk) || (p != 0 && AlignUp((p + size) % RAM_SIZE) <= p)
  {
    hide Kzalloc, SpaceOk, Load32, RunAt, WellFormed;
    if Below4gb(m, size) {
      KzallocSparesSpace(m, size, chunk);
      LiveIsOk(Kzalloc(m, size).0, chunk);
    } else {
      PastTheTop(m, size);
    }
  }

  lemma LiveIsOk(m: Mem, chunk: nat)
    requires LiveSpace(m, chunk)
    ensures SpaceOk(m, chunk)
  {
  }

  lemma PastTheTop(m: Mem, size: uint32)
    requires !Below4gb(m, size)
    ensures var p := Kzalloc(m, size).1; p != 0 && AlignUp((p + size) % RAM_SIZE) <= p
  {
    hide Kzalloc;
    var p := Kzalloc(m, size).1;
    assert (p + size) % RAM_SIZE == p + size - RAM_SIZE < p;
  }

  /** process_malloc once kzalloc's answer is known to leave the page tables alone,
      or to leave no page to map. */
  function MallocFrom(m: Mem, chunk: nat, allocs: seq<Slot>, size: uint32): (r: (Mem, seq<Slot>, nat))
    requires var (m1, p) := Kzalloc(m, size); SpaceOk(m1, chunk) || (p != 0 && AlignUp((p + size) % RAM_SIZE) <= p)
    ensures |r.1| == |allocs| && (r.2 == 0 || HEAP_ADDRESS <= r.2 < HEAP_END)
    ensures SpaceOk(Kzalloc(m, size).0, chunk) ==> SpaceOk(r.0, chunk)
  {
    hide Kzalloc, SpaceOk, MapTo, Kfree, AlignUp;
    var (m1, p) := Kzalloc(m, size);
    if p == 0 then (m1, allocs, 0)
    else
      var i := SlotOf(allocs, 0);
      if i == |allocs| then
        KfreeLeavesSpace(m1, p, chunk);
        (Kfree(m1, p), allocs, 0)
      else
        var (m2, res) := MapTo(m1, chunk, p, p, AlignUp((p + size) % RAM_SIZE), USER_FLAGS);
        if res < 0 then
          KfreeLeavesSpace(m2, p, chunk);
          (Kfree(m2, p), allocs, 0)
        else (m2, allocs[i := Slot(p, size)], p)
  }

  lemma KfreeLeavesSpace(m: Mem, ptr: uint32, chunk: nat)
    requires Freeable(ptr)
    ensures SpaceOk(m, chunk) ==> SpaceOk(Kfree(m, ptr), chunk)
  {
    if SpaceOk(m, chunk) { KfreeSparesSpace(m, ptr, chunk); }
  }

  ghost predicate OutsideLow(k: int) {
    k < NULL_ENTRY || TABLE_ADDRESS + TOTAL_BLOCKS <= k
  }

  /** kfree of a heap address or NULL writes nothing above the heap table. */
  lemma KfreeTouchesLow(m: Mem, ptr: uint32)
    requires Freeable(ptr)
    ensures forall k :: 0 <= k < RAM_SIZE && OutsideLow(k) ==> Kfree(m, ptr)[k] == m[k]
  {
    var k := TABLE_ADDRESS + AddressToBlock(HEAP_ADDRESS, ptr);
    assert NULL_ENTRY <= k <= TABLE_ADDRESS + TOTAL_BLOCKS;
    ChainKeepsBefore(m, k, TABLE_ADDRESS + TOTAL_BLOCKS);
    ChainKeepsAfter(m, k, TABLE_ADDRESS + TOTAL_BLOCKS);
  }

  lemma KfreeSparesSpace(m: Mem, ptr: uint32, chunk: nat)
    requires Freeable(ptr) && SpaceOk(m, chunk)
    ensures SpaceOk(Kfree(m, ptr), chunk) && SameSpacePages(m, Kfree(m, ptr), chunk)
    ensures DirectoryOf(Kfree(m, ptr), chunk) == DirectoryOf(m, chunk)
  {
    hide Load32, Kfree;
    KfreeTouchesLow(m, ptr);
    SpaceUnchanged(m, Kfree(m, ptr), chunk);
  }

  ghost predicate SlotsFreeable(allocs: seq<Slot>) {
    forall i :: 0 <= i < |allocs| ==> Freeable(allocs[i].ptr)
  }

  /** paging_align_address(ptr + size) of a slot, in 32-bit arithmetic. */
  function SlotEnd(a: Slot): (r: uint32)
    ensures r % PAGE_SIZE == 0
  {
    AlignUp((a.ptr + a.size) % RAM_SIZE)
  }

  /** Memory and slots after process_free. */
  function ProcessFree(m: Mem, chunk: nat, allocs: seq<Slot>, ptr: uint32): (r: (Mem, seq<Slot>))
    requires SpaceOk(m, chunk) && SlotsFreeable(allocs)
    ensures |r.1| == |allocs| && SpaceOk(r.0, chunk) && SlotsFreeable(r.1)
  {
    var i := SlotOf(allocs, ptr);
    if i == |allocs| then (m, allocs)
    else
      var a := allocs[i];
      var (m1, res) := MapTo(m, chunk, a.ptr, a.ptr, SlotEnd(a), 0);
      if res < 0 then (m1, allocs)
      else
        KfreeSparesSpace(m1, ptr, chunk);
        (Kfree(m1, ptr), Unjoin(allocs, ptr))
  }

  /** process_terminate_allocations from slot i on. */
  function FreeSlots(m: Mem, chunk: nat, allocs: seq<Slot>, i: nat): (r: (Mem, seq<Slot>))
    requires SpaceOk(m, chunk) && SlotsFreeable(allocs) && i <= |allocs|
    ensures |r.1| == |allocs| && SpaceOk(r.0, chunk) && SlotsFreeable(r.1)
    decreases |allocs| - i
  {
    if i == |allocs| then (m, allocs)
    else
      var (m1, allocs1) := ProcessFree(m, chunk, allocs, allocs[i].ptr);
      FreeSlots(m1, chunk, allocs1, i + 1)
  }

  // ---- Loading and terminating ----

  datatype Program = ElfProgram(file: uint32, headers: seq<ProgramHeader>) | BinaryProgram

  /** process_map_elf or process_map_binary; the latter ignores its result. */
  function MapImage(m: Mem, chunk: nat, program: Program, image: uint32, imageSize: uint32): (r: (Mem, int))
    requires SpaceOk(m, chunk)
    ensures SpaceOk(r.0, chunk) && (r.1 == 0 || r.1 == -EINVARG)
  {
    match program
    case ElfProgram(_, headers) => MapElf(m, chunk, image, headers)
    case BinaryProgram =>
      (MapTo(m, chunk, PROGRAM_ADDRESS, image, AlignUp((image + imageSize) % RAM_SIZE), USER_FLAGS).0, 0)
  }

  /** process_map_memory: the image, then the stack. */
  function MapMemory(m: Mem, chunk: nat, program: Program, image: uint32, imageSize: uint32,
                     stack: uint32): (r: (Mem, int))
    requires SpaceOk(m, chunk)
    ensures SpaceOk(r.0, chunk) && (r.1 == 0 || r.1 == -EINVARG)
  {
    var (m1, res) := MapImage(m, chunk, program, image, imageSize);
    if res < 0 then (m1, res)
    else (MapTo(m1, chunk, STACK_END, stack, AlignUp((stack + STACK_SIZE) % RAM_SIZE), USER_FLAGS).0, res)
  }

  /** What process_free_program_data and the stack's kfree give back. */
  function ProgramPointers(program: Program, image: uint32, stack: uint32): seq<uint32> {
    match program
    case ElfProgram(file, _) => [image, file, stack]
    case BinaryProgram => [image, stack]
  }
}
