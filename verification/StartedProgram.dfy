/** From the load to the first thing a program does: its stack stays where the load has
    put it while it is given its arguments, and it reads them there. */
module StartedProgram {
  import opened Memory
  import opened HeapTable
  import opened Heap
  import opened KernelHeap
  import opened Owners
  import opened Paging
  import opened AddressSpace
  import opened Process
  import opened CStrings
  import opened Isolation
  import opened Steps
  import opened Frees
  import opened GetArguments
  import opened Requests
  import opened Arguments
  import opened CommandToArgv
  import opened ProgramArguments
  import Load
  import Machine
  import CL = CommandLine

  /** The process's pages below the heap's addresses keep their entries. */
  ghost predicate LowPagesSame(k: KState, k': KState, pid: nat) {
    && SpaceDefined(k, pid) && SpaceDefined(k', pid) && k'.procs[pid].value.chunk == k.procs[pid].value.chunk
    && forall v :: 0 <= v < HEAP_ADDRESS / PAGE_SIZE ==>
         EntryOf(k', k'.procs[pid].value, v) == EntryOf(k, k.procs[pid].value, v)
  }

  lemma LowTwice(k: KState, k1: KState, k2: KState, pid: nat)
    requires LowPagesSame(k, k1, pid) && LowPagesSame(k1, k2, pid)
    ensures LowPagesSame(k, k2, pid)
  {
    hide EntryOf, Load32;
    forall v | 0 <= v < HEAP_ADDRESS / PAGE_SIZE
      ensures EntryOf(k2, k2.procs[pid].value, v) == EntryOf(k, k.procs[pid].value, v)
    {
      assert EntryOf(k1, k1.procs[pid].value, v) == EntryOf(k, k.procs[pid].value, v);
    }
  }

  lemma TablesSame(m: Mem, m': Mem, held: map<Owner, Run>, pid: nat, chunk: nat)
    requires Held(m, held) && HoldsSpace(m, held, pid, chunk) && SpaceRunsSame(m, m', held, pid)
    ensures chunk + 4 <= RAM_SIZE && DirectoryOf(m, chunk) + PAGE_SIZE <= RAM_SIZE
    ensures DirectoryOf(m', chunk) == DirectoryOf(m, chunk)
    ensures forall v :: 0 <= v < TOTAL_PAGES ==>
              PageEntry(m', DirectoryOf(m, chunk), v) == PageEntry(m, DirectoryOf(m, chunk), v)
  {
    hide Load32, PageEntry, Held, HoldsSpace, SpaceOk, SpaceRunsSame;
    HoldsSpaceBounds(m, held, pid, chunk);
    SpaceRunsSamePages(m, m', held, pid, chunk);
    SpaceUnchanged(m, m', chunk);
  }

  /** A write that leaves the process's page tables alone. */
  lemma WriteKeepsLow(k: KState, m': Mem, pid: nat)
    requires Inv(k) && Live(k, pid) && SpaceRunsSame(k.m, m', k.held, pid)
    ensures LowPagesSame(k, k.(m := m'), pid)
  {
    hide Inv, Load32, PageEntry, Held, HoldsSpace, SlotsOk, SpaceRunsSame;
    LiveParts(k, pid);
    TablesSame(k.m, m', k.held, pid, k.procs[pid].value.chunk);
  }

  lemma AllKeptSpace(m: Mem, m': Mem, held: map<Owner, Run>, pid: nat)
    requires forall o :: o in held ==> SameRun(m, m', held[o])
    ensures SpaceRunsSame(m, m', held, pid)
  {
    hide SameRun;
  }

  lemma MallocKeepsLow(k: KState, pid: nat, size: uint32)
    requires Inv(k) && Live(k, pid) && MallocSound(k, pid, size)
    ensures CanCall(k, pid) && LowPagesSame(k, MallocStep(k, pid, size), pid)
  {
    hide Inv, Fits, BlocksFor, SlotOf, CanCall, MallocSound, MallocStep, Load32, Table, PageEntry;
    LiveCanCall(k, pid);
    if Fits(Table(k.m), BlocksFor(size)) && SlotOf(k.procs[pid].value.slots, 0) < MAX_ALLOCATIONS {
      GrantedKeepsLow(k, pid, size);
    } else {
      NotGranted(k, pid, size);
      UndoneKeepsLow(k, MallocStep(k, pid, size), pid);
    }
  }

  lemma UndoneKeepsLow(k: KState, k': KState, pid: nat)
    requires Inv(k) && Live(k, pid) && Undone(k, k')
    ensures LowPagesSame(k, k', pid)
  {
    hide Inv, SameRun, LowPagesSame;
    AllKeptSpace(k.m, k'.m, k.held, pid);
    WriteKeepsLow(k, k'.m, pid);
  }

  lemma GrantedKeepsLow(k: KState, pid: nat, size: uint32)
    requires Inv(k) && Live(k, pid)
    requires Fits(Table(k.m), BlocksFor(size)) && SlotOf(k.procs[pid].value.slots, 0) < MAX_ALLOCATIONS
    ensures CanCall(k, pid) && LowPagesSame(k, MallocStep(k, pid, size), pid)
  {
    hide Inv, Fits, BlocksFor, SlotOf, CanCall, MallocStep, Load32, Table, PageEntry, Held, HoldsSpace, LowGuard,
      SlotsOk, Kzalloc, SpaceOk, OnlyTables, Mapped, RunsGrew, SameRun, DirectoryOf;
    MallocGranted(k, pid, size);
    LiveParts(k, pid);
    var (m1, ptr) := Kzalloc(k.m, size);
    var chunk := k.procs[pid].value.chunk;
    AllKeptSpace(k.m, m1, k.held, pid);
    TablesSame(k.m, m1, k.held, pid, chunk);
    DirectoryFits(m1, chunk);
    var m2, n := MallocStep(k, pid, size).m, BlocksFor(size);
    NewRunBounds(m1, k.held, pid, SlotOf(k.procs[pid].value.slots, 0), Run(ptr, n));
    Elf.MappedEntries(m1, m2, chunk, ptr / PAGE_SIZE, ptr, n, USER_FLAGS);
    MappedDirectory(m1, m2, chunk);
    forall v | 0 <= v < HEAP_ADDRESS / PAGE_SIZE
      ensures PageEntry(m2, DirectoryOf(m1, chunk), v) == PageEntry(m1, DirectoryOf(m1, chunk), v)
    {
      PagesOfRun(ptr, n, v);
    }
  }

  lemma NewRunBounds(m: Mem, held: map<Owner, Run>, pid: nat, i: nat, r: Run)
    requires Held(m, held[Owner(pid, Allocation(i)) := r])
    ensures HEAP_ADDRESS <= r.ptr && r.ptr % PAGE_SIZE == 0 && r.ptr + PAGE_SIZE * r.blocks <= HEAP_END
  {
    var held1 := held[Owner(pid, Allocation(i)) := r];
    assert RunAt(m, held1[Owner(pid, Allocation(i))]);
    RunBounds(m, r);
  }

  lemma MappedDirectory(m: Mem, m': Mem, chunk: nat)
    requires SpaceOk(m, chunk) && OnlyTables(m, m', chunk)
    ensures DirectoryOf(m', chunk) == DirectoryOf(m, chunk)
  {
    hide Load32;
  }

  /** One turn of process_inject_arguments. */
  lemma TurnKeepsLow(k: KState, pid: nat, v: nat, i: nat, arg: seq<byte>)
    requires Inv(k) && Live(k, pid) && ArrayIn(k, pid, v, i + 1) && 0 !in arg
    ensures LowPagesSame(k, PlaceOne(k, pid, v, i, arg).k, pid)
  {
    hide Inv, Fits, BlocksFor, SlotOf, MallocStep, MallocPtr, CanCall, SparesHeld, Load32, Store32, StringStored, Table,
      MallocSound, WellFormed, LowPagesSame, Live;
    var size := CL.ARGUMENT_SIZE;
    OneBlock(size);
    PageSound(k, pid, size);
    MallocKeepsLow(k, pid, size);
    SlotCount(k, pid);
    if Fits(Table(k.m), BlocksFor(size)) && SlotOf(k.procs[pid].value.slots, 0) < MAX_ALLOCATIONS {
      GrantedRun(k, pid, size);
      StoresKeepLow(k, MallocStep(k, pid, size), pid, v, i, SlotOf(k.procs[pid].value.slots, 0),
                    MallocPtr(k, pid, size), arg);
      LowTwice(k, MallocStep(k, pid, size), PlaceOne(k, pid, v, i, arg).k, pid);
    } else {
      NotGranted(k, pid, size);
    }
  }

  /** The string and its pointer go into allocations of the process. */
  lemma StoresKeepLow(k: KState, k1: KState, pid: nat, v: nat, i: nat, j: nat, ptr: nat, arg: seq<byte>)
    requires Inv(k) && Inv(k1) && Live(k1, pid) && ArrayIn(k, pid, v, i + 1) && 0 !in arg
    requires Owner(pid, Allocation(j)) !in k.held
    requires k1.held == k.held[Owner(pid, Allocation(j)) := Run(ptr, 1)]
    ensures ptr + CL.ARGUMENT_SIZE <= RAM_SIZE && ArrayOf(k, pid, v) + POINTER_SIZE * i + 4 <= RAM_SIZE
    ensures ptr < RAM_SIZE
    ensures var m3 := Store32(StringStored(k1.m, ptr, arg), ArrayOf(k, pid, v) + POINTER_SIZE * i, ptr);
      LowPagesSame(k1, k1.(m := m3), pid)
  {
    hide Inv, Held, Load32, Store32, StringStored, CStringAt, Cut, OnlyInside, SameRun, LowPagesSame;
    var o, w := Owner(pid, Allocation(j)), Owner(pid, Allocation(v));
    InvHolds(k1);
    HeldBounds(k1.m, k1.held, o);
    HeldBounds(k1.m, k1.held, w);
    ArrayBounds(k1, pid, v, i + 1, i);
    StringInside(k1.m, k1.held[o], arg);
    var m2 := StringStored(k1.m, ptr, arg);
    OwnWriteSpares(k1, m2, o);
    OwnWriteKeepsInv(k1, m2, o);
    var k2 := k1.(m := m2);
    InvHolds(k2);
    var a := ArrayOf(k, pid, v) + POINTER_SIZE * i;
    WordInside(m2, k1.held[w], a, ptr);
    var m3 := Store32(m2, a, ptr);
    OwnWriteSpares(k2, m3, w);
    AllocationNotSpace(k1.m, m2, k1.held, o, pid);
    AllocationNotSpace(m2, m3, k1.held, w, pid);
    WriteKeepsLow(k1, m2, pid);
    WriteKeepsLow(k2, m3, pid);
    LowTwice(k1, k2, k1.(m := m3), pid);
  }

  lemma AllocationNotSpace(m: Mem, m': Mem, held: map<Owner, Run>, o: Owner, pid: nat)
    requires o.role.Allocation? && forall q :: q in held && q != o ==> SameRun(m, m', held[q])
    ensures SpaceRunsSame(m, m', held, pid)
  {
    hide SameRun;
  }

  lemma {:induction false} PlacingKeepsLow(k: KState, pid: nat, v: nat, args: seq<seq<byte>>, i: nat)
    requires Inv(k) && Live(k, pid) && ArrayIn(k, pid, v, |args|) && i <= |args| && Strings(args)
    ensures LowPagesSame(k, PlaceFrom(k, pid, v, args, i).k, pid)
    decreases |args| - i
  {
    hide Inv, PlaceOne, LowPagesSame, EntryPlaced, TurnSpares, SparesForeign;
    if i == |args| {
      NothingKeepsLow(k, pid);
    } else {
      TurnPlaces(k, pid, v, i, args[i]);
      TurnKeepsLow(k, pid, v, i, args[i]);
      var r := PlaceOne(k, pid, v, i, args[i]);
      if r.res >= 0 {
        PlacingKeepsLow(r.k, pid, v, args, i + 1);
        LowTwice(k, r.k, PlaceFrom(r.k, pid, v, args, i + 1).k, pid);
      }
    }
  }

  lemma NothingKeepsLow(k: KState, pid: nat)
    requires Inv(k) && Live(k, pid)
    ensures LowPagesSame(k, k, pid)
  {
    hide Inv, PageEntry;
    LiveSpaceDefined(k, pid);
  }

  /** Giving a process its arguments leaves its stack and its program where they are. */
  lemma InjectKeepsLow(k: KState, pid: nat, args: seq<seq<byte>>)
    requires CanInject(k, pid, args)
    ensures LowPagesSame(k, Inject(k, pid, args).k, pid)
  {
    var size := ArraySize(|args|);
    LiveCanCall(k, pid);
    hide Inv, Fits, MallocStep, MallocPtr, CanCall, MallocSound, LowPagesSame, PlaceFrom, SparesForeign, SlotOf;
    if args == [] {
      NothingKeepsLow(k, pid);
    } else {
      MallocKeepsLow(k, pid, size);
      if MallocPtr(k, pid, size) != 0 {
        ArrayGranted(k, pid, |args|);
        var k1, v := MallocStep(k, pid, size), SlotOf(k.procs[pid].value.slots, 0);
        PlacingKeepsLow(k1, pid, v, args, 0);
        LowTwice(k, k1, PlaceFrom(k1, pid, v, args, 0).k, pid);
      }
    }
  }

  // ---- The stack as a place to ask for arguments ----

  /** A page of the stack, to write. */
  ghost predicate OnStack(k: KState, pid: nat, a: uint32) {
    && SpaceDefined(k, pid) && InWriteablePage(k, pid, a)
    && Owner(pid, Stack) in k.held && Inside(SeenAt(k, pid, a) - a % PAGE_SIZE, k.held[Owner(pid, Stack)])
  }

  lemma StackIsGood(k: KState, pid: nat, a: uint32, v: nat, slots: seq<nat>)
    requires Inv(k) && OnStack(k, pid, a)
    ensures GoodPlace(k, pid, a, v, slots)
  {
    hide Inv, SeenAt, SpaceDefined, Held;
    InvHolds(k);
    forall j: nat ensures Outside(k, pid, a, j) {
      if Owner(pid, Allocation(j)) in k.held {
        HeldApart(k.m, k.held, Owner(pid, Stack), Owner(pid, Allocation(j)));
      }
    }
  }

  /** The stack is where the load has put it. */
  ghost predicate StackInPlace(k: KState, pid: nat) {
    && SpaceDefined(k, pid)
    && var p := k.procs[pid].value;
    && ShowsRange(k.m, DirectoryOf(k.m, p.chunk), 0x3F_B000, 0x4000, p.stack, true)
    && Owner(pid, Stack) in k.held && k.held[Owner(pid, Stack)] == Run(p.stack, 4) && p.stack % PAGE_SIZE == 0
  }

  /** A stack that the load has put in place is still there after the arguments. */
  lemma StackStays(k: KState, k': KState, pid: nat, a: uint32)
    requires LowPagesSame(k, k', pid) && StackInPlace(k, pid)
    requires Owner(pid, Stack) in k'.held && k'.held[Owner(pid, Stack)] == k.held[Owner(pid, Stack)]
    requires 0x3F_B000 <= a < 0x3F_F000 && a % PAGE_SIZE + ARGUMENTS_SIZE <= PAGE_SIZE
    ensures OnStack(k', pid, a)
  {
    hide PageEntry, Load32, FrameOf, IsPresent, IsUser, IsWriteable;
    var p := k.procs[pid].value;
    assert OpenAt(k.m, DirectoryOf(k.m, p.chunk), a, true);
    assert Translate(k.m, DirectoryOf(k.m, p.chunk), a) == p.stack + (a - 0x3F_B000);
    assert EntryOf(k', k'.procs[pid].value, a / PAGE_SIZE) == EntryOf(k, p, a / PAGE_SIZE);
  }

  /** What a process holds as its stack it still holds when it has its arguments. */
  lemma StackHeld(k: KState, pid: nat, args: seq<seq<byte>>)
    requires CanInject(k, pid, args)
    ensures Owner(pid, Stack) in k.held ==>
      var held' := Inject(k, pid, args).k.held;
      Owner(pid, Stack) in held' && held'[Owner(pid, Stack)] == k.held[Owner(pid, Stack)]
    ensures Inv(Inject(k, pid, args).k)
  {
    hide Inv, Inject, CanInject, SameRun, ArgsPlaced;
    var _, _ := InjectDelivers(k, pid, args);
  }

  lemma LoadedStack(k: KState, pid: nat, program: Program, imageSize: uint32, t: Load.Trace)
    requires Inv(k) && Machine.ProgramFound(k, pid, program, imageSize, t)
    ensures StackInPlace(k, pid) && Owner(pid, Stack) in k.held
  {
    hide Inv, ShowsRange, PageEntry, Load32, Held, ProcOk, OwnersLive, LowGuard;
    InvProcs(k);
    var p := k.procs[pid].value;
    StackPart(k.m, k.held, pid, p) by { SpaceIsLive(k, pid); }
  }

  lemma SpaceIsLive(k: KState, pid: nat)
    requires SpaceDefined(k, pid)
    ensures Live(k, pid)
  {
    hide Load32;
  }

  lemma StackPart(m: Mem, held: map<Owner, Run>, pid: nat, p: Proc)
    requires Held(m, held) && ProcOk(m, held, pid, p)
    ensures Owner(pid, Stack) in held && held[Owner(pid, Stack)] == Run(p.stack, 4) && p.stack % PAGE_SIZE == 0
  {
    hide LinkWords, PagesOk, SlotsOk, HoldsSpace, Load32, IsRun, WellFormed;
    assert BlocksFor(STACK_SIZE) == 4;
    RunBounds(m, held[Owner(pid, Stack)]);
  }

  lemma StackReads(k: KState, k': KState, pid: nat, words: seq<seq<byte>>, v: nat, slots: seq<nat>)
    requires StackInPlace(k, pid) && LowPagesSame(k, k', pid) && Inv(k')
    requires Owner(pid, Stack) in k'.held && k'.held[Owner(pid, Stack)] == k.held[Owner(pid, Stack)]
    requires AnswersAsked(k', pid, words, v, slots)
    ensures ReadsOnStack(k', pid, words, v, slots)
  {
    hide Inv, ShowsRange, LowPagesSame, GetStep, ArgumentsSeen, GoodPlace, OnStack, SpaceDefined;
    forall a: uint32 | 0x3F_B000 <= a < 0x3F_F000 && a % PAGE_SIZE + ARGUMENTS_SIZE <= PAGE_SIZE
      ensures ArgumentsSeen(GetStep(k', pid, a, |words|, ArrayOf(k', pid, v)), pid, a, words)
    {
      StackStays(k, k', pid, a);
      StackIsGood(k', pid, a, v, slots);
    }
  }

  /** At any address of the stack, page borders excepted, the program reads its arguments. */
  ghost predicate ReadsOnStack(k: KState, pid: nat, words: seq<seq<byte>>, v: nat, slots: seq<nat>) {
    && |words| < RAM_SIZE && SpaceDefined(k, pid)
    && Owner(pid, Allocation(v)) in k.held && ArrayOf(k, pid, v) < RAM_SIZE
    && forall a: uint32 :: 0x3F_B000 <= a < 0x3F_F000 && a % PAGE_SIZE + ARGUMENTS_SIZE <= PAGE_SIZE ==>
         ArgumentsSeen(GetStep(k, pid, a, |words|, ArrayOf(k, pid, v)), pid, a, words)
  }

  /** If process_inject_arguments succeeds for the words of the line, the process
      reads them. */
  ghost predicate GetsCommand(k: KState, pid: nat, command: seq<byte>, v: nat, slots: seq<nat>) {
    hide Inv, Inject, ReadsOnStack, CommandWords, CommandArguments;
    && CanInject(k, pid, CommandArguments(command))
    && var r := Inject(k, pid, CommandArguments(command));
       r.res == 0 ==> ReadsOnStack(r.k, pid, CommandWords(command), v, slots)
  }

  /** The whole story: a program is loaded, given the words of a line and asks for them
      at any address of its stack; what it reads there are their number and argv, and
      through argv the words. */
  lemma StartedProgramReads(k: KState, k1: KState, pid: nat, program: Program, imageSize: uint32, t: Load.Trace,
                            command: seq<byte>) returns (v: nat, slots: seq<nat>)
    requires t.chunk + 4 <= RAM_SIZE && DirectoryOf(t.m8, t.chunk) + PAGE_SIZE <= RAM_SIZE
    requires Machine.TailServes(k, pid, program.ElfProgram?, imageSize, t)
    requires Inv(k) && Machine.LoadNext(k, k1, pid, program, imageSize, t) && Live(k1, pid)
    requires Load.ImageFits(program, Machine.ImageOf(imageSize, t), Machine.StackOf(t))
    requires 0 !in command && CommandWords(command) != []
    ensures GetsCommand(k1, pid, command, v, slots)
  {
    hide *;
    LoadedCanTake(k, k1, pid, program, imageSize, t, command);
    Machine.LoadKeepsInv(k, k1, pid, program, imageSize, t);
    v, slots := CommandSeen(k1, pid, command);
    var r := Inject(k1, pid, CommandArguments(command));
    if r.res == 0 {
      Machine.LoadShows(k, k1, pid, program, imageSize, t);
      InjectKeepsLow(k1, pid, CommandArguments(command));
      StackHeld(k1, pid, CommandArguments(command));
      LoadedStack(k1, pid, program, imageSize, t);
      StackReads(k1, r.k, pid, CommandWords(command), v, slots);
    }
    GetsIs(k1, pid, command, v, slots);
  }

  lemma GetsIs(k: KState, pid: nat, command: seq<byte>, v: nat, slots: seq<nat>)
    requires CanInject(k, pid, CommandArguments(command))
    requires var r := Inject(k, pid, CommandArguments(command));
      r.res == 0 ==> ReadsOnStack(r.k, pid, CommandWords(command), v, slots)
    ensures GetsCommand(k, pid, command, v, slots)
  {
    hide Inv, Inject, CanInject, ReadsOnStack, CommandWords, CommandArguments;
  }
}
