/** process_inject_arguments in place: the list is walked in the caller's memory, and
    argv is filled in the new process's. */
module ArgumentOps {
  import opened Memory
  import opened HeapTable
  import H = Heap
  import opened KernelHeap
  import Owners
  import opened AddressSpace
  import opened Paging
  import opened Process
  import opened Isolation
  import opened Steps
  import opened Requests
  import opened CStrings
  import opened CommandLine
  import opened Arguments
  import opened KernelOps
  import opened ProcessOps

  class ProcessArguments {
    var argc: nat
    var argv: nat
  }

  /** The process and the kernel's memory are those of process `pid` in `k`. */
  ghost predicate InState(process: ProcessObject, k: KState, pid: nat)
    reads process, process.kernel, process.kernel.heap, process.kernel.ram, process.slots
  {
    && process.Valid() && Live(k, pid)
    && k.m == process.Contents()
    && k.procs[pid].value.chunk == process.chunk
    && k.procs[pid].value.slots == process.slots[..]
  }

  ghost predicate IsArray(k: KState, pid: nat, v: nat, ptr: nat) {
    var o := Owners.Owner(pid, Owners.Allocation(v));
    o in k.held && k.held[o].ptr == ptr
  }

  // ---- The list in the caller's memory ----

  const NEXT_NODE := 512
  const NODE_BYTES := 516

  /** A command_argument at p: its text, terminated inside its 512 bytes, and next. */
  ghost predicate NodeAt(m: Mem, p: nat, next: nat, arg: seq<byte>) {
    && p + NODE_BYTES <= RAM_SIZE && |arg| < NEXT_NODE
    && CStringAt(m, p, arg) && Load32(m, p + NEXT_NODE) == next
  }

  function AddressAt(ptrs: seq<nat>, i: nat): nat {
    if i < |ptrs| then ptrs[i] else 0
  }

  /** The node lies in one of the process's allocations. */
  ghost predicate InAllocationOf(held: map<Owners.Owner, Run>, caller: nat, p: nat) {
    exists j: nat ::
      && Owners.Owner(caller, Owners.Allocation(j)) in held
      && held[Owners.Owner(caller, Owners.Allocation(j))].ptr <= p
      && p + NODE_BYTES <= held[Owners.Owner(caller, Owners.Allocation(j))].End()
  }

  /** Process `caller` has a linked list of the arguments in memory it has allocated. */
  ghost predicate ListAt(k: KState, caller: nat, ptrs: seq<nat>, args: seq<seq<byte>>) {
    && |ptrs| == |args|
    && forall i :: 0 <= i < |ptrs| ==>
         ptrs[i] != 0 && InAllocationOf(k.held, caller, ptrs[i])
         && NodeAt(k.m, ptrs[i], AddressAt(ptrs, i + 1), args[i])
  }

  lemma NodeIs(k: KState, caller: nat, ptrs: seq<nat>, args: seq<seq<byte>>, i: nat)
    requires ListAt(k, caller, ptrs, args)
    ensures |ptrs| == |args|
    ensures i < |ptrs| ==>
      && ptrs[i] != 0 && InAllocationOf(k.held, caller, ptrs[i])
      && NodeAt(k.m, ptrs[i], AddressAt(ptrs, i + 1), args[i])
  {
    hide NodeAt, InAllocationOf;
  }

  lemma NodeWords(m: Mem, p: nat, next: nat, arg: seq<byte>)
    requires NodeAt(m, p, next, arg)
    ensures p + NODE_BYTES <= RAM_SIZE && Load32(m, p + NEXT_NODE) == next && CStringAt(m, p, arg)
    ensures |arg| < NEXT_NODE
  {
    hide Load32, CStringAt;
  }

  lemma NodeStays(m: Mem, m': Mem, p: nat, next: nat, arg: seq<byte>)
    requires NodeAt(m, p, next, arg) && forall a :: p <= a < p + NODE_BYTES ==> m'[a] == m[a]
    ensures NodeAt(m', p, next, arg)
  {
    hide Load32;
    CStringSame(m, m', p, arg);
    LoadSame(m, m', p + NEXT_NODE);
  }

  /** What is done on behalf of another process leaves the list alone. */
  lemma ListStays(k: KState, k': KState, pid: nat, caller: nat, ptrs: seq<nat>, args: seq<seq<byte>>)
    requires caller != pid && ListAt(k, caller, ptrs, args) && SparesForeign(k, k', pid)
    ensures ListAt(k', caller, ptrs, args)
  {
    hide ListAt, SameRun;
    ListKept(k, k', caller, ptrs, args);
  }

  lemma ListKept(k: KState, k': KState, caller: nat, ptrs: seq<nat>, args: seq<seq<byte>>)
    requires ListAt(k, caller, ptrs, args) && Extends(k.held, k'.held)
    requires forall o :: o in k.held && o.pid == caller && o.role.Allocation? ==> SameRun(k.m, k'.m, k.held[o])
    ensures ListAt(k', caller, ptrs, args)
  {
    hide NodeAt;
    forall i | 0 <= i < |ptrs|
      ensures InAllocationOf(k'.held, caller, ptrs[i]) && NodeAt(k'.m, ptrs[i], AddressAt(ptrs, i + 1), args[i])
    {
      assert InAllocationOf(k.held, caller, ptrs[i]);
      var j: nat :| var o := Owners.Owner(caller, Owners.Allocation(j));
                    o in k.held && k.held[o].ptr <= ptrs[i] && ptrs[i] + NODE_BYTES <= k.held[o].End();
      var o := Owners.Owner(caller, Owners.Allocation(j));
      assert o in k'.held && k'.held[o] == k.held[o] && SameRun(k.m, k'.m, k.held[o]);
      NodeStays(k.m, k'.m, ptrs[i], AddressAt(ptrs, i + 1), args[i]);
    }
  }

  /** The caller's pointers, next ones included, are the addresses the kernel uses. */
  lemma ListPhysical(k: KState, caller: nat, ptrs: seq<nat>, args: seq<seq<byte>>, i: nat)
    requires Inv(k) && Live(k, caller) && ListAt(k, caller, ptrs, args) && i < |ptrs|
    ensures SpaceDefined(k, caller) && ptrs[i] + NODE_BYTES <= RAM_SIZE
    ensures Paging.PhysicalAddress(k.m, Paging.DirectoryOf(k.m, k.procs[caller].value.chunk), ptrs[i]) == ptrs[i]
  {
    hide Load32, Inv, Paging.PhysicalAddress, Paging.Translate, LiveSpace, NodeAt;
    NodeIs(k, caller, ptrs, args, i);
    NodeWords(k.m, ptrs[i], AddressAt(ptrs, i + 1), args[i]);
    var j: nat :| var o := Owners.Owner(caller, Owners.Allocation(j));
                  o in k.held && k.held[o].ptr <= ptrs[i] && ptrs[i] + NODE_BYTES <= k.held[o].End();
    OwnBytesVisible(k, caller, j, ptrs[i]);
    LiveCanCall(k, caller);
    LiveIsOk(k.m, k.procs[caller].value.chunk);
    PhysicalAddressIsTranslation(k.m, k.procs[caller].value.chunk, ptrs[i]);
  }

  /** process_count_command_arguments. */
  method CountArguments(ram: array<byte>, root: nat, ghost k: KState, ghost caller: nat, ghost ptrs: seq<nat>,
                        ghost args: seq<seq<byte>>)
    returns (n: nat)
    requires ram.Length == RAM_SIZE && ram[..] == k.m
    requires ListAt(k, caller, ptrs, args) && root == AddressAt(ptrs, 0)
    ensures n == |args|
  {
    hide ListAt, Load32, NodeAt;
    var current := root;
    n := 0;
    NodeIs(k, caller, ptrs, args, 0);
    while current != 0
      invariant n <= |ptrs| == |args| && current == AddressAt(ptrs, n)
      decreases |ptrs| - n
    {
      NodeIs(k, caller, ptrs, args, n);
      NodeWords(k.m, ptrs[n], AddressAt(ptrs, n + 1), args[n]);
      n := n + 1;
      current := ReadWord(ram, current + NEXT_NODE);
    }
    NodeIs(k, caller, ptrs, args, n);
  }

  lemma MallocStepIs(k: KState, pid: nat, size: uint32)
    requires CanCall(k, pid)
    ensures var p := k.procs[pid].value; var r := ProcessMalloc(k.m, p.chunk, p.slots, size);
      && MallocPtr(k, pid, size) == r.2 && MallocStep(k, pid, size).m == r.0
      && Live(MallocStep(k, pid, size), pid)
      && MallocStep(k, pid, size).procs[pid].value.slots == r.1
      && MallocStep(k, pid, size).procs[pid].value.chunk == p.chunk
  {
    hide ProcessMalloc, LiveSpace, SpaceOk;
  }

  /** process_malloc, for a process in a known state of the kernel. */
  method MallocIn(process: ProcessObject, size: uint32, ghost k: KState, ghost pid: nat) returns (ptr: nat)
    requires Inv(k) && InState(process, k, pid)
    modifies process.kernel.ram, process.slots
    ensures CanCall(k, pid)
    ensures ptr == MallocPtr(k, pid, size) && InState(process, MallocStep(k, pid, size), pid)
  {
    LiveCanCall(k, pid);
    MallocStepIs(k, pid, size);
    hide Inv, LiveSpace, SpaceOk, ProcessMalloc, MallocPtr, MallocStep;
    ptr := process.Malloc(size);
  }

  lemma PlaceOneIs(k: KState, pid: nat, v: nat, i: nat, arg: seq<byte>)
    requires Inv(k) && Live(k, pid) && ArrayIn(k, pid, v, i + 1)
    ensures CanCall(k, pid)
    ensures 0 <= ArrayOf(k, pid, v) + POINTER_SIZE * i && ArrayOf(k, pid, v) + POINTER_SIZE * i + 4 <= RAM_SIZE
    ensures MallocPtr(k, pid, ARGUMENT_SIZE) + ARGUMENT_SIZE <= RAM_SIZE
    ensures var ptr := MallocPtr(k, pid, ARGUMENT_SIZE); var k1 := MallocStep(k, pid, ARGUMENT_SIZE);
      PlaceOne(k, pid, v, i, arg) ==
        if ptr == 0 then Placing(k1, -ENOMEM)
        else Placing(k1.(m := Store32(StringStored(k1.m, ptr, arg), ArrayOf(k, pid, v) + POINTER_SIZE * i, ptr)), 0)
  {
    hide Inv, MallocPtr, MallocStep, CanCall, StringStored, Store32;
    LiveCanCall(k, pid);
    ArrayBounds(k, pid, v, i + 1, i);
    OneBlock(ARGUMENT_SIZE);
  }

  /** The string's new block, when there is one, lies apart from the node. */
  lemma PlaceApart(k: KState, pid: nat, caller: nat, p: nat, next: nat, arg: seq<byte>)
    requires Inv(k) && Live(k, pid) && CanCall(k, pid) && caller != pid
    requires InAllocationOf(k.held, caller, p) && NodeAt(k.m, p, next, arg)
    ensures var ptr := MallocPtr(k, pid, ARGUMENT_SIZE); var k1 := MallocStep(k, pid, ARGUMENT_SIZE);
      && NodeAt(k1.m, p, next, arg)
      && (ptr != 0 ==> ptr + ARGUMENT_SIZE <= p || p + NODE_BYTES <= ptr)
  {
    hide Inv, Fits, H.BlocksFor, SlotOf, MallocStep, MallocPtr, CanCall, SparesHeld, Table, MallocSound, Undone,
      NodeAt, Held, SameRun;
    OneBlock(ARGUMENT_SIZE);
    PageSound(k, pid, ARGUMENT_SIZE);
    SlotCount(k, pid);
    var j: nat :| var o := Owners.Owner(caller, Owners.Allocation(j));
                  o in k.held && k.held[o].ptr <= p && p + NODE_BYTES <= k.held[o].End();
    var o := Owners.Owner(caller, Owners.Allocation(j));
    var k1 := MallocStep(k, pid, ARGUMENT_SIZE);
    if Fits(Table(k.m), H.BlocksFor(ARGUMENT_SIZE)) && SlotOf(k.procs[pid].value.slots, 0) < MAX_ALLOCATIONS {
      GrantedRun(k, pid, ARGUMENT_SIZE);
      var mine := Owners.Owner(pid, Owners.Allocation(SlotOf(k.procs[pid].value.slots, 0)));
      GrantedForeign(k, k1, pid, mine, Run(MallocPtr(k, pid, ARGUMENT_SIZE), H.BlocksFor(ARGUMENT_SIZE)));
      InvHolds(k1);
      HeldApart(k1.m, k1.held, o, mine);
    } else {
      NotGranted(k, pid, ARGUMENT_SIZE);
      UndoneForeign(k, k1, pid);
    }
    RunNode(k.m, k1.m, k.held[o], p, next, arg);
  }

  lemma RunNode(m: Mem, m': Mem, r: Run, p: nat, next: nat, arg: seq<byte>)
    requires SameRun(m, m', r) && r.ptr <= p && p + NODE_BYTES <= r.End() && NodeAt(m, p, next, arg)
    ensures NodeAt(m', p, next, arg)
  {
    hide NodeAt;
    NodeStays(m, m', p, next, arg);
  }

  /** One turn of the loop. */
  method PlaceArgument(process: ProcessObject, argv: nat, i: nat, current: nat, ghost next: nat,
                       ghost k: KState, ghost pid: nat, ghost v: nat, ghost arg: seq<byte>, ghost caller: nat)
    returns (res: int)
    requires Inv(k) && InState(process, k, pid) && ArrayIn(k, pid, v, i + 1) && argv == ArrayOf(k, pid, v)
    requires caller != pid && InAllocationOf(k.held, caller, current) && NodeAt(k.m, current, next, arg)
    modifies process.kernel.ram, process.slots
    ensures var r := PlaceOne(k, pid, v, i, arg); res == r.res && InState(process, r.k, pid)
  {
    hide Inv, MallocPtr, MallocStep, CanCall, Store32, CStringAt, Cut, Load32, NodeAt, InAllocationOf;
    PlaceOneIs(k, pid, v, i, arg);
    PlaceApart(k, pid, caller, current, next, arg);
    var ptr := MallocIn(process, ARGUMENT_SIZE, k, pid);
    if ptr == 0 {
      return -ENOMEM;
    }
    NodeWords(process.Contents(), current, next, arg);
    StrncpyWithin(process.kernel.ram, ptr, current, ARGUMENT_SIZE, arg);
    WriteWord(process.kernel.ram, argv + POINTER_SIZE * i, ptr);
    res := 0;
  }

  /** Memory, slots, result and array address are those of Inject. */
  ghost predicate Injected(process: ProcessObject, k: KState, pid: nat, args: seq<seq<byte>>, res: int, argv: nat)
    requires CanInject(k, pid, args)
    reads process, process.kernel, process.kernel.heap, process.kernel.ram, process.slots
  {
    var r := Inject(k, pid, args);
    && res == r.res && InState(process, r.k, pid)
    && (res == 0 ==> IsArray(r.k, pid, SlotOf(k.procs[pid].value.slots, 0), argv))
  }

  /** process_inject_arguments, for a list in the memory of process `caller`. */
  method InjectArguments(process: ProcessObject, arguments: ProcessArguments, root: nat, ghost ptrs: seq<nat>,
                         ghost args: seq<seq<byte>>, ghost k: KState, ghost pid: nat, ghost caller: nat)
    returns (res: int)
    requires InState(process, k, pid) && CanInject(k, pid, args)
    requires caller != pid && ListAt(k, caller, ptrs, args) && root == AddressAt(ptrs, 0)
    modifies process.kernel.ram, process.slots, arguments
    ensures Injected(process, k, pid, args, res, arguments.argv)
    ensures res == 0 ==> arguments.argc == |args|
    ensures res != 0 ==> arguments.argc == old(arguments.argc) && arguments.argv == old(arguments.argv)
  {
    hide *;
    InjectedNone(process, k, pid, args, arguments.argv);
    StateMemory(process, k, pid);
    var argc := CountArguments(process.kernel.ram, root, k, caller, ptrs, args);
    if argc == 0 {
      return -EIO;
    }
    var argv;
    res, argv := PlaceArguments(process, argc, root, ptrs, args, k, pid, caller);
    if res == 0 {
      arguments.argc := argc;
      arguments.argv := argv;
    } else {
      InjectedAny(process, k, pid, args, res, argv, arguments.argv);
    }
  }

  /** A failed call says nothing about the array. */
  lemma InjectedAny(process: ProcessObject, k: KState, pid: nat, args: seq<seq<byte>>, res: int, argv: nat, argv': nat)
    requires CanInject(k, pid, args) && Injected(process, k, pid, args, res, argv) && res != 0
    ensures Injected(process, k, pid, args, res, argv')
  {
    hide CanInject, Inject;
  }

  lemma InjectedNone(process: ProcessObject, k: KState, pid: nat, args: seq<seq<byte>>, argv: nat)
    requires CanInject(k, pid, args) && InState(process, k, pid)
    ensures args == [] ==> Injected(process, k, pid, args, -EIO, argv)
    ensures -EIO != 0
  {
    hide Inv, MallocPtr, MallocStep, CanCall, PlaceFrom, MallocSound, SlotOf;
  }

  lemma InjectedRefused(process: ProcessObject, k: KState, pid: nat, args: seq<seq<byte>>)
    requires CanInject(k, pid, args) && CanCall(k, pid) && args != []
    requires MallocPtr(k, pid, ArraySize(|args|)) == 0
    requires InState(process, MallocStep(k, pid, ArraySize(|args|)), pid)
    ensures Injected(process, k, pid, args, -ENOMEM, 0)
  {
    hide Inv, MallocPtr, MallocStep, CanCall, PlaceFrom, MallocSound, SlotOf;
  }

  lemma InjectedFilled(process: ProcessObject, k: KState, pid: nat, args: seq<seq<byte>>, v: nat, res: int, argv: nat)
    requires CanInject(k, pid, args) && CanCall(k, pid) && args != []
    requires MallocPtr(k, pid, ArraySize(|args|)) != 0 && v == SlotOf(k.procs[pid].value.slots, 0)
    requires var k1 := MallocStep(k, pid, ArraySize(|args|));
      && Inv(k1) && Live(k1, pid) && ArrayIn(k1, pid, v, |args|)
      && var r := PlaceFrom(k1, pid, v, args, 0);
      && res == r.res && InState(process, r.k, pid) && (res == 0 ==> IsArray(r.k, pid, v, argv))
    ensures Injected(process, k, pid, args, res, argv)
  {
    hide Inv, MallocPtr, MallocStep, CanCall, PlaceFrom, MallocSound, SlotOf, InState, IsArray;
  }

  /** The array, and the strings it points at. */
  method PlaceArguments(process: ProcessObject, argc: nat, root: nat, ghost ptrs: seq<nat>,
                        ghost args: seq<seq<byte>>, ghost k: KState, ghost pid: nat, ghost caller: nat)
    returns (res: int, argv: nat)
    requires InState(process, k, pid) && CanInject(k, pid, args) && argc == |args| > 0
    requires caller != pid && ListAt(k, caller, ptrs, args) && root == AddressAt(ptrs, 0)
    modifies process.kernel.ram, process.slots
    ensures Injected(process, k, pid, args, res, argv)
  {
    hide Inv, MallocPtr, MallocStep, CanCall, Inject, PlaceFrom, PlaceOne, MallocSound, ListAt, CStringAt, ArrayIn,
      IsArray, SlotOf, Strings, Injected, InState, CanInject;
    CanInjectTells(k, pid, args);
    ghost var v := SlotOf(k.procs[pid].value.slots, 0);
    argv := MallocIn(process, ArraySize(argc), k, pid);
    if argv == 0 {
      InjectedRefused(process, k, pid, args);
      return -ENOMEM, 0;
    }
    ArrayReady(k, pid, argc);
    ListStays(k, MallocStep(k, pid, ArraySize(argc)), pid, caller, ptrs, args);
    res := FillArray(process, argv, root, ptrs, args, MallocStep(k, pid, ArraySize(argc)), pid, v, caller);
    InjectedFilled(process, k, pid, args, v, res, argv);
  }

  lemma StateMemory(process: ProcessObject, k: KState, pid: nat)
    requires InState(process, k, pid)
    ensures process.kernel.ram.Length == RAM_SIZE && process.kernel.ram[..] == k.m
  {
  }

  lemma CanInjectTells(k: KState, pid: nat, args: seq<seq<byte>>)
    requires CanInject(k, pid, args)
    ensures Inv(k) && Live(k, pid) && Strings(args) && ArrayOk(|args|) && MallocSound(k, pid, ArraySize(|args|))
    ensures ENOMEM != 0
  {
    hide Inv, MallocSound;
  }

  lemma ArrayReady(k: KState, pid: nat, n: nat)
    requires Inv(k) && Live(k, pid) && ArrayOk(n) && MallocSound(k, pid, ArraySize(n))
    requires CanCall(k, pid) && MallocPtr(k, pid, ArraySize(n)) != 0
    ensures var k1 := MallocStep(k, pid, ArraySize(n)); var v := SlotOf(k.procs[pid].value.slots, 0);
      && Inv(k1) && Live(k1, pid) && ArrayIn(k1, pid, v, n) && SparesForeign(k, k1, pid)
      && IsArray(k1, pid, v, MallocPtr(k, pid, ArraySize(n)))
  {
    hide Inv, MallocPtr, MallocStep, CanCall, MallocSound, SlotOf;
    ArrayGranted(k, pid, n);
  }

  lemma PlaceFromIs(k: KState, pid: nat, v: nat, args: seq<seq<byte>>, i: nat)
    requires Inv(k) && Live(k, pid) && ArrayIn(k, pid, v, |args|) && i <= |args| && Strings(args)
    ensures i == |args| ==> PlaceFrom(k, pid, v, args, i) == Placing(k, 0)
    ensures i < |args| ==>
      var r := PlaceOne(k, pid, v, i, args[i]);
      && Inv(r.k) && Live(r.k, pid) && ArrayIn(r.k, pid, v, |args|) && IsArray(r.k, pid, v, ArrayOf(k, pid, v))
      && SparesForeign(k, r.k, pid)
      && (r.res == 0 || r.res == -ENOMEM)
      && PlaceFrom(k, pid, v, args, i) == (if r.res < 0 then r else PlaceFrom(r.k, pid, v, args, i + 1))
  {
    hide Inv, PlaceOne, EntryPlaced, TurnSpares;
    if i < |args| { TurnPlaces(k, pid, v, i, args[i]); }
  }

  /** The loop of process_inject_arguments. */
  method FillArray(process: ProcessObject, argv: nat, root: nat, ghost ptrs: seq<nat>, ghost args: seq<seq<byte>>,
                   ghost k: KState, ghost pid: nat, ghost v: nat, ghost caller: nat)
    returns (res: int)
    requires Inv(k) && InState(process, k, pid)
    requires caller != pid && ListAt(k, caller, ptrs, args) && Strings(args) && root == AddressAt(ptrs, 0)
    requires ArrayIn(k, pid, v, |args|) && IsArray(k, pid, v, argv)
    modifies process.kernel.ram, process.slots
    ensures var r := PlaceFrom(k, pid, v, args, 0);
      && res == r.res && InState(process, r.k, pid) && (res == 0 ==> IsArray(r.k, pid, v, argv))
  {
    hide Inv, MallocPtr, MallocStep, PlaceFrom, PlaceOne, ListAt, NodeAt, ArrayIn, SparesForeign, InAllocationOf,
      Load32;
    ghost var kk := k;
    var current, i := root, 0;
    res := 0;
    NodeIs(k, caller, ptrs, args, 0);
    while current != 0
      invariant i <= |ptrs| == |args| && current == AddressAt(ptrs, i)
      invariant ListAt(kk, caller, ptrs, args)
      invariant Inv(kk) && InState(process, kk, pid) && ArrayIn(kk, pid, v, |args|) && IsArray(kk, pid, v, argv)
      invariant res == 0 && PlaceFrom(kk, pid, v, args, i) == PlaceFrom(k, pid, v, args, 0)
      decreases |ptrs| - i
    {
      NodeIs(kk, caller, ptrs, args, i);
      ArrayPrefix(kk, pid, v, |args|, i + 1);
      res := PlaceArgument(process, argv, i, current, AddressAt(ptrs, i + 1), kk, pid, v, args[i], caller);
      PlaceFromIs(kk, pid, v, args, i);
      ListStays(kk, PlaceOne(kk, pid, v, i, args[i]).k, pid, caller, ptrs, args);
      kk := PlaceOne(kk, pid, v, i, args[i]).k;
      if res < 0 {
        return;
      }
      NodeIs(kk, caller, ptrs, args, i);
      NodeWords(kk.m, ptrs[i], AddressAt(ptrs, i + 1), args[i]);
      current := ReadWord(process.kernel.ram, current + NEXT_NODE);
      i := i + 1;
    }
    NodeIs(kk, caller, ptrs, args, i);
    PlaceFromIs(kk, pid, v, args, i);
  }

  lemma ArrayPrefix(k: KState, pid: nat, v: nat, n: nat, i: nat)
    requires ArrayIn(k, pid, v, n) && i <= n
    ensures ArrayIn(k, pid, v, i)
  {
  }
}
