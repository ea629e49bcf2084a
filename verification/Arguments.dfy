/** process_inject_arguments: the argument list becomes argv in memory the new
    process owns, on top of process_malloc. */
module Arguments {
  import opened Memory
  import opened HeapTable
  import opened Heap
  import opened KernelHeap
  import opened Owners
  import opened Paging
  import opened AddressSpace
  import opened Process
  import opened Isolation
  import opened Steps
  import opened Requests
  import opened CStrings
  import CL = CommandLine

  const EIO := 1
  const POINTER_SIZE := 4

  // ---- What process_malloc leaves alone ----

  /** The memory of every allocation but one process's page tables. */
  ghost predicate SparesHeld(k: KState, m': Mem, pid: nat) {
    forall o :: o in k.held && !(o.pid == pid && o.role.PageTable?) ==> SameRun(k.m, m', k.held[o])
  }

  /** The memory of everything but the process's own page tables and allocations: of
      every other process, and of the kernel's structures. */
  ghost predicate SparesForeign(k: KState, k': KState, pid: nat) {
    && Extends(k.held, k'.held)
    && forall o :: o in k.held && !(o.pid == pid && (o.role.PageTable? || o.role.Allocation?)) ==>
         SameRun(k.m, k'.m, k.held[o])
  }

  lemma ForeignSelf(k: KState, pid: nat)
    requires Inv(k)
    ensures SparesForeign(k, k, pid)
  {
    hide Inv, Held;
    InvHolds(k);
    forall o | o in k.held ensures SameRun(k.m, k.m, k.held[o]) {
      HeldBounds(k.m, k.held, o);
    }
  }

  lemma ForeignTwice(k: KState, k1: KState, k2: KState, pid: nat)
    requires SparesForeign(k, k1, pid) && SparesForeign(k1, k2, pid)
    ensures SparesForeign(k, k2, pid)
  {
    hide SameRun;
    forall o | o in k.held && !(o.pid == pid && (o.role.PageTable? || o.role.Allocation?))
      ensures SameRun(k.m, k2.m, k.held[o])
    {
      SameTwice(k.m, k1.m, k2.m, k.held[o]);
    }
  }

  lemma UndoneForeign(k: KState, k': KState, pid: nat)
    requires Undone(k, k')
    ensures SparesForeign(k, k', pid)
  {
    hide SameRun;
  }

  lemma GrantedForeign(k: KState, k': KState, pid: nat, o: Owner, r: Run)
    requires SparesHeld(k, k'.m, pid) && o !in k.held && k'.held == k.held[o := r]
    ensures SparesForeign(k, k', pid)
  {
    hide SameRun;
  }

  /** A granted request: a new run of its own, and no other allocation touched. */
  lemma GrantedRun(k: KState, pid: nat, size: uint32)
    requires Inv(k) && Live(k, pid)
    requires Fits(Table(k.m), BlocksFor(size)) && SlotOf(k.procs[pid].value.slots, 0) < MAX_ALLOCATIONS
    ensures CanCall(k, pid)
    ensures var o := Owner(pid, Allocation(SlotOf(k.procs[pid].value.slots, 0)));
      var ptr := MallocPtr(k, pid, size); var k' := MallocStep(k, pid, size);
      && ptr != 0 && o !in k.held && k'.held == k.held[o := Run(ptr, BlocksFor(size))]
      && Live(k', pid) && Inv(k') && SparesHeld(k, k'.m, pid)
  {
    MallocGranted(k, pid, size);
    MallocGrantedKeepsInv(k, pid, size);
    hide Load32, Held, LowGuard, Fits, OwnersLive, IsRun, SpaceOk, Mapped, CanCall, PartsOk, SlotsOk, PagesOk,
      HoldsSpace, BlocksFor, RunsGrew, AgreeOn, KernelRunsSame, Inv, OnlyTables, ProcessMalloc, SameRun,
      KernelHeap.Kzalloc;
    var p := k.procs[pid].value;
    var o := Owner(pid, Allocation(SlotOf(p.slots, 0)));
    var k' := MallocStep(k, pid, size);
    GrantedPtr(k, pid, size);
    var m1 := Kzalloc(k.m, size).0;
    var held1 := k'.held;
    GrantedSpares(k, pid, m1, k'.m, held1);
    forall q | q in k.held && !(q.pid == pid && q.role.PageTable?)
      ensures SameRun(k.m, k'.m, k.held[q])
    {
      assert q in held1 && held1[q] == k.held[q];
      SameTwice(k.m, m1, k'.m, k.held[q]);
    }
  }

  lemma GrantedPtr(k: KState, pid: nat, size: uint32)
    requires CanCall(k, pid) && Fits(Table(k.m), BlocksFor(size)) && Kzalloc(k.m, size).1 != 0
    requires SlotOf(k.procs[pid].value.slots, 0) < |k.procs[pid].value.slots|
    ensures MallocPtr(k, pid, size) == Kzalloc(k.m, size).1
  {
    hide Load32, Fits, SpaceOk, LiveSpace, ProcessMalloc, KernelHeap.Kzalloc, BlocksFor, Mapped, OnlyTables, EndsBelow;
    var p := k.procs[pid].value;
    FitsEndsBelow(k.m, size);
    var _, ptr, _ := ProcessMallocMaps(k.m, p.chunk, p.slots, size);
  }

  lemma GrantedSpares(k: KState, pid: nat, m1: Mem, m2: Mem, held1: map<Owner, Run>)
    requires Inv(k) && Live(k, pid) && Held(m1, held1) && Extends(k.held, held1)
    requires forall o :: o in k.held ==> SameRun(k.m, m1, k.held[o])
    requires var c := k.procs[pid].value.chunk; SpaceOk(m1, c) && OnlyTables(m1, m2, c)
    ensures forall o :: o in held1 && !(o.pid == pid && o.role.PageTable?) ==> SameRun(m1, m2, held1[o])
  {
    AllUntouched(k, m1);
    hide Load32, Held, ProcOk, SpaceOk, OnlyTables, HoldsSpace, SameRun, LowGuard, OwnersLive;
    var p := k.procs[pid].value;
    OwnSpace(m1, k.held, held1, pid, p);
    OnlyTablesSpares(m1, m2, held1, pid, p.chunk);
  }

  // ---- Stores into a process's own allocations ----

  ghost predicate OnlyInside(m: Mem, m': Mem, r: Run) {
    forall j :: 0 <= j < RAM_SIZE && !(r.ptr <= j < r.End()) ==> m'[j] == m[j]
  }

  lemma OwnWriteSpares(k: KState, m': Mem, o: Owner)
    requires Held(k.m, k.held) && o in k.held && OnlyInside(k.m, m', k.held[o])
    ensures forall q :: q in k.held && q != o ==> SameRun(k.m, m', k.held[q])
  {
    hide Held;
    forall q | q in k.held && q != o ensures SameRun(k.m, m', k.held[q]) {
      HeldApart(k.m, k.held, o, q);
      HeldBounds(k.m, k.held, q);
    }
  }

  lemma OwnWriteKeepsInv(k: KState, m': Mem, o: Owner)
    requires Inv(k) && o in k.held && o.role.Allocation? && OnlyInside(k.m, m', k.held[o])
    ensures Inv(k.(m := m'))
  {
    hide Inv, Held, SameRun, KernelRunsSame, Table, LowGuard;
    InvProcs(k);
    OwnWriteSpares(k, m', o);
    HeldBounds(k.m, k.held, o);
    BelowHeapSame(k.m, m');
    HeldByTable(k.m, m', k.held);
    forall q: nat ensures KernelRunsSame(k.m, m', k.held, q) {
      OtherRunsSame(k.m, m', k.held, o, q);
    }
    FrameKeepsInv(k, m');
  }

  lemma OtherRunsSame(m: Mem, m': Mem, held: map<Owner, Run>, o: Owner, pid: nat)
    requires o.role.Allocation? && forall q :: q in held && q != o ==> SameRun(m, m', held[q])
    ensures KernelRunsSame(m, m', held, pid)
  {
  }

  // ---- process_inject_arguments ----

  /** Slot `v` of the process holds an array of at least `n` pointers. */
  ghost predicate ArrayIn(k: KState, pid: nat, v: nat, n: nat) {
    && Owner(pid, Allocation(v)) in k.held
    && POINTER_SIZE * n <= PAGE_SIZE * k.held[Owner(pid, Allocation(v))].blocks
  }

  ghost predicate SameArray(k: KState, k': KState, pid: nat, v: nat) {
    var o := Owner(pid, Allocation(v));
    o in k.held && o in k'.held && k'.held[o] == k.held[o]
  }

  ghost function ArrayOf(k: KState, pid: nat, v: nat): nat
    requires Owner(pid, Allocation(v)) in k.held
  {
    k.held[Owner(pid, Allocation(v))].ptr
  }

  lemma ArrayBounds(k: KState, pid: nat, v: nat, n: nat, i: nat)
    requires Inv(k) && ArrayIn(k, pid, v, n) && i < n
    ensures ArrayOf(k, pid, v) <= ArrayOf(k, pid, v) + POINTER_SIZE * i
    ensures ArrayOf(k, pid, v) + POINTER_SIZE * i + 4 <= k.held[Owner(pid, Allocation(v))].End() <= HEAP_END
  {
    HeldBounds(k.m, k.held, Owner(pid, Allocation(v)));
  }

  /** The string of one argument, in the 512 bytes just allocated for it. */
  function StringStored(m: Mem, ptr: nat, arg: seq<byte>): Mem
    requires ptr + CL.ARGUMENT_SIZE <= RAM_SIZE
  {
    Splice(m, ptr, Cut(arg, CL.ARGUMENT_SIZE - 1) + [0])
  }

  /** The result of a step, for a result of 0 the slot of the string. */
  datatype Placing = Placing(k: KState, res: int)

  /** One turn of the loop: memory for the string, the string, and its pointer in
      entry `i` of the array in slot `v`. */
  ghost function PlaceOne(k: KState, pid: nat, v: nat, i: nat, arg: seq<byte>): (r: Placing)
    requires Inv(k) && Live(k, pid) && ArrayIn(k, pid, v, i + 1)
  {
    LiveCanCall(k, pid);
    ArrayBounds(k, pid, v, i + 1, i);
    OneBlock(CL.ARGUMENT_SIZE);
    var ptr := MallocPtr(k, pid, CL.ARGUMENT_SIZE);
    var k1 := MallocStep(k, pid, CL.ARGUMENT_SIZE);
    if ptr == 0 then Placing(k1, -ENOMEM)
    else Placing(k1.(m := Store32(StringStored(k1.m, ptr, arg), ArrayOf(k, pid, v) + POINTER_SIZE * i, ptr)), 0)
  }

  /** Entry `i` of the array in slot `v` points at slot `j`, which holds `arg` cut to 511 characters. */
  ghost predicate EntryPlaced(k: KState, pid: nat, v: nat, i: nat, j: nat, arg: seq<byte>) {
    && j != v && ArrayIn(k, pid, v, i + 1) && Owner(pid, Allocation(j)) in k.held
    && ArrayOf(k, pid, v) + POINTER_SIZE * i + 4 <= RAM_SIZE
    && Load32(k.m, ArrayOf(k, pid, v) + POINTER_SIZE * i) == ArrayOf(k, pid, j)
    && CL.ARGUMENT_SIZE <= PAGE_SIZE * k.held[Owner(pid, Allocation(j))].blocks
    && CStringAt(k.m, ArrayOf(k, pid, j), Cut(arg, CL.ARGUMENT_SIZE - 1))
  }

  /** A turn for entry `i` leaves the earlier entries and every string alone. */
  ghost predicate TurnSpares(k: KState, k': KState, pid: nat, v: nat, i: nat)
    requires Owner(pid, Allocation(v)) in k.held
  {
    && Extends(k.held, k'.held)
    && (forall j :: Owner(pid, Allocation(j)) in k.held && j != v ==>
          SameRun(k.m, k'.m, k.held[Owner(pid, Allocation(j))]))
    && (forall a :: ArrayOf(k, pid, v) <= a < ArrayOf(k, pid, v) + POINTER_SIZE * i && a < RAM_SIZE ==>
          k'.m[a] == k.m[a])
  }

  lemma StringInside(m: Mem, r: Run, arg: seq<byte>)
    requires r.blocks >= 1 && r.End() <= HEAP_END && 0 !in arg
    ensures var m' := StringStored(m, r.ptr, arg);
      OnlyInside(m, m', r) && CStringAt(m', r.ptr, Cut(arg, CL.ARGUMENT_SIZE - 1))
  {
    SplicedString(m, r.ptr, Cut(arg, CL.ARGUMENT_SIZE - 1));
  }

  lemma WordInside(m: Mem, r: Run, a: nat, v: uint32)
    requires r.ptr <= a && a + 4 <= r.End() <= HEAP_END
    ensures OnlyInside(m, Store32(m, a, v), r) && Load32(Store32(m, a, v), a) == v
    ensures forall j :: 0 <= j < a ==> Store32(m, a, v)[j] == m[j]
  {
    LoadStored(m, a, v);
  }

  lemma {:induction false} TurnPlaces(k: KState, pid: nat, v: nat, i: nat, arg: seq<byte>)
    requires Inv(k) && Live(k, pid) && ArrayIn(k, pid, v, i + 1) && 0 !in arg
    ensures var r := PlaceOne(k, pid, v, i, arg);
      && Inv(r.k) && Live(r.k, pid) && (r.res == 0 || r.res == -ENOMEM)
      && SameArray(k, r.k, pid, v) && SparesForeign(k, r.k, pid)
      && (r.res == 0 ==>
            && Owner(pid, Allocation(SlotOf(k.procs[pid].value.slots, 0))) !in k.held
            && EntryPlaced(r.k, pid, v, i, SlotOf(k.procs[pid].value.slots, 0), arg)
            && TurnSpares(k, r.k, pid, v, i))
  {
    hide Inv, Fits, BlocksFor, SlotOf, MallocStep, MallocPtr, CanCall, EntryPlaced, TurnSpares, SparesHeld, Load32,
      Store32, StringStored, Table, MallocSound, WellFormed;
    var size := CL.ARGUMENT_SIZE;
    OneBlock(size);
    PageSound(k, pid, size);
    SlotCount(k, pid);
    if Fits(Table(k.m), BlocksFor(size)) && SlotOf(k.procs[pid].value.slots, 0) < MAX_ALLOCATIONS {
      GrantedRun(k, pid, size);
      PlacedBoth(k, MallocStep(k, pid, size), pid, v, i, SlotOf(k.procs[pid].value.slots, 0),
                 MallocPtr(k, pid, size), arg);
    } else {
      NotGranted(k, pid, size);
      UndoneForeign(k, MallocStep(k, pid, size), pid);
    }
  }

  /** The two stores after a granted request. */
  lemma PlacedBoth(k: KState, k1: KState, pid: nat, v: nat, i: nat, j: nat, ptr: nat, arg: seq<byte>)
    requires Inv(k) && Inv(k1) && Live(k1, pid) && ArrayIn(k, pid, v, i + 1) && 0 !in arg
    requires Owner(pid, Allocation(j)) !in k.held
    requires k1.held == k.held[Owner(pid, Allocation(j)) := Run(ptr, 1)]
    requires SparesHeld(k, k1.m, pid)
    ensures ptr + CL.ARGUMENT_SIZE <= RAM_SIZE && ArrayOf(k, pid, v) + POINTER_SIZE * i + 4 <= RAM_SIZE
    ensures ptr < RAM_SIZE
    ensures var k' := k1.(m := Store32(StringStored(k1.m, ptr, arg), ArrayOf(k, pid, v) + POINTER_SIZE * i, ptr));
      && Inv(k') && Live(k', pid) && SameArray(k, k', pid, v) && SparesForeign(k, k', pid)
      && EntryPlaced(k', pid, v, i, j, arg) && TurnSpares(k, k', pid, v, i)
  {
    hide Inv, Held, Load32, Store32, StringStored, CStringAt, Cut, OnlyInside, SparesHeld, SameRun;
    var o, w := Owner(pid, Allocation(j)), Owner(pid, Allocation(v));
    InvHolds(k1);
    HeldBounds(k1.m, k1.held, o);
    HeldBounds(k1.m, k1.held, w);
    ArrayBounds(k1, pid, v, i + 1, i);
    StringInside(k1.m, k1.held[o], arg);
    var m2 := StringStored(k1.m, ptr, arg);
    OwnWriteKeepsInv(k1, m2, o);
    OwnWriteSpares(k1, m2, o);
    var k2 := k1.(m := m2);
    InvHolds(k2);
    var a := ArrayOf(k, pid, v) + POINTER_SIZE * i;
    WordInside(m2, k1.held[w], a, ptr);
    var m3 := Store32(m2, a, ptr);
    OwnWriteKeepsInv(k2, m3, w);
    OwnWriteSpares(k2, m3, w);
    PlacedEntry(k1, m2, m3, pid, v, i, j, ptr, arg);
    GrantedForeign(k, k1, pid, o, Run(ptr, 1));
    WritesForeign(k1, m2, m3, pid, o, w);
    ForeignTwice(k, k1, k1.(m := m3), pid);
    BothSpare(k, k1, m2, m3, pid, v, i, j);
  }

  lemma WritesForeign(k1: KState, m2: Mem, m3: Mem, pid: nat, o: Owner, w: Owner)
    requires o.pid == pid && w.pid == pid && o.role.Allocation? && w.role.Allocation?
    requires forall q :: q in k1.held && q != o ==> SameRun(k1.m, m2, k1.held[q])
    requires forall q :: q in k1.held && q != w ==> SameRun(m2, m3, k1.held[q])
    ensures SparesForeign(k1, k1.(m := m3), pid)
  {
    hide SameRun;
    forall q | q in k1.held && !(q.pid == pid && (q.role.PageTable? || q.role.Allocation?))
      ensures SameRun(k1.m, m3, k1.held[q])
    {
      SameTwice(k1.m, m2, m3, k1.held[q]);
    }
  }

  lemma InvHolds(k: KState)
    requires Inv(k)
    ensures Held(k.m, k.held)
  {
  }

  lemma PlacedEntry(k1: KState, m2: Mem, m3: Mem, pid: nat, v: nat, i: nat, j: nat, ptr: uint32, arg: seq<byte>)
    requires j != v && ArrayIn(k1, pid, v, i + 1) && Owner(pid, Allocation(j)) in k1.held
    requires k1.held[Owner(pid, Allocation(j))] == Run(ptr, 1)
    requires ArrayOf(k1, pid, v) + POINTER_SIZE * i + 4 <= RAM_SIZE
    requires Load32(m3, ArrayOf(k1, pid, v) + POINTER_SIZE * i) == ptr
    requires CStringAt(m2, ptr, Cut(arg, CL.ARGUMENT_SIZE - 1)) && SameRun(m2, m3, Run(ptr, 1))
    ensures EntryPlaced(k1.(m := m3), pid, v, i, j, arg)
  {
    CStringSame(m2, m3, ptr, Cut(arg, CL.ARGUMENT_SIZE - 1));
  }

  lemma BothSpare(k: KState, k1: KState, m2: Mem, m3: Mem, pid: nat, v: nat, i: nat, j: nat)
    requires Owner(pid, Allocation(v)) in k.held && Owner(pid, Allocation(j)) !in k.held
    requires Extends(k.held, k1.held) && SparesHeld(k, k1.m, pid)
    requires forall q :: q in k1.held && q != Owner(pid, Allocation(j)) ==> SameRun(k1.m, m2, k1.held[q])
    requires forall q :: q in k1.held && q != Owner(pid, Allocation(v)) ==> SameRun(m2, m3, k1.held[q])
    requires ArrayIn(k, pid, v, i + 1) && k.held[Owner(pid, Allocation(v))].End() <= RAM_SIZE
    requires forall b :: 0 <= b < ArrayOf(k, pid, v) + POINTER_SIZE * i && b < RAM_SIZE ==> m3[b] == m2[b]
    ensures TurnSpares(k, k1.(m := m3), pid, v, i)
  {
    var w := Owner(pid, Allocation(v));
    assert SameRun(k.m, k1.m, k.held[w]) && SameRun(k1.m, m2, k1.held[w]);
    forall q | Owner(pid, Allocation(q)) in k.held && q != v
      ensures SameRun(k.m, m3, k.held[Owner(pid, Allocation(q))])
    {
      var o := Owner(pid, Allocation(q));
      assert SameRun(k.m, k1.m, k.held[o]) && SameRun(k1.m, m2, k1.held[o]) && SameRun(m2, m3, k1.held[o]);
    }
  }

  ghost predicate Strings(args: seq<seq<byte>>) {
    forall i :: 0 <= i < |args| ==> 0 !in args[i]
  }

  /** The loop of process_inject_arguments from entry `i` on. */
  ghost function PlaceFrom(k: KState, pid: nat, v: nat, args: seq<seq<byte>>, i: nat): Placing
    requires Inv(k) && Live(k, pid) && ArrayIn(k, pid, v, |args|) && i <= |args| && Strings(args)
    decreases |args| - i
  {
    if i == |args| then Placing(k, 0)
    else
      TurnPlaces(k, pid, v, i, args[i]);
      var r := PlaceOne(k, pid, v, i, args[i]);
      if r.res < 0 then r else PlaceFrom(r.k, pid, v, args, i + 1)
  }

  /** The first entries of the array point at the first arguments, each in a slot of its own. */
  ghost predicate ArgsPlaced(k: KState, pid: nat, v: nat, args: seq<seq<byte>>, slots: seq<nat>) {
    && |slots| <= |args|
    && (forall i :: 0 <= i < |slots| ==> EntryPlaced(k, pid, v, i, slots[i], args[i]))
    && (forall i, j :: 0 <= i < j < |slots| ==> slots[i] != slots[j])
  }

  lemma EntryStays(k: KState, k': KState, pid: nat, v: nat, n: nat, i: nat, j: nat, arg: seq<byte>)
    requires EntryPlaced(k, pid, v, i, j, arg) && i < n
    requires SameArray(k, k', pid, v) && TurnSpares(k, k', pid, v, n)
    ensures EntryPlaced(k', pid, v, i, j, arg)
  {
    hide Load32, Cut;
    var o := Owner(pid, Allocation(j));
    assert SameRun(k.m, k'.m, k.held[o]);
    CStringSame(k.m, k'.m, ArrayOf(k, pid, j), Cut(arg, CL.ARGUMENT_SIZE - 1));
    LoadSame(k.m, k'.m, ArrayOf(k, pid, v) + POINTER_SIZE * i);
  }

  lemma OneMorePlaced(k: KState, k': KState, pid: nat, v: nat, args: seq<seq<byte>>, slots: seq<nat>, j: nat)
    requires ArgsPlaced(k, pid, v, args, slots) && |slots| < |args|
    requires SameArray(k, k', pid, v) && TurnSpares(k, k', pid, v, |slots|)
    requires Owner(pid, Allocation(j)) !in k.held && EntryPlaced(k', pid, v, |slots|, j, args[|slots|])
    ensures ArgsPlaced(k', pid, v, args, slots + [j])
  {
    hide EntryPlaced, SameArray, TurnSpares;
    var slots' := slots + [j];
    forall i | 0 <= i < |slots|
      ensures EntryPlaced(k', pid, v, i, slots[i], args[i]) && slots[i] != j
    {
      assert EntryPlaced(k, pid, v, i, slots[i], args[i]);
      EntryStays(k, k', pid, v, |slots|, i, slots[i], args[i]);
      EntryHeld(k, pid, v, i, slots[i], args[i]);
    }
  }

  lemma EntryHeld(k: KState, pid: nat, v: nat, i: nat, j: nat, arg: seq<byte>)
    requires EntryPlaced(k, pid, v, i, j, arg)
    ensures Owner(pid, Allocation(j)) in k.held
  {
    hide Load32, Cut, CStringAt;
  }

  lemma {:induction false} PlaceFromPlaces(k: KState, pid: nat, v: nat, args: seq<seq<byte>>, slots: seq<nat>)
    returns (slots': seq<nat>)
    requires Inv(k) && Live(k, pid) && ArrayIn(k, pid, v, |args|) && Strings(args)
    requires ArgsPlaced(k, pid, v, args, slots)
    ensures var r := PlaceFrom(k, pid, v, args, |slots|);
      && Inv(r.k) && Live(r.k, pid) && SameArray(k, r.k, pid, v) && (r.res == 0 || r.res == -ENOMEM)
      && SparesForeign(k, r.k, pid)
      && (r.res == 0 ==> |slots'| == |args| && ArgsPlaced(r.k, pid, v, args, slots'))
    decreases |args| - |slots|
  {
    hide Inv, EntryPlaced, TurnSpares, ArgsPlaced, PlaceOne, SparesForeign;
    ForeignSelf(k, pid);
    PlacedLength(k, pid, v, args, slots);
    slots' := slots;
    if |slots| < |args| {
      var i := |slots|;
      TurnPlaces(k, pid, v, i, args[i]);
      var r := PlaceOne(k, pid, v, i, args[i]);
      if r.res == 0 {
        var j := SlotOf(k.procs[pid].value.slots, 0);
        OneMorePlaced(k, r.k, pid, v, args, slots, j);
        slots' := PlaceFromPlaces(r.k, pid, v, args, slots + [j]);
        ForeignTwice(k, r.k, PlaceFrom(r.k, pid, v, args, i + 1).k, pid);
      }
    }
  }

  lemma PlacedLength(k: KState, pid: nat, v: nat, args: seq<seq<byte>>, slots: seq<nat>)
    requires ArgsPlaced(k, pid, v, args, slots)
    ensures |slots| <= |args|
  {
  }

  /** The size of an array of `n` pointers is a 32-bit number. */
  predicate ArrayOk(n: nat) {
    POINTER_SIZE * n < RAM_SIZE
  }

  function ArraySize(n: nat): uint32
    requires POINTER_SIZE * n < RAM_SIZE
  {
    POINTER_SIZE * n
  }

  /** A live process of a sound kernel, and an array request that process_malloc
      answers truthfully or refuses. */
  ghost predicate CanInject(k: KState, pid: nat, args: seq<seq<byte>>) {
    Inv(k) && Live(k, pid) && Strings(args) && ArrayOk(|args|) && MallocSound(k, pid, ArraySize(|args|))
  }

  /** process_inject_arguments. */
  ghost function Inject(k: KState, pid: nat, args: seq<seq<byte>>): Placing
    requires CanInject(k, pid, args)
  {
    LiveCanCall(k, pid);
    hide Inv, CanCall, MallocSound, MallocStep, MallocPtr, Live, SlotOf;
    var size := ArraySize(|args|);
    if args == [] then Placing(k, -EIO)
    else if MallocPtr(k, pid, size) == 0 then Placing(MallocStep(k, pid, size), -ENOMEM)
    else
      ArrayGranted(k, pid, |args|);
      PlaceFrom(MallocStep(k, pid, size), pid, SlotOf(k.procs[pid].value.slots, 0), args, 0)
  }

  lemma ArrayGranted(k: KState, pid: nat, n: nat)
    requires Inv(k) && Live(k, pid) && ArrayOk(n) && MallocSound(k, pid, ArraySize(n))
    requires CanCall(k, pid) && MallocPtr(k, pid, ArraySize(n)) != 0
    ensures var k1 := MallocStep(k, pid, ArraySize(n)); var v := SlotOf(k.procs[pid].value.slots, 0);
      && Inv(k1) && Live(k1, pid) && ArrayIn(k1, pid, v, n) && SparesForeign(k, k1, pid)
      && ArrayOf(k1, pid, v) == MallocPtr(k, pid, ArraySize(n))
  {
    hide Inv, Fits, BlocksFor, SlotOf, MallocStep, MallocPtr, CanCall, MallocSound, SparesHeld, Table;
    var size := ArraySize(n);
    KernelHeap.BlocksCover(size);
    if Fits(Table(k.m), BlocksFor(size)) && SlotOf(k.procs[pid].value.slots, 0) < MAX_ALLOCATIONS {
      FitsSmall(Table(k.m), size);
      GrantedRun(k, pid, size);
      GrantedForeign(k, MallocStep(k, pid, size), pid,
                     Owner(pid, Allocation(SlotOf(k.procs[pid].value.slots, 0))),
                     Run(MallocPtr(k, pid, size), BlocksFor(size)));
    } else {
      NotGranted(k, pid, size);
    }
  }

  /** Whatever process_inject_arguments answers, the kernel stays sound. On success
      the process owns an array whose entries point, in order, at strings of its
      own that are the arguments cut to 511 characters. */
  lemma InjectDelivers(k: KState, pid: nat, args: seq<seq<byte>>) returns (v: nat, slots: seq<nat>)
    requires CanInject(k, pid, args)
    ensures var r := Inject(k, pid, args);
      && Inv(r.k) && Live(r.k, pid) && SparesForeign(k, r.k, pid)
      && (r.res == 0 || r.res == -EIO || r.res == -ENOMEM) && (r.res == -EIO <==> args == [])
      && (r.res == 0 ==>
            && v == SlotOf(k.procs[pid].value.slots, 0)
            && |slots| == |args| && ArgsPlaced(r.k, pid, v, args, slots))
  {
    var size := ArraySize(|args|);
    LiveCanCall(k, pid);
    hide Inv, Fits, MallocStep, MallocPtr, CanCall, MallocSound, ArgsPlaced, PlaceFrom, SparesForeign;
    ForeignSelf(k, pid);
    v, slots := SlotOf(k.procs[pid].value.slots, 0), [];
    if args != [] {
      if MallocPtr(k, pid, size) == 0 {
        RefusedKeeps(k, pid, size);
      } else {
        ArrayGranted(k, pid, |args|);
        NonePlaced(MallocStep(k, pid, size), pid, v, args);
        slots := PlaceFromPlaces(MallocStep(k, pid, size), pid, v, args, []);
        ForeignTwice(k, MallocStep(k, pid, size), PlaceFrom(MallocStep(k, pid, size), pid, v, args, 0).k, pid);
      }
    }
  }

  lemma NonePlaced(k: KState, pid: nat, v: nat, args: seq<seq<byte>>)
    ensures ArgsPlaced(k, pid, v, args, [])
  {
  }

  lemma RefusedKeeps(k: KState, pid: nat, size: uint32)
    requires Inv(k) && Live(k, pid) && MallocSound(k, pid, size)
    requires CanCall(k, pid) && MallocPtr(k, pid, size) == 0
    ensures Inv(MallocStep(k, pid, size)) && Live(MallocStep(k, pid, size), pid)
    ensures SparesForeign(k, MallocStep(k, pid, size), pid)
  {
    hide Inv, Fits, BlocksFor, SlotOf, MallocStep, MallocPtr, CanCall, SparesHeld, Table, TrailingStart, MallocSound,
      SparesForeign, Undone;
    SlotCount(k, pid);
    if Fits(Table(k.m), BlocksFor(size)) && SlotOf(k.procs[pid].value.slots, 0) < MAX_ALLOCATIONS {
      GrantedRun(k, pid, size);
    } else {
      NotGranted(k, pid, size);
      UndoneForeign(k, MallocStep(k, pid, size), pid);
      UndoneLive(k, MallocStep(k, pid, size), pid);
    }
  }

  lemma UndoneLive(k: KState, k': KState, pid: nat)
    requires Undone(k, k') && Live(k, pid)
    ensures Live(k', pid) && k'.held == k.held && k'.procs == k.procs
  {
  }

  /** Up to 1024 arguments, more than any command line has words, the array's
      request is always answered truthfully. */
  lemma ArrayAnswered(k: KState, pid: nat, n: nat)
    requires Live(k, pid) && 1 <= n <= 1024
    ensures ArrayOk(n) && MallocSound(k, pid, ArraySize(n))
  {
    OneBlock(ArraySize(n));
    PageSound(k, pid, ArraySize(n));
  }

  /** The process reaches every byte of its allocations, to write, at the byte's own
      address, so the pointers in argv mean to it what they mean to the kernel. */
  lemma OwnBytesVisible(k: KState, pid: nat, j: nat, a: uint32)
    requires Inv(k) && Live(k, pid) && Owner(pid, Allocation(j)) in k.held
    requires k.held[Owner(pid, Allocation(j))].ptr <= a < k.held[Owner(pid, Allocation(j))].End()
    ensures SpaceDefined(k, pid)
    ensures Translate(k.m, DirectoryOf(k.m, k.procs[pid].value.chunk), a) == a
    ensures OpenAt(k.m, DirectoryOf(k.m, k.procs[pid].value.chunk), a, true)
  {
    LiveSpaceDefined(k, pid);
    InvHolds(k);
    hide *;
    AllocationRun(k, Owner(pid, Allocation(j)));
    var v := PageNumber(a);
    OwnPage(k.m, k.held, pid, j, a);
    OwnPageEntry(k, pid, v);
    IdentityPage(k.m, DirectoryOf(k.m, k.procs[pid].value.chunk), a);
  }

  function PageNumber(a: uint32): (v: nat)
    ensures v < TOTAL_PAGES
  {
    a / PAGE_SIZE
  }

  lemma IdentityPage(m: Mem, dir: nat, a: uint32)
    requires dir + PAGE_SIZE <= RAM_SIZE
    requires PageEntry(m, dir, PageNumber(a)) == PageNumber(a) * PAGE_SIZE + USER_FLAGS
    ensures Translate(m, dir, a) == a && OpenAt(m, dir, a, true)
  {
    hide PageEntry, Translate, OpenAt;
    EntryShows(m, dir, a, PageNumber(a) * PAGE_SIZE, USER_FLAGS);
  }

  lemma AllocationRun(k: KState, o: Owner)
    requires Held(k.m, k.held) && o in k.held
    ensures RunAt(k.m, k.held[o])
  {
  }

  lemma OwnPage(m: Mem, held: map<Owner, Run>, pid: nat, j: nat, a: uint32)
    requires var o := Owner(pid, Allocation(j));
      o in held && RunAt(m, held[o]) && held[o].ptr <= a < held[o].End()
    ensures InAllocation(held, pid, PageNumber(a) * PAGE_SIZE)
  {
    RunBounds(m, held[Owner(pid, Allocation(j))]);
    PageInRun(held[Owner(pid, Allocation(j))], a);
  }

  lemma OwnPageEntry(k: KState, pid: nat, v: nat)
    requires Inv(k) && Live(k, pid) && v < TOTAL_PAGES && InAllocation(k.held, pid, v * PAGE_SIZE)
    ensures SpaceDefined(k, pid)
    ensures PageEntry(k.m, DirectoryOf(k.m, k.procs[pid].value.chunk), v) == v * PAGE_SIZE + USER_FLAGS
  {
    LiveSpaceDefined(k, pid);
    hide Load32, Held, PageEntry, PartsOk, SlotsOk, HoldsSpace, InAllocation;
    assert ProcOk(k.m, k.held, pid, k.procs[pid].value);
  }

  lemma PageInRun(r: Run, a: uint32)
    requires r.ptr % PAGE_SIZE == 0 && r.ptr <= a < r.End()
    ensures Inside(a / PAGE_SIZE * PAGE_SIZE, r)
  {
    assert r.ptr == PAGE_SIZE * (r.ptr / PAGE_SIZE);
  }
}
