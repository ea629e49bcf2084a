/** process_malloc for every size a process can ask for: when the kernel is as sound
    afterwards as before. */
module Requests {
  import opened Memory
  import opened HeapTable
  import opened Heap
  import opened KernelHeap
  import opened Owners
  import opened Paging
  import opened AddressSpace
  import opened Process
  import opened Tasks
  import opened Isolation
  import opened Steps

  // ---- The condition ----

  /** The block a request is answered with when nothing fits. */
  function TrailingBlock(m: Mem): nat {
    HEAP_ADDRESS + BLOCK_SIZE * TrailingStart(Table(m))
  }

  /** How many table entries kzalloc clears when it goes round to `end` - 4 GB. */
  function Reached(end: nat): (e: nat)
    ensures e <= TOTAL_BLOCKS
  {
    if end <= RAM_SIZE + TABLE_ADDRESS then 0
    else if end < RAM_SIZE + TABLE_ADDRESS + TOTAL_BLOCKS then end - RAM_SIZE - TABLE_ADDRESS
    else TOTAL_BLOCKS
  }

  /** Clearing the first e entries takes whole allocations, none of which anybody holds. */
  ghost predicate Expendable(t: seq<byte>, held: map<Owner, Run>, e: nat) {
    && (forall o :: o in held ==> e <= BlockOf(held[o].ptr))
    && (0 < e < |t| ==> t[e] !in {0x01, 0x81})
  }

  /** The blocks fit, or the heap's last block is taken; or a short answer finds no
      slot; or it ends past 4 GB, is given back, and clears expendable entries only. */
  ghost predicate MallocSound(k: KState, pid: nat, size: uint32)
    requires Live(k, pid)
  {
    var t := Table(k.m);
    var slots := k.procs[pid].value.slots;
    if Fits(t, BlocksFor(size)) || TrailingStart(t) == TOTAL_BLOCKS then true
    else if TrailingBlock(k.m) + size <= LAST_PAGE then SlotOf(slots, 0) == |slots|
    else Expendable(t, k.held, Reached(TrailingBlock(k.m) + size))
  }

  lemma ShortPointer(m: Mem, size: uint32)
    requires !Fits(Table(m), BlocksFor(size)) && TrailingStart(Table(m)) < TOTAL_BLOCKS
    ensures Kzalloc(m, size).1 == TrailingBlock(m)
    ensures HEAP_ADDRESS <= TrailingBlock(m) < HEAP_END && TrailingBlock(m) % BLOCK_SIZE == 0
  {
    hide Kzalloc, Fits, BlocksFor, TrailingStart, Table;
    ShortAnswer(m, size, TrailingStart(Table(m)));
  }

  // ---- Short answers that end below 4 GB ----

  /** A short answer recorded in a slot is not an allocation of the heap. */
  lemma MallocShort(k: KState, pid: nat, size: uint32)
    requires Inv(k) && Live(k, pid)
    requires SlotOf(k.procs[pid].value.slots, 0) < |k.procs[pid].value.slots|
    requires !Fits(Table(k.m), BlocksFor(size)) && TrailingStart(Table(k.m)) < TOTAL_BLOCKS
    requires TrailingBlock(k.m) + size <= LAST_PAGE
    ensures CanCall(k, pid) && !Inv(MallocStep(k, pid, size))
  {
    hide Load32, Inv, Held, ProcOk, LowGuard, Kzalloc, Fits, LiveSpace, Kfree, BlocksFor, WellFormed, TrailingStart,
      ProcessMalloc, SlotOf, Table, Mapped, OnlyTables, SpaceOk;
    LiveCanCall(k, pid);
    ShortPointer(k.m, size);
    var p := k.procs[pid].value;
    var m1, ptr, m2 := ProcessMallocMaps(k.m, p.chunk, p.slots, size);
    MappedTable(m1, m2, p.chunk);
    var o := Owner(pid, Allocation(SlotOf(p.slots, 0)));
    ShortIsNoRun(k.m, size, m1, ptr);
    var k' := MallocStep(k, pid, size);
    if Inv(k') {
      InvProcs(k');
      RunHeld(k'.m, k'.held, o);
    }
  }

  lemma RunHeld(m: Mem, held: map<Owner, Run>, o: Owner)
    requires Held(m, held) && o in held
    ensures RunAt(m, held[o])
  {
  }

  lemma ShortIsNoRun(m: Mem, size: uint32, m1: Mem, ptr: nat)
    requires !Fits(Table(m), BlocksFor(size)) && TrailingStart(Table(m)) < TOTAL_BLOCKS
    requires Kzalloc(m, size) == (m1, ptr)
    ensures forall m2: Mem :: !RunAt(m2, Run(ptr, BlocksFor(size)))
  {
    hide Kzalloc, Fits, BlocksFor, TrailingStart;
    ShortAnswer(m, size, TrailingStart(Table(m)));
    if BlocksFor(size) >= 1 { ShortIsShort(Table(m), BlocksFor(size)); }
  }

  // ---- Answers that end past 4 GB ----

  function ClearedFront(t: seq<byte>, e: nat): (r: seq<byte>)
    requires e <= |t|
    ensures |r| == |t| && forall j :: 0 <= j < |t| ==> r[j] == if j < e then ENTRY_FREE else t[j]
  {
    Splice(t, 0, Fill(e, ENTRY_FREE))
  }

  /** Such an answer is given back: its last page's end has gone round to an address
      before it, or, with nothing left of the heap, to itself. */
  lemma PastTopResult(m: Mem, chunk: nat, slots: seq<Slot>, size: uint32)
    requires WellFormed(Table(m)) && LiveSpace(m, chunk) && Kzalloc(m, size).1 != 0
    requires Kzalloc(m, size).1 + size > LAST_PAGE
    ensures var (m1, p) := Kzalloc(m, size); var r := ProcessMalloc(m, chunk, slots, size);
            && Freeable(p)
            && (r == (Kfree(m1, p), slots, 0)
                || (size > LAST_PAGE && SlotOf(slots, 0) < |slots|
                    && r == (m1, slots[SlotOf(slots, 0) := Slot(p, size)], p)))
  {
    hide Load32, Kzalloc, LiveSpace, Kfree, WellFormed, Table, SpaceOk, SlotOf, MapTo, AlignUp, MallocFrom;
    CanMallocFrom(m, chunk, size);
    var p := Kzalloc(m, size).1;
    RoundedPast(p, size);
    MallocNothingMapped(m, chunk, slots, size);
  }

  lemma MallocNothingMapped(m: Mem, chunk: nat, slots: seq<Slot>, size: uint32)
    requires var p := Kzalloc(m, size).1;
             && p != 0 && AlignUp((p + size) % RAM_SIZE) <= p
             && (AlignUp((p + size) % RAM_SIZE) == p ==> size > LAST_PAGE)
    ensures var (m1, p) := Kzalloc(m, size); var r := MallocFrom(m, chunk, slots, size);
            && Freeable(p)
            && (r == (Kfree(m1, p), slots, 0)
                || (size > LAST_PAGE && SlotOf(slots, 0) < |slots|
                    && r == (m1, slots[SlotOf(slots, 0) := Slot(p, size)], p)))
  {
    hide Load32, Kzalloc, Kfree, SpaceOk, SlotOf, AlignUp, MapTo;
    var (m1, p) := Kzalloc(m, size);
    MapsNothing(m1, chunk, p, AlignUp((p + size) % RAM_SIZE));
  }

  /** Mapping a page to an end that is not behind it changes nothing. */
  lemma MapsNothing(m: Mem, chunk: nat, p: uint32, end: uint32)
    requires p % PAGE_SIZE == 0 && end % PAGE_SIZE == 0 && end <= p
    ensures MapTo(m, chunk, p, p, end, USER_FLAGS) == (m, if end == p then 0 else -EINVARG)
  {
    hide SpaceOk;
  }

  lemma RoundedPast(p: uint32, size: uint32)
    requires p % PAGE_SIZE == 0 && p != 0 && p + size > LAST_PAGE
    ensures AlignUp((p + size) % RAM_SIZE) <= p
    ensures AlignUp((p + size) % RAM_SIZE) == p ==> size > LAST_PAGE
  {
    if p + size < RAM_SIZE {
      assert AlignUp(p + size) == 0;
    } else {
      assert (p + size) % RAM_SIZE == p + size - RAM_SIZE;
    }
  }

  /** The answer when it goes past the last page: marks from the trailing block on,
      and then everything from it upwards, and round, is cleared. */
  lemma PastTopIs(m: Mem, size: uint32)
    requires !Fits(Table(m), BlocksFor(size)) && TrailingStart(Table(m)) < TOTAL_BLOCKS
    ensures Kzalloc(m, size) == (Clear(Kmalloc(m, size).0, TrailingBlock(m), size), TrailingBlock(m))
  {
    ShortPointer(m, size);
    hide Fits, BlocksFor, TrailingStart, Table, Clear, Kmalloc;
  }

  lemma ShortMarked(m: Mem, size: uint32)
    requires !Fits(Table(m), BlocksFor(size)) && TrailingStart(Table(m)) < TOTAL_BLOCKS
    ensures var m0 := Kmalloc(m, size).0; var s := TrailingStart(Table(m)); var n := BlocksFor(size);
            && (forall a :: 0 <= a < TABLE_ADDRESS + s || TABLE_ADDRESS + s + n <= a < RAM_SIZE ==> m0[a] == m[a])
            && (forall a :: TABLE_ADDRESS + s <= a < TABLE_ADDRESS + s + n - 1 ==> HasNext(m0[a]))
  {
    var m0, s, n := Kmalloc(m, size).0, TrailingStart(Table(m)), BlocksFor(size);
    assert m0 == Splice(m, TABLE_ADDRESS + s, RunBytes(n));
    hide Kmalloc, Fits, TrailingStart, BlocksFor, Table;
    forall a | TABLE_ADDRESS + s <= a < TABLE_ADDRESS + s + n - 1 ensures HasNext(m0[a]) {
      assert m0[a] == RunEntry(0, n, a - (TABLE_ADDRESS + s));
    }
  }

  /** What clearing leaves, and what it does not. */
  lemma ClearsRound(m: Mem, p: uint32, size: uint32)
    ensures var m' := Clear(m, p, size); var round := p + size - RAM_SIZE;
            && (forall a :: 0 <= a < round ==> m'[a] == 0)
            && (forall a :: 0 <= a < p && round <= a ==> m'[a] == m[a])
  {
  }

  lemma ManyBlocks(p: nat, size: uint32)
    requires p < HEAP_END && LAST_PAGE < p + size
    ensures size <= LAST_PAGE ==> BlocksFor(size) > TOTAL_BLOCKS
  {
  }

  /** A cleared part that stops before the trailing blocks is all that changes in
      the table once the answer has been given back. */
  lemma PastTopFreed(m: Mem, size: uint32)
    requires WellFormed(Table(m))
    requires !Fits(Table(m), BlocksFor(size)) && TrailingStart(Table(m)) < TOTAL_BLOCKS
    requires LAST_PAGE < TrailingBlock(m) + size && Reached(TrailingBlock(m) + size) <= TrailingStart(Table(m))
    ensures var (m1, p) := Kzalloc(m, size); var e := Reached(TrailingBlock(m) + size);
            && p == TrailingBlock(m) && size <= LAST_PAGE
            && Table(Kfree(m1, p)) == ClearedFront(Table(m), e)
            && (LowGuard(m) ==> LowGuard(Kfree(m1, p)))
            && forall a :: HEAP_ADDRESS <= a < p ==> Kfree(m1, p)[a] == m[a]
  {
    hide *;
    PastTopIs(m, size);
    ShortPointer(m, size);
    PastTopSmall(m, size);
    PastTopMemory(m, size, Kzalloc(m, size).0);
    FreedFront(m, Kzalloc(m, size).0, TrailingStart(Table(m)), TrailingBlock(m), Reached(TrailingBlock(m) + size));
  }

  lemma PastTopSmall(m: Mem, size: uint32)
    requires TrailingStart(Table(m)) < TOTAL_BLOCKS && LAST_PAGE < TrailingBlock(m) + size
    requires Reached(TrailingBlock(m) + size) <= TrailingStart(Table(m))
    ensures TrailingBlock(m) == HEAP_ADDRESS + BLOCK_SIZE * TrailingStart(Table(m))
    ensures size <= LAST_PAGE && BlocksFor(size) > TOTAL_BLOCKS
  {
    hide TrailingStart, Table, BlocksFor;
    ManyBlocks(TrailingBlock(m), size);
  }

  lemma PastTopMemory(m: Mem, size: uint32, m1: Mem)
    requires WellFormed(Table(m)) && BlocksFor(size) > TOTAL_BLOCKS
    requires !Fits(Table(m), BlocksFor(size)) && TrailingStart(Table(m)) < TOTAL_BLOCKS
    requires Reached(TrailingBlock(m) + size) <= TrailingStart(Table(m))
    requires m1 == Clear(Kmalloc(m, size).0, TrailingBlock(m), size)
    ensures var s, p := TrailingStart(Table(m)), TrailingBlock(m); var e := Reached(p + size);
            && (forall a :: TABLE_ADDRESS + s <= a < TABLE_ADDRESS + TOTAL_BLOCKS ==>
                  m[a] == ENTRY_FREE && HasNext(m1[a]))
            && (forall a :: 0 <= a < TABLE_ADDRESS + e && m1[a] != 0 ==> m1[a] == m[a])
            && (forall a :: TABLE_ADDRESS <= a < TABLE_ADDRESS + e ==> m1[a] == 0)
            && (forall a :: TABLE_ADDRESS + e <= a < TABLE_ADDRESS + s || HEAP_ADDRESS <= a < p ==> m1[a] == m[a])
  {
    hide Kmalloc, Fits, BlocksFor, TrailingStart, Table, Clear, WellFormed, HasNext, TrailingBlock, Reached;
    var s, p := TrailingStart(Table(m)), TrailingBlock(m);
    TrailingIs(m);
    ShortMarked(m, size);
    ClearsRound(Kmalloc(m, size).0, p, size);
    TailFreed(m, s);
    BlocksBound(size);
    ReachedIs(p + size);
  }

  lemma ReachedIs(end: nat)
    ensures Reached(end) < TOTAL_BLOCKS ==> end <= RAM_SIZE + TABLE_ADDRESS + Reached(end)
    ensures Reached(end) > 0 ==> RAM_SIZE + TABLE_ADDRESS + Reached(end) <= end
  {
  }

  lemma BlocksBound(size: uint32)
    ensures TABLE_ADDRESS + TOTAL_BLOCKS + BlocksFor(size) <= HEAP_ADDRESS
  {
  }

  lemma FreedFront(m: Mem, m1: Mem, s: nat, p: nat, e: nat)
    requires e <= s < TOTAL_BLOCKS && p == HEAP_ADDRESS + BLOCK_SIZE * s
    requires forall a :: TABLE_ADDRESS + s <= a < TABLE_ADDRESS + TOTAL_BLOCKS ==> m[a] == ENTRY_FREE && HasNext(m1[a])
    requires forall a :: 0 <= a < TABLE_ADDRESS + e && m1[a] != 0 ==> m1[a] == m[a]
    requires forall a :: TABLE_ADDRESS <= a < TABLE_ADDRESS + e ==> m1[a] == 0
    requires forall a :: TABLE_ADDRESS + e <= a < TABLE_ADDRESS + s || HEAP_ADDRESS <= a < p ==> m1[a] == m[a]
    ensures Freeable(p)
    ensures Table(Kfree(m1, p)) == ClearedFront(Table(m), e)
    ensures LowGuard(m) ==> LowGuard(Kfree(m1, p))
    ensures forall a :: HEAP_ADDRESS <= a < p ==> Kfree(m1, p)[a] == m[a]
  {
    var base, end := TABLE_ADDRESS + s, TABLE_ADDRESS + TOTAL_BLOCKS;
    assert AddressToBlock(HEAP_ADDRESS, p) == s;
    var m2 := Kfree(m1, p);
    ClearedPart(m1, base, TOTAL_BLOCKS - s, end);
    assert m2 == Splice(m1, base, Fill(TOTAL_BLOCKS - s, ENTRY_FREE));
    hide Kfree;
    if LowGuard(m) {
      var j :| NULL_ENTRY <= j < TABLE_ADDRESS && !HasNext(m[j]);
      assert !HasNext(m2[j]);
    }
    hide HasNext, LowGuard;
    forall j | 0 <= j < TOTAL_BLOCKS ensures Table(m2)[j] == ClearedFront(Table(m), e)[j] {
      assert Table(m2)[j] == m2[TABLE_ADDRESS + j] && Table(m)[j] == m[TABLE_ADDRESS + j];
    }
  }

  /** A cleared part that reaches the trailing blocks has wiped every entry before them. */
  lemma PastTopWiped(m: Mem, size: uint32)
    requires !Fits(Table(m), BlocksFor(size)) && TrailingStart(Table(m)) < TOTAL_BLOCKS
    requires Reached(TrailingBlock(m) + size) > TrailingStart(Table(m))
    ensures var (m1, p) := Kzalloc(m, size);
            && Freeable(p)
            && forall a :: TABLE_ADDRESS <= a < TABLE_ADDRESS + TrailingStart(Table(m)) ==>
                 m1[a] == 0 && Kfree(m1, p)[a] == 0
  {
    hide Kzalloc, Kmalloc, Fits, BlocksFor, TrailingStart, Table, Clear, Kfree, Reached, TrailingBlock;
    PastTopIs(m, size);
    ShortPointer(m, size);
    ReachedIs(TrailingBlock(m) + size);
    ClearsRound(Kmalloc(m, size).0, TrailingBlock(m), size);
    TrailingIs(m);
    FreedAbove(Kzalloc(m, size).0, TrailingStart(Table(m)), TrailingBlock(m));
  }

  lemma TrailingIs(m: Mem)
    requires TrailingStart(Table(m)) < TOTAL_BLOCKS
    ensures TrailingBlock(m) == HEAP_ADDRESS + BLOCK_SIZE * TrailingStart(Table(m))
  {
  }

  lemma FreedAbove(m: Mem, s: nat, p: nat)
    requires s < TOTAL_BLOCKS && p == HEAP_ADDRESS + BLOCK_SIZE * s
    ensures Freeable(p)
    ensures forall a :: TABLE_ADDRESS <= a < TABLE_ADDRESS + s ==> Kfree(m, p)[a] == m[a]
  {
    assert AddressToBlock(HEAP_ADDRESS, p) == s;
    ChainKeepsBefore(m, TABLE_ADDRESS + s, TABLE_ADDRESS + TOTAL_BLOCKS);
  }

  // ---- When the cleared entries are expendable ----

  lemma FrontWellFormedIff(t: seq<byte>, e: nat)
    requires WellFormed(t) && e <= |t|
    ensures WellFormed(ClearedFront(t, e)) <==> (0 < e < |t| ==> t[e] !in {0x01, 0x81})
  {
    hide WellFormed, InRun;
    WellFormedIffEntriesOk(t);
    var t' := ClearedFront(t, e);
    WellFormedIffEntriesOk(t');
    if 0 < e < |t| && t[e] in {0x01, 0x81} {
      assert !EntryOk(t', e);
    } else {
      forall i | 0 <= i < |t| ensures EntryOk(t', i) {
        assert EntryOk(t, i);
      }
    }
  }

  lemma FrontRunIff(t: seq<byte>, e: nat, s: int, n: int)
    requires e <= |t| && IsRun(t, s, n)
    ensures IsRun(ClearedFront(t, e), s, n) <==> e <= s
  {
    if e > s { assert ClearedFront(t, e)[s] != RunEntry(s, n, s); }
  }

  /** What is held survives exactly when the cleared entries were expendable. */
  lemma FrontHeldIff(m: Mem, m': Mem, held: map<Owner, Run>, e: nat)
    requires Held(m, held) && e <= TOTAL_BLOCKS && Table(m') == ClearedFront(Table(m), e)
    ensures Held(m', held) <==> Expendable(Table(m), held, e)
  {
    hide WellFormed, IsRun, Table;
    FrontWellFormedIff(Table(m), e);
    forall o | o in held ensures RunAt(m', held[o]) <==> e <= BlockOf(held[o].ptr) {
      FrontRunIff(Table(m), e, BlockOf(held[o].ptr), held[o].blocks);
    }
  }

  // ---- The condition is exact ----

  lemma StepUndone(k: KState, pid: nat, size: uint32, m2: Mem)
    requires CanCall(k, pid)
    requires var p := k.procs[pid].value; ProcessMalloc(k.m, p.chunk, p.slots, size) == (m2, p.slots, 0)
    ensures MallocStep(k, pid, size) == k.(m := m2)
  {
    hide ProcessMalloc, WellFormed, Table, LiveSpace, SlotsFreeable, Load32, DirectoryOf, SlotOf, BlocksFor;
    var p := k.procs[pid].value;
    assert p.(slots := p.slots) == p;
    assert k.procs[pid := Some(p)] == k.procs;
  }

  lemma AllKernelRunsSame(k: KState, m2: Mem)
    requires forall o :: o in k.held ==> SameRun(k.m, m2, k.held[o])
    ensures forall q: nat :: KernelRunsSame(k.m, m2, k.held, q)
  {
    hide KernelRunsSame;
    forall q: nat ensures KernelRunsSame(k.m, m2, k.held, q) {
      AllRunsSame(k.m, m2, k.held, q);
    }
  }

  /** Nothing but memory has changed, and none of what is held. */
  ghost predicate Undone(k: KState, k': KState) {
    k' == k.(m := k'.m) && forall o :: o in k.held ==> SameRun(k.m, k'.m, k.held[o])
  }

  /** Without a free slot a granted answer, or a short one that ends below 4 GB, is undone. */
  lemma MallocWithoutSlot(k: KState, pid: nat, size: uint32)
    requires Inv(k) && Live(k, pid)
    requires SlotOf(k.procs[pid].value.slots, 0) == |k.procs[pid].value.slots|
    requires Fits(Table(k.m), BlocksFor(size))
          || (TrailingStart(Table(k.m)) < TOTAL_BLOCKS && TrailingBlock(k.m) + size <= LAST_PAGE)
    ensures CanCall(k, pid) && Inv(MallocStep(k, pid, size)) && Undone(k, MallocStep(k, pid, size))
  {
    hide Load32, ProcOk, Inv, Held, LowGuard, IsRun, SameRun, Kzalloc, Fits, TrailingStart, LiveSpace, Kfree, BlocksFor,
      WellFormed, Table, KernelRunsSame, SlotOf, ProcessMalloc, MallocStep, TrailingBlock;
    LiveCanCall(k, pid);
    InvProcs(k);
    NobodyPassing(k);
    SlotCount(k, pid);
    var p := k.procs[pid].value;
    AnsweredUndone(k, size);
    NoSlot(k.m, p.chunk, p.slots, size);
    var m2 := Kfree(Kzalloc(k.m, size).0, Kzalloc(k.m, size).1);
    StepUndone(k, pid, size, m2);
    AllKernelRunsSame(k, m2);
    FrameKeepsInv(k, m2);
  }

  lemma AnsweredUndone(k: KState, size: uint32)
    requires Held(k.m, k.held) && LowGuard(k.m) && PASSING !in k.held
    requires Fits(Table(k.m), BlocksFor(size))
          || (TrailingStart(Table(k.m)) < TOTAL_BLOCKS && TrailingBlock(k.m) + size <= LAST_PAGE)
    ensures var (m1, p) := Kzalloc(k.m, size);
            && p != 0 && Freeable(p) && Held(Kfree(m1, p), k.held) && LowGuard(Kfree(m1, p))
            && forall o :: o in k.held ==> SameRun(k.m, Kfree(m1, p), k.held[o])
  {
    hide Held, LowGuard, Fits, BlocksFor, TrailingStart, Kzalloc, Kfree, Table, TrailingBlock, SameRun;
    if Fits(Table(k.m), BlocksFor(size)) {
      GrantedThenFreed(k.m, k.held, size);
    } else {
      ShortPointer(k.m, size);
      ShortFreedSpares(k, size);
    }
  }

  lemma MallocPastTop(k: KState, pid: nat, size: uint32)
    requires Inv(k) && Live(k, pid)
    requires !Fits(Table(k.m), BlocksFor(size)) && TrailingStart(Table(k.m)) < TOTAL_BLOCKS
    requires LAST_PAGE < TrailingBlock(k.m) + size
    ensures CanCall(k, pid)
    ensures Inv(MallocStep(k, pid, size)) <==> Expendable(Table(k.m), k.held, Reached(TrailingBlock(k.m) + size))
  {
    hide *;
    LiveCanCall(k, pid);
    if Reached(TrailingBlock(k.m) + size) <= TrailingStart(Table(k.m)) {
      PastTopStops(k, pid, size);
    } else {
      PastTopDestroys(k, pid, size);
    }
  }

  lemma PastTopStops(k: KState, pid: nat, size: uint32)
    requires Inv(k) && Live(k, pid) && CanCall(k, pid)
    requires !Fits(Table(k.m), BlocksFor(size)) && TrailingStart(Table(k.m)) < TOTAL_BLOCKS
    requires LAST_PAGE < TrailingBlock(k.m) + size
    requires Reached(TrailingBlock(k.m) + size) <= TrailingStart(Table(k.m))
    ensures Inv(MallocStep(k, pid, size)) <==> Expendable(Table(k.m), k.held, Reached(TrailingBlock(k.m) + size))
    ensures Undone(k, MallocStep(k, pid, size))
  {
    hide Load32, ProcOk, Inv, Held, LowGuard, IsRun, Kzalloc, Fits, TrailingStart, LiveSpace, Kfree, BlocksFor,
      WellFormed, Table, KernelRunsSame, SlotOf, ProcessMalloc, MallocStep, TrailingBlock, Reached, Expendable,
      ClearedFront, SameRun;
    InvProcs(k);
    var p := k.procs[pid].value;
    ShortPointer(k.m, size);
    TrailingIs(k.m);
    PastTopFreed(k.m, size);
    PastTopResult(k.m, p.chunk, p.slots, size);
    var m2 := Kfree(Kzalloc(k.m, size).0, Kzalloc(k.m, size).1);
    StepUndone(k, pid, size, m2);
    FrontHeldIff(k.m, m2, k.held, Reached(TrailingBlock(k.m) + size));
    if Inv(k.(m := m2)) {
      InvProcs(k.(m := m2));
    }
    forall o | o in k.held ensures SameRun(k.m, m2, k.held[o]) {
      HeldBelowTrailing(k.m, k.held, o);
      RunBelowSame(k.m, m2, k.held[o], TrailingBlock(k.m));
    }
    if Held(m2, k.held) {
      AllKernelRunsSame(k, m2);
      FrameKeepsInv(k, m2);
    }
  }

  lemma RunBelowSame(m: Mem, m': Mem, r: Run, p: nat)
    requires HEAP_ADDRESS <= r.ptr && r.End() <= p <= RAM_SIZE
    requires forall a :: HEAP_ADDRESS <= a < p ==> m'[a] == m[a]
    ensures SameRun(m, m', r)
  {
  }

  lemma StackHeld(k: KState, pid: nat)
    requires Inv(k) && Live(k, pid)
    ensures Owner(pid, Stack) in k.held
  {
    hide Load32, Held, PagesOk, SlotsOk, HoldsSpace, LinkWords, BlocksFor;
    assert ProcOk(k.m, k.held, pid, k.procs[pid].value);
  }

  lemma FreedEntryNoRun(m: Mem, r: Run)
    requires 0 <= BlockOf(r.ptr) < TOTAL_BLOCKS && m[TABLE_ADDRESS + BlockOf(r.ptr)] == 0
    ensures !RunAt(m, r)
  {
    assert Table(m)[BlockOf(r.ptr)] == m[TABLE_ADDRESS + BlockOf(r.ptr)];
  }

  lemma PastTopDestroys(k: KState, pid: nat, size: uint32)
    requires Inv(k) && Live(k, pid) && CanCall(k, pid)
    requires !Fits(Table(k.m), BlocksFor(size)) && TrailingStart(Table(k.m)) < TOTAL_BLOCKS
    requires LAST_PAGE < TrailingBlock(k.m) + size
    requires Reached(TrailingBlock(k.m) + size) > TrailingStart(Table(k.m))
    ensures !Inv(MallocStep(k, pid, size))
    ensures !Expendable(Table(k.m), k.held, Reached(TrailingBlock(k.m) + size))
  {
    hide Load32, ProcOk, Inv, Held, LowGuard, IsRun, Kzalloc, Fits, TrailingStart, LiveSpace, Kfree, BlocksFor,
      WellFormed, Table, SlotOf, ProcessMalloc, TrailingBlock, Reached, RunAt;
    InvProcs(k);
    var p, o := k.procs[pid].value, Owner(pid, Stack);
    StackHeld(k, pid);
    HeldBelowTrailing(k.m, k.held, o);
    ShortPointer(k.m, size);
    PastTopResult(k.m, p.chunk, p.slots, size);
    PastTopWiped(k.m, size);
    var k' := MallocStep(k, pid, size);
    assert k'.held[o] == k.held[o];
    FreedEntryNoRun(k'.m, k.held[o]);
    if Inv(k') {
      InvProcs(k');
      RunHeld(k'.m, k'.held, o);
    }
  }

  /** A call of process_malloc with any size keeps the kernel sound exactly when
      enough consecutive blocks are free, or the heap's last block is taken; or when a
      short answer that ends below 4 GB finds no slot to stand in; or when clearing
      past 4 GB comes round over table entries nobody needs. */
  lemma MallocKeepsInvIff(k: KState, pid: nat, size: uint32)
    requires Inv(k) && Live(k, pid)
    ensures CanCall(k, pid)
    ensures Inv(MallocStep(k, pid, size)) <==> MallocSound(k, pid, size)
  {
    SlotCount(k, pid);
    hide *;
    MallocSoundIs(k, pid, size);
    var slots := k.procs[pid].value.slots;
    if Fits(Table(k.m), BlocksFor(size)) {
      if SlotOf(slots, 0) < |slots| {
        MallocGrantedKeepsInv(k, pid, size);
      } else {
        MallocWithoutSlot(k, pid, size);
      }
    } else if TrailingStart(Table(k.m)) == TOTAL_BLOCKS {
      MallocRefused(k, pid, size);
    } else if LAST_PAGE < TrailingBlock(k.m) + size {
      MallocPastTop(k, pid, size);
    } else if SlotOf(slots, 0) < |slots| {
      MallocShort(k, pid, size);
    } else {
      MallocWithoutSlot(k, pid, size);
    }
  }

  lemma MallocSoundIs(k: KState, pid: nat, size: uint32)
    requires Live(k, pid)
    ensures MallocSound(k, pid, size) <==>
            || Fits(Table(k.m), BlocksFor(size)) || TrailingStart(Table(k.m)) == TOTAL_BLOCKS
            || (TrailingBlock(k.m) + size <= LAST_PAGE
                && SlotOf(k.procs[pid].value.slots, 0) == |k.procs[pid].value.slots|)
            || (LAST_PAGE < TrailingBlock(k.m) + size
                && Expendable(Table(k.m), k.held, Reached(TrailingBlock(k.m) + size)))
  {
    hide Fits, BlocksFor, TrailingStart, Expendable, Reached, SlotOf, TrailingBlock, Table;
  }

  /** malloc(-1) on a heap whose last block is free clears memory from that block to
      the top and from the bottom round to it, the heap table with it. */
  lemma MallocOfAllDestroys(k: KState, pid: nat, size: uint32)
    requires Inv(k) && Live(k, pid)
    requires size > LAST_PAGE && TrailingStart(Table(k.m)) < TOTAL_BLOCKS
    ensures CanCall(k, pid) && !Inv(MallocStep(k, pid, size))
  {
    hide Inv, Live, Table, MallocStep, CanCall, TrailingStart, Fits;
    NothingAsked(Table(k.m), size);
    LiveCanCall(k, pid);
    PastTopDestroys(k, pid, size);
  }

  lemma NothingAsked(t: seq<byte>, size: uint32)
    requires size > LAST_PAGE
    ensures BlocksFor(size) == 0 && !Fits(t, BlocksFor(size))
  {
    hide FirstFit;
  }

  // ---- What the caller sees ----

  function MallocPtr(k: KState, pid: nat, size: uint32): (ptr: nat)
    requires CanCall(k, pid)
    ensures ptr == 0 || HEAP_ADDRESS <= ptr < HEAP_END
  {
    var p := k.procs[pid].value;
    ProcessMalloc(k.m, p.chunk, p.slots, size).2
  }

  /** A sound request that is not granted leaves the process as it was. */
  lemma NotGranted(k: KState, pid: nat, size: uint32)
    requires Inv(k) && Live(k, pid) && MallocSound(k, pid, size)
    requires !(Fits(Table(k.m), BlocksFor(size)) && SlotOf(k.procs[pid].value.slots, 0) < MAX_ALLOCATIONS)
    ensures CanCall(k, pid) && MallocPtr(k, pid, size) == 0
    ensures Inv(MallocStep(k, pid, size)) && Undone(k, MallocStep(k, pid, size))
  {
    hide Inv, Fits, BlocksFor, SlotOf, TrailingStart, CanCall, ProcessMalloc, Table, MallocStep, MallocPtr, MallocSound,
      TrailingBlock, Expendable, Reached, Undone;
    SlotCount(k, pid);
    MallocKeepsInvIff(k, pid, size);
    MallocSoundIs(k, pid, size);
    if SlotOf(k.procs[pid].value.slots, 0) == |k.procs[pid].value.slots| {
      NoSlotPtr(k, pid, size);
    } else if TrailingStart(Table(k.m)) == TOTAL_BLOCKS {
      RefusedPtr(k, pid, size);
    } else {
      PastTopPtr(k, pid, size);
    }
    NotGrantedUndone(k, pid, size);
  }

  lemma NotGrantedUndone(k: KState, pid: nat, size: uint32)
    requires Inv(k) && Live(k, pid) && CanCall(k, pid) && MallocSound(k, pid, size)
    requires !Fits(Table(k.m), BlocksFor(size))
          || SlotOf(k.procs[pid].value.slots, 0) == |k.procs[pid].value.slots|
    ensures Undone(k, MallocStep(k, pid, size))
  {
    hide Inv, Fits, BlocksFor, SlotOf, TrailingStart, CanCall, Table, MallocStep, MallocSound, TrailingBlock,
      Expendable, Reached, Undone;
    MallocSoundIs(k, pid, size);
    if Fits(Table(k.m), BlocksFor(size)) {
      MallocWithoutSlot(k, pid, size);
    } else if TrailingStart(Table(k.m)) == TOTAL_BLOCKS {
      MallocRefused(k, pid, size);
      NothingUndone(k);
    } else if LAST_PAGE < TrailingBlock(k.m) + size {
      if Reached(TrailingBlock(k.m) + size) > TrailingStart(Table(k.m)) {
        PastTopDestroys(k, pid, size);
      } else {
        PastTopStops(k, pid, size);
      }
    } else {
      MallocWithoutSlot(k, pid, size);
    }
  }

  lemma NothingUndone(k: KState)
    requires Inv(k)
    ensures Undone(k, k)
  {
    hide Inv, Held, ProcOk, OwnersLive, LowGuard;
    InvProcs(k);
    forall o | o in k.held ensures SameRun(k.m, k.m, k.held[o]) {
      HeldBounds(k.m, k.held, o);
    }
  }

  lemma RefusedPtr(k: KState, pid: nat, size: uint32)
    requires CanCall(k, pid)
    requires !Fits(Table(k.m), BlocksFor(size)) && TrailingStart(Table(k.m)) == TOTAL_BLOCKS
    ensures MallocPtr(k, pid, size) == 0
  {
    NoAnswer(k.m, size);
    hide Load32, KernelHeap.Kzalloc, Fits, TrailingStart, LiveSpace, SpaceOk, WellFormed;
  }

  lemma NoSlotPtr(k: KState, pid: nat, size: uint32)
    requires CanCall(k, pid)
    requires SlotOf(k.procs[pid].value.slots, 0) == |k.procs[pid].value.slots|
    ensures MallocPtr(k, pid, size) == 0
  {
    hide Load32, KernelHeap.Kzalloc, KernelHeap.Kfree, LiveSpace, SpaceOk, WellFormed;
  }

  lemma PastTopPtr(k: KState, pid: nat, size: uint32)
    requires CanCall(k, pid) && Live(k, pid) && Inv(k)
    requires !Fits(Table(k.m), BlocksFor(size)) && TrailingStart(Table(k.m)) < TOTAL_BLOCKS
    requires LAST_PAGE < TrailingBlock(k.m) + size
    requires Expendable(Table(k.m), k.held, Reached(TrailingBlock(k.m) + size))
    ensures MallocPtr(k, pid, size) == 0
  {
    hide Load32, Inv, Kzalloc, Fits, TrailingStart, LiveSpace, Kfree, BlocksFor, WellFormed, Table, SlotOf,
      ProcessMalloc, TrailingBlock, Reached, Expendable, ClearedFront, MallocStep;
    if Reached(TrailingBlock(k.m) + size) > TrailingStart(Table(k.m)) {
      PastTopDestroys(k, pid, size);
    } else {
      var p := k.procs[pid].value;
      ShortPointer(k.m, size);
      PastTopFreed(k.m, size);
      PastTopResult(k.m, p.chunk, p.slots, size);
    }
  }

  /** Requests of one page are always answered truthfully. */
  lemma PageSound(k: KState, pid: nat, size: uint32)
    requires Live(k, pid) && 1 <= size <= PAGE_SIZE
    ensures MallocSound(k, pid, size)
  {
    OneBlock(size);
    hide BlocksFor, SlotOf, Expendable, Reached;
    if TrailingStart(Table(k.m)) < TOTAL_BLOCKS {
      TailFits(Table(k.m), 1);
    }
  }
}
