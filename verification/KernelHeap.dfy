/** The kernel's own heap (kheap.c): kmalloc, kzalloc and kfree over the table at
    0x7E00 and the 100 MB of blocks from 0x02000000, and who holds which blocks. */
module KernelHeap {
  import opened Memory
  import opened HeapTable
  import opened Heap

  const TABLE_ADDRESS := 0x7E00
  const TOTAL_BLOCKS := 25600
  const HEAP_ADDRESS := 0x0200_0000
  const HEAP_END := 0x0840_0000

  /** kfree(NULL) computes block index -8192, so it lands this far below the table. */
  const NULL_ENTRY := TABLE_ADDRESS - 8192

  function Table(m: Mem): (t: seq<byte>)
    ensures |t| == TOTAL_BLOCKS
  {
    TableAt(m, TABLE_ADDRESS, TOTAL_BLOCKS)
  }

  predicate OutsideTable(k: int) {
    k < TABLE_ADDRESS || TABLE_ADDRESS + TOTAL_BLOCKS <= k
  }

  function Kmalloc(m: Mem, size: uint32): (r: (Mem, nat))
    ensures r.1 == 0 || (HEAP_ADDRESS <= r.1 < HEAP_END && r.1 % BLOCK_SIZE == 0)
  {
    MallocIn(m, HEAP_ADDRESS, TABLE_ADDRESS, TOTAL_BLOCKS, size)
  }

  /** kzalloc. A size that goes past 4 GB clears memory from the bottom on. */
  function Kzalloc(m: Mem, size: uint32): (r: (Mem, nat))
    ensures r.1 == 0 || (HEAP_ADDRESS <= r.1 < HEAP_END && r.1 % BLOCK_SIZE == 0)
  {
    var (m1, p) := Kmalloc(m, size);
    if p == 0 then (m1, 0) else (Clear(m1, p, size), p)
  }

  predicate Freeable(ptr: uint32) { ptr < HEAP_END }

  function Kfree(m: Mem, ptr: uint32): (r: Mem)
    requires Freeable(ptr)
  {
    FreeIn(m, HEAP_ADDRESS, TABLE_ADDRESS, TOTAL_BLOCKS, ptr)
  }

  function KfreeAll(m: Mem, ptrs: seq<uint32>): (r: Mem)
    requires forall i :: 0 <= i < |ptrs| ==> Freeable(ptrs[i])
    decreases |ptrs|
  {
    if ptrs == [] then m else KfreeAll(Kfree(m, ptrs[0]), ptrs[1..])
  }

  // ---- Ownership ----

  datatype Run = Run(ptr: nat, blocks: nat)
  {
    function End(): nat { ptr + BLOCK_SIZE * blocks }
  }

  function BlockOf(ptr: nat): int { (ptr - HEAP_ADDRESS) / BLOCK_SIZE }

  /** r is one allocation of the heap. */
  ghost predicate RunAt(m: Mem, r: Run) {
    && r.ptr >= HEAP_ADDRESS && (r.ptr - HEAP_ADDRESS) % BLOCK_SIZE == 0
    && IsRun(Table(m), BlockOf(r.ptr), r.blocks)
  }

  ghost predicate SameRun(m: Mem, m': Mem, r: Run) {
    r.End() <= RAM_SIZE && SameOn(m, m', r.ptr, r.End())
  }

  lemma SameTwice(m: Mem, m1: Mem, m2: Mem, r: Run)
    requires SameRun(m, m1, r) && SameRun(m1, m2, r)
    ensures SameRun(m, m2, r)
  {
  }

  /** The heap table is well formed and each owner holds an allocation of its own. */
  ghost predicate Held<O(!new)>(m: Mem, held: map<O, Run>) {
    && WellFormed(Table(m))
    && (forall o :: o in held ==> RunAt(m, held[o]))
    && (forall o, o' :: o in held && o' in held && held[o].ptr == held[o'].ptr ==> o == o')
  }

  lemma RunBounds(m: Mem, r: Run)
    requires RunAt(m, r)
    ensures HEAP_ADDRESS <= r.ptr < r.End() <= HEAP_END && r.ptr % BLOCK_SIZE == 0 && r.blocks >= 1
  {
  }

  lemma RunsApart(m: Mem, r: Run, r': Run)
    requires RunAt(m, r) && RunAt(m, r') && r.ptr != r'.ptr
    ensures r.End() <= r'.ptr || r'.End() <= r.ptr
  {
    var s, s' := BlockOf(r.ptr), BlockOf(r'.ptr);
    assert r.ptr == HEAP_ADDRESS + BLOCK_SIZE * s && r'.ptr == HEAP_ADDRESS + BLOCK_SIZE * s';
    if s < s' + r'.blocks && s' < s + r.blocks {
      RunsDisjoint(Table(m), s, r.blocks, s', r'.blocks);
    }
  }

  /** Different owners' memory does not overlap. */
  lemma HeldApart<O(!new)>(m: Mem, held: map<O, Run>, o: O, o': O)
    requires Held(m, held) && o in held && o' in held && o != o'
    ensures held[o].End() <= held[o'].ptr || held[o'].End() <= held[o].ptr
  {
    RunsApart(m, held[o], held[o']);
  }

  // ---- Allocation ----

  ghost predicate SameElsewhere(m: Mem, m': Mem, p: nat, size: nat) {
    forall k :: 0 <= k < RAM_SIZE && OutsideTable(k) && !(p <= k < p + size) ==> m'[k] == m[k]
  }

  lemma BlockOfStart(s: nat)
    ensures BlockOf(HEAP_ADDRESS + BLOCK_SIZE * s) == s
  {
  }

  lemma OneBlock(size: uint32)
    requires 1 <= size <= BLOCK_SIZE
    ensures BlocksFor(size) == 1
  {
  }

  /** What fits the heap is far from wrapping around. */
  lemma FitsSmall(t: seq<byte>, size: uint32)
    requires |t| == TOTAL_BLOCKS && Fits(t, BlocksFor(size))
    ensures 1 <= BlocksFor(size) <= TOTAL_BLOCKS && size <= HEAP_END - HEAP_ADDRESS
  {
    hide BlocksFor;
    FittingStart(t, BlocksFor(size));
    BlocksCover(size);
  }

  lemma KzallocMemory(m: Mem, size: uint32)
    requires Fits(Table(m), BlocksFor(size))
    ensures var (m', p) := Kzalloc(m, size); var n := BlocksFor(size); var s := FirstFit(Table(m), n, 0);
            && n >= 1 && p == HEAP_ADDRESS + BLOCK_SIZE * s
            && Table(m') == Take(Table(m), s, n)
            && SameElsewhere(m, m', p, size)
            && forall k :: p <= k < p + size ==> m'[k] == 0
  {
    FitsSmall(Table(m), size);
    var n := BlocksFor(size);
    var s := FirstFit(Table(m), n, 0);
    var (m1, p) := Kmalloc(m, size);
    var m' := Zero(m1, p, size);
    assert Kzalloc(m, size) == (m', p);
    assert Table(m') == Take(Table(m), s, n);
  }

  lemma BlocksCover(size: uint32)
    ensures BlocksFor(size) >= 1 ==> size <= BLOCK_SIZE * BlocksFor(size)
  {
  }

  /** A request that fits takes blocks nobody holds, marks exactly them, and
      clears exactly the bytes asked for, all inside the new run. */
  lemma KzallocFits(m: Mem, size: uint32)
    requires WellFormed(Table(m)) && Fits(Table(m), BlocksFor(size))
    ensures var (m', p) := Kzalloc(m, size); var n := BlocksFor(size);
            && WellFormed(Table(m')) && RunAt(m', Run(p, n)) && !RunAt(m, Run(p, n))
            && p == HEAP_ADDRESS + BLOCK_SIZE * FirstFit(Table(m), n, 0)
            && size <= BLOCK_SIZE * n
            && RunsAdded(Table(m), Table(m'), BlockOf(p), n)
            && Table(m') == Take(Table(m), BlockOf(p), n)
            && SameElsewhere(m, m', p, size)
            && (forall k :: p <= k < p + size ==> m'[k] == 0)
  {
    hide Table, TableAt, Kzalloc, FirstFit, Fits, BlocksFor, Take, WellFormed, FreeRun, IsRun, RunsAdded, SameElsewhere;
    var t, n := Table(m), BlocksFor(size);
    var s := FirstFit(t, n, 0);
    FittingStart(t, n);
    KzallocMemory(m, size);
    BlocksCover(size);
    TakeAddsRun(t, s, n);
    var (m', p) := Kzalloc(m, size);
    assert BlockOf(p) == s;
  }

  lemma NewRunApart(m: Mem, r: Run, s: nat, n: nat)
    requires RunAt(m, r) && FreeRun(Table(m), s, n) && n >= 1
    ensures var p := HEAP_ADDRESS + BLOCK_SIZE * s; r.End() <= p || p + BLOCK_SIZE * n <= r.ptr
  {
    RunAvoidsFree(Table(m), BlockOf(r.ptr), r.blocks, s, n);
  }

  /** kzalloc leaves every allocation, and its bytes, as it was. */
  lemma KzallocKeeps(m: Mem, size: uint32, r: Run)
    requires WellFormed(Table(m)) && Fits(Table(m), BlocksFor(size)) && RunAt(m, r)
    ensures var (m', p) := Kzalloc(m, size); RunAt(m', r) && r.ptr != p && SameRun(m, m', r)
  {
    hide Kzalloc, Table, Fits, BlocksFor, WellFormed, FirstFit, Take, FreeRun;
    KzallocFits(m, size);
    FittingStart(Table(m), BlocksFor(size));
    NewRunApart(m, r, FirstFit(Table(m), BlocksFor(size), 0), BlocksFor(size));
    RunBounds(m, r);
    hide IsRun;
    var (m', p) := Kzalloc(m, size);
    assert IsRun(Table(m'), BlockOf(r.ptr), r.blocks);
    forall k | r.ptr <= k < r.End() ensures m'[k] == m[k] {
      assert OutsideTable(k);
    }
  }

  lemma HeldGrows<O(!new)>(m: Mem, m': Mem, held: map<O, Run>, o: O, r: Run)
    requires Held(m, held) && o !in held
    requires WellFormed(Table(m')) && RunAt(m', r)
    requires forall q :: q in held ==> RunAt(m', held[q]) && held[q].ptr != r.ptr
    ensures Held(m', held[o := r])
  {
  }

  /** kzalloc gives a new owner a run and leaves every held run's bytes alone. */
  lemma KzallocHeld<O(!new)>(m: Mem, held: map<O, Run>, o: O, size: uint32)
    requires Held(m, held) && o !in held
    requires Fits(Table(m), BlocksFor(size))
    ensures var (m', p) := Kzalloc(m, size);
            && Held(m', held[o := Run(p, BlocksFor(size))])
            && (forall q :: q in held ==> SameRun(m, m', held[q]))
  {
    hide Kzalloc, Table, Fits, BlocksFor, WellFormed, IsRun, RunAt, SameRun;
    var (m', p) := Kzalloc(m, size);
    forall q | q in held ensures RunAt(m', held[q]) && held[q].ptr != p && SameRun(m, m', held[q]) {
      KzallocKeeps(m, size, held[q]);
    }
    KzallocFits(m, size);
    HeldGrows(m, m', held, o, Run(p, BlocksFor(size)));
  }

  /** Only the table decides what is held. */
  lemma HeldByTable<O(!new)>(m: Mem, m': Mem, held: map<O, Run>)
    requires Held(m, held) && Table(m') == Table(m)
    ensures Held(m', held)
  {
  }

  lemma TableSame(m: Mem, m': Mem)
    requires forall k :: TABLE_ADDRESS <= k < TABLE_ADDRESS + TOTAL_BLOCKS ==> m'[k] == m[k]
    ensures Table(m') == Table(m)
  {
  }

  /** The runs held' adds to held. */
  ghost predicate NewlyNamed<O(!new)>(held: map<O, Run>, held': map<O, Run>, a: int, b: int) {
    exists o :: o in held' && o !in held && a == BlockOf(held'[o].ptr) && b == held'[o].blocks
  }

  ghost predicate Extends<O(!new)>(held: map<O, Run>, held': map<O, Run>) {
    forall o :: o in held ==> o in held' && held'[o] == held[o]
  }

  /** The heap's runs are those it had and those the new owners hold. */
  ghost predicate RunsGrew<O(!new)>(m: Mem, m': Mem, held: map<O, Run>, held': map<O, Run>) {
    && Extends(held, held')
    && (forall a, b :: IsRun(Table(m'), a, b) <==> IsRun(Table(m), a, b) || NewlyNamed(held, held', a, b))
    && (forall a, b :: NewlyNamed(held, held', a, b) ==> !IsRun(Table(m), a, b))
  }

  lemma RunsGrewTrans<O(!new)>(m: Mem, m1: Mem, m2: Mem, held: map<O, Run>, held1: map<O, Run>, held2: map<O, Run>)
    requires RunsGrew(m, m1, held, held1) && RunsGrew(m1, m2, held1, held2)
    ensures RunsGrew(m, m2, held, held2)
  {
    hide IsRun, Table;
    forall a, b ensures NewlyNamed(held, held2, a, b) <==>
        NewlyNamed(held, held1, a, b) || NewlyNamed(held1, held2, a, b) {
      if NewlyNamed(held, held1, a, b) {
        var o :| o in held1 && o !in held && a == BlockOf(held1[o].ptr) && b == held1[o].blocks;
        assert o in held2;
      }
    }
  }

  lemma OneNewRun<O(!new)>(m: Mem, m': Mem, held: map<O, Run>, o: O, r: Run)
    requires o !in held && RunsAdded(Table(m), Table(m'), BlockOf(r.ptr), r.blocks)
    requires !IsRun(Table(m), BlockOf(r.ptr), r.blocks)
    ensures RunsGrew(m, m', held, held[o := r])
  {
    hide IsRun, Table;
    var held' := held[o := r];
    forall a, b ensures NewlyNamed(held, held', a, b) <==> a == BlockOf(r.ptr) && b == r.blocks {
      if a == BlockOf(r.ptr) && b == r.blocks {
        assert o in held' && o !in held;
      }
    }
  }

  lemma FittingStart(t: seq<byte>, n: nat)
    requires Fits(t, n)
    ensures n >= 1 && FreeRun(t, FirstFit(t, n, 0), n) && FirstFit(t, n, 0) + n <= |t|
  {
  }

  // ---- Freeing ----

  lemma KfreeRun(m: Mem, r: Run)
    requires WellFormed(Table(m)) && RunAt(m, r)
    ensures Freeable(r.ptr) && r.ptr < RAM_SIZE
    ensures var m' := Kfree(m, r.ptr);
            && WellFormed(Table(m'))
            && Table(m') == Release(Table(m), BlockOf(r.ptr), r.blocks)
            && (forall a, b :: IsRun(Table(m'), a, b) <==>
                  IsRun(Table(m), a, b) && !(a == BlockOf(r.ptr) && b == r.blocks))
            && (forall k :: 0 <= k < RAM_SIZE && OutsideTable(k) ==> m'[k] == m[k])
  {
    var s, n := BlockOf(r.ptr), r.blocks;
    var k := TABLE_ADDRESS + s;
    forall j | s <= j < s + n ensures m[TABLE_ADDRESS + j] == Table(m)[j] == RunEntry(s, n, j) {
    }
    assert AddressToBlock(HEAP_ADDRESS, r.ptr) == s;
    forall j | k <= j < k + n - 1 ensures HasNext(m[j]) {
      assert m[TABLE_ADDRESS + (j - TABLE_ADDRESS)] == RunEntry(s, n, j - TABLE_ADDRESS);
    }
    ClearedPart(m, k, n, TABLE_ADDRESS + TOTAL_BLOCKS);
    assert Table(Kfree(m, r.ptr)) == Release(Table(m), s, n);
    ReleaseRemovesRun(Table(m), s, n);
  }

  lemma KfreeHeld<O(!new)>(m: Mem, held: map<O, Run>, o: O)
    requires Held(m, held) && o in held
    ensures Freeable(held[o].ptr) && held[o].ptr < RAM_SIZE
    ensures Held(Kfree(m, held[o].ptr), held - {o})
    ensures forall k :: 0 <= k < RAM_SIZE && OutsideTable(k)
                ==> Kfree(m, held[o].ptr)[k] == m[k]
  {
    KfreeRun(m, held[o]);
    var m' := Kfree(m, held[o].ptr);
    forall q | q in held - {o} ensures RunAt(m', held[q]) {
      assert held[q].ptr != held[o].ptr;
      assert BlockOf(held[q].ptr) != BlockOf(held[o].ptr);
    }
  }

  // ---- kfree(NULL) ----

  /** Some byte in the 8 KB below the table ends a HAS_NEXT chain. */
  ghost predicate LowGuard(m: Mem) {
    exists j :: NULL_ENTRY <= j < TABLE_ADDRESS && !HasNext(m[j])
  }

  lemma {:induction false} ChainStops(m: seq<byte>, k: nat, j: nat, end: nat)
    requires k <= j < end <= |m| && !HasNext(m[j])
    ensures forall i :: 0 <= i < k || j < i < |m| ==> ClearChain(m, k, end)[i] == m[i]
    ensures ClearChain(m, k, end)[k] == ENTRY_FREE
    decreases end - k
  {
    if HasNext(m[k]) {
      ChainStops(m[k := ENTRY_FREE], k + 1, j, end);
    }
  }

  lemma {:induction false} ChainRunsOn(m: seq<byte>, k: nat, j: nat, end: nat)
    requires k <= j < end <= |m| && forall i :: k <= i < j ==> HasNext(m[i])
    ensures ClearChain(m, k, end)[j] == ENTRY_FREE
    decreases end - k
  {
    var m1 := m[k := ENTRY_FREE];
    if k < j {
      ChainRunsOn(m1, k + 1, j, end);
    } else if HasNext(m[k]) && k + 1 < end {
      ChainKeepsBefore(m1, k + 1, end);
    }
  }

  lemma {:induction false} ChainKeepsBefore(m: seq<byte>, k: nat, end: nat)
    requires k <= end <= |m|
    ensures forall i :: 0 <= i < k ==> ClearChain(m, k, end)[i] == m[i]
    decreases end - k
  {
    if k < end && HasNext(m[k]) {
      ChainKeepsBefore(m[k := ENTRY_FREE], k + 1, end);
    }
  }

  /** While the guard byte is there, kfree(NULL) clears bytes below the table only. */
  lemma KfreeNull(m: Mem)
    requires LowGuard(m)
    ensures var m' := Kfree(m, 0);
            && (forall k :: 0 <= k < NULL_ENTRY || TABLE_ADDRESS <= k < RAM_SIZE ==> m'[k] == m[k])
            && LowGuard(m') && Table(m') == Table(m)
  {
    var j :| NULL_ENTRY <= j < TABLE_ADDRESS && !HasNext(m[j]);
    assert AddressToBlock(HEAP_ADDRESS, 0) == -8192;
    var end := TABLE_ADDRESS + TOTAL_BLOCKS;
    ChainStops(m, NULL_ENTRY, j, end);
    assert !HasNext(Kfree(m, 0)[NULL_ENTRY]);
    assert Table(Kfree(m, 0)) == Table(m);
  }

  /** kfree(NULL) leaves the heap table alone exactly when a byte below the table
      stops the walk, or the first block is free anyway. */
  lemma KfreeNullHarmlessIff(m: Mem)
    requires WellFormed(Table(m))
    ensures Table(Kfree(m, 0)) == Table(m) <==> LowGuard(m) || Table(m)[0] == ENTRY_FREE
  {
    assert AddressToBlock(HEAP_ADDRESS, 0) == -8192;
    var end := TABLE_ADDRESS + TOTAL_BLOCKS;
    if LowGuard(m) {
      KfreeNull(m);
    } else {
      ChainRunsOn(m, NULL_ENTRY, TABLE_ADDRESS, end);
      assert Table(Kfree(m, 0))[0] == ENTRY_FREE;
      if Table(m)[0] == ENTRY_FREE {
        assert m[TABLE_ADDRESS] == Table(m)[0];
        ChainStops(m, NULL_ENTRY, TABLE_ADDRESS, end);
        assert Table(Kfree(m, 0)) == Table(m);
      }
    }
  }

  // ---- Freeing many ----

  function Owned<O>(held: map<O, Run>, os: seq<O>): (ptrs: seq<nat>)
    requires forall i :: 0 <= i < |os| ==> os[i] in held
    ensures |ptrs| == |os| && forall i :: 0 <= i < |os| ==> ptrs[i] == held[os[i]].ptr
  {
    seq(|os|, i requires 0 <= i < |os| => held[os[i]].ptr)
  }

  ghost predicate NoRepeats<O(!new)>(os: seq<O>) {
    forall i, j :: 0 <= i < j < |os| ==> os[i] != os[j]
  }

  ghost predicate SameOutsideTable(m: Mem, m': Mem) {
    forall k :: 0 <= k < RAM_SIZE && OutsideTable(k) ==> m'[k] == m[k]
  }

  ghost function OwnersOf<O>(os: seq<O>): set<O> { set o | o in os }

  /** Freeing a list of held runs gives up exactly those, and touches only the table. */
  lemma {:induction false} KfreeAllHeld<O(!new)>(m: Mem, held: map<O, Run>, os: seq<O>, ptrs: seq<uint32>)
    requires Held(m, held) && NoRepeats(os)
    requires forall i :: 0 <= i < |os| ==> os[i] in held
    requires ptrs == Owned(held, os)
    ensures forall i :: 0 <= i < |ptrs| ==> Freeable(ptrs[i])
    ensures Held(KfreeAll(m, ptrs), held - OwnersOf(os))
    ensures SameOutsideTable(m, KfreeAll(m, ptrs))
    decreases |os|
  {
    forall i | 0 <= i < |ptrs| ensures Freeable(ptrs[i]) {
      RunBounds(m, held[os[i]]);
    }
    if os == [] {
      assert held - OwnersOf(os) == held;
    } else {
      var o, rest := os[0], os[1..];
      KfreeHeld(m, held, o);
      assert ptrs[1..] == Owned(held - {o}, rest);
      KfreeAllHeld(Kfree(m, ptrs[0]), held - {o}, rest, ptrs[1..]);
      assert held - {o} - OwnersOf(rest) == held - OwnersOf(os);
    }
  }

  ghost predicate Names<O(!new)>(held: map<O, Run>, os: seq<O>, a: int, b: int) {
    exists o :: o in os && o in held && a == BlockOf(held[o].ptr) && b == held[o].blocks
  }

  /** ... and the table's runs are those it had, less the freed ones. */
  lemma {:induction false} KfreeAllRuns<O(!new)>(m: Mem, held: map<O, Run>, os: seq<O>, ptrs: seq<uint32>)
    requires Held(m, held) && NoRepeats(os)
    requires forall i :: 0 <= i < |os| ==> os[i] in held
    requires ptrs == Owned(held, os) && forall i :: 0 <= i < |ptrs| ==> Freeable(ptrs[i])
    ensures forall a, b :: IsRun(Table(KfreeAll(m, ptrs)), a, b) <==> IsRun(Table(m), a, b) && !Names(held, os, a, b)
    decreases |os|
  {
    if os != [] {
      var o, rest := os[0], os[1..];
      var held1, m1 := held - {o}, Kfree(m, ptrs[0]);
      KfreeHeld(m, held, o);
      KfreeRun(m, held[o]);
      assert ptrs[1..] == Owned(held1, rest);
      KfreeAllRuns(m1, held1, rest, ptrs[1..]);
      forall a, b ensures Names(held, os, a, b) <==>
          Names(held1, rest, a, b) || (a == BlockOf(held[o].ptr) && b == held[o].blocks) {
        NamesSplit(held, os, a, b);
      }
    }
  }

  lemma NamesSplit<O(!new)>(held: map<O, Run>, os: seq<O>, a: int, b: int)
    requires os != [] && NoRepeats(os) && forall i :: 0 <= i < |os| ==> os[i] in held
    ensures Names(held, os, a, b) <==>
            Names(held - {os[0]}, os[1..], a, b) || (a == BlockOf(held[os[0]].ptr) && b == held[os[0]].blocks)
  {
    assert os == [os[0]] + os[1..];
    if Names(held, os, a, b) {
      var o :| o in os && o in held && a == BlockOf(held[o].ptr) && b == held[o].blocks;
      if o != os[0] {
        assert o in os[1..] && o in held - {os[0]};
      }
    }
  }

  lemma {:induction false} ChainKeepsAfter(m: seq<byte>, k: nat, end: nat)
    requires end <= |m|
    ensures forall i :: end <= i < |m| ==> ClearChain(m, k, end)[i] == m[i]
    decreases end - k
  {
    if k < end && HasNext(m[k]) {
      ChainKeepsAfter(m[k := ENTRY_FREE], k + 1, end);
    }
  }

  /** Freeing any address of the heap, allocated or not, writes to the table only. */
  lemma KfreeTouchesTable(m: Mem, ptr: uint32)
    requires HEAP_ADDRESS <= ptr < HEAP_END
    ensures SameOutsideTable(m, Kfree(m, ptr))
  {
    var k := TABLE_ADDRESS + AddressToBlock(HEAP_ADDRESS, ptr);
    assert TABLE_ADDRESS <= k <= TABLE_ADDRESS + TOTAL_BLOCKS;
    ChainKeepsBefore(m, k, TABLE_ADDRESS + TOTAL_BLOCKS);
    ChainKeepsAfter(m, k, TABLE_ADDRESS + TOTAL_BLOCKS);
  }

  lemma {:induction false} KfreeAllSnoc(m: Mem, ptrs: seq<uint32>, ptr: uint32)
    requires forall i :: 0 <= i < |ptrs| ==> Freeable(ptrs[i])
    requires Freeable(ptr)
    ensures KfreeAll(m, ptrs + [ptr]) == Kfree(KfreeAll(m, ptrs), ptr)
    decreases |ptrs|
  {
    hide Kfree;
    if ptrs == [] {
      assert ptrs + [ptr] == [ptr];
      assert [ptr][1..] == [];
    } else {
      assert (ptrs + [ptr])[1..] == ptrs[1..] + [ptr];
      KfreeAllSnoc(Kfree(m, ptrs[0]), ptrs[1..], ptr);
    }
  }
}
