/** copy_string_from_task: the kernel reads a string through a process's page
    tables, by way of a heap block it maps into them for the moment. */
module CopyString {
  import opened Memory
  import opened HeapTable
  import opened Heap
  import opened KernelHeap
  import opened Paging
  import opened AddressSpace
  import opened Process
  import opened CStrings
  import opened Owners
  import opened Isolation
  import Steps

  const EIO := 1

  // ---- Specification ----

  /** Pointers advance in 32-bit arithmetic. */
  function At(a: uint32, i: nat): uint32 {
    (a + i) % RAM_SIZE
  }

  /** The characters a process sees from `virt` on: at most `n`, up to a terminator. */
  function VisibleString(m: Mem, dir: nat, virt: uint32, n: nat): (s: seq<byte>)
    requires dir + PAGE_SIZE <= RAM_SIZE
    ensures |s| <= n && 0 !in s
    ensures forall j :: 0 <= j < |s| ==> s[j] == m[Translate(m, dir, At(virt, j))]
    ensures |s| < n ==> m[Translate(m, dir, At(virt, |s|))] == 0
    decreases n
  {
    hide Translate, At;
    AtNext(virt);
    var c := m[Translate(m, dir, At(virt, 0))];
    if n == 0 || c == 0 then []
    else [c] + VisibleString(m, dir, At(virt, 1), n - 1)
  }

  lemma AtNext(a: uint32)
    ensures forall j: nat {:trigger At(At(a, 1), j)} :: At(At(a, 1), j) == At(a, j + 1)
  {
  }

  /** strncpy with both pointers read through the page tables at `dir`, from turn
      `i` of at most `n` on. */
  function VirtualCopy(m: Mem, dir: nat, dest: uint32, src: uint32, n: nat, i: nat): Mem
    requires dir + PAGE_SIZE <= RAM_SIZE && i <= n
    decreases n - i
  {
    var c := m[Translate(m, dir, At(src, i))];
    var at := Translate(m, dir, At(dest, i));
    if i == n || c == 0 then m[at := 0]
    else VirtualCopy(m[at := c], dir, dest, src, n, i + 1)
  }

  /** strncpy inside the kernel's own memory. */
  function PhysicalCopy(m: Mem, dest: nat, src: nat, n: nat, i: nat): Mem
    requires dest + n < RAM_SIZE && src + n < RAM_SIZE && i <= n
    decreases n - i
  {
    if i == n || m[src + i] == 0 then m[dest + i := 0]
    else PhysicalCopy(m[dest + i := m[src + i]], dest, src, n, i + 1)
  }

  /** A buffer of at least one byte in kernel memory between heap table and heap,
      where the kernel's stack is. */
  predicate KernelBuffer(phys: nat, max: int) {
    1 <= max && TABLE_ADDRESS + TOTAL_BLOCKS <= phys && phys + max <= HEAP_ADDRESS
  }

  /** Memory and result of copy_string_from_task. */
  function CopyString(m: Mem, chunk: nat, virt: uint32, phys: nat, max: int): (r: (Mem, int))
    requires WellFormed(Table(m)) && LiveSpace(m, chunk) && KernelBuffer(phys, max)
  {
    if max >= PAGE_SIZE then (m, -EINVARG)
    else
      KzallocSparesSpace(m, max, chunk);
      var (m1, tmp) := Kzalloc(m, max);
      if tmp == 0 then (m1, -ENOMEM)
      else
        var dir := DirectoryOf(m1, chunk);
        var oldEntry := PagingGet(m1, dir, tmp);
        var (m2, _) := PagingMap(m1, chunk, tmp, tmp, USER_FLAGS);
        var m3 := VirtualCopy(m2, dir, tmp, virt, max - 1, 0);
        var (m4, res) := PagingSet(m3, dir, tmp, oldEntry);
        var m5 := if res < 0 then m4 else PhysicalCopy(m4, phys, tmp, max - 1, 0);
        (Kfree(m5, tmp), if res < 0 then -EIO else 0)
  }

  // ---- Copies ----

  ghost predicate OnlyBytes(m: Mem, m': Mem, lo: nat, hi: nat) {
    forall k :: 0 <= k < RAM_SIZE && !(lo <= k < hi) ==> m'[k] == m[k]
  }

  lemma {:induction false} PhysicalConfined(m: Mem, dest: nat, src: nat, n: nat, i: nat)
    requires dest + n < RAM_SIZE && src + n < RAM_SIZE && i <= n
    ensures OnlyBytes(m, PhysicalCopy(m, dest, src, n, i), dest + i, dest + n + 1)
    decreases n - i
  {
    if i < n && m[src + i] != 0 {
      PhysicalConfined(m[dest + i := m[src + i]], dest, src, n, i + 1);
    }
  }

  /** Copying a terminated string to somewhere else delivers it. */
  lemma {:induction false} PhysicalDelivers(m: Mem, dest: nat, src: nat, n: nat, i: nat, s: seq<byte>)
    requires dest + n < RAM_SIZE && src + n < RAM_SIZE && i <= |s| <= n && 0 !in s
    requires dest + n < src || src + n < dest
    requires forall j :: 0 <= j < |s| ==> m[src + j] == s[j]
    requires m[src + |s|] == 0
    requires forall j :: 0 <= j < i ==> m[dest + j] == s[j]
    ensures var m' := PhysicalCopy(m, dest, src, n, i);
      (forall j :: 0 <= j < |s| ==> m'[dest + j] == s[j]) && m'[dest + |s|] == 0
    decreases n - i
  {
    if i < |s| {
      assert m[src + i] == s[i];
      PhysicalDelivers(m[dest + i := m[src + i]], dest, src, n, i + 1, s);
    }
  }

  /** Every entry of the space reads as it did, and `tmp`'s page maps to itself. */
  ghost predicate SameEntries(m: Mem, m': Mem, dir: nat)
    requires dir + PAGE_SIZE <= RAM_SIZE
  {
    forall v :: 0 <= v < TOTAL_PAGES ==> PageEntry(m', dir, v) == PageEntry(m, dir, v)
  }

  lemma SameTranslation(m: Mem, m': Mem, dir: nat, a: uint32)
    requires dir + PAGE_SIZE <= RAM_SIZE && SameEntries(m, m', dir)
    ensures Translate(m', dir, a) == Translate(m, dir, a)
  {
    hide PageEntry, FrameOf;
  }

  /** The block lies apart from chunk, directory and tables. */
  ghost predicate ApartFromSpace(m: Mem, chunk: nat, tmp: nat)
    requires SpaceOk(m, chunk)
  {
    var dir := DirectoryOf(m, chunk);
    && tmp % PAGE_SIZE == 0 && tmp + PAGE_SIZE <= RAM_SIZE && tmp != chunk && tmp != dir
    && forall i :: 0 <= i < TABLE_ENTRIES ==> TableAddress(m, dir, i) != tmp
  }

  lemma BlockWriteKeepsEntries(m: Mem, m': Mem, chunk: nat, tmp: nat)
    requires SpaceOk(m, chunk) && ApartFromSpace(m, chunk, tmp) && OnlyBytes(m, m', tmp, tmp + PAGE_SIZE)
    ensures SpaceOk(m', chunk) && DirectoryOf(m', chunk) == DirectoryOf(m, chunk)
    ensures SameEntries(m, m', DirectoryOf(m, chunk)) && ApartFromSpace(m', chunk, tmp)
  {
    hide Load32, PageEntry, FrameOf;
    var dir := DirectoryOf(m, chunk);
    PagesApart(tmp, chunk);
    PagesApart(tmp, dir);
    forall i | 0 <= i < TABLE_ENTRIES ensures SamePage(m, m', TableAddress(m, dir, i)) {
      PagesApart(tmp, TableAddress(m, dir, i));
    }
    SpaceUnchanged(m, m', chunk);
  }

  ghost predicate MapsToSelf(m: Mem, dir: nat, tmp: nat)
    requires dir + PAGE_SIZE <= RAM_SIZE && tmp % PAGE_SIZE == 0 && tmp + PAGE_SIZE <= RAM_SIZE
  {
    PageEntry(m, dir, tmp / PAGE_SIZE) == tmp + USER_FLAGS
  }

  lemma SelfTranslation(m: Mem, dir: nat, tmp: nat, j: nat)
    requires dir + PAGE_SIZE <= RAM_SIZE && tmp % PAGE_SIZE == 0 && tmp + PAGE_SIZE <= RAM_SIZE
    requires MapsToSelf(m, dir, tmp) && j < PAGE_SIZE
    ensures At(tmp, j) == tmp + j && Translate(m, dir, tmp + j) == tmp + j
  {
    hide PageEntry;
    assert (tmp + j) / PAGE_SIZE == tmp / PAGE_SIZE && (tmp + j) % PAGE_SIZE == j;
    FrameOfSum(tmp, USER_FLAGS);
  }

  ghost predicate CopyState(m: Mem, chunk: nat, tmp: nat) {
    && SpaceOk(m, chunk) && ApartFromSpace(m, chunk, tmp)
    && MapsToSelf(m, DirectoryOf(m, chunk), tmp)
  }

  lemma CopyStateTells(m: Mem, chunk: nat, tmp: nat)
    requires CopyState(m, chunk, tmp)
    ensures chunk + 4 <= RAM_SIZE && DirectoryOf(m, chunk) + PAGE_SIZE <= RAM_SIZE
    ensures tmp % PAGE_SIZE == 0 && tmp + PAGE_SIZE <= RAM_SIZE && MapsToSelf(m, DirectoryOf(m, chunk), tmp)
    ensures SpaceOk(m, chunk) && ApartFromSpace(m, chunk, tmp)
  {
    hide Load32, PageEntry;
  }

  lemma CopyStateStays(m: Mem, m': Mem, chunk: nat, tmp: nat)
    requires CopyState(m, chunk, tmp) && OnlyBytes(m, m', tmp, tmp + PAGE_SIZE)
    ensures CopyState(m', chunk, tmp) && DirectoryOf(m', chunk) == DirectoryOf(m, chunk)
    ensures SameEntries(m, m', DirectoryOf(m, chunk))
  {
    BlockWriteKeepsEntries(m, m', chunk, tmp);
    hide PageEntry, SpaceOk, ApartFromSpace, Load32;
  }

  /** Whatever is read, the copy writes to no byte outside its block. */
  lemma {:induction false} VirtualConfined(m: Mem, chunk: nat, tmp: nat, src: uint32, n: nat, i: nat)
    requires CopyState(m, chunk, tmp) && i <= n < PAGE_SIZE
    ensures OnlyBytes(m, VirtualCopy(m, DirectoryOf(m, chunk), tmp, src, n, i), tmp, tmp + PAGE_SIZE)
    decreases n - i
  {
    hide PageEntry, SpaceOk, ApartFromSpace, Load32, Translate, CopyState, MapsToSelf;
    CopyStateTells(m, chunk, tmp);
    var dir := DirectoryOf(m, chunk);
    SelfTranslation(m, dir, tmp, i);
    var c := m[Translate(m, dir, At(src, i))];
    if i < n && c != 0 {
      var m' := m[tmp + i := c];
      CopyStateStays(m, m', chunk, tmp);
      VirtualConfined(m', chunk, tmp, src, n, i + 1);
    }
  }

  // ---- The whole call ----

  function EntryAddress(m: Mem, dir: nat, v: nat): nat
    requires dir + PAGE_SIZE <= RAM_SIZE && v < TOTAL_PAGES
  {
    TableAddress(m, dir, v / TABLE_ENTRIES) + 4 * (v % TABLE_ENTRIES)
  }

  /** The block kzalloc picks. */
  function Block(m: Mem): nat {
    HEAP_ADDRESS + BLOCK_SIZE * FirstFit(Table(m), 1, 0)
  }

  ghost predicate Taken(m: Mem, m1: Mem, chunk: nat, tmp: nat) {
    && LiveSpace(m, chunk) && LiveSpace(m1, chunk) && DirectoryOf(m1, chunk) == DirectoryOf(m, chunk)
    && SameEntries(m, m1, DirectoryOf(m, chunk)) && ApartFromSpace(m1, chunk, tmp)
    && HeapPage(tmp) && WellFormed(Table(m1)) && RunAt(m1, Run(tmp, 1))
    && WellFormed(Table(m)) && FreeRun(Table(m), BlockOf(tmp), 1) && Table(m1) == Take(Table(m), BlockOf(tmp), 1)
    && forall k :: 0 <= k < RAM_SIZE && OutsideTable(k) && !(tmp <= k < tmp + PAGE_SIZE) ==> m1[k] == m[k]
  }

  lemma LiveTells(m: Mem, chunk: nat)
    requires LiveSpace(m, chunk)
    ensures SpaceOk(m, chunk) && chunk + 4 <= RAM_SIZE && DirectoryOf(m, chunk) + PAGE_SIZE <= RAM_SIZE
  {
  }

  lemma TakenApart(m: Mem, chunk: nat, max: int)
    requires WellFormed(Table(m)) && LiveSpace(m, chunk) && 1 <= max < PAGE_SIZE && Fits(Table(m), 1)
    ensures var (m1, tmp) := Kzalloc(m, max);
      LiveSpace(m1, chunk) && (tmp % PAGE_SIZE == 0 && tmp + PAGE_SIZE <= RAM_SIZE ==> ApartFromSpace(m1, chunk, tmp))
  {
    hide Load32, KernelHeap.Kzalloc, SpaceOk, RunAt, Fits, BlocksFor, WellFormed;
    OneBlock(max);
    KzallocSparesSpace(m, max, chunk);
    LiveTells(m, chunk);
    var dir := DirectoryOf(m, chunk);
    var (m1, tmp) := Kzalloc(m, max);
    KzallocKeeps(m, max, Run(chunk, 1));
    KzallocKeeps(m, max, Run(dir, 1));
    forall i | 0 <= i < TABLE_ENTRIES ensures TableAddress(m1, dir, i) != tmp {
      KzallocKeeps(m, max, Run(TableAddress(m, dir, i), 1));
      LoadSame(m, m1, dir + 4 * i);
    }
  }

  lemma BlockTaken(m: Mem, chunk: nat, max: int)
    requires WellFormed(Table(m)) && LiveSpace(m, chunk) && 1 <= max < PAGE_SIZE && Fits(Table(m), 1)
    ensures var (m1, tmp) := Kzalloc(m, max); tmp == Block(m) && Taken(m, m1, chunk, tmp)
  {
    hide Load32, KernelHeap.Kzalloc, SpaceOk, Fits, BlocksFor, WellFormed, LiveSpace, IsRun, Take, FreeRun, FirstFit,
      ApartFromSpace, SameEntries, RunsAdded;
    OneBlock(max);
    TakenApart(m, chunk, max);
    KzallocFits(m, max);
    FittingStart(Table(m), 1);
    var (m1, tmp) := Kzalloc(m, max);
    TakenEntries(m, chunk, max);
    RunBounds(m1, Run(tmp, 1));
    forall k | 0 <= k < RAM_SIZE && OutsideTable(k) && !(tmp <= k < tmp + PAGE_SIZE) ensures m1[k] == m[k] {
      assert !(tmp <= k < tmp + max);
    }
  }

  lemma TakenEntries(m: Mem, chunk: nat, max: int)
    requires WellFormed(Table(m)) && LiveSpace(m, chunk) && 1 <= max < PAGE_SIZE
    ensures var m1 := Kzalloc(m, max).0;
      DirectoryOf(m1, chunk) == DirectoryOf(m, chunk) && SameEntries(m, m1, DirectoryOf(m, chunk))
  {
    hide Load32, KernelHeap.Kzalloc, WellFormed, PageEntry, SameSpacePages, BlocksFor;
    OneBlock(max);
    KzallocSparesSpace(m, max, chunk);
    SpaceUnchanged(m, Kzalloc(m, max).0, chunk);
  }

  /** The table holding tmp's entry, seen from the bytes around it. */
  lemma EntryPlace(m: Mem, chunk: nat, tmp: nat)
    requires SpaceOk(m, chunk) && ApartFromSpace(m, chunk, tmp)
    ensures var a := EntryAddress(m, DirectoryOf(m, chunk), tmp / PAGE_SIZE);
      HEAP_ADDRESS <= a && a + 4 <= HEAP_END && (a + 4 <= tmp || tmp + PAGE_SIZE <= a)
  {
    var dir, i := DirectoryOf(m, chunk), tmp / PAGE_SIZE / TABLE_ENTRIES;
    assert HeapPage(TableAddress(m, dir, i));
    PagesApart(tmp, TableAddress(m, dir, i));
  }

  /** Mapping the block to itself writes its entry and nothing else. */
  lemma BlockMapped(m: Mem, chunk: nat, tmp: nat)
    requires SpaceOk(m, chunk) && ApartFromSpace(m, chunk, tmp)
    ensures var dir := DirectoryOf(m, chunk); var (m', _) := PagingMap(m, chunk, tmp, tmp, USER_FLAGS);
      && m' == Store32(m, EntryAddress(m, dir, tmp / PAGE_SIZE), tmp + USER_FLAGS)
      && CopyState(m', chunk, tmp) && DirectoryOf(m', chunk) == dir
      && EntryAddress(m', dir, tmp / PAGE_SIZE) == EntryAddress(m, dir, tmp / PAGE_SIZE)
      && forall v :: 0 <= v < TOTAL_PAGES && v != tmp / PAGE_SIZE ==> PageEntry(m', dir, v) == PageEntry(m, dir, v)
  {
    hide Load32, Store32, PageEntry;
    var dir := DirectoryOf(m, chunk);
    SetEntry(m, chunk, tmp, tmp + USER_FLAGS);
    var (m', _) := PagingMap(m, chunk, tmp, tmp, USER_FLAGS);
    forall i | 0 <= i < TABLE_ENTRIES ensures TableAddress(m', dir, i) == TableAddress(m, dir, i) {
      assert DirectoryEntry(m', dir, i) == DirectoryEntry(m, dir, i);
    }
  }

  /** A word set and set back, with other bytes written in between. */
  lemma WordRestored(m1: Mem, m3: Mem, a: nat, v: uint32, tmp: nat)
    requires a + 4 <= RAM_SIZE && (a + 4 <= tmp || tmp + PAGE_SIZE <= a)
    requires OnlyBytes(Store32(m1, a, v), m3, tmp, tmp + PAGE_SIZE)
    ensures var m4 := Store32(m3, a, Load32(m1, a));
      && OnlyBytes(m1, m4, tmp, tmp + PAGE_SIZE)
      && forall k :: tmp <= k < tmp + PAGE_SIZE && k < RAM_SIZE ==> m4[k] == m3[k]
  {
    var w := Load32(m1, a);
    var back := Store32(Store32(m1, a, v), a, w);
    StoreBack(m1, a, v);
    hide Load32;
    var m4 := Store32(m3, a, w);
    forall k | 0 <= k < RAM_SIZE && !(tmp <= k < tmp + PAGE_SIZE) ensures m4[k] == m1[k] {
      assert back[k] == m1[k];
      assert a <= k < a + 4 ==> m4[k] == Bytes32(w)[k - a] == back[k];
    }
  }

  /** The state after paging_set: only the block differs from before paging_map,
      and it holds what the copy put there. */
  lemma EntryRestored(m1: Mem, chunk: nat, tmp: nat, virt: uint32, n: nat)
    requires SpaceOk(m1, chunk) && ApartFromSpace(m1, chunk, tmp) && n < PAGE_SIZE
    ensures var dir := DirectoryOf(m1, chunk);
      var m2 := PagingMap(m1, chunk, tmp, tmp, USER_FLAGS).0;
      var m3 := VirtualCopy(m2, dir, tmp, virt, n, 0);
      var (m4, res) := PagingSet(m3, dir, tmp, PagingGet(m1, dir, tmp));
      && res == 0 && OnlyBytes(m1, m4, tmp, tmp + PAGE_SIZE)
      && forall k :: tmp <= k < tmp + PAGE_SIZE ==> m4[k] == m3[k]
  {
    hide SpaceOk, ApartFromSpace, CopyState, VirtualCopy, PagingMap, Load32, Store32, EntryAddress, OnlyBytes,
      PagingGet, Translate;
    SpaceTells(m1, chunk, tmp);
    var dir := DirectoryOf(m1, chunk);
    BlockMapped(m1, chunk, tmp);
    EntryPlace(m1, chunk, tmp);
    var m2 := PagingMap(m1, chunk, tmp, tmp, USER_FLAGS).0;
    VirtualConfined(m2, chunk, tmp, virt, n, 0);
    var m3 := VirtualCopy(m2, dir, tmp, virt, n, 0);
    CopyStateTells(m2, chunk, tmp);
    SameEntryAddress(m2, m3, chunk, tmp, tmp / PAGE_SIZE);
    EntryAsWord(m1, chunk, tmp);
    WordRestored(m1, m3, EntryAddress(m1, dir, tmp / PAGE_SIZE), tmp + USER_FLAGS, tmp);
    SetIsStore(m3, dir, tmp, PagingGet(m1, dir, tmp));
  }

  lemma SpaceTells(m: Mem, chunk: nat, tmp: nat)
    requires SpaceOk(m, chunk) && ApartFromSpace(m, chunk, tmp)
    ensures chunk + 4 <= RAM_SIZE && DirectoryOf(m, chunk) + PAGE_SIZE <= RAM_SIZE
    ensures tmp % PAGE_SIZE == 0 && tmp + PAGE_SIZE <= RAM_SIZE
  {
  }

  lemma SetIsStore(m: Mem, dir: nat, tmp: nat, val: uint32)
    requires dir + PAGE_SIZE <= RAM_SIZE && tmp % PAGE_SIZE == 0 && tmp < RAM_SIZE
    ensures EntryAddress(m, dir, tmp / PAGE_SIZE) + 4 <= RAM_SIZE
    ensures PagingSet(m, dir, tmp, val) == (Store32(m, EntryAddress(m, dir, tmp / PAGE_SIZE), val), 0)
  {
    hide Load32, Store32;
  }

  lemma EntryAsWord(m: Mem, chunk: nat, tmp: nat)
    requires SpaceOk(m, chunk) && tmp % PAGE_SIZE == 0 && tmp < RAM_SIZE
    ensures EntryAddress(m, DirectoryOf(m, chunk), tmp / PAGE_SIZE) + 4 <= RAM_SIZE
    ensures PagingGet(m, DirectoryOf(m, chunk), tmp)
         == Load32(m, EntryAddress(m, DirectoryOf(m, chunk), tmp / PAGE_SIZE))
  {
    GetIsEntry(m, chunk, tmp);
    hide Load32, PagingGet, SpaceOk;
  }

  lemma SameEntryAddress(m: Mem, m': Mem, chunk: nat, tmp: nat, v: nat)
    requires SpaceOk(m, chunk) && ApartFromSpace(m, chunk, tmp) && v < TOTAL_PAGES
    requires OnlyBytes(m, m', tmp, tmp + PAGE_SIZE)
    ensures EntryAddress(m', DirectoryOf(m, chunk), v) == EntryAddress(m, DirectoryOf(m, chunk), v)
  {
    hide Load32;
    var dir := DirectoryOf(m, chunk);
    PagesApart(tmp, dir);
    LoadSame(m, m', dir + 4 * (v / TABLE_ENTRIES));
  }

  /** What the call leaves behind apart from its destination: nothing. */
  ghost predicate Transparent(m: Mem, m': Mem, phys: nat, max: int, tmp: nat) {
    forall k :: 0 <= k < RAM_SIZE && !(phys <= k < phys + max) && !(tmp <= k < tmp + PAGE_SIZE) ==> m'[k] == m[k]
  }

  /** Copying out and freeing: the heap table is as it was before the block was taken. */
  lemma CopiedOut(m: Mem, m1: Mem, m4: Mem, chunk: nat, tmp: nat, phys: nat, max: int)
    requires Taken(m, m1, chunk, tmp) && KernelBuffer(phys, max) && max < PAGE_SIZE
    requires OnlyBytes(m1, m4, tmp, tmp + PAGE_SIZE)
    ensures Freeable(tmp)
    ensures var m5 := PhysicalCopy(m4, phys, tmp, max - 1, 0); var m6 := Kfree(m5, tmp);
      && Table(m6) == Table(m) && Transparent(m, m6, phys, max, tmp)
      && forall k :: phys <= k < phys + max ==> m6[k] == m5[k]
  {
    hide LiveSpace, SameEntries, ApartFromSpace, WellFormed, IsRun, Take, FreeRun, Release, PhysicalCopy, Kfree, Table,
      Load32;
    var m5 := PhysicalCopy(m4, phys, tmp, max - 1, 0);
    PhysicalConfined(m4, phys, tmp, max - 1, 0);
    assert SameOn(m1, m5, TABLE_ADDRESS, TABLE_ADDRESS + TOTAL_BLOCKS);
    TableSame(m1, m5);
    KfreeRun(m5, Run(tmp, 1));
    TakeThenRelease(Table(m), BlockOf(tmp), 1);
    var m6 := Kfree(m5, tmp);
    forall k | 0 <= k < RAM_SIZE && !(phys <= k < phys + max) && !(tmp <= k < tmp + PAGE_SIZE) ensures m6[k] == m[k] {
      if OutsideTable(k) {
        assert m1[k] == m[k];
      } else {
        TableByte(m, m6, k);
      }
    }
  }

  lemma TableByte(m: Mem, m': Mem, k: nat)
    requires Table(m') == Table(m) && !OutsideTable(k)
    ensures k < RAM_SIZE && m'[k] == m[k]
  {
    assert Table(m)[k - TABLE_ADDRESS] == m[k] && Table(m')[k - TABLE_ADDRESS] == m'[k];
  }

  lemma CopyGranted(m: Mem, chunk: nat, virt: uint32, phys: nat, max: int) returns (m1: Mem, m4: Mem)
    requires WellFormed(Table(m)) && LiveSpace(m, chunk) && KernelBuffer(phys, max)
    requires max < PAGE_SIZE && Fits(Table(m), 1)
    ensures Kzalloc(m, max) == (m1, Block(m))
    ensures var tmp := Block(m);
      && Taken(m, m1, chunk, tmp) && tmp < RAM_SIZE && tmp % PAGE_SIZE == 0 && SpaceOk(m1, chunk) && Freeable(tmp)
      && m4 == PagingSet(VirtualCopy(PagingMap(m1, chunk, tmp, tmp, USER_FLAGS).0, DirectoryOf(m1, chunk), tmp, virt,
                                     max - 1, 0),
                         DirectoryOf(m1, chunk), tmp, PagingGet(m1, DirectoryOf(m1, chunk), tmp)).0
      && OnlyBytes(m1, m4, tmp, tmp + PAGE_SIZE)
      && CopyString(m, chunk, virt, phys, max) == (Kfree(PhysicalCopy(m4, phys, tmp, max - 1, 0), tmp), 0)
  {
    hide LiveSpace, SameEntries, ApartFromSpace, WellFormed, IsRun, RunAt, Take, FreeRun, PhysicalCopy, VirtualCopy,
      Kfree, Table, Load32, SpaceOk, PagingMap, PagingSet, PagingGet, KernelHeap.Kzalloc, Block, Fits, OnlyBytes;
    OneBlock(max);
    BlockTaken(m, chunk, max);
    var tmp := Kzalloc(m, max).1;
    m1 := Kzalloc(m, max).0;
    LiveTells(m1, chunk);
    EntryRestored(m1, chunk, tmp, virt, max - 1);
    var dir := DirectoryOf(m1, chunk);
    m4 := PagingSet(VirtualCopy(PagingMap(m1, chunk, tmp, tmp, USER_FLAGS).0, dir, tmp, virt, max - 1, 0), dir, tmp,
                    PagingGet(m1, dir, tmp)).0;
  }

  /** For every string and every address: a call either fails and changes nothing,
      or leaves every byte but its destination and one free block as it was, so
      heap table and page tables are exactly restored. */
  lemma CopyRestores(m: Mem, chunk: nat, virt: uint32, phys: nat, max: int)
    requires WellFormed(Table(m)) && LiveSpace(m, chunk) && KernelBuffer(phys, max)
    ensures var (m', res) := CopyString(m, chunk, virt, phys, max);
      && res == (if max >= PAGE_SIZE then -EINVARG else if Fits(Table(m), 1) then 0 else -ENOMEM)
      && (res != 0 ==> m' == m)
      && (res == 0 ==>
            && FreeRun(Table(m), FirstFit(Table(m), 1, 0), 1)
            && Table(m') == Table(m) && Transparent(m, m', phys, max, Block(m)))
  {
    if max < PAGE_SIZE {
      if Fits(Table(m), 1) {
        hide *;
        var m1, m4 := CopyGranted(m, chunk, virt, phys, max);
        CopiedOut(m, m1, m4, chunk, Block(m), phys, max);
        FittingStart(Table(m), 1);
      } else {
        CopyRefused(m, chunk, virt, phys, max);
      }
    }
  }

  lemma CopyRefused(m: Mem, chunk: nat, virt: uint32, phys: nat, max: int)
    requires WellFormed(Table(m)) && LiveSpace(m, chunk) && KernelBuffer(phys, max)
    requires max < PAGE_SIZE && !Fits(Table(m), 1)
    ensures CopyString(m, chunk, virt, phys, max) == (m, -ENOMEM)
  {
    OneBlock(max);
    if TrailingStart(Table(m)) < TOTAL_BLOCKS { Steps.TailFits(Table(m), 1); }
    NoAnswer(m, max);
    hide Load32, KernelHeap.Kzalloc, LiveSpace, WellFormed;
  }

  lemma SameEntriesAddress(m: Mem, m1: Mem, chunk: nat, tmp: nat)
    requires Taken(m, m1, chunk, tmp)
    ensures chunk + 4 <= RAM_SIZE && DirectoryOf(m, chunk) + PAGE_SIZE <= RAM_SIZE && tmp < RAM_SIZE
    ensures SpaceOk(m1, chunk)
    ensures EntryAddress(m1, DirectoryOf(m, chunk), tmp / PAGE_SIZE)
         == EntryAddress(m, DirectoryOf(m, chunk), tmp / PAGE_SIZE)
  {
    hide Load32, SameEntries, WellFormed, IsRun, Take, FreeRun;
    var dir := DirectoryOf(m, chunk);
    LiveTells(m, chunk);
    PagesApart(tmp, dir);
    LoadSame(m, m1, dir + 4 * (tmp / PAGE_SIZE / TABLE_ENTRIES));
  }

  // ---- For the processes of a sound kernel ----

  lemma BlockBounds(m: Mem)
    requires Fits(Table(m), 1)
    ensures HEAP_ADDRESS <= Block(m) && Block(m) + PAGE_SIZE <= HEAP_END && Block(m) % PAGE_SIZE == 0
  {
    hide Table;
    FittingStart(Table(m), 1);
  }

  lemma FreeBlockApart(k: KState, o: Owner)
    requires Inv(k) && o in k.held && Fits(Table(k.m), 1)
    ensures HEAP_ADDRESS <= k.held[o].ptr && k.held[o].End() <= HEAP_END
    ensures k.held[o].End() <= Block(k.m) || Block(k.m) + PAGE_SIZE <= k.held[o].ptr
  {
    hide Fits, FreeRun, IsRun, WellFormed, FirstFit;
    Steps.HeldBounds(k.m, k.held, o);
    FittingStart(Table(k.m), 1);
    NewRunApart(k.m, k.held[o], FirstFit(Table(k.m), 1, 0), 1);
  }

  /** The call keeps the kernel sound, whatever string and address it is given. */
  lemma CopyKeepsInv(k: KState, pid: nat, virt: uint32, phys: nat, max: int)
    requires Inv(k) && Live(k, pid) && KernelBuffer(phys, max)
    ensures Steps.CanCall(k, pid)
    ensures Inv(k.(m := CopyString(k.m, k.procs[pid].value.chunk, virt, phys, max).0))
  {
    hide LiveSpace, WellFormed, IsRun, CopyString, Fits, ProcOk, OwnersLive, FirstFit, FreeRun, Table, Block, SameRun;
    Steps.LiveCanCall(k, pid);
    var chunk := k.procs[pid].value.chunk;
    CopyRestores(k.m, chunk, virt, phys, max);
    CopySparesRuns(k, pid, virt, phys, max);
    var m' := CopyString(k.m, chunk, virt, phys, max).0;
    if m' != k.m {
      HeldByTable(k.m, m', k.held);
      GuardSpared(k.m, m', phys, max);
      forall q | 0 <= q < MAX_PROCESSES && k.procs[q].Some? ensures Steps.KernelRunsSame(k.m, m', k.held, q) {
        Steps.AllRunsSame(k.m, m', k.held, q);
      }
      Steps.FrameKeepsInv(k, m');
    } else {
      assert k.(m := m') == k;
    }
  }

  /** Nothing that is held is written to. */
  lemma CopySparesRuns(k: KState, pid: nat, virt: uint32, phys: nat, max: int)
    requires Inv(k) && Live(k, pid) && KernelBuffer(phys, max)
    ensures Steps.CanCall(k, pid)
    ensures var m' := CopyString(k.m, k.procs[pid].value.chunk, virt, phys, max).0;
      forall o :: o in k.held ==> SameRun(k.m, m', k.held[o])
  {
    hide LiveSpace, WellFormed, CopyString, Fits, Inv, FirstFit, FreeRun, Table, Block, SameRun;
    Steps.LiveCanCall(k, pid);
    var chunk := k.procs[pid].value.chunk;
    CopyRestores(k.m, chunk, virt, phys, max);
    Steps.InvProcs(k);
    var m' := CopyString(k.m, chunk, virt, phys, max).0;
    forall o | o in k.held ensures SameRun(k.m, m', k.held[o]) {
      if m' != k.m {
        RunSpared(k, m', o, phys, max);
      } else {
        RunSelf(k.m, k.held, o);
      }
    }
  }

  lemma RunSelf(m: Mem, held: map<Owner, Run>, o: Owner)
    requires Held(m, held) && o in held
    ensures SameRun(m, m, held[o])
  {
    hide Held;
    Steps.HeldBounds(m, held, o);
  }

  lemma RunSpared(k: KState, m': Mem, o: Owner, phys: nat, max: int)
    requires Inv(k) && o in k.held && Fits(Table(k.m), 1)
    requires KernelBuffer(phys, max) && Transparent(k.m, m', phys, max, Block(k.m))
    ensures SameRun(k.m, m', k.held[o])
  {
    hide Inv, Fits, Block, Table;
    FreeBlockApart(k, o);
  }

  lemma GuardSpared(m: Mem, m': Mem, phys: nat, max: int)
    requires LowGuard(m) && KernelBuffer(phys, max) && Fits(Table(m), 1) && Transparent(m, m', phys, max, Block(m))
    ensures LowGuard(m')
  {
    BlockBounds(m);
    hide Fits, Block, Table;
    var j :| NULL_ENTRY <= j < TABLE_ADDRESS && !HasNext(m[j]);
    assert m'[j] == m[j];
  }
}
