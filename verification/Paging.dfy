/** 32-bit two-level paging (section 4.3 of Intel SDM Volume 3A) as the kernel
    drives it: a chunk points to a directory of 1024 entries, each of which points
    to a table of 1024 page entries. All of them live in kernel heap blocks. */
module Paging {
  import Bits
  import opened Memory
  import opened Heap
  import opened HeapTable
  import opened KernelHeap
  import opened Owners

  const PAGE_SIZE := 4096
  const TABLE_ENTRIES := 1024
  const TOTAL_PAGES := 0x10_0000

  const PRESENT := 1
  const WRITEABLE := 2
  const ACCESS_FROM_ALL := 4

  // ---- Reading the structure ----

  /** The frame an entry points to: what `entry & 0xfffff000` keeps. */
  function FrameOf(entry: uint32): nat {
    entry / PAGE_SIZE * PAGE_SIZE
  }

  /** What paging_get's shorter mask `entry & 0xffff000` keeps. */
  function FrameOf28(entry: uint32): nat {
    entry / PAGE_SIZE % 65536 * PAGE_SIZE
  }

  /** The two masks are the arithmetic above, and agree exactly below 2^28. */
  lemma Masks(entry: uint32)
    ensures Bits.BitAnd(entry, 0xffff_f000) == FrameOf(entry)
    ensures Bits.BitAnd(entry, 0x0fff_f000) == FrameOf28(entry)
    ensures Bits.BitAnd(entry, 0xffff_f000) == Bits.BitAnd(entry, 0x0fff_f000) <==> entry < 0x1000_0000
  {
    hide Bits.BitAnd;
    Bits.PageMask(entry);
    Bits.PageMask28(entry);
  }

  ghost predicate HeapPage(a: nat) {
    HEAP_ADDRESS <= a && a + PAGE_SIZE <= HEAP_END && a % PAGE_SIZE == 0
  }

  function DirectoryOf(m: Mem, chunk: nat): uint32
    requires chunk + 4 <= RAM_SIZE
  {
    Load32(m, chunk)
  }

  function DirectoryEntry(m: Mem, dir: nat, i: nat): uint32
    requires dir + PAGE_SIZE <= RAM_SIZE && i < TABLE_ENTRIES
  {
    Load32(m, dir + 4 * i)
  }

  function TableAddress(m: Mem, dir: nat, i: nat): (a: nat)
    requires dir + PAGE_SIZE <= RAM_SIZE && i < TABLE_ENTRIES
    ensures a + PAGE_SIZE <= RAM_SIZE && a % PAGE_SIZE == 0
  {
    FrameOf(DirectoryEntry(m, dir, i))
  }

  /** The entry of page v (the flat view of the two levels). */
  function PageEntry(m: Mem, dir: nat, v: nat): uint32
    requires dir + PAGE_SIZE <= RAM_SIZE && v < TOTAL_PAGES
  {
    Load32(m, TableAddress(m, dir, v / TABLE_ENTRIES) + 4 * (v % TABLE_ENTRIES))
  }

  /** The physical address the hardware reaches for virtual address `a`. */
  function Translate(m: Mem, dir: nat, a: uint32): (p: uint32)
    requires dir + PAGE_SIZE <= RAM_SIZE
  {
    FrameOf(PageEntry(m, dir, a / PAGE_SIZE)) + a % PAGE_SIZE
  }

  predicate IsPresent(entry: uint32) { entry % 2 == 1 }

  predicate IsWriteable(entry: uint32) { entry / 2 % 2 == 1 }

  /** The bit without which the hardware refuses user code. */
  predicate IsUser(entry: uint32) { entry / 4 % 2 == 1 }

  /** A chunk, its directory and its 1024 tables are 1026 different heap pages. */
  ghost predicate SpaceOk(m: Mem, chunk: nat) {
    && HeapPage(chunk)
    && var dir := DirectoryOf(m, chunk);
    && HeapPage(dir) && dir != chunk
    && (forall i :: 0 <= i < TABLE_ENTRIES ==>
          HeapPage(TableAddress(m, dir, i)) && TableAddress(m, dir, i) != chunk && TableAddress(m, dir, i) != dir)
    && (forall i, j :: 0 <= i < j < TABLE_ENTRIES ==> TableAddress(m, dir, i) != TableAddress(m, dir, j))
  }

  ghost predicate InTables(m: Mem, dir: nat, k: int)
    requires dir + PAGE_SIZE <= RAM_SIZE
  {
    exists i :: 0 <= i < TABLE_ENTRIES && TableAddress(m, dir, i) <= k < TableAddress(m, dir, i) + PAGE_SIZE
  }

  /** m' differs from m in the page tables of the space only, and the directory is as it was. */
  ghost predicate OnlyTables(m: Mem, m': Mem, chunk: nat)
    requires chunk + 4 <= RAM_SIZE && DirectoryOf(m, chunk) + PAGE_SIZE <= RAM_SIZE
  {
    var dir := DirectoryOf(m, chunk);
    && DirectoryOf(m', chunk) == dir
    && (forall i :: 0 <= i < TABLE_ENTRIES ==> DirectoryEntry(m', dir, i) == DirectoryEntry(m, dir, i))
    && (forall k :: 0 <= k < RAM_SIZE && !InTables(m, dir, k) ==> m'[k] == m[k])
  }

  lemma PagesApart(a: nat, b: nat)
    requires a % PAGE_SIZE == 0 && b % PAGE_SIZE == 0 && a != b
    ensures a + PAGE_SIZE <= b || b + PAGE_SIZE <= a
  {
    assert a == PAGE_SIZE * (a / PAGE_SIZE) && b == PAGE_SIZE * (b / PAGE_SIZE);
  }

  // ---- Setting entries ----

  function PagingSet(m: Mem, dir: nat, virt: uint32, val: uint32): (r: (Mem, int))
    requires dir + PAGE_SIZE <= RAM_SIZE
  {
    if virt % PAGE_SIZE != 0 then (m, -EINVARG)
    else
      var v := virt / PAGE_SIZE;
      (Store32(m, TableAddress(m, dir, v / TABLE_ENTRIES) + 4 * (v % TABLE_ENTRIES), val), 0)
  }

  /** paging_get; on an unaligned address both indexes stay 0. */
  function PagingGet(m: Mem, dir: nat, virt: uint32): uint32
    requires dir + PAGE_SIZE <= RAM_SIZE
  {
    var v := if virt % PAGE_SIZE == 0 then virt / PAGE_SIZE else 0;
    Load32(m, FrameOf28(DirectoryEntry(m, dir, v / TABLE_ENTRIES)) + 4 * (v % TABLE_ENTRIES))
  }

  function AlignDown(a: uint32): (r: uint32)
    ensures r % PAGE_SIZE == 0 && r <= a < r + PAGE_SIZE
  {
    a - a % PAGE_SIZE
  }

  /** paging_align_address; the last 4095 addresses wrap around to 0. */
  function AlignUp(a: uint32): (r: uint32)
    ensures r % PAGE_SIZE == 0
    ensures a <= 0xffff_f000 ==> a <= r < a + PAGE_SIZE
    ensures a > 0xffff_f000 ==> r == 0
  {
    if a % PAGE_SIZE != 0 then (a + PAGE_SIZE - a % PAGE_SIZE) % RAM_SIZE else a
  }

  /** paging_get_physical_address. */
  function PhysicalAddress(m: Mem, dir: nat, virt: uint32): nat
    requires dir + PAGE_SIZE <= RAM_SIZE
  {
    FrameOf(PagingGet(m, dir, AlignDown(virt))) + (virt - AlignDown(virt))
  }

  /** The two masks agree because every table lies below 2^28. */
  lemma GetIsEntry(m: Mem, chunk: nat, virt: uint32)
    requires SpaceOk(m, chunk) && virt % PAGE_SIZE == 0
    ensures PagingGet(m, DirectoryOf(m, chunk), virt) == PageEntry(m, DirectoryOf(m, chunk), virt / PAGE_SIZE)
  {
    var dir, i := DirectoryOf(m, chunk), virt / PAGE_SIZE / TABLE_ENTRIES;
    assert HeapPage(TableAddress(m, dir, i));
  }

  lemma PhysicalAddressIsTranslation(m: Mem, chunk: nat, virt: uint32)
    requires SpaceOk(m, chunk)
    ensures PhysicalAddress(m, DirectoryOf(m, chunk), virt) == Translate(m, DirectoryOf(m, chunk), virt)
  {
    GetIsEntry(m, chunk, AlignDown(virt));
    assert AlignDown(virt) / PAGE_SIZE == virt / PAGE_SIZE;
  }

  ghost predicate SameDirectory(m: Mem, m': Mem, chunk: nat)
    requires chunk + 4 <= RAM_SIZE && DirectoryOf(m, chunk) + PAGE_SIZE <= RAM_SIZE
  {
    var dir := DirectoryOf(m, chunk);
    && DirectoryOf(m', chunk) == dir
    && forall i :: 0 <= i < TABLE_ENTRIES ==> DirectoryEntry(m', dir, i) == DirectoryEntry(m, dir, i)
  }

  lemma SpaceStays(m: Mem, m': Mem, chunk: nat)
    requires SpaceOk(m, chunk) && SameDirectory(m, m', chunk)
    ensures SpaceOk(m', chunk)
    ensures forall i :: 0 <= i < TABLE_ENTRIES ==>
              TableAddress(m', DirectoryOf(m, chunk), i) == TableAddress(m, DirectoryOf(m, chunk), i)
  {
    var dir := DirectoryOf(m, chunk);
    forall i | 0 <= i < TABLE_ENTRIES ensures TableAddress(m', dir, i) == TableAddress(m, dir, i) {
      assert DirectoryEntry(m', dir, i) == DirectoryEntry(m, dir, i);
    }
  }

  /** A word stored inside a table leaves chunk and directory alone. */
  lemma StoreInTable(m: Mem, chunk: nat, i0: nat, j0: nat, val: uint32)
    requires SpaceOk(m, chunk) && i0 < TABLE_ENTRIES && j0 < TABLE_ENTRIES
    ensures var dir := DirectoryOf(m, chunk); var m' := Store32(m, TableAddress(m, dir, i0) + 4 * j0, val);
            SpaceOk(m', chunk) && OnlyTables(m, m', chunk) && SameDirectory(m, m', chunk)
  {
    var dir := DirectoryOf(m, chunk);
    var t0 := TableAddress(m, dir, i0);
    var a := t0 + 4 * j0;
    var m' := Store32(m, a, val);
    PagesApart(t0, chunk);
    LoadElsewhere(m, a, val, chunk);
    PagesApart(t0, dir);
    forall i | 0 <= i < TABLE_ENTRIES ensures DirectoryEntry(m', dir, i) == DirectoryEntry(m, dir, i) {
      LoadElsewhere(m, a, val, dir + 4 * i);
    }
    forall k | 0 <= k < RAM_SIZE && !InTables(m, dir, k) ensures m'[k] == m[k] {
      assert !(TableAddress(m, dir, i0) <= k < TableAddress(m, dir, i0) + PAGE_SIZE);
    }
    SpaceStays(m, m', chunk);
  }

  lemma TablesApart(m: Mem, chunk: nat, i: nat, i0: nat)
    requires SpaceOk(m, chunk) && i < TABLE_ENTRIES && i0 < TABLE_ENTRIES && i != i0
    ensures var dir := DirectoryOf(m, chunk); var t, t0 := TableAddress(m, dir, i), TableAddress(m, dir, i0);
            t + PAGE_SIZE <= t0 || t0 + PAGE_SIZE <= t
  {
    var dir := DirectoryOf(m, chunk);
    assert TableAddress(m, dir, i) != TableAddress(m, dir, i0) by {
      if i < i0 {} else {}
    }
    PagesApart(TableAddress(m, dir, i), TableAddress(m, dir, i0));
  }

  lemma DirectoryFits(m: Mem, chunk: nat)
    requires SpaceOk(m, chunk)
    ensures chunk + 4 <= RAM_SIZE && DirectoryOf(m, chunk) + PAGE_SIZE <= RAM_SIZE
  {
    hide Load32;
  }

  /** paging_set refuses exactly the addresses inside a page, changing nothing, and
      paging_get answers for each of them the entry of page 0. */
  lemma InsideAPage(m: Mem, chunk: nat, virt: uint32, val: uint32)
    requires SpaceOk(m, chunk)
    ensures DirectoryOf(m, chunk) + PAGE_SIZE <= RAM_SIZE
    ensures var dir := DirectoryOf(m, chunk);
      && (PagingSet(m, dir, virt, val).1 == 0 <==> virt % 4096 == 0)
      && (virt % 4096 != 0 ==> PagingSet(m, dir, virt, val) == (m, -EINVARG))
      && (virt % 4096 != 0 ==> PagingGet(m, dir, virt) == PageEntry(m, dir, 0))
  {
    DirectoryFits(m, chunk);
    GetIsEntry(m, chunk, 0);
  }

  /** Setting the entry of one page changes that page's entry and no other. */
  lemma SetEntry(m: Mem, chunk: nat, virt: uint32, val: uint32)
    requires SpaceOk(m, chunk) && virt % PAGE_SIZE == 0
    ensures var dir := DirectoryOf(m, chunk); var m' := PagingSet(m, dir, virt, val).0;
            && SpaceOk(m', chunk) && OnlyTables(m, m', chunk)
            && forall v :: 0 <= v < TOTAL_PAGES ==>
                 PageEntry(m', dir, v) == if v == virt / PAGE_SIZE then val else PageEntry(m, dir, v)
  {
    hide Load32, Store32, PageEntry, OnlyTables, SameDirectory;
    var dir, v0 := DirectoryOf(m, chunk), virt / PAGE_SIZE;
    var m' := PagingSet(m, dir, virt, val).0;
    var i0, j0 := v0 / TABLE_ENTRIES, v0 % TABLE_ENTRIES;
    StoreInTable(m, chunk, i0, j0, val);
    SpaceStays(m, m', chunk);
    forall v | 0 <= v < TOTAL_PAGES
      ensures PageEntry(m', dir, v) == if v == v0 then val else PageEntry(m, dir, v)
    {
      EntryAfterSet(m, chunk, v0, val, v);
    }
  }

  lemma EntryAfterSet(m: Mem, chunk: nat, v0: nat, val: uint32, v: nat)
    requires SpaceOk(m, chunk) && v0 < TOTAL_PAGES && v < TOTAL_PAGES
    requires var dir := DirectoryOf(m, chunk); var t0 := TableAddress(m, dir, v0 / TABLE_ENTRIES);
             SameDirectory(m, Store32(m, t0 + 4 * (v0 % TABLE_ENTRIES), val), chunk)
    ensures var dir := DirectoryOf(m, chunk); var t0 := TableAddress(m, dir, v0 / TABLE_ENTRIES);
            PageEntry(Store32(m, t0 + 4 * (v0 % TABLE_ENTRIES), val), dir, v)
            == if v == v0 then val else PageEntry(m, dir, v)
  {
    hide Load32, Store32;
    var dir := DirectoryOf(m, chunk);
    var i, j, i0, j0 := v / TABLE_ENTRIES, v % TABLE_ENTRIES, v0 / TABLE_ENTRIES, v0 % TABLE_ENTRIES;
    var t, a := TableAddress(m, dir, i), TableAddress(m, dir, i0) + 4 * j0;
    var m' := Store32(m, a, val);
    assert DirectoryEntry(m', dir, i) == DirectoryEntry(m, dir, i);
    if v == v0 {
      LoadStored(m, a, val);
    } else {
      if i != i0 { TablesApart(m, chunk, i, i0); } else { assert j != j0; }
      LoadElsewhere(m, a, val, t + 4 * j);
    }
  }

  function PagingMap(m: Mem, chunk: nat, virt: uint32, phys: uint32, flags: nat): (r: (Mem, int))
    requires SpaceOk(m, chunk) && flags < PAGE_SIZE
    ensures SpaceOk(r.0, chunk) && (r.1 == 0 || r.1 == -EINVARG)
  {
    hide Load32, Store32, PageEntry, OnlyTables, SpaceOk;
    if virt % PAGE_SIZE != 0 || phys % PAGE_SIZE != 0 then (m, -EINVARG)
    else
      DirectoryFits(m, chunk);
      SetEntry(m, chunk, virt, phys + flags);
      PagingSet(m, DirectoryOf(m, chunk), virt, phys + flags)
  }

  /** paging_map_range: `virt` and `phys` advance in 32-bit arithmetic. */
  function MapRange(m: Mem, chunk: nat, virt: uint32, phys: uint32, count: nat, flags: nat): (r: (Mem, int))
    requires (count > 0 ==> SpaceOk(m, chunk)) && flags < PAGE_SIZE
    ensures (SpaceOk(m, chunk) ==> SpaceOk(r.0, chunk)) && (r.1 == 0 || r.1 == -EINVARG)
    decreases count
  {
    if count == 0 then (m, 0)
    else
      var (m1, res) := PagingMap(m, chunk, virt, phys, flags);
      if res < 0 then (m1, res)
      else MapRange(m1, chunk, (virt + PAGE_SIZE) % RAM_SIZE, (phys + PAGE_SIZE) % RAM_SIZE, count - 1, flags)
  }

  /** paging_map_to; without a page to map it reads no table. */
  function MapTo(m: Mem, chunk: nat, virt: uint32, phys: uint32, physEnd: uint32, flags: nat): (r: (Mem, int))
    requires (physEnd > phys ==> SpaceOk(m, chunk)) && flags < PAGE_SIZE
    ensures (SpaceOk(m, chunk) ==> SpaceOk(r.0, chunk)) && (r.1 == 0 || r.1 == -EINVARG)
  {
    if virt % PAGE_SIZE != 0 || phys % PAGE_SIZE != 0 || physEnd % PAGE_SIZE != 0 || physEnd < phys
    then (m, -EINVARG)
    else MapRange(m, chunk, virt, phys, (physEnd - phys) / PAGE_SIZE, flags)
  }

  /** How far page v lies after page `first`, going round at the top of the space. */
  function PagesAfter(first: nat, v: nat): (d: nat)
    ensures d < TOTAL_PAGES
  {
    (v - first) % TOTAL_PAGES
  }

  /** Exactly the `count` pages from page v0 on now map consecutive frames from `phys` on. */
  ghost predicate Mapped(m: Mem, m': Mem, chunk: nat, v0: nat, phys: nat, count: nat, flags: nat)
    requires chunk + 4 <= RAM_SIZE && DirectoryOf(m, chunk) + PAGE_SIZE <= RAM_SIZE
  {
    var dir := DirectoryOf(m, chunk);
    && OnlyTables(m, m', chunk)
    && forall v :: 0 <= v < TOTAL_PAGES ==>
         PageEntry(m', dir, v) == (var d := PagesAfter(v0, v);
           if d < count then phys + PAGE_SIZE * d + flags else PageEntry(m, dir, v))
  }

  lemma NextPage(first: nat, v: nat)
    requires first < TOTAL_PAGES && v < TOTAL_PAGES
    ensures v == first ==> PagesAfter(first, v) == 0 && PagesAfter((first + 1) % TOTAL_PAGES, v) == TOTAL_PAGES - 1
    ensures v != first ==> PagesAfter(first, v) == PagesAfter((first + 1) % TOTAL_PAGES, v) + 1
  {
  }

  lemma OnlyTablesTrans(m: Mem, m1: Mem, m2: Mem, chunk: nat)
    requires SpaceOk(m, chunk) && OnlyTables(m, m1, chunk) && OnlyTables(m1, m2, chunk)
    ensures OnlyTables(m, m2, chunk)
  {
    var dir := DirectoryOf(m, chunk);
    forall i | 0 <= i < TABLE_ENTRIES ensures DirectoryEntry(m2, dir, i) == DirectoryEntry(m, dir, i) {
      assert DirectoryEntry(m1, dir, i) == DirectoryEntry(m, dir, i);
    }
    forall k | 0 <= k < RAM_SIZE && !InTables(m, dir, k) ensures m2[k] == m[k] {
      assert !InTables(m1, dir, k) by {
        forall i | 0 <= i < TABLE_ENTRIES ensures TableAddress(m1, dir, i) == TableAddress(m, dir, i) {
          assert DirectoryEntry(m1, dir, i) == DirectoryEntry(m, dir, i);
        }
      }
    }
  }

  lemma MappedOneMore(m: Mem, m1: Mem, m': Mem, chunk: nat, v0: nat, phys: nat, phys1: nat, count: nat, flags: nat)
    requires SpaceOk(m, chunk) && v0 < TOTAL_PAGES && 1 <= count < TOTAL_PAGES
    requires OnlyTables(m, m1, chunk)
    requires forall v :: 0 <= v < TOTAL_PAGES ==>
               PageEntry(m1, DirectoryOf(m, chunk), v)
               == if v == v0 then phys + flags else PageEntry(m, DirectoryOf(m, chunk), v)
    requires Mapped(m1, m', chunk, (v0 + 1) % TOTAL_PAGES, phys1, count - 1, flags)
    requires count > 1 ==> phys1 == phys + PAGE_SIZE
    ensures Mapped(m, m', chunk, v0, phys, count, flags)
  {
    hide Load32, PageEntry;
    var dir := DirectoryOf(m, chunk);
    OnlyTablesTrans(m, m1, m', chunk);
    forall v | 0 <= v < TOTAL_PAGES
      ensures PageEntry(m', dir, v) == (var d := PagesAfter(v0, v);
                if d < count then phys + PAGE_SIZE * d + flags else PageEntry(m, dir, v))
    {
      NextPage(v0, v);
    }
  }

  lemma NextVirtual(virt: uint32)
    requires virt % PAGE_SIZE == 0
    ensures ((virt + PAGE_SIZE) % RAM_SIZE) % PAGE_SIZE == 0
    ensures ((virt + PAGE_SIZE) % RAM_SIZE) / PAGE_SIZE == (virt / PAGE_SIZE + 1) % TOTAL_PAGES
  {
  }

  lemma MapRangeStep(m: Mem, chunk: nat, virt: uint32, phys: uint32, count: nat, flags: nat)
      returns (m1: Mem, virt1: uint32, phys1: uint32)
    requires SpaceOk(m, chunk) && flags < PAGE_SIZE && count >= 1
    requires virt % PAGE_SIZE == 0 && phys % PAGE_SIZE == 0 && phys + PAGE_SIZE <= RAM_SIZE
    ensures virt1 % PAGE_SIZE == 0 && virt1 / PAGE_SIZE == (virt / PAGE_SIZE + 1) % TOTAL_PAGES
    ensures phys1 % PAGE_SIZE == 0
    ensures phys + PAGE_SIZE * count <= RAM_SIZE ==> phys1 + PAGE_SIZE * (count - 1) <= RAM_SIZE
    ensures phys + PAGE_SIZE * count <= RAM_SIZE && count > 1 ==> phys1 == phys + PAGE_SIZE
    ensures SpaceOk(m1, chunk) && OnlyTables(m, m1, chunk)
    ensures forall v :: 0 <= v < TOTAL_PAGES ==>
              PageEntry(m1, DirectoryOf(m, chunk), v)
              == if v == virt / PAGE_SIZE then phys + flags else PageEntry(m, DirectoryOf(m, chunk), v)
    ensures MapRange(m, chunk, virt, phys, count, flags) == MapRange(m1, chunk, virt1, phys1, count - 1, flags)
  {
    hide Load32, Store32, PageEntry, SpaceOk, OnlyTables;
    SetEntry(m, chunk, virt, phys + flags);
    NextVirtual(virt);
    m1 := PagingMap(m, chunk, virt, phys, flags).0;
    virt1, phys1 := (virt + PAGE_SIZE) % RAM_SIZE, (phys + PAGE_SIZE) % RAM_SIZE;
  }

  lemma MappedNone(m: Mem, chunk: nat, v0: nat, phys: nat, flags: nat)
    requires SpaceOk(m, chunk)
    ensures Mapped(m, m, chunk, v0, phys, 0, flags)
  {
    hide Load32, PageEntry;
  }

  /** Mapping a range sets exactly the pages of the range, to consecutive frames. */
  lemma {:induction false} MapRangeEntries(m: Mem, chunk: nat, virt: uint32, phys: uint32, count: nat, flags: nat)
      returns (m': Mem)
    requires SpaceOk(m, chunk) && flags < PAGE_SIZE && count < TOTAL_PAGES
    requires virt % PAGE_SIZE == 0 && phys % PAGE_SIZE == 0 && phys + PAGE_SIZE * count <= RAM_SIZE
    ensures MapRange(m, chunk, virt, phys, count, flags) == (m', 0)
    ensures Mapped(m, m', chunk, virt / PAGE_SIZE, phys, count, flags)
    decreases count
  {
    hide Load32, PagingMap, PageEntry, SpaceOk, OnlyTables, DirectoryOf, PagesAfter, Mapped;
    if count == 0 {
      m' := m;
      MappedNone(m, chunk, virt / PAGE_SIZE, phys, flags);
    } else {
      var m1, virt1, phys1 := MapRangeStep(m, chunk, virt, phys, count, flags);
      m' := MapRangeEntries(m1, chunk, virt1, phys1, count - 1, flags);
      MappedOneMore(m, m1, m', chunk, virt / PAGE_SIZE, phys, phys1, count, flags);
    }
  }

  /** Two-level paging refines a flat map: after paging_map_to every virtual
      address of the range translates to its offset in the physical range, with
      exactly the given flags, and every other page keeps its entry. It fails,
      changing nothing, exactly on unaligned or reversed arguments. */
  lemma MapToTranslation(m: Mem, chunk: nat, virt: uint32, phys: uint32, physEnd: uint32, flags: nat)
    requires SpaceOk(m, chunk) && flags < PAGE_SIZE
    ensures var (m', res) := MapTo(m, chunk, virt, phys, physEnd, flags); var dir := DirectoryOf(m, chunk);
            && (res == 0 <==>
                virt % PAGE_SIZE == 0 && phys % PAGE_SIZE == 0 && physEnd % PAGE_SIZE == 0 && phys <= physEnd)
            && (res != 0 ==> res == -EINVARG && m' == m)
            && OnlyTables(m, m', chunk)
            && (res == 0 ==>
                 Mapped(m, m', chunk, virt / PAGE_SIZE, phys, (physEnd - phys) / PAGE_SIZE, flags)
                 && (forall a: uint32 :: virt <= a < virt + (physEnd - phys) ==>
                       Translate(m', dir, a) == phys + (a - virt)))
  {
    if virt % PAGE_SIZE == 0 && phys % PAGE_SIZE == 0 && physEnd % PAGE_SIZE == 0 && phys <= physEnd {
      var count := (physEnd - phys) / PAGE_SIZE;
      assert PAGE_SIZE * count == physEnd - phys;
      var m' := MapRangeEntries(m, chunk, virt, phys, count, flags);
      forall a: uint32 | virt <= a < virt + (physEnd - phys)
        ensures Translate(m', DirectoryOf(m, chunk), a) == phys + (a - virt)
      {
        MappedTranslation(m', DirectoryOf(m, chunk), virt, phys, count, flags, a);
      }
    }
  }

  lemma MapToMaps(m: Mem, chunk: nat, virt: uint32, phys: uint32, count: nat, flags: nat)
    requires SpaceOk(m, chunk) && flags < PAGE_SIZE
    requires virt % PAGE_SIZE == 0 && phys % PAGE_SIZE == 0 && phys + PAGE_SIZE * count < RAM_SIZE
    ensures var (m', res) := MapTo(m, chunk, virt, phys, phys + PAGE_SIZE * count, flags);
            res == 0 && OnlyTables(m, m', chunk) && Mapped(m, m', chunk, virt / PAGE_SIZE, phys, count, flags)
  {
    hide MapRange, Mapped, OnlyTables, SpaceOk;
    MapToTranslation(m, chunk, virt, phys, phys + PAGE_SIZE * count, flags);
  }

  lemma MappedTranslation(m: Mem, dir: nat, virt: uint32, phys: uint32, count: nat, flags: nat, a: uint32)
    requires dir + PAGE_SIZE <= RAM_SIZE && flags < PAGE_SIZE
    requires virt % PAGE_SIZE == 0 && phys % PAGE_SIZE == 0 && phys + PAGE_SIZE * count <= RAM_SIZE
    requires virt <= a < virt + PAGE_SIZE * count
    requires var d := PagesAfter(virt / PAGE_SIZE, a / PAGE_SIZE);
             d < count ==> PageEntry(m, dir, a / PAGE_SIZE) == phys + PAGE_SIZE * d + flags
    ensures Translate(m, dir, a) == phys + (a - virt)
  {
    hide PageEntry, FrameOf;
    var d := a / PAGE_SIZE - virt / PAGE_SIZE;
    assert 0 <= d < count;
    assert PagesAfter(virt / PAGE_SIZE, a / PAGE_SIZE) == d;
    FrameOfSum(phys + PAGE_SIZE * d, flags);
  }

  lemma FrameOfSum(a: nat, flags: nat)
    requires a % PAGE_SIZE == 0 && flags < PAGE_SIZE && a + flags < RAM_SIZE
    ensures FrameOf(a + flags) == a && (a + flags) % PAGE_SIZE == flags
    ensures (a + flags) / PAGE_SIZE == a / PAGE_SIZE
  {
    assert a == PAGE_SIZE * (a / PAGE_SIZE);
  }

  lemma FlagBits(a: nat, flags: nat)
    requires a % PAGE_SIZE == 0 && flags < PAGE_SIZE && a + flags < RAM_SIZE
    ensures IsPresent(a + flags) <==> flags % 2 == 1
    ensures IsWriteable(a + flags) <==> flags / 2 % 2 == 1
    ensures IsUser(a + flags) <==> flags / 4 % 2 == 1
  {
    assert a == 8 * (512 * (a / PAGE_SIZE));
    LowBits(512 * (a / PAGE_SIZE), flags);
  }

  lemma LowBits(q: nat, flags: nat)
    ensures (8 * q + flags) % 2 == flags % 2
    ensures (8 * q + flags) / 2 % 2 == flags / 2 % 2
    ensures (8 * q + flags) / 4 % 2 == flags / 4 % 2
  {
    assert (8 * q + flags) / 2 == 4 * q + flags / 2;
    assert (8 * q + flags) / 4 == 2 * q + flags / 4;
  }

  /** The page of `a` is there for user code, and writeable or not as `writeable` says. */
  ghost predicate OpenAt(m: Mem, dir: nat, a: uint32, writeable: bool)
    requires dir + PAGE_SIZE <= RAM_SIZE
  {
    var entry := PageEntry(m, dir, a / PAGE_SIZE);
    IsPresent(entry) && IsUser(entry) && (IsWriteable(entry) <==> writeable)
  }

  /** User code sees the n bytes from `p` on at `lo`, and can write them or not. */
  ghost predicate ShowsRange(m: Mem, dir: nat, lo: nat, n: nat, p: int, writeable: bool)
    requires dir + PAGE_SIZE <= RAM_SIZE
  {
    forall a: uint32 :: lo <= a < lo + n ==>
      Translate(m, dir, a) == p + (a - lo) && OpenAt(m, dir, a, writeable)
  }

  lemma EntryShows(m: Mem, dir: nat, a: uint32, frame: nat, flags: nat)
    requires dir + PAGE_SIZE <= RAM_SIZE && frame % PAGE_SIZE == 0 && frame + PAGE_SIZE <= RAM_SIZE
    requires flags < PAGE_SIZE && flags % 2 == 1 && flags / 4 % 2 == 1
    requires PageEntry(m, dir, a / PAGE_SIZE) == frame + flags
    ensures Translate(m, dir, a) == frame + a % PAGE_SIZE && OpenAt(m, dir, a, flags / 2 % 2 == 1)
  {
    hide PageEntry, FrameOf, IsPresent, IsUser, IsWriteable;
    FrameOfSum(frame, flags);
    FlagBits(frame, flags);
  }

  /** What paging_map_to maps for users is there for user code. */
  lemma MapToShows(m: Mem, chunk: nat, virt: uint32, phys: uint32, physEnd: uint32, flags: nat)
    requires SpaceOk(m, chunk) && flags < PAGE_SIZE && flags % 2 == 1 && flags / 4 % 2 == 1
    requires MapTo(m, chunk, virt, phys, physEnd, flags).1 == 0 && phys <= physEnd
    ensures DirectoryOf(m, chunk) + PAGE_SIZE <= RAM_SIZE
    ensures ShowsRange(MapTo(m, chunk, virt, phys, physEnd, flags).0, DirectoryOf(m, chunk), virt, physEnd - phys, phys,
                       flags / 2 % 2 == 1)
  {
    hide MapTo, SpaceOk, OnlyTables, Load32, PageEntry, Mapped, Translate, OpenAt;
    DirectoryFits(m, chunk);
    MapToTranslation(m, chunk, virt, phys, physEnd, flags);
    var m', dir := MapTo(m, chunk, virt, phys, physEnd, flags).0, DirectoryOf(m, chunk);
    forall a: uint32 | virt <= a < virt + (physEnd - phys)
      ensures Translate(m', dir, a) == phys + (a - virt) && OpenAt(m', dir, a, flags / 2 % 2 == 1)
    {
      var frame := MappedFrame(m, m', chunk, virt, phys, physEnd, flags, a);
      EntryShows(m', dir, a, frame, flags);
    }
  }

  lemma MappedFrame(m: Mem, m': Mem, chunk: nat, virt: uint32, phys: uint32, physEnd: uint32, flags: nat, a: uint32)
    returns (frame: nat)
    requires chunk + 4 <= RAM_SIZE && DirectoryOf(m, chunk) + PAGE_SIZE <= RAM_SIZE
    requires virt % PAGE_SIZE == 0 && phys % PAGE_SIZE == 0 && physEnd % PAGE_SIZE == 0
    requires phys <= physEnd && virt <= a < virt + (physEnd - phys)
    requires Mapped(m, m', chunk, virt / PAGE_SIZE, phys, (physEnd - phys) / PAGE_SIZE, flags)
    ensures frame % PAGE_SIZE == 0 && frame + PAGE_SIZE <= RAM_SIZE
    ensures PageEntry(m', DirectoryOf(m, chunk), a / PAGE_SIZE) == frame + flags
  {
    hide Load32, PageEntry, OnlyTables;
    var d := a / PAGE_SIZE - virt / PAGE_SIZE;
    assert PagesAfter(virt / PAGE_SIZE, a / PAGE_SIZE) == d;
    frame := PAGE_SIZE * (phys / PAGE_SIZE + d);
  }
}
