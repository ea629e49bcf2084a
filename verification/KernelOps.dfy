/** The kernel's memory operations, in place on physical memory. Each one is
    proved to do to memory what its specification function says. */
module KernelOps {
  import Bits
  import opened Memory
  import opened HeapTable
  import H = Heap
  import opened KernelHeap
  import opened Paging
  import opened AddressSpace

  class Kernel {
    const ram: array<byte>
    const heap: H.Heap
    var currentDirectory: nat

    constructor (heap: H.Heap)
      ensures this.heap == heap && ram == heap.ram
    {
      this.heap, ram, currentDirectory := heap, heap.ram, 0;
    }

    ghost predicate Valid()
      reads this, heap
    {
      && heap.ram == ram && ram.Length == RAM_SIZE
      && heap.entries == TABLE_ADDRESS && heap.total == TOTAL_BLOCKS && heap.saddr == HEAP_ADDRESS
    }

    ghost function Contents(): Mem
      requires ram.Length == RAM_SIZE
      reads ram
    {
      ram[..]
    }

    method Kzalloc(size: uint32) returns (p: nat)
      requires Valid()
      modifies ram
      ensures (Contents(), p) == KernelHeap.Kzalloc(old(Contents()), size)
    {
      p := heap.Malloc(size);
      if p == 0 {
        return;
      }
      ClearBytes(ram, p, size);
    }

    method Kfree(ptr: uint32)
      requires Valid() && Freeable(ptr)
      modifies ram
      ensures Contents() == KernelHeap.Kfree(old(Contents()), ptr)
    {
      heap.Free(ptr);
    }

    // ---- paging.c ----

    /** paging_switch. */
    method Switch(chunk: nat)
      requires Valid() && chunk + 4 <= RAM_SIZE
      modifies `currentDirectory
      ensures currentDirectory == DirectoryOf(Contents(), chunk)
    {
      currentDirectory := ReadWord(ram, chunk);
    }

    method PagingSet(directory: nat, virt: uint32, val: uint32) returns (res: int)
      requires Valid() && directory + PAGE_SIZE <= RAM_SIZE
      modifies ram
      ensures (Contents(), res) == Paging.PagingSet(old(Contents()), directory, virt, val)
    {
      hide Load32, Store32, Bits.BitAnd;
      if virt % PAGE_SIZE != 0 {
        return -H.EINVARG;
      }
      var directoryIndex := virt / (TABLE_ENTRIES * PAGE_SIZE);
      var tableIndex := virt % (TABLE_ENTRIES * PAGE_SIZE) / PAGE_SIZE;
      Indexes(virt);
      var entry := ReadWord(ram, directory + 4 * directoryIndex);
      Masks(entry);
      var table := Bits.BitAnd(entry, 0xffff_f000);
      WriteWord(ram, table + 4 * tableIndex, val);
      res := 0;
    }

    method PagingGet(directory: nat, virt: uint32) returns (entry: uint32)
      requires Valid() && directory + PAGE_SIZE <= RAM_SIZE
      ensures entry == Paging.PagingGet(Contents(), directory, virt)
    {
      hide Load32, Bits.BitAnd;
      var directoryIndex, tableIndex := 0, 0;
      if virt % PAGE_SIZE == 0 {
        directoryIndex := virt / (TABLE_ENTRIES * PAGE_SIZE);
        tableIndex := virt % (TABLE_ENTRIES * PAGE_SIZE) / PAGE_SIZE;
        Indexes(virt);
      }
      var link := ReadWord(ram, directory + 4 * directoryIndex);
      Masks(link);
      var table := Bits.BitAnd(link, 0x0fff_f000);
      entry := ReadWord(ram, table + 4 * tableIndex);
    }

    method PagingMap(chunk: nat, virt: uint32, phys: uint32, flags: nat) returns (res: int)
      requires Valid() && SpaceOk(Contents(), chunk) && flags < PAGE_SIZE
      modifies ram
      ensures (Contents(), res) == Paging.PagingMap(old(Contents()), chunk, virt, phys, flags)
    {
      hide Load32, Paging.PagingSet, Bits.BitOr;
      if virt % PAGE_SIZE != 0 || phys % PAGE_SIZE != 0 {
        return -H.EINVARG;
      }
      Bits.PageFlags(phys, flags);
      var directory := ReadWord(ram, chunk);
      res := PagingSet(directory, virt, Bits.BitOr(phys, flags));
    }

    method MapRange(chunk: nat, virt: uint32, phys: uint32, count: nat, flags: nat) returns (res: int)
      requires Valid() && (count > 0 ==> SpaceOk(Contents(), chunk)) && flags < PAGE_SIZE
      modifies ram
      ensures (Contents(), res) == Paging.MapRange(old(Contents()), chunk, virt, phys, count, flags)
    {
      hide Paging.PagingMap, SpaceOk;
      res := 0;
      var v: uint32, p: uint32 := virt, phys;
      for i := 0 to count
        invariant (i < count ==> SpaceOk(Contents(), chunk)) && res == 0
        invariant Paging.MapRange(Contents(), chunk, v, p, count - i, flags)
               == Paging.MapRange(old(Contents()), chunk, virt, phys, count, flags)
      {
        res := PagingMap(chunk, v, p, flags);
        if res < 0 {
          break;
        }
        v, p := (v + PAGE_SIZE) % RAM_SIZE, (p + PAGE_SIZE) % RAM_SIZE;
      }
    }

    method MapTo(chunk: nat, virt: uint32, phys: uint32, physEnd: uint32, flags: nat) returns (res: int)
      requires Valid() && (physEnd > phys ==> SpaceOk(Contents(), chunk)) && flags < PAGE_SIZE
      modifies ram
      ensures (Contents(), res) == Paging.MapTo(old(Contents()), chunk, virt, phys, physEnd, flags)
    {
      hide Paging.MapRange, SpaceOk, Load32;
      if virt % PAGE_SIZE != 0 {
        return -H.EINVARG;
      }
      if phys % PAGE_SIZE != 0 {
        return -H.EINVARG;
      }
      if physEnd % PAGE_SIZE != 0 {
        return -H.EINVARG;
      }
      if physEnd < phys {
        return -H.EINVARG;
      }
      var totalBytes := physEnd - phys;
      res := MapRange(chunk, virt, phys, totalBytes / PAGE_SIZE, flags);
    }

    method PhysicalAddress(directory: nat, virt: uint32) returns (p: nat)
      requires Valid() && directory + PAGE_SIZE <= RAM_SIZE
      ensures p == Paging.PhysicalAddress(Contents(), directory, virt)
    {
      var lower := AlignDown(virt);
      var entry := PagingGet(directory, lower);
      Masks(entry);
      p := Bits.BitAnd(entry, 0xffff_f000) + (virt - lower);
    }

    /** The inner loop of paging_new_4gb. */
    method FillTable(entry: nat, i: nat, offset: nat, flags: nat)
      requires Valid() && entry + PAGE_SIZE <= RAM_SIZE && i < TABLE_ENTRIES && flags < 256
      requires offset == i * TABLE_ENTRIES * PAGE_SIZE
      modifies ram
      ensures Contents() == AddressSpace.FillTable(old(Contents()), entry, i, 0, flags)
    {
      hide Store32, Bits.BitOr;
      for b := 0 to TABLE_ENTRIES
        invariant AddressSpace.FillTable(Contents(), entry, i, b, flags)
               == AddressSpace.FillTable(old(Contents()), entry, i, 0, flags)
      {
        Bits.PageFlags(offset + b * PAGE_SIZE, flags);
        WriteWord(ram, entry + 4 * b, Bits.BitOr(offset + b * PAGE_SIZE, flags));
      }
    }

    method New4gb(flags: nat) returns (chunk: nat)
      requires Valid() && flags < 256
      modifies ram
      ensures (Contents(), chunk) == AddressSpace.New4gb(old(Contents()), flags)
    {
      hide KernelHeap.Kzalloc, Store32, AddressSpace.FillTable, Bits.BitOr;
      var directory := Kzalloc(PAGE_SIZE);
      ghost var m1 := Contents();
      var offset := 0;
      for i := 0 to TABLE_ENTRIES
        invariant offset == i * TABLE_ENTRIES * PAGE_SIZE
        invariant NewTables(Contents(), directory, i, flags) == NewTables(m1, directory, 0, flags)
      {
        var entry := Kzalloc(PAGE_SIZE);
        FillTable(entry, i, offset, flags);
        offset := offset + TABLE_ENTRIES * PAGE_SIZE;
        LinkFlagsOr(entry, flags);
        WriteWord(ram, directory + 4 * i, Bits.BitOr(Bits.BitOr(entry, flags), WRITEABLE));
      }
      chunk := Kzalloc(4);
      WriteWord(ram, chunk, directory);
    }

    method Free4gb(chunk: nat)
      requires Valid() && SpaceOk(Contents(), chunk)
      modifies ram
      ensures Contents() == AddressSpace.Free4gb(old(Contents()), chunk)
    {
      hide Load32, Bits.BitAnd, KernelHeap.Kfree, KfreeAll;
      ghost var m := Contents();
      ghost var ptrs := SpacePointers(m, chunk);
      SpaceFreeable(m, chunk);
      assert KfreeAll(m, ptrs[..0]) == m by { FreeNone(m); }
      for i := 0 to TABLE_ENTRIES
        invariant Contents() == KfreeAll(m, ptrs[..i]) && SameOutsideTable(m, Contents())
      {
        SpaceReadsStay(m, Contents(), chunk);
        var directory := ReadWord(ram, chunk);
        var entry := ReadWord(ram, directory + 4 * i);
        Masks(entry);
        FreeNext(m, ptrs, i);
        KfreeTouchesTable(Contents(), ptrs[i]);
        Kfree(Bits.BitAnd(entry, 0xffff_f000));
      }
      SpaceReadsStay(m, Contents(), chunk);
      var directory := ReadWord(ram, chunk);
      FreeNext(m, ptrs, TABLE_ENTRIES);
      KfreeTouchesTable(Contents(), directory);
      Kfree(directory);
      FreeNext(m, ptrs, TABLE_ENTRIES + 1);
      Kfree(chunk);
      assert ptrs[..SPACE_BLOCKS] == ptrs;
    }
  }

  lemma Indexes(virt: uint32)
    ensures virt / (TABLE_ENTRIES * PAGE_SIZE) == virt / PAGE_SIZE / TABLE_ENTRIES < TABLE_ENTRIES
    ensures virt % (TABLE_ENTRIES * PAGE_SIZE) / PAGE_SIZE == virt / PAGE_SIZE % TABLE_ENTRIES < TABLE_ENTRIES
  {
  }

  /** entry | flags | PAGING_IS_WRITEABLE. */
  lemma LinkFlagsOr(entry: nat, flags: nat)
    requires entry % PAGE_SIZE == 0 && flags < 256
    ensures Bits.BitOr(Bits.BitOr(entry, flags), WRITEABLE) == entry + LinkFlags(flags)
  {
    hide Bits.BitOr;
    Bits.PageFlags(entry, flags);
    Bits.OrBit1(entry + flags);
    PageHalf(entry / PAGE_SIZE, flags);
  }

  /** The second bit of a page address and flags is that of the flags. */
  lemma PageHalf(page: nat, flags: nat)
    ensures (PAGE_SIZE * page + flags) / 2 % 2 == flags / 2 % 2
  {
    HalfOfSum(2048 * page, flags);
    LowBit(1024 * page, flags / 2);
  }

  lemma HalfOfSum(a: nat, f: nat)
    ensures (2 * a + f) / 2 == a + f / 2
  {
  }

  lemma LowBit(a: nat, f: nat)
    ensures (2 * a + f) % 2 == f % 2
  {
  }

  lemma FreeNone(m: Mem)
    ensures KfreeAll(m, []) == m
  {
  }

  lemma FreeNext(m: Mem, ptrs: seq<uint32>, i: nat)
    requires i < |ptrs| && forall j :: 0 <= j < |ptrs| ==> Freeable(ptrs[j])
    ensures KfreeAll(m, ptrs[..i + 1]) == Kfree(KfreeAll(m, ptrs[..i]), ptrs[i])
  {
    assert ptrs[..i + 1] == ptrs[..i] + [ptrs[i]];
    KfreeAllSnoc(m, ptrs[..i], ptrs[i]);
  }

  /** Reading chunk and directory again after frees gives the same pointers. */
  lemma SpaceReadsStay(m: Mem, m': Mem, chunk: nat)
    requires SpaceOk(m, chunk) && SameOutsideTable(m, m')
    ensures DirectoryOf(m', chunk) == DirectoryOf(m, chunk)
    ensures forall i :: 0 <= i < TABLE_ENTRIES ==>
              DirectoryEntry(m', DirectoryOf(m, chunk), i) == DirectoryEntry(m, DirectoryOf(m, chunk), i)
  {
    hide Load32;
    LoadSame(m, m', chunk);
    var dir := DirectoryOf(m, chunk);
    forall i | 0 <= i < TABLE_ENTRIES ensures DirectoryEntry(m', dir, i) == DirectoryEntry(m, dir, i) {
      LoadSame(m, m', dir + 4 * i);
    }
  }
}
