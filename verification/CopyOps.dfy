/** copy_string_from_task in place, with the switch into the process's address
    space and back. */
module CopyOps {
  import opened Memory
  import opened HeapTable
  import opened Heap
  import opened KernelHeap
  import opened Paging
  import opened AddressSpace
  import opened Process
  import opened KernelOps
  import Bits
  import CS = CopyString

  /** The kernel's own chunk is an allocation, and none of the process's tables. */
  ghost predicate KernelChunkApart(m: Mem, chunk: nat, kernelChunk: nat) {
    && LiveSpace(m, chunk) && RunAt(m, Run(kernelChunk, 1))
    && forall i :: 0 <= i < TABLE_ENTRIES ==> TableAddress(m, DirectoryOf(m, chunk), i) != kernelChunk
  }

  class TaskMemory {
    const kernel: Kernel
    const kernelChunk: nat

    constructor (kernel: Kernel, kernelChunk: nat)
      ensures this.kernel == kernel && this.kernelChunk == kernelChunk
    {
      this.kernel, this.kernelChunk := kernel, kernelChunk;
    }

    /** Where the processor finds a byte while `directory` is loaded. */
    method Walk(directory: nat, a: uint32) returns (p: uint32)
      requires kernel.Valid() && directory + PAGE_SIZE <= RAM_SIZE
      ensures p == Translate(kernel.Contents(), directory, a)
    {
      hide Load32, Bits.BitAnd;
      var v := a / PAGE_SIZE;
      var entry := ReadWord(kernel.ram, directory + 4 * (v / TABLE_ENTRIES));
      var page := ReadWord(kernel.ram, FrameOf(entry) + 4 * (v % TABLE_ENTRIES));
      p := FrameOf(page) + a % PAGE_SIZE;
    }

    /** strncpy while a process's directory is loaded. */
    method StrncpyInSpace(dest: uint32, src: uint32, count: nat)
      requires kernel.Valid() && kernel.currentDirectory + PAGE_SIZE <= RAM_SIZE && count >= 1
      modifies kernel.ram
      ensures kernel.Contents()
           == CS.VirtualCopy(old(kernel.Contents()), kernel.currentDirectory, dest, src, count - 1, 0)
    {
      hide Translate;
      var dir := kernel.currentDirectory;
      var i := 0;
      while i < count - 1
        invariant 0 <= i <= count - 1 && kernel.currentDirectory == dir
        invariant CS.VirtualCopy(kernel.Contents(), dir, dest, src, count - 1, i)
               == CS.VirtualCopy(old(kernel.Contents()), dir, dest, src, count - 1, 0)
      {
        var from := Walk(dir, CS.At(src, i));
        if kernel.ram[from] == 0 {
          break;
        }
        var to := Walk(dir, CS.At(dest, i));
        kernel.ram[to] := kernel.ram[from];
        i := i + 1;
      }
      var to := Walk(dir, CS.At(dest, i));
      kernel.ram[to] := 0;
    }

    /** strncpy in kernel memory. */
    method StrncpyInKernel(dest: nat, src: nat, count: nat)
      requires kernel.Valid() && count >= 1 && dest + count <= RAM_SIZE && src + count <= RAM_SIZE
      modifies kernel.ram
      ensures kernel.Contents() == CS.PhysicalCopy(old(kernel.Contents()), dest, src, count - 1, 0)
    {
      var i := 0;
      while i < count - 1
        invariant 0 <= i <= count - 1
        invariant CS.PhysicalCopy(kernel.Contents(), dest, src, count - 1, i)
               == CS.PhysicalCopy(old(kernel.Contents()), dest, src, count - 1, 0)
      {
        if kernel.ram[src + i] == 0 {
          break;
        }
        kernel.ram[dest + i] := kernel.ram[src + i];
        i := i + 1;
      }
      kernel.ram[dest + i] := 0;
    }

    /** copy_string_from_task; a call that gets as far as the copy comes back with
        the kernel's directory loaded. */
    method CopyStringFromTask(chunk: nat, virt: uint32, phys: nat, max: int) returns (res: int)
      requires kernel.Valid() && WellFormed(Table(kernel.Contents()))
      requires KernelChunkApart(kernel.Contents(), chunk, kernelChunk) && CS.KernelBuffer(phys, max)
      modifies kernel.ram, kernel`currentDirectory
      ensures LiveSpace(old(kernel.Contents()), chunk)
      ensures (kernel.Contents(), res) == CS.CopyString(old(kernel.Contents()), chunk, virt, phys, max)
      ensures kernelChunk + 4 <= RAM_SIZE
      ensures kernel.currentDirectory
           == if res == 0 then DirectoryOf(old(kernel.Contents()), kernelChunk) else old(kernel.currentDirectory)
    {
      hide LiveSpace, WellFormed, IsRun, RunAt, Load32, PagingMap, PagingSet, PagingGet, KernelHeap.Kzalloc,
        KernelHeap.Kfree, Table, SpaceOk, CS.VirtualCopy, CS.PhysicalCopy, CS.CopyString, KernelChunkApart, Fits;
      ghost var m := kernel.Contents();
      ChunkApartTells(m, chunk, kernelChunk);
      if max >= PAGE_SIZE {
        CS.CopyRestores(m, chunk, virt, phys, max);
        return -EINVARG;
      }
      OneBlock(max);
      var tmp := kernel.Kzalloc(max);
      Granted(m, chunk, virt, phys, max, kernelChunk);
      if tmp == 0 {
        return -ENOMEM;
      }
      var taskDirectory := ReadWord(kernel.ram, chunk);
      var oldEntry := kernel.PagingGet(taskDirectory, tmp);
      var _ := kernel.PagingMap(chunk, tmp, tmp, USER_FLAGS);
      kernel.Switch(chunk);
      StrncpyInSpace(tmp, virt, max);
      kernel.Switch(kernelChunk);
      res := kernel.PagingSet(taskDirectory, tmp, oldEntry);
      if res < 0 {
        res := -CS.EIO;
      } else {
        StrncpyInKernel(phys, tmp, max);
      }
      kernel.Kfree(tmp);
    }
  }

  lemma ChunkApartTells(m: Mem, chunk: nat, kernelChunk: nat)
    requires KernelChunkApart(m, chunk, kernelChunk)
    ensures LiveSpace(m, chunk) && RunAt(m, Run(kernelChunk, 1))
    ensures chunk + 4 <= RAM_SIZE && DirectoryOf(m, chunk) + PAGE_SIZE <= RAM_SIZE && kernelChunk + 4 <= RAM_SIZE
  {
    RunBounds(m, Run(kernelChunk, 1));
    CS.LiveTells(m, chunk);
  }

  lemma Answered(m: Mem, max: int)
    requires 1 <= max < PAGE_SIZE && WellFormed(Table(m))
    ensures Kzalloc(m, max).1 != 0 <==> Fits(Table(m), 1)
    ensures Kzalloc(m, max).1 == 0 ==> Kzalloc(m, max).0 == m
  {
    OneBlock(max);
    if Fits(Table(m), 1) {
      KzallocFits(m, max);
    } else {
      if TrailingStart(Table(m)) < TOTAL_BLOCKS { CS.Steps.TailFits(Table(m), 1); }
      NoAnswer(m, max);
    }
  }

  lemma TableBeside(m: Mem, m1: Mem, chunk: nat, tmp: nat, i: nat)
    requires CS.Taken(m, m1, chunk, tmp) && i < TABLE_ENTRIES
    ensures SpaceOk(m1, chunk) && chunk + 4 <= RAM_SIZE && DirectoryOf(m, chunk) + PAGE_SIZE <= RAM_SIZE
    ensures TableAddress(m1, DirectoryOf(m, chunk), i) == TableAddress(m, DirectoryOf(m, chunk), i)
  {
    hide Load32, CS.SameEntries, WellFormed, IsRun, Take, FreeRun;
    var dir := DirectoryOf(m, chunk);
    CS.LiveTells(m, chunk);
    PagesApart(tmp, dir);
    LoadSame(m, m1, dir + 4 * i);
  }

  /** Neither the mapping nor the copy touches the kernel's own chunk. */
  lemma ChunkStays(m: Mem, m1: Mem, chunk: nat, tmp: nat, kernelChunk: nat, virt: uint32, n: nat)
    requires CS.Taken(m, m1, chunk, tmp) && KernelChunkApart(m, chunk, kernelChunk) && n < PAGE_SIZE
    ensures SpaceOk(m1, chunk) && chunk + 4 <= RAM_SIZE && kernelChunk + 4 <= RAM_SIZE && tmp + PAGE_SIZE <= RAM_SIZE
    ensures var dir := DirectoryOf(m1, chunk);
      && dir + PAGE_SIZE <= RAM_SIZE
      && var m2 := PagingMap(m1, chunk, tmp, tmp, USER_FLAGS).0;
      && DirectoryOf(m2, chunk) == dir
      && DirectoryOf(CS.VirtualCopy(m2, dir, tmp, virt, n, 0), kernelChunk) == DirectoryOf(m, kernelChunk)
      && PagingSet(CS.VirtualCopy(m2, dir, tmp, virt, n, 0), dir, tmp, PagingGet(m1, dir, tmp)).1 == 0
  {
    hide LiveSpace, WellFormed, IsRun, Load32, PagingMap, PagingSet, PagingGet, Table, SpaceOk, CS.VirtualCopy, Store32,
      FreeRun, Take, CS.SameEntries, CS.ApartFromSpace, CS.CopyState;
    ChunkApartTells(m, chunk, kernelChunk);
    RunBounds(m, Run(kernelChunk, 1));
    var i := tmp / PAGE_SIZE / TABLE_ENTRIES;
    TableBeside(m, m1, chunk, tmp, i);
    var dir := DirectoryOf(m1, chunk);
    NewRunApart(m, Run(kernelChunk, 1), BlockOf(tmp), 1);
    CS.BlockMapped(m1, chunk, tmp);
    CS.EntryRestored(m1, chunk, tmp, virt, n);
    var m2 := PagingMap(m1, chunk, tmp, tmp, USER_FLAGS).0;
    CS.VirtualConfined(m2, chunk, tmp, virt, n, 0);
    PagesApart(TableAddress(m1, dir, i), kernelChunk);
    StoreKeeps(m1, CS.EntryAddress(m1, dir, tmp / PAGE_SIZE), tmp + USER_FLAGS);
    LoadSame(m, CS.VirtualCopy(m2, dir, tmp, virt, n, 0), kernelChunk);
  }

  /** The states a granted call goes through. */
  lemma Granted(m: Mem, chunk: nat, virt: uint32, phys: nat, max: int, kernelChunk: nat)
    requires WellFormed(Table(m)) && KernelChunkApart(m, chunk, kernelChunk) && CS.KernelBuffer(phys, max)
    requires max < PAGE_SIZE
    ensures LiveSpace(m, chunk) && chunk + 4 <= RAM_SIZE && kernelChunk + 4 <= RAM_SIZE
    ensures Kzalloc(m, max).1 == 0 ==>
      Kzalloc(m, max).0 == m && CS.CopyString(m, chunk, virt, phys, max) == (m, -ENOMEM)
    ensures Kzalloc(m, max).1 != 0 ==>
      var (m1, tmp) := Kzalloc(m, max);
      && SpaceOk(m1, chunk) && tmp + PAGE_SIZE <= RAM_SIZE && Freeable(tmp)
      && var dir := DirectoryOf(m1, chunk);
      && dir + PAGE_SIZE <= RAM_SIZE
      && var m2 := PagingMap(m1, chunk, tmp, tmp, USER_FLAGS).0;
      && DirectoryOf(m2, chunk) == dir
      && var m3 := CS.VirtualCopy(m2, dir, tmp, virt, max - 1, 0);
      && DirectoryOf(m3, kernelChunk) == DirectoryOf(m, kernelChunk)
      && var (m4, res) := PagingSet(m3, dir, tmp, PagingGet(m1, dir, tmp));
      && res == 0
      && CS.CopyString(m, chunk, virt, phys, max) == (Kfree(CS.PhysicalCopy(m4, phys, tmp, max - 1, 0), tmp), 0)
  {
    hide LiveSpace, WellFormed, IsRun, RunAt, Load32, PagingMap, PagingSet, PagingGet, KernelHeap.Kzalloc, ENOMEM,
      KernelHeap.Kfree, Table, SpaceOk, CS.VirtualCopy, CS.PhysicalCopy, CS.CopyString, KernelChunkApart, Fits,
      CS.Block;
    ChunkApartTells(m, chunk, kernelChunk);
    Answered(m, max);
    if Fits(Table(m), 1) {
      var m1, m4 := CS.CopyGranted(m, chunk, virt, phys, max);
      ChunkStays(m, m1, chunk, CS.Block(m), kernelChunk, virt, max - 1);
    } else {
      CS.CopyRefused(m, chunk, virt, phys, max);
    }
  }
}
