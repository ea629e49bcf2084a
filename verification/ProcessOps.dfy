/** The process layer's operations in place: loops over the allocation slots and
    the program headers, writing page tables and heap table as they go. */
module ProcessOps {
  import opened Memory
  import opened HeapTable
  import H = Heap
  import opened KernelHeap
  import opened Paging
  import opened AddressSpace
  import opened Elf
  import opened Process
  import opened Tasks
  import opened Isolation
  import opened Steps
  import opened Terminate
  import GA = GetArguments
  import opened KernelOps

  lemma SlotIs(slots: seq<Slot>, ptr: uint32, i: nat)
    requires i <= |slots| && forall j :: 0 <= j < i ==> slots[j].ptr != ptr
    requires i < |slots| ==> slots[i].ptr == ptr
    ensures SlotOf(slots, ptr) == i
  {
  }

  /** A process as the kernel keeps it: its slots are an array in the structure. */
  class ProcessObject {
    const kernel: Kernel
    const slots: array<Slot>
    var program: Program
    var image: uint32
    var imageSize: uint32
    var stack: uint32
    var task: uint32
    var chunk: uint32

    constructor (kernel: Kernel, program: Program, image: uint32, imageSize: uint32, stack: uint32, task: uint32,
                 chunk: uint32)
      ensures fresh(slots) && slots.Length == MAX_ALLOCATIONS && this.kernel == kernel
      ensures forall j :: 0 <= j < slots.Length ==> slots[j] == EMPTY
      ensures this.program == program && this.image == image && this.imageSize == imageSize
      ensures this.stack == stack && this.task == task && this.chunk == chunk
    {
      this.kernel := kernel;
      slots := new Slot[MAX_ALLOCATIONS](i => EMPTY);
      this.program, this.image, this.imageSize := program, image, imageSize;
      this.stack, this.task, this.chunk := stack, task, chunk;
    }

    ghost predicate Valid()
      reads this, kernel, kernel.heap
    {
      kernel.Valid() && slots.Length == MAX_ALLOCATIONS
    }

    ghost function Contents(): Mem
      requires Valid()
      reads this, kernel, kernel.heap, kernel.ram
    {
      kernel.Contents()
    }

    /** The process as a value. */
    ghost function Value(struct: uint32): Proc
      reads this, slots
    {
      Proc(struct, program, image, imageSize, stack, task, chunk, slots[..])
    }

    /** process_find_free_allocation_index. */
    method FindFreeAllocationIndex() returns (index: int)
      requires Valid()
      ensures index == if SlotOf(slots[..], 0) == slots.Length then -ENOMEM else SlotOf(slots[..], 0)
    {
      index := -ENOMEM;
      var i := 0;
      while i < slots.Length
        invariant 0 <= i <= slots.Length
        invariant forall j :: 0 <= j < i ==> slots[..][j].ptr != 0
      {
        if slots[i].ptr == 0 {
          SlotIs(slots[..], 0, i);
          return i;
        }
        i := i + 1;
      }
      SlotIs(slots[..], 0, i);
    }

    /** process_get_allocation_by_addr; process_is_process_pointer asks the same of the slots. */
    method AllocationIndex(ptr: uint32) returns (index: int)
      requires Valid()
      ensures index == if SlotOf(slots[..], ptr) == slots.Length then -1 else SlotOf(slots[..], ptr)
    {
      index := -1;
      var i := 0;
      while i < slots.Length
        invariant 0 <= i <= slots.Length
        invariant forall j :: 0 <= j < i ==> slots[..][j].ptr != ptr
      {
        if slots[i].ptr == ptr {
          SlotIs(slots[..], ptr, i);
          return i;
        }
        i := i + 1;
      }
      SlotIs(slots[..], ptr, i);
    }

    /** process_unjoin_allocation_array. */
    method UnjoinAllocation(ptr: uint32)
      requires Valid()
      modifies slots
      ensures slots[..] == Unjoin(old(slots[..]), ptr)
    {
      for i := 0 to slots.Length
        invariant forall j :: 0 <= j < i ==>
                    slots[j] == if old(slots[j]).ptr == ptr then EMPTY else old(slots[j])
        invariant forall j :: i <= j < slots.Length ==> slots[j] == old(slots[j])
      {
        if slots[i].ptr == ptr {
          slots[i] := EMPTY;
        }
      }
    }

    /** process_malloc. */
    method Malloc(size: uint32) returns (ptr: nat)
      requires Valid() && WellFormed(Table(Contents())) && LiveSpace(Contents(), chunk)
      modifies kernel.ram, slots
      ensures (Contents(), slots[..], ptr) == ProcessMalloc(old(Contents()), chunk, old(slots[..]), size)
    {
      hide Load32, KernelHeap.Kzalloc, KernelHeap.Kfree, SpaceOk, SameSpacePages, Paging.MapTo, WellFormed, LiveSpace,
        SlotOf, Table;
      CanMallocFrom(Contents(), chunk, size);
      var p := kernel.Kzalloc(size);
      if p == 0 {
        return 0;
      }
      var index := FindFreeAllocationIndex();
      if index < 0 {
        kernel.Kfree(p);
        return 0;
      }
      var res := kernel.MapTo(chunk, p, p, AlignUp((p + size) % RAM_SIZE), USER_FLAGS);
      if res < 0 {
        kernel.Kfree(p);
        return 0;
      }
      slots[index] := Slot(p, size);
      ptr := p;
    }

    /** The system call around process_get_arguments. */
    method GetArguments(a: uint32, argc: uint32, argv: uint32)
      requires Valid() && SpaceOk(Contents(), chunk)
      modifies kernel.ram
      ensures Paging.PhysicalAddress(old(Contents()), DirectoryOf(old(Contents()), chunk), a) < RAM_SIZE
      ensures Contents() == SpliceRound(old(Contents()),
                              Paging.PhysicalAddress(old(Contents()), DirectoryOf(old(Contents()), chunk), a),
                              GA.ArgumentBytes(argc, argv))
    {
      hide Load32, Paging.PhysicalAddress, SpliceRound, Bytes32, SpaceOk;
      DirectoryFits(Contents(), chunk);
      var dir := ReadWord(kernel.ram, chunk);
      GA.PhysicalFits(Contents(), dir, a);
      var p := kernel.PhysicalAddress(dir, a);
      SplicedTwice(Contents(), p, Bytes32(argc), Bytes32(argv));
      WriteWordRound(kernel.ram, p, argc);
      WriteWordRound(kernel.ram, Round(p, 4), argv);
    }

    /** process_free. */
    method Free(ptr: uint32)
      requires Valid() && SpaceOk(Contents(), chunk) && SlotsFreeable(slots[..])
      modifies kernel.ram, slots
      ensures (Contents(), slots[..]) == ProcessFree(old(Contents()), chunk, old(slots[..]), ptr)
    {
      hide Load32, KernelHeap.Kfree, SpaceOk, Paging.MapTo, SlotOf;
      var index := AllocationIndex(ptr);
      if index < 0 {
        return;
      }
      assert Freeable(slots[..][index].ptr);
      var a := slots[index];
      var res := kernel.MapTo(chunk, a.ptr, a.ptr, AlignUp((a.ptr + a.size) % RAM_SIZE), 0);
      if res < 0 {
        return;
      }
      UnjoinAllocation(ptr);
      kernel.Kfree(ptr);
    }

    /** process_terminate_allocations. */
    method TerminateAllocations()
      requires Valid() && SpaceOk(Contents(), chunk) && SlotsFreeable(slots[..])
      modifies kernel.ram, slots
      ensures (Contents(), slots[..]) == FreeSlots(old(Contents()), chunk, old(slots[..]), 0)
    {
      hide Load32, SpaceOk, ProcessFree, SlotsFreeable;
      for i := 0 to slots.Length
        invariant SpaceOk(Contents(), chunk) && SlotsFreeable(slots[..])
        invariant FreeSlots(Contents(), chunk, slots[..], i) == FreeSlots(old(Contents()), chunk, old(slots[..]), 0)
      {
        Free(slots[i].ptr);
      }
    }

    /** process_free_program_data, the stack, and task_free's page tables. */
    method FreeData()
      requires Valid() && SpaceOk(Contents(), chunk)
      requires forall i :: 0 <= i < |ProgramPointers(program, image, stack)| ==>
                 Freeable(ProgramPointers(program, image, stack)[i])
      modifies kernel.ram
      ensures Contents() == BeforeUnlist(old(Contents()), program, image, stack, chunk)
    {
      hide Load32, SpaceOk, KernelHeap.Kfree, AddressSpace.Free4gb;
      ghost var m, ptrs := Contents(), ProgramPointers(program, image, stack);
      KfreeAllSparesSpace(m, ptrs, chunk);
      assert ptrs[..0] == [];
      FreeNone(m);
      FreeNext(m, ptrs, 0);
      FreeNext(m, ptrs, 1);
      assert Freeable(ptrs[0]) && Freeable(ptrs[1]) && Freeable(ptrs[|ptrs| - 1]);
      kernel.Kfree(image);
      match program {
        case ElfProgram(file, _) =>
          kernel.Kfree(file);
          FreeNext(m, ptrs, 2);
          kernel.Kfree(stack);
          assert ptrs[..3] == ptrs;
        case BinaryProgram =>
          kernel.Kfree(stack);
          assert ptrs[..2] == ptrs;
      }
      kernel.Free4gb(chunk);
    }

    /** process_terminate. */
    method Terminate(scheduler: Scheduler)
      requires Valid() && scheduler.ram == kernel.ram && CanExit(Contents(), Value(0))
      modifies kernel.ram, slots, scheduler
      ensures CanTerminate(old(Contents()), old(Value(0)))
      ensures Contents() == TerminateMemory(old(Contents()), old(Value(0)))
      ensures scheduler.Globals()
           == RingWithout(Unlist(BeforeExit(old(Contents()), old(Value(0))), task), old(scheduler.Globals()), task)
    {
      hide Load32, SpaceOk, FreeSlots, BeforeUnlist, KernelHeap.Kfree, Unlist, RingWithout, PrevOf;
      TerminateAllocations();
      FreeData();
      scheduler.ListRemove(task);
      kernel.Kfree(task);
    }

    /** process_map_elf. */
    method MapElf(headers: seq<ProgramHeader>) returns (res: int)
      requires Valid() && SpaceOk(Contents(), chunk)
      modifies kernel.ram
      ensures (Contents(), res) == Elf.MapElf(old(Contents()), chunk, image, headers)
    {
      hide Load32, SpaceOk, Paging.MapTo, AlignUp, AlignDown;
      res := 0;
      assert headers[0..] == headers;
      for i := 0 to |headers|
        invariant SpaceOk(Contents(), chunk) && res == 0
        invariant Elf.MapElf(Contents(), chunk, image, headers[i..])
          == Elf.MapElf(old(Contents()), chunk, image, headers)
      {
        var ph := headers[i];
        assert headers[i..][0] == ph && headers[i..][1..] == headers[i + 1..];
        var phys := (image + ph.offset) % RAM_SIZE;
        var flags := PRESENT + ACCESS_FROM_ALL;
        if ph.flags / PF_W % 2 == 1 {
          flags := flags + WRITEABLE;
        }
        res := kernel.MapTo(chunk, AlignDown(ph.vaddr), AlignDown(phys), AlignUp((phys + ph.memsz) % RAM_SIZE), flags);
        if res < 0 {
          break;
        }
      }
    }

    /** process_map_memory. */
    method MapMemory() returns (res: int)
      requires Valid() && SpaceOk(Contents(), chunk)
      modifies kernel.ram
      ensures (Contents(), res) == Process.MapMemory(old(Contents()), chunk, program, image, imageSize, stack)
    {
      hide Load32, SpaceOk, Paging.MapTo, AlignUp, Elf.MapElf;
      match program {
        case ElfProgram(_, headers) =>
          res := MapElf(headers);
        case BinaryProgram =>
          var _ := kernel.MapTo(chunk, PROGRAM_ADDRESS, image, AlignUp((image + imageSize) % RAM_SIZE), USER_FLAGS);
          res := 0;
      }
      if res < 0 {
        return;
      }
      var _ := kernel.MapTo(chunk, STACK_END, stack, AlignUp((stack + STACK_SIZE) % RAM_SIZE), USER_FLAGS);
    }
  }
}
