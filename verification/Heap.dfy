/** The block heap: first-fit allocation and chain-following free, in place on
    the table bytes in physical memory. */
module Heap {
  import Bits
  import opened Memory
  import opened HeapTable

  const EINVARG := 2
  const BLOCK_SIZE := 4096

  // ---- Specification: what each operation does to memory ----

  function TableAt(m: Mem, entries: nat, total: nat): (t: seq<byte>)
    requires entries + total <= RAM_SIZE
    ensures |t| == total
  {
    m[entries..entries + total]
  }

  /** The size rounded up to whole blocks, in 32-bit arithmetic: the last 4095
      values wrap around to zero. */
  function AlignUpper(size: uint32): (r: uint32)
    ensures r % BLOCK_SIZE == 0
    ensures size <= 0xffff_f000 ==> size <= r < size + BLOCK_SIZE
    ensures size > 0xffff_f000 ==> r == 0
  {
    if size % BLOCK_SIZE == 0 then size
    else (size - size % BLOCK_SIZE + BLOCK_SIZE) % RAM_SIZE
  }

  function BlocksFor(size: uint32): (n: nat)
    ensures n <= 0xf_ffff
  {
    AlignUpper(size) / BLOCK_SIZE
  }

  function MallocIn(m: Mem, saddr: nat, entries: nat, total: nat, size: uint32): (r: (Mem, nat))
    requires entries + total + 0x10_0000 <= RAM_SIZE
  {
    var n := BlocksFor(size);
    var s := StartBlock(TableAt(m, entries, total), n);
    if s < 0 then (m, 0)
    else (Splice(m, entries + s, RunBytes(n)), saddr + s * BLOCK_SIZE)
  }

  /** C's signed division: it truncates towards zero. */
  function TruncDiv(a: int, b: int): int
    requires b > 0
  {
    if a >= 0 then a / b else -(-a / b)
  }

  function AddressToBlock(saddr: nat, ptr: uint32): int {
    TruncDiv(Signed(ptr - saddr), BLOCK_SIZE)
  }

  /** A heap address leads to the block it lies in; below the heap the division goes
      towards zero, so that addresses up to a block below still count as block 0. */
  lemma BlockOfAddress(saddr: uint32, ptr: uint32, k: int)
    requires -0x8000_0000 <= (ptr - saddr) as int < 0x8000_0000
    ensures saddr <= ptr ==>
      (AddressToBlock(saddr, ptr) == k <==> 0 <= ptr - saddr - 4096 * k < 4096)
    ensures ptr <= saddr ==>
      (AddressToBlock(saddr, ptr) == k <==> 0 <= saddr - ptr + 4096 * k < 4096)
  {
  }

  function FreeIn(m: Mem, saddr: nat, entries: nat, total: nat, ptr: uint32): (r: Mem)
    requires entries + total <= RAM_SIZE
    requires entries + AddressToBlock(saddr, ptr) >= 0
  {
    ClearChain(m, entries + AddressToBlock(saddr, ptr), entries + total)
  }

  // ---- The operations ----

  lemma EntryFlags()
    ensures Bits.BitOr(IS_FIRST, ENTRY_TAKEN) == 0x41 && Bits.BitOr(HAS_NEXT, 0x41) == 0xC1
    ensures Bits.BitOr(HAS_NEXT, ENTRY_TAKEN) == 0x81
  {
    hide Bits.BitOr;
    Bits.OrFlagBits(ENTRY_TAKEN);
    Bits.OrFlagBits(0x41);
  }

  class Heap {
    const ram: array<byte>
    var entries: nat
    var total: nat
    var saddr: nat

    constructor (ram: array<byte>, entries: nat, total: nat)
      ensures this.ram == ram && this.entries == entries && this.total == total
    {
      this.ram := ram;
      this.entries, this.total, this.saddr := entries, total, 0;
    }

    /** The table, and as many bytes after it as the largest request has blocks, are memory. */
    ghost predicate Valid()
      reads this
    {
      ram.Length == RAM_SIZE && entries + total + 0x10_0000 <= RAM_SIZE
    }

    ghost function Contents(): Mem
      requires ram.Length == RAM_SIZE
      reads ram
    {
      ram[..]
    }

    ghost function Table(): seq<byte>
      requires Valid()
      reads this, ram
    {
      TableAt(Contents(), entries, total)
    }

    /** heap_create. */
    method Create(ptr: uint32, end: uint32) returns (res: int)
      requires Valid()
      modifies this, ram
      ensures entries == old(entries) && total == old(total)
      ensures res == 0 <==>
        ptr % BLOCK_SIZE == 0 && end % BLOCK_SIZE == 0 && (end - ptr) % RAM_SIZE == total * BLOCK_SIZE
      ensures res == 0 ==> saddr == ptr && Contents() == Zero(old(Contents()), entries, total)
      ensures res == 0 ==> WellFormed(Table()) && forall s, n :: !IsRun(Table(), s, n)
      ensures res != 0 ==> res == -EINVARG && Contents() == old(Contents())
    {
      res := 0;
      if ptr % BLOCK_SIZE != 0 || end % BLOCK_SIZE != 0 {
        return -EINVARG;
      }
      saddr := ptr;
      if total != (end - ptr) % RAM_SIZE / BLOCK_SIZE {
        return -EINVARG;
      }
      ZeroBytes(ram, entries, total);
      AllFreeNoRuns(Table());
    }

    /** heap_get_start_block. */
    method GetStartBlock(n: nat) returns (r: int)
      requires Valid()
      ensures r == StartBlock(Table(), n)
    {
      ghost var t := Table();
      var bc, bs := 0, -1;
      var i := 0;
      while i < total
        invariant 0 <= i <= total && t == Table()
        invariant bs == -1 ==> bc == 0 && (i == 0 || !IsFree(t[i - 1]))
        invariant bs != -1 ==> 0 <= bs < i && bc == i - bs && FreeRun(t, bs, bc) && (bs == 0 || !IsFree(t[bs - 1]))
        invariant n >= 1 ==> bc < n && forall j :: 0 <= j <= i - n ==> !FreeRun(t, j, n)
      {
        assert t[i] == ram[entries + i];
        if !IsFree(ram[entries + i]) {
          bc, bs := 0, -1;
          i := i + 1;
          continue;
        }
        if bs == -1 {
          bs := i;
        }
        bc := bc + 1;
        if bc == n {
          FirstFitIs(t, n, bs);
          return bs;
        }
        i := i + 1;
      }
      if bs == -1 {
        return -ENOMEM;
      }
      TrailingStartIs(t, bs);
      return bs;
    }

    /** heap_mark_blocks_taken. */
    method MarkBlocksTaken(start: nat, n: nat)
      requires Valid() && start <= total && n <= 0x10_0000
      modifies ram
      ensures Contents() == Splice(old(Contents()), entries + start, RunBytes(n))
    {
      hide Bits.BitOr;
      EntryFlags();
      var end := start + n - 1;
      var entry := Bits.BitOr(IS_FIRST, ENTRY_TAKEN);
      if n > 1 {
        entry := Bits.BitOr(HAS_NEXT, entry);
      }
      var i := start;
      while i <= end
        invariant start <= i <= start + n
        invariant i <= end ==> entry == RunEntry(0, n, i - start)
        invariant forall k :: entries + start <= k < entries + i ==> ram[k] == RunEntry(0, n, k - (entries + start))
        invariant forall k :: 0 <= k < entries + start || entries + i <= k < RAM_SIZE ==> ram[k] == old(ram[k])
      {
        ram[entries + i] := entry;
        entry := ENTRY_TAKEN;
        if i != end - 1 {
          entry := Bits.BitOr(HAS_NEXT, entry);
        }
        i := i + 1;
      }
    }

    /** heap_malloc. */
    method Malloc(size: uint32) returns (address: nat)
      requires Valid()
      modifies ram
      ensures (Contents(), address) == MallocIn(old(Contents()), saddr, entries, total, size)
    {
      hide RunBytes, Splice, Fits, FirstFit, TrailingStart, AlignUpper, TableAt;
      address := 0;
      var n := AlignUpper(size) / BLOCK_SIZE;
      var start := GetStartBlock(n);
      if start < 0 {
        return;
      }
      address := saddr + start * BLOCK_SIZE;
      MarkBlocksTaken(start, n);
    }

    /** heap_mark_blocks_free; the block index may be negative. */
    method MarkBlocksFree(start: int)
      requires Valid() && entries + start >= 0
      modifies ram
      ensures Contents() == ClearChain(old(Contents()), entries + start, entries + total)
    {
      var i := start;
      while i < total
        invariant entries + i >= 0
        invariant ClearChain(Contents(), entries + i, entries + total)
               == ClearChain(old(Contents()), entries + start, entries + total)
      {
        var entry := ram[entries + i];
        ghost var before := Contents();
        ram[entries + i] := ENTRY_FREE;
        assert Contents() == before[entries + i := ENTRY_FREE];
        if !HasNext(entry) {
          break;
        }
        i := i + 1;
      }
    }

    /** heap_free. */
    method Free(ptr: uint32)
      requires Valid() && entries + AddressToBlock(saddr, ptr) >= 0
      modifies ram
      ensures Contents() == FreeIn(old(Contents()), saddr, entries, total, ptr)
    {
      MarkBlocksFree(AddressToBlock(saddr, ptr));
    }
  }

  lemma FirstFitIs(t: seq<byte>, n: nat, s: nat)
    requires n >= 1 && FreeRun(t, s, n) && (s == 0 || !IsFree(t[s - 1]))
    requires forall j :: 0 <= j <= s - n ==> !FreeRun(t, j, n)
    ensures FirstFit(t, n, 0) == s
  {
    forall j | 0 <= j < s ensures !FreeRun(t, j, n) {
      if j + n > s {
        assert !IsFree(t[s - 1]);
      }
    }
  }

  lemma TrailingStartIs(t: seq<byte>, s: nat)
    requires s < |t| && FreeRun(t, s, |t| - s) && (s == 0 || !IsFree(t[s - 1]))
    ensures TrailingStart(t) == s
  {
  }

  lemma AllFreeNoRuns(t: seq<byte>)
    requires forall k :: 0 <= k < |t| ==> t[k] == ENTRY_FREE
    ensures WellFormed(t) && forall s, n :: !IsRun(t, s, n)
  {
    forall s, n ensures !IsRun(t, s, n) {
      if IsRun(t, s, n) {
        RunMarks(t, s, n, s);
      }
    }
  }
}
