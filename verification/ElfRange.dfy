/** The address range the loader records for an ELF file (elf_process_pheaders). */
module ElfRange {
  import opened Memory
  import opened Elf

  /** virtual_base_address, virtual_end_address, and the physical addresses beside them. */
  datatype Range = Range(base: uint32, end: uint32, physBase: uint32, physEnd: uint32)

  const NO_RANGE := Range(0, 0, 0, 0)

  predicate Loads(ph: ProgramHeader) {
    ph.kind == PT_LOAD
  }

  /** p_vaddr + p_filesz in 32-bit arithmetic. */
  function FileEnd(ph: ProgramHeader): uint32 {
    (ph.vaddr + ph.filesz) % RAM_SIZE
  }

  function PhysicalEnd(elfMemory: uint32, ph: ProgramHeader): uint32 {
    (SegmentPhysical(elfMemory, ph) + ph.filesz) % RAM_SIZE
  }

  /** The range after the given headers; 0 stands for "none yet" as well as for address 0. */
  function Recorded(elfMemory: uint32, phs: seq<ProgramHeader>): Range {
    if phs == [] then NO_RANGE
    else
      var r, ph := Recorded(elfMemory, phs[..|phs| - 1]), phs[|phs| - 1];
      if !Loads(ph) then r
      else
        var r1 := if r.base >= ph.vaddr || r.base == 0
                  then r.(base := ph.vaddr, physBase := SegmentPhysical(elfMemory, ph)) else r;
        if r1.end <= FileEnd(ph) || r1.end == 0
        then r1.(end := FileEnd(ph), physEnd := PhysicalEnd(elfMemory, ph)) else r1
  }

  /** Some segment to load starts at `a`, and its image at `phys`. */
  ghost predicate StartsAt(elfMemory: uint32, phs: seq<ProgramHeader>, a: uint32, phys: uint32) {
    exists i :: 0 <= i < |phs| && Loads(phs[i]) && phs[i].vaddr == a && SegmentPhysical(elfMemory, phs[i]) == phys
  }

  ghost predicate EndsAt(elfMemory: uint32, phs: seq<ProgramHeader>, a: uint32, phys: uint32) {
    exists i :: 0 <= i < |phs| && Loads(phs[i]) && FileEnd(phs[i]) == a && PhysicalEnd(elfMemory, phs[i]) == phys
  }

  ghost predicate Lowest(phs: seq<ProgramHeader>, a: uint32) {
    forall i :: 0 <= i < |phs| && Loads(phs[i]) ==> a <= phs[i].vaddr
  }

  ghost predicate Highest(phs: seq<ProgramHeader>, a: uint32) {
    forall i :: 0 <= i < |phs| && Loads(phs[i]) ==> FileEnd(phs[i]) <= a
  }

  predicate NoZeroStart(phs: seq<ProgramHeader>) {
    forall i :: 0 <= i < |phs| && Loads(phs[i]) ==> phs[i].vaddr != 0
  }

  /** The last segment to load starts at 0. */
  predicate LastAtZero(phs: seq<ProgramHeader>) {
    phs != [] && (if Loads(phs[|phs| - 1]) then phs[|phs| - 1].vaddr == 0 else LastAtZero(phs[..|phs| - 1]))
  }

  ghost predicate AnyLoads(phs: seq<ProgramHeader>) {
    exists i :: 0 <= i < |phs| && Loads(phs[i])
  }

  lemma {:induction false} ZeroExists(phs: seq<ProgramHeader>)
    requires LastAtZero(phs)
    ensures !NoZeroStart(phs)
    decreases |phs|
  {
    if !Loads(phs[|phs| - 1]) {
      ZeroExists(phs[..|phs| - 1]);
    }
  }

  /** The recorded end is always the highest end of a segment, with that segment's
      physical end; the recorded base is a segment's start with that segment's
      physical start, and the lowest exactly if no segment starts at address 0 or
      the last one does. */
  lemma {:induction false} RangeRecorded(elfMemory: uint32, phs: seq<ProgramHeader>)
    requires AnyLoads(phs)
    ensures var r := Recorded(elfMemory, phs);
      && StartsAt(elfMemory, phs, r.base, r.physBase) && EndsAt(elfMemory, phs, r.end, r.physEnd)
      && Highest(phs, r.end)
      && (Lowest(phs, r.base) <==> NoZeroStart(phs) || LastAtZero(phs))
      && (LastAtZero(phs) <==> r.base == 0)
    decreases |phs|
  {
    hide Recorded, StartsAt, EndsAt, Highest, Lowest, NoZeroStart, LastAtZero;
    var n := |phs| - 1;
    var front, ph := phs[..n], phs[n];
    if AnyLoads(front) {
      RangeRecorded(elfMemory, front);
      CarriedOver(elfMemory, front, ph);
      assert front + [ph] == phs;
    } else {
      NothingYet(elfMemory, front);
      FirstLoads(elfMemory, phs, front, ph);
    }
  }

  /** In plain numbers: the recorded pair of ends is one segment's p_vaddr + p_filesz
      and the place of its file contents' end, both modulo 4 GB; where no such sum
      passes 4 GB, they are the sums and the highest ones, and the pair of bases is
      one segment's start and the place of its file contents. */
  lemma RangeIsFileRange(elfMemory: uint32, phs: seq<ProgramHeader>)
    requires AnyLoads(phs)
    ensures var r := Recorded(elfMemory, phs);
      && (exists i :: 0 <= i < |phs| && phs[i].kind == 1 && r.base == phs[i].vaddr
            && (r.physBase - elfMemory - phs[i].offset) % 0x1_0000_0000 == 0)
      && (exists i :: 0 <= i < |phs| && phs[i].kind == 1
            && (r.end - phs[i].vaddr - phs[i].filesz) % 0x1_0000_0000 == 0
            && (r.physEnd - elfMemory - phs[i].offset - phs[i].filesz) % 0x1_0000_0000 == 0)
    ensures SumsFit(elfMemory, phs) ==> var r := Recorded(elfMemory, phs);
      && (exists i :: 0 <= i < |phs| && phs[i].kind == 1 && r.base == phs[i].vaddr
            && r.physBase == elfMemory + phs[i].offset)
      && (exists i :: 0 <= i < |phs| && phs[i].kind == 1 && r.end == phs[i].vaddr + phs[i].filesz
            && r.physEnd == elfMemory + phs[i].offset + phs[i].filesz)
      && (forall i :: 0 <= i < |phs| && phs[i].kind == 1 ==> phs[i].vaddr + phs[i].filesz <= r.end)
  {
    hide Recorded, FileEnd, PhysicalEnd, SegmentPhysical;
    RangeRecorded(elfMemory, phs);
    var r := Recorded(elfMemory, phs);
    var i :| 0 <= i < |phs| && Loads(phs[i]) && phs[i].vaddr == r.base
             && SegmentPhysical(elfMemory, phs[i]) == r.physBase;
    var j :| 0 <= j < |phs| && Loads(phs[j]) && FileEnd(phs[j]) == r.end && PhysicalEnd(elfMemory, phs[j]) == r.physEnd;
    PlainSums(elfMemory, phs[i]);
    PlainSums(elfMemory, phs[j]);
    if SumsFit(elfMemory, phs) {
      forall n | 0 <= n < |phs| && phs[n].kind == 1 ensures phs[n].vaddr + phs[n].filesz <= r.end {
        PlainSums(elfMemory, phs[n]);
      }
    }
  }

  /** No sum the loader forms for a segment to load leaves the 32-bit range. */
  predicate SumsFit(elfMemory: uint32, phs: seq<ProgramHeader>) {
    forall i :: 0 <= i < |phs| && phs[i].kind == 1 ==>
      && phs[i].offset >= 0 && phs[i].vaddr + phs[i].filesz < 0x1_0000_0000
      && elfMemory + phs[i].offset + phs[i].filesz < 0x1_0000_0000
  }

  lemma PlainSums(elfMemory: uint32, ph: ProgramHeader)
    ensures (FileEnd(ph) - ph.vaddr - ph.filesz) % 0x1_0000_0000 == 0
    ensures (SegmentPhysical(elfMemory, ph) - elfMemory - ph.offset) % 0x1_0000_0000 == 0
    ensures (PhysicalEnd(elfMemory, ph) - elfMemory - ph.offset - ph.filesz) % 0x1_0000_0000 == 0
    ensures ph.vaddr + ph.filesz < 0x1_0000_0000 ==> FileEnd(ph) == ph.vaddr + ph.filesz
    ensures ph.offset >= 0 && elfMemory + ph.offset + ph.filesz < 0x1_0000_0000 ==>
      && SegmentPhysical(elfMemory, ph) == elfMemory + ph.offset
      && PhysicalEnd(elfMemory, ph) == elfMemory + ph.offset + ph.filesz
  {
  }

  lemma {:induction false} NothingYet(elfMemory: uint32, phs: seq<ProgramHeader>)
    requires !AnyLoads(phs)
    ensures Recorded(elfMemory, phs) == NO_RANGE && !LastAtZero(phs)
    decreases |phs|
  {
    if phs != [] {
      var n := |phs| - 1;
      assert !Loads(phs[n]);
      assert forall i :: 0 <= i < n ==> phs[..n][i] == phs[i];
      NothingYet(elfMemory, phs[..n]);
    }
  }

  lemma FirstLoads(elfMemory: uint32, phs: seq<ProgramHeader>, front: seq<ProgramHeader>, ph: ProgramHeader)
    requires AnyLoads(phs) && !AnyLoads(front) && phs != [] && front == phs[..|phs| - 1] && ph == phs[|phs| - 1]
    requires Recorded(elfMemory, front) == NO_RANGE && !LastAtZero(front)
    ensures var r := Recorded(elfMemory, phs);
      && StartsAt(elfMemory, phs, r.base, r.physBase) && EndsAt(elfMemory, phs, r.end, r.physEnd)
      && Highest(phs, r.end)
      && (Lowest(phs, r.base) <==> NoZeroStart(phs) || LastAtZero(phs))
      && (LastAtZero(phs) <==> r.base == 0)
  {
    var n := |phs| - 1;
    assert Loads(ph);
    assert phs[n] == ph;
    assert forall i :: 0 <= i < n ==> phs[i] == front[i];
  }

  lemma CarriedOver(elfMemory: uint32, front: seq<ProgramHeader>, ph: ProgramHeader)
    requires AnyLoads(front)
    requires var r := Recorded(elfMemory, front);
      && StartsAt(elfMemory, front, r.base, r.physBase) && EndsAt(elfMemory, front, r.end, r.physEnd)
      && Highest(front, r.end)
      && (Lowest(front, r.base) <==> NoZeroStart(front) || LastAtZero(front))
      && (LastAtZero(front) <==> r.base == 0)
    ensures var phs := front + [ph]; var r := Recorded(elfMemory, phs);
      && StartsAt(elfMemory, phs, r.base, r.physBase) && EndsAt(elfMemory, phs, r.end, r.physEnd)
      && Highest(phs, r.end)
      && (Lowest(phs, r.base) <==> NoZeroStart(phs) || LastAtZero(phs))
      && (LastAtZero(phs) <==> r.base == 0)
  {
    var phs := front + [ph];
    var n := |front|;
    assert phs[..n] == front && phs[n] == ph;
    var r0, r := Recorded(elfMemory, front), Recorded(elfMemory, phs);
    var i :| 0 <= i < n && Loads(front[i]) && front[i].vaddr == r0.base
             && SegmentPhysical(elfMemory, front[i]) == r0.physBase;
    var j :| 0 <= j < n && Loads(front[j]) && FileEnd(front[j]) == r0.end
             && PhysicalEnd(elfMemory, front[j]) == r0.physEnd;
    assert phs[i] == front[i] && phs[j] == front[j];
    if Loads(ph) {
      assert StartsAt(elfMemory, phs, r.base, r.physBase) by {
        var k := if r0.base >= ph.vaddr || r0.base == 0 then n else i;
        assert Loads(phs[k]) && phs[k].vaddr == r.base;
      }
      assert EndsAt(elfMemory, phs, r.end, r.physEnd) by {
        var k := if r0.end <= FileEnd(ph) || r0.end == 0 then n else j;
        assert Loads(phs[k]) && FileEnd(phs[k]) == r.end;
      }
      BaseStep(front, ph, r0.base, r.base);
    }
    StaysHighest(front, ph, r0.end, r.end);
    if !Loads(ph) { SameStarts(front, ph, r.base); }
  }

  lemma StaysHighest(front: seq<ProgramHeader>, ph: ProgramHeader, end0: uint32, end: uint32)
    requires Highest(front, end0) && end0 <= end && (Loads(ph) ==> FileEnd(ph) <= end)
    ensures Highest(front + [ph], end)
  {
  }

  lemma SameStarts(front: seq<ProgramHeader>, ph: ProgramHeader, base: uint32)
    requires !Loads(ph)
    ensures Lowest(front + [ph], base) <==> Lowest(front, base)
    ensures NoZeroStart(front + [ph]) <==> NoZeroStart(front)
    ensures LastAtZero(front + [ph]) <==> LastAtZero(front)
  {
    var phs := front + [ph];
    assert phs[..|front|] == front;
    assert forall i :: 0 <= i < |front| ==> phs[i] == front[i];
  }

  lemma BaseStep(front: seq<ProgramHeader>, ph: ProgramHeader, base0: uint32, base: uint32)
    requires Loads(ph) && base == (if base0 >= ph.vaddr || base0 == 0 then ph.vaddr else base0)
    requires Lowest(front, base0) <==> NoZeroStart(front) || LastAtZero(front)
    requires LastAtZero(front) <==> base0 == 0
    requires exists i :: 0 <= i < |front| && Loads(front[i]) && front[i].vaddr == base0
    ensures var phs := front + [ph];
      && (Lowest(phs, base) <==> NoZeroStart(phs) || LastAtZero(phs))
      && (LastAtZero(phs) <==> base == 0)
  {
    var phs := front + [ph];
    var n := |front|;
    assert phs[n] == ph && forall i :: 0 <= i < n ==> phs[i] == front[i];
    assert LastAtZero(phs) <==> ph.vaddr == 0;
    if ph.vaddr != 0 {
      if NoZeroStart(front) {
        assert Lowest(front, base0);
      } else {
        var i :| 0 <= i < n && Loads(front[i]) && front[i].vaddr == 0;
        assert phs[i].vaddr == 0;
      }
    }
  }

  /** The fields of struct elf_file that the loader fills in. */
  class ElfFile {
    const elfMemory: uint32
    var virtualBase: uint32
    var virtualEnd: uint32
    var physicalBase: uint32
    var physicalEnd: uint32

    /** As kzalloc leaves the structure. */
    constructor (elfMemory: uint32)
      ensures this.elfMemory == elfMemory && Value() == NO_RANGE
    {
      this.elfMemory := elfMemory;
      virtualBase, virtualEnd, physicalBase, physicalEnd := 0, 0, 0, 0;
    }

    function Value(): Range
      reads this
    {
      Range(virtualBase, virtualEnd, physicalBase, physicalEnd)
    }

    /** elf_process_phdr_pt_load. */
    method ProcessLoad(ph: ProgramHeader, ghost before: seq<ProgramHeader>)
      requires Loads(ph) && Value() == Recorded(elfMemory, before)
      modifies this
      ensures Value() == Recorded(elfMemory, before + [ph])
    {
      assert (before + [ph])[..|before|] == before;
      if virtualBase >= ph.vaddr || virtualBase == 0 {
        virtualBase := ph.vaddr;
        physicalBase := (elfMemory + ph.offset) % RAM_SIZE;
      }
      var end := (ph.vaddr + ph.filesz) % RAM_SIZE;
      if virtualEnd <= end || virtualEnd == 0 {
        virtualEnd := end;
        physicalEnd := ((elfMemory + ph.offset) % RAM_SIZE + ph.filesz) % RAM_SIZE;
      }
    }

    /** elf_process_pheaders. */
    method ProcessHeaders(phs: seq<ProgramHeader>)
      requires Value() == NO_RANGE
      modifies this
      ensures Value() == Recorded(elfMemory, phs)
    {
      for i := 0 to |phs|
        invariant Value() == Recorded(elfMemory, phs[..i])
      {
        assert phs[..i + 1] == phs[..i] + [phs[i]];
        assert phs[..i + 1][..i] == phs[..i];
        if phs[i].kind == PT_LOAD {
          ProcessLoad(phs[i], phs[..i]);
        }
      }
      assert phs[..|phs|] == phs;
    }
  }
}
