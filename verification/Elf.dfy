/** Mapping an ELF image into an address space (process_map_elf). */
module Elf {
  import opened Memory
  import opened Heap
  import opened KernelHeap
  import opened Paging

  const PF_W := 2
  const PT_LOAD := 1

  /** The fields of a program header the kernel reads. */
  datatype ProgramHeader = ProgramHeader(
    kind: uint32, offset: int, vaddr: uint32, filesz: uint32, memsz: uint32, flags: uint32)

  predicate Writes(ph: ProgramHeader) { ph.flags / PF_W % 2 == 1 }

  function SegmentFlags(ph: ProgramHeader): nat {
    PRESENT + ACCESS_FROM_ALL + if Writes(ph) then WRITEABLE else 0
  }

  /** elf_phdr_phys_addr, in 32-bit arithmetic. */
  function SegmentPhysical(elfMemory: uint32, ph: ProgramHeader): uint32 {
    (elfMemory + ph.offset) % RAM_SIZE
  }

  function SegmentEnd(elfMemory: uint32, ph: ProgramHeader): uint32 {
    AlignUp((SegmentPhysical(elfMemory, ph) + ph.memsz) % RAM_SIZE)
  }

  /** The kernel refuses a segment whose page-aligned end lies below its start. */
  predicate Mappable(elfMemory: uint32, ph: ProgramHeader) {
    AlignDown(SegmentPhysical(elfMemory, ph)) <= SegmentEnd(elfMemory, ph)
  }

  function MapSegment(m: Mem, chunk: nat, elfMemory: uint32, ph: ProgramHeader): (r: (Mem, int))
    requires SpaceOk(m, chunk)
    ensures SpaceOk(r.0, chunk) && (r.1 == 0 || r.1 == -EINVARG)
  {
    MapTo(m, chunk, AlignDown(ph.vaddr), AlignDown(SegmentPhysical(elfMemory, ph)), SegmentEnd(elfMemory, ph),
          SegmentFlags(ph))
  }

  function MapElf(m: Mem, chunk: nat, elfMemory: uint32, phs: seq<ProgramHeader>): (r: (Mem, int))
    requires SpaceOk(m, chunk)
    ensures SpaceOk(r.0, chunk) && (r.1 == 0 || r.1 == -EINVARG)
    decreases |phs|
  {
    if phs == [] then (m, 0)
    else
      var (m1, res) := MapSegment(m, chunk, elfMemory, phs[0]);
      if res < 0 then (m1, res) else MapElf(m1, chunk, elfMemory, phs[1..])
  }

  // ---- What the page entries become ----

  /** How many pages a segment maps. */
  function SegmentPages(elfMemory: uint32, ph: ProgramHeader): nat
    requires Mappable(elfMemory, ph)
  {
    (SegmentEnd(elfMemory, ph) - AlignDown(SegmentPhysical(elfMemory, ph))) / PAGE_SIZE
  }

  predicate Covers(elfMemory: uint32, ph: ProgramHeader, v: nat)
    requires Mappable(elfMemory, ph)
  {
    PagesAfter(ph.vaddr / PAGE_SIZE, v) < SegmentPages(elfMemory, ph)
  }

  function SegmentEntry(elfMemory: uint32, ph: ProgramHeader, v: nat, prior: int): int
    requires Mappable(elfMemory, ph)
  {
    if Covers(elfMemory, ph, v)
    then AlignDown(SegmentPhysical(elfMemory, ph)) + PAGE_SIZE * PagesAfter(ph.vaddr / PAGE_SIZE, v) + SegmentFlags(ph)
    else prior
  }

  /** The last segment that covers a page decides its entry. */
  function ElfEntry(elfMemory: uint32, phs: seq<ProgramHeader>, v: nat, prior: int): int
    requires forall i :: 0 <= i < |phs| ==> Mappable(elfMemory, phs[i])
    decreases |phs|
  {
    if phs == [] then prior
    else
      var last := phs[|phs| - 1];
      if Covers(elfMemory, last, v) then SegmentEntry(elfMemory, last, v, prior)
      else ElfEntry(elfMemory, phs[..|phs| - 1], v, prior)
  }

  lemma {:induction false} ElfEntryFirst(elfMemory: uint32, phs: seq<ProgramHeader>, v: nat, prior: int)
    requires phs != [] && forall i :: 0 <= i < |phs| ==> Mappable(elfMemory, phs[i])
    ensures ElfEntry(elfMemory, phs, v, prior)
         == ElfEntry(elfMemory, phs[1..], v, SegmentEntry(elfMemory, phs[0], v, prior))
    decreases |phs|
  {
    hide Covers, SegmentEntry, Mappable;
    var n := |phs|;
    var rest := phs[1..];
    if n > 1 {
      assert rest[|rest| - 1] == phs[n - 1];
      assert rest[..|rest| - 1] == phs[..n - 1][1..];
      SegmentEntryCases(elfMemory, phs[n - 1], v);
      ElfEntryFirst(elfMemory, phs[..n - 1], v, prior);
    } else {
      assert phs[..0] == [] && rest == [];
      SegmentEntryCases(elfMemory, phs[0], v);
    }
  }

  lemma SegmentEntryCases(elfMemory: uint32, ph: ProgramHeader, v: nat)
    requires Mappable(elfMemory, ph)
    ensures forall a, b :: Covers(elfMemory, ph, v) ==>
          SegmentEntry(elfMemory, ph, v, a) == SegmentEntry(elfMemory, ph, v, b)
    ensures forall a :: !Covers(elfMemory, ph, v) ==> SegmentEntry(elfMemory, ph, v, a) == a
  {
  }

  lemma SegmentMapped(m: Mem, chunk: nat, elfMemory: uint32, ph: ProgramHeader)
    requires SpaceOk(m, chunk)
    ensures MapSegment(m, chunk, elfMemory, ph).1 == 0 <==> Mappable(elfMemory, ph)
    ensures MapSegment(m, chunk, elfMemory, ph).1 <= 0
    ensures OnlyTables(m, MapSegment(m, chunk, elfMemory, ph).0, chunk)
    ensures Mappable(elfMemory, ph) ==>
              forall v :: 0 <= v < TOTAL_PAGES ==>
                PageEntry(MapSegment(m, chunk, elfMemory, ph).0, DirectoryOf(m, chunk), v)
                == SegmentEntry(elfMemory, ph, v, PageEntry(m, DirectoryOf(m, chunk), v))
  {
    hide Load32, MapTo, PageEntry, OnlyTables, SegmentPhysical;
    var virt, phys, end := AlignDown(ph.vaddr), AlignDown(SegmentPhysical(elfMemory, ph)), SegmentEnd(elfMemory, ph);
    MapToTranslation(m, chunk, virt, phys, end, SegmentFlags(ph));
    AlignedPage(ph.vaddr);
    if Mappable(elfMemory, ph) {
      MappedEntries(m, MapSegment(m, chunk, elfMemory, ph).0, chunk, virt / PAGE_SIZE, phys,
                    SegmentPages(elfMemory, ph), SegmentFlags(ph));
    }
  }

  lemma AlignedPage(a: uint32)
    ensures AlignDown(a) / PAGE_SIZE == a / PAGE_SIZE
  {
  }

  lemma MappedEntries(m: Mem, m': Mem, chunk: nat, v0: nat, phys: nat, count: nat, flags: nat)
    requires chunk + 4 <= RAM_SIZE && DirectoryOf(m, chunk) + PAGE_SIZE <= RAM_SIZE
    requires Mapped(m, m', chunk, v0, phys, count, flags)
    ensures forall v :: 0 <= v < TOTAL_PAGES ==>
              PageEntry(m', DirectoryOf(m, chunk), v) == (var d := PagesAfter(v0, v);
                if d < count then phys + PAGE_SIZE * d + flags else PageEntry(m, DirectoryOf(m, chunk), v))
  {
  }

  /** Mapping an image sets every page as the last segment covering it says, and
      succeeds exactly when no segment's end lies below its start. */
  lemma {:induction false} ElfMapped(m: Mem, chunk: nat, elfMemory: uint32, phs: seq<ProgramHeader>)
    requires SpaceOk(m, chunk)
    ensures MapElf(m, chunk, elfMemory, phs).1 == 0 <==> forall i :: 0 <= i < |phs| ==> Mappable(elfMemory, phs[i])
    ensures OnlyTables(m, MapElf(m, chunk, elfMemory, phs).0, chunk)
    ensures (forall i :: 0 <= i < |phs| ==> Mappable(elfMemory, phs[i])) ==>
              forall v :: 0 <= v < TOTAL_PAGES ==>
                PageEntry(MapElf(m, chunk, elfMemory, phs).0, DirectoryOf(m, chunk), v)
                == ElfEntry(elfMemory, phs, v, PageEntry(m, DirectoryOf(m, chunk), v))
    decreases |phs|
  {
    hide Load32, MapSegment, PageEntry, SegmentEntry, Covers, Mappable, SegmentPages;
    if phs == [] {
      OnlyTablesRefl(m, chunk);
    } else {
      SegmentMapped(m, chunk, elfMemory, phs[0]);
      var m1 := MapSegment(m, chunk, elfMemory, phs[0]).0;
      var m' := MapElf(m, chunk, elfMemory, phs).0;
      if Mappable(elfMemory, phs[0]) {
        ElfMapped(m1, chunk, elfMemory, phs[1..]);
        OnlyTablesTrans(m, m1, m', chunk);
        hide OnlyTables, SpaceOk;
        assert forall i :: 1 <= i < |phs| ==> phs[i] == phs[1..][i - 1];
        if forall i :: 0 <= i < |phs| ==> Mappable(elfMemory, phs[i]) {
          forall v | 0 <= v < TOTAL_PAGES
            ensures PageEntry(m', DirectoryOf(m, chunk), v)
                 == ElfEntry(elfMemory, phs, v, PageEntry(m, DirectoryOf(m, chunk), v))
          {
            ElfEntryFirst(elfMemory, phs, v, PageEntry(m, DirectoryOf(m, chunk), v));
          }
        }
      }
    }
  }

  lemma OnlyTablesRefl(m: Mem, chunk: nat)
    requires SpaceOk(m, chunk)
    ensures OnlyTables(m, m, chunk)
  {
  }

  // ---- What a mapped image looks like ----

  ghost predicate AllMappable(elfMemory: uint32, phs: seq<ProgramHeader>) {
    forall i :: 0 <= i < |phs| ==> Mappable(elfMemory, phs[i])
  }

  /** No page belongs to two segments. */
  ghost predicate PageDisjoint(elfMemory: uint32, phs: seq<ProgramHeader>)
    requires AllMappable(elfMemory, phs)
  {
    forall i, j, v: nat :: 0 <= i < j < |phs| && v < TOTAL_PAGES && Covers(elfMemory, phs[i], v) ==>
      !Covers(elfMemory, phs[j], v)
  }

  /** The segment's bytes lie below the last page of memory and do not wrap. */
  predicate InBounds(elfMemory: uint32, ph: ProgramHeader) {
    && 0 <= ph.offset && elfMemory + ph.offset + ph.memsz <= 0xffff_f000
    && ph.vaddr + ph.memsz <= RAM_SIZE
  }

  lemma InBoundsMappable(elfMemory: uint32, ph: ProgramHeader)
    requires InBounds(elfMemory, ph)
    ensures SegmentPhysical(elfMemory, ph) == elfMemory + ph.offset
    ensures Mappable(elfMemory, ph)
    ensures SegmentEnd(elfMemory, ph) - PAGE_SIZE < elfMemory + ph.offset + ph.memsz <= SegmentEnd(elfMemory, ph)
    ensures SegmentEnd(elfMemory, ph)
         == AlignDown(SegmentPhysical(elfMemory, ph)) + PAGE_SIZE * SegmentPages(elfMemory, ph)
  {
    hide AlignUp, AlignDown;
    assert (elfMemory + ph.offset + ph.memsz) % RAM_SIZE == elfMemory + ph.offset + ph.memsz;
    PagesBetween(AlignDown(SegmentPhysical(elfMemory, ph)), SegmentEnd(elfMemory, ph));
  }

  lemma PagesBetween(a: nat, b: nat)
    requires a % PAGE_SIZE == 0 && b % PAGE_SIZE == 0
    ensures b == a + PAGE_SIZE * ((b - a) / PAGE_SIZE)
    ensures a <= b + PAGE_SIZE - 1 ==> a <= b
  {
    assert a == PAGE_SIZE * (a / PAGE_SIZE) && b == PAGE_SIZE * (b / PAGE_SIZE);
    assert b - a == PAGE_SIZE * (b / PAGE_SIZE - a / PAGE_SIZE);
  }

  lemma SegmentEntryParts(elfMemory: uint32, ph: ProgramHeader, v: nat, prior: int)
    requires Mappable(elfMemory, ph) && Covers(elfMemory, ph, v)
    ensures var e := SegmentEntry(elfMemory, ph, v, prior);
            var frame := AlignDown(SegmentPhysical(elfMemory, ph)) + PAGE_SIZE * PagesAfter(ph.vaddr / PAGE_SIZE, v);
            && 0 <= e < RAM_SIZE && FrameOf(e) == frame && (IsWriteable(e) <==> Writes(ph))
            && IsPresent(e) && IsUser(e)
            && AlignDown(SegmentPhysical(elfMemory, ph)) <= frame && frame + PAGE_SIZE <= SegmentEnd(elfMemory, ph)
  {
    var d, low := PagesAfter(ph.vaddr / PAGE_SIZE, v), AlignDown(SegmentPhysical(elfMemory, ph));
    assert PAGE_SIZE * d + PAGE_SIZE <= PAGE_SIZE * SegmentPages(elfMemory, ph) <= SegmentEnd(elfMemory, ph) - low;
    FrameOfSum(low + PAGE_SIZE * d, SegmentFlags(ph));
    FlagBits(low + PAGE_SIZE * d, SegmentFlags(ph));
  }

  /** Where in its segment a byte sits, when file offset and address agree modulo the page size. */
  lemma PhysicalCongruent(elfMemory: uint32, offset: nat)
    requires elfMemory % PAGE_SIZE == 0
    ensures (elfMemory + offset) % PAGE_SIZE == offset % PAGE_SIZE
  {
    assert elfMemory == PAGE_SIZE * (elfMemory / PAGE_SIZE);
  }

  /** The page d pages on holds the byte that lies as far behind the start. */
  lemma CongruentByte(phys: nat, vaddr: nat, a: nat)
    requires phys % PAGE_SIZE == vaddr % PAGE_SIZE && vaddr <= a
    ensures var d := a / PAGE_SIZE - vaddr / PAGE_SIZE;
      phys - phys % PAGE_SIZE + PAGE_SIZE * d + a % PAGE_SIZE == phys + (a - vaddr)
  {
    assert a == PAGE_SIZE * (a / PAGE_SIZE) + a % PAGE_SIZE;
    assert vaddr == PAGE_SIZE * (vaddr / PAGE_SIZE) + vaddr % PAGE_SIZE;
  }

  lemma PagesAfterIs(vaddr: uint32, a: uint32)
    requires vaddr <= a
    ensures PagesAfter(vaddr / PAGE_SIZE, a / PAGE_SIZE) == a / PAGE_SIZE - vaddr / PAGE_SIZE
  {
  }

  lemma SegmentByte(elfMemory: uint32, ph: ProgramHeader, a: uint32)
    requires elfMemory % PAGE_SIZE == 0 && InBounds(elfMemory, ph)
    requires ph.vaddr <= a < ph.vaddr + ph.memsz
    ensures ph.offset % PAGE_SIZE == ph.vaddr % PAGE_SIZE ==>
              && Mappable(elfMemory, ph) && Covers(elfMemory, ph, a / PAGE_SIZE)
              && AlignDown(SegmentPhysical(elfMemory, ph)) + PAGE_SIZE * PagesAfter(ph.vaddr / PAGE_SIZE, a / PAGE_SIZE)
                 + a % PAGE_SIZE == elfMemory + ph.offset + (a - ph.vaddr)
    ensures a == ph.vaddr ==>
              && Mappable(elfMemory, ph) && Covers(elfMemory, ph, a / PAGE_SIZE)
              && PagesAfter(ph.vaddr / PAGE_SIZE, a / PAGE_SIZE) == 0
              && (AlignDown(SegmentPhysical(elfMemory, ph)) + a % PAGE_SIZE == elfMemory + ph.offset <==>
                  ph.offset % PAGE_SIZE == ph.vaddr % PAGE_SIZE)
  {
    hide SegmentPhysical, SegmentEnd, Mappable, SegmentPages, PagesAfter;
    InBoundsMappable(elfMemory, ph);
    var phys := elfMemory + ph.offset;
    PhysicalCongruent(elfMemory, ph.offset);
    PagesAfterIs(ph.vaddr, a);
    if ph.offset % PAGE_SIZE == ph.vaddr % PAGE_SIZE {
      CongruentByte(phys, ph.vaddr, a);
    }
  }

  // ---- Where a mapped image can be written ----

  /** The last segment that covers page v, or -1. */
  function LastSegment(elfMemory: uint32, phs: seq<ProgramHeader>, v: nat): (i: int)
    requires AllMappable(elfMemory, phs)
    ensures -1 <= i < |phs|
    ensures i >= 0 ==> Covers(elfMemory, phs[i], v)
    ensures forall j :: i < j < |phs| ==> !Covers(elfMemory, phs[j], v)
    decreases |phs|
  {
    hide Covers, Mappable;
    if phs == [] then -1
    else if Covers(elfMemory, phs[|phs| - 1], v) then |phs| - 1
    else
      var front := phs[..|phs| - 1];
      assert forall j :: 0 <= j < |front| ==> front[j] == phs[j];
      LastSegment(elfMemory, front, v)
  }

  /** The frame a segment shows in page v. */
  function SegmentFrame(elfMemory: uint32, ph: ProgramHeader, v: nat): nat {
    AlignDown(SegmentPhysical(elfMemory, ph)) + PAGE_SIZE * PagesAfter(ph.vaddr / PAGE_SIZE, v)
  }

  /** Frame and flag of a page's entry are the last segment's. */
  lemma LastDecides(elfMemory: uint32, phs: seq<ProgramHeader>, v: nat, prior: uint32)
    requires AllMappable(elfMemory, phs)
    ensures var i, e := LastSegment(elfMemory, phs, v), ElfEntry(elfMemory, phs, v, prior);
      && 0 <= e < RAM_SIZE && (i < 0 ==> e == prior)
      && (i >= 0 ==> FrameOf(e) == SegmentFrame(elfMemory, phs[i], v) && (IsWriteable(e) <==> Writes(phs[i]))
                     && IsPresent(e) && IsUser(e))
  {
    hide Covers, Mappable, SegmentEntry, FrameOf, IsWriteable, IsPresent, IsUser, SegmentFrame, PagesAfter;
    LastEntry(elfMemory, phs, v, prior);
    var i := LastSegment(elfMemory, phs, v);
    if i >= 0 {
      SegmentEntryParts(elfMemory, phs[i], v, prior);
      FrameIs(elfMemory, phs[i], v);
    }
  }

  lemma FrameIs(elfMemory: uint32, ph: ProgramHeader, v: nat)
    ensures SegmentFrame(elfMemory, ph, v)
         == AlignDown(SegmentPhysical(elfMemory, ph)) + PAGE_SIZE * PagesAfter(ph.vaddr / PAGE_SIZE, v)
  {
  }

  lemma {:induction false} LastEntry(elfMemory: uint32, phs: seq<ProgramHeader>, v: nat, prior: int)
    requires AllMappable(elfMemory, phs)
    ensures var i := LastSegment(elfMemory, phs, v);
      ElfEntry(elfMemory, phs, v, prior) == if i < 0 then prior else SegmentEntry(elfMemory, phs[i], v, prior)
    decreases |phs|
  {
    hide Covers, Mappable, SegmentEntry;
    if phs != [] && !Covers(elfMemory, phs[|phs| - 1], v) {
      LastEntry(elfMemory, phs[..|phs| - 1], v, prior);
    }
  }

  lemma ElfAll(m: Mem, chunk: nat, image: uint32, headers: seq<ProgramHeader>)
    requires SpaceOk(m, chunk) && AllMappable(image, headers)
    ensures DirectoryOf(m, chunk) + PAGE_SIZE <= RAM_SIZE
    ensures MapElf(m, chunk, image, headers).1 == 0
    ensures forall v :: 0 <= v < TOTAL_PAGES ==>
      PageEntry(MapElf(m, chunk, image, headers).0, DirectoryOf(m, chunk), v)
      == ElfEntry(image, headers, v, PageEntry(m, DirectoryOf(m, chunk), v))
  {
    DirectoryFits(m, chunk);
    hide Load32, PageEntry, MapElf, SpaceOk, OnlyTables, Mappable, ElfEntry;
    ElfMapped(m, chunk, image, headers);
  }

  // ---- What the process sees ----

  /** Page v shows the frame of segment i, by itself or through a later segment. */
  ghost predicate ShownAs(elfMemory: uint32, phs: seq<ProgramHeader>, i: nat, v: nat)
    requires AllMappable(elfMemory, phs) && i < |phs|
  {
    var j := LastSegment(elfMemory, phs, v);
    j >= 0 && SegmentFrame(elfMemory, phs[j], v) == SegmentFrame(elfMemory, phs[i], v)
  }

  /** The byte at a, as it should be seen. */
  ghost predicate SeenRight(m: Mem, dir: nat, elfMemory: uint32, ph: ProgramHeader, a: uint32)
    requires dir + PAGE_SIZE <= RAM_SIZE
  {
    Translate(m, dir, a) == elfMemory + ph.offset + (a - ph.vaddr)
  }

  /** One byte of a segment: with congruent offset and address it is seen right exactly if
      its page shows the segment's frame; without, the segment's first byte never is. */
  lemma ByteSeenIff(m: Mem, dir: nat, elfMemory: uint32, phs: seq<ProgramHeader>, i: nat, a: uint32, prior: uint32)
    requires elfMemory % PAGE_SIZE == 0 && AllMappable(elfMemory, phs) && i < |phs| && InBounds(elfMemory, phs[i])
    requires phs[i].vaddr <= a < phs[i].vaddr + phs[i].memsz && dir + PAGE_SIZE <= RAM_SIZE
    requires PageEntry(m, dir, a / PAGE_SIZE) == ElfEntry(elfMemory, phs, a / PAGE_SIZE, prior)
    ensures phs[i].offset % PAGE_SIZE == phs[i].vaddr % PAGE_SIZE ==>
              (SeenRight(m, dir, elfMemory, phs[i], a) <==> ShownAs(elfMemory, phs, i, a / PAGE_SIZE))
    ensures phs[i].offset % PAGE_SIZE != phs[i].vaddr % PAGE_SIZE && a == phs[i].vaddr ==>
              !SeenRight(m, dir, elfMemory, phs[i], a)
  {
    hide PageEntry, ElfEntry, Covers, Mappable, SegmentPhysical, SegmentFrame, FrameOf, IsWriteable, Writes, InBounds,
      AlignDown;
    var v := a / PAGE_SIZE;
    LastDecides(elfMemory, phs, v, prior);
    SegmentByte(elfMemory, phs[i], a);
    FrameIs(elfMemory, phs[i], v);
    var j := LastSegment(elfMemory, phs, v);
    if j >= 0 {
      FrameIs(elfMemory, phs[j], v);
      SumOfPages(AlignDown(SegmentPhysical(elfMemory, phs[j])), PagesAfter(phs[j].vaddr / PAGE_SIZE, v), a % PAGE_SIZE);
    }
    InBoundsOffset(elfMemory, phs[i]);
  }

  lemma SumOfPages(low: nat, d: nat, r: nat)
    requires low % PAGE_SIZE == 0 && r < PAGE_SIZE
    ensures (low + PAGE_SIZE * d + r) % PAGE_SIZE == r
  {
    assert low == PAGE_SIZE * (low / PAGE_SIZE);
    assert low + PAGE_SIZE * d == PAGE_SIZE * (low / PAGE_SIZE + d);
  }

  lemma InBoundsOffset(elfMemory: uint32, ph: ProgramHeader)
    requires InBounds(elfMemory, ph) && elfMemory % PAGE_SIZE == 0
    ensures ph.offset >= 0 && (elfMemory + ph.offset) % PAGE_SIZE == ph.offset % PAGE_SIZE
  {
    PhysicalCongruent(elfMemory, ph.offset);
  }

  /** The pages in which a segment has bytes. */
  predicate BytePage(ph: ProgramHeader, v: nat) {
    ph.vaddr / PAGE_SIZE <= v <= (ph.vaddr + ph.memsz - 1) / PAGE_SIZE
  }

  /** After process_map_elf a segment's bytes are all seen at their virtual addresses
      exactly when its file offset and virtual address agree modulo the page size and
      no later segment shows other frames in its pages. */
  lemma ElfImageCorrectIff(m: Mem, chunk: nat, elfMemory: uint32, phs: seq<ProgramHeader>, i: nat)
    requires SpaceOk(m, chunk) && elfMemory % PAGE_SIZE == 0 && AllMappable(elfMemory, phs)
    requires i < |phs| && phs[i].memsz > 0 && InBounds(elfMemory, phs[i])
    ensures MapElf(m, chunk, elfMemory, phs).1 == 0
    ensures DirectoryOf(m, chunk) + PAGE_SIZE <= RAM_SIZE
    ensures var m' := MapElf(m, chunk, elfMemory, phs).0; var dir := DirectoryOf(m, chunk); var ph := phs[i];
            (forall a: uint32 :: ph.vaddr <= a < ph.vaddr + ph.memsz ==> SeenRight(m', dir, elfMemory, ph, a))
            <==> ph.offset % PAGE_SIZE == ph.vaddr % PAGE_SIZE
                 && forall v :: 0 <= v < TOTAL_PAGES && BytePage(ph, v) ==> ShownAs(elfMemory, phs, i, v)
  {
    DirectoryFits(m, chunk);
    hide Load32, PageEntry, MapElf, AllMappable, SpaceOk, ElfEntry, OnlyTables, SeenRight, ShownAs, InBounds, BytePage;
    var m', dir, ph := MapElf(m, chunk, elfMemory, phs).0, DirectoryOf(m, chunk), phs[i];
    ElfAll(m, chunk, elfMemory, phs);
    SegmentBound(elfMemory, ph);
    forall a: uint32 | ph.vaddr <= a < ph.vaddr + ph.memsz
      ensures ph.offset % PAGE_SIZE == ph.vaddr % PAGE_SIZE ==>
                (SeenRight(m', dir, elfMemory, ph, a) <==> ShownAs(elfMemory, phs, i, a / PAGE_SIZE))
      ensures ph.offset % PAGE_SIZE != ph.vaddr % PAGE_SIZE && a == ph.vaddr ==> !SeenRight(m', dir, elfMemory, ph, a)
    {
      ByteSeenIff(m', dir, elfMemory, phs, i, a, PageEntry(m, dir, a / PAGE_SIZE));
    }
    if forall a: uint32 :: ph.vaddr <= a < ph.vaddr + ph.memsz ==> SeenRight(m', dir, elfMemory, ph, a) {
      assert SeenRight(m', dir, elfMemory, ph, ph.vaddr);
      forall v | 0 <= v < TOTAL_PAGES && BytePage(ph, v) ensures ShownAs(elfMemory, phs, i, v) {
        var a := ByteOf(ph, v);
        assert SeenRight(m', dir, elfMemory, ph, a);
      }
    }
    if forall v :: 0 <= v < TOTAL_PAGES && BytePage(ph, v) ==> ShownAs(elfMemory, phs, i, v) {
      forall a: uint32 | ph.vaddr <= a < ph.vaddr + ph.memsz ensures ShownAs(elfMemory, phs, i, a / PAGE_SIZE) {
        PageOf(ph, a);
      }
    }
  }

  lemma SegmentBound(elfMemory: uint32, ph: ProgramHeader)
    requires InBounds(elfMemory, ph)
    ensures ph.vaddr + ph.memsz <= RAM_SIZE
  {
  }

  lemma ByteOf(ph: ProgramHeader, v: nat) returns (a: uint32)
    requires ph.memsz > 0 && ph.vaddr + ph.memsz <= RAM_SIZE && BytePage(ph, v)
    ensures ph.vaddr <= a < ph.vaddr + ph.memsz && a / PAGE_SIZE == v
  {
    a := if v == ph.vaddr / PAGE_SIZE then ph.vaddr else v * PAGE_SIZE;
  }

  lemma PageOf(ph: ProgramHeader, a: uint32)
    requires ph.vaddr <= a < ph.vaddr + ph.memsz
    ensures BytePage(ph, a / PAGE_SIZE) && a / PAGE_SIZE < TOTAL_PAGES
  {
  }

  /** A segment covers exactly the pages, counted from its first, whose frames begin
      before the segment's end; with congruent offset and address those are the
      pages in which it has bytes. */
  lemma CoversIff(elfMemory: uint32, ph: ProgramHeader, v: nat)
    requires elfMemory % PAGE_SIZE == 0 && InBounds(elfMemory, ph) && v < TOTAL_PAGES
    ensures Mappable(elfMemory, ph)
    ensures var phys := elfMemory + ph.offset;
      Covers(elfMemory, ph, v) <==>
        phys - phys % PAGE_SIZE + PAGE_SIZE * PagesAfter(ph.vaddr / PAGE_SIZE, v) < phys + ph.memsz
    ensures ph.memsz > 0 && ph.offset % PAGE_SIZE == ph.vaddr % PAGE_SIZE ==>
      (Covers(elfMemory, ph, v) <==> BytePage(ph, v))
  {
    hide SegmentPhysical, SegmentEnd, Mappable, SegmentPages, PagesAfter;
    InBoundsMappable(elfMemory, ph);
    PhysicalCongruent(elfMemory, ph.offset);
    PagesAfterPage(ph.vaddr, v);
    EnoughPages(elfMemory + ph.offset, ph.memsz, SegmentPages(elfMemory, ph), PagesAfter(ph.vaddr / PAGE_SIZE, v));
    if ph.memsz > 0 && ph.offset % PAGE_SIZE == ph.vaddr % PAGE_SIZE {
      PagesBytes(ph, v);
    }
  }

  lemma EnoughPages(phys: nat, n: nat, pages: nat, d: nat)
    requires var low := phys - phys % PAGE_SIZE;
      low + PAGE_SIZE * pages - PAGE_SIZE < phys + n <= low + PAGE_SIZE * pages
    ensures d < pages <==> phys - phys % PAGE_SIZE + PAGE_SIZE * d < phys + n
  {
  }

  lemma PagesAfterPage(vaddr: uint32, v: nat)
    requires v < TOTAL_PAGES
    ensures PagesAfter(vaddr / PAGE_SIZE, v)
         == if v >= vaddr / PAGE_SIZE then v - vaddr / PAGE_SIZE else v - vaddr / PAGE_SIZE + TOTAL_PAGES
  {
  }

  lemma PagesBytes(ph: ProgramHeader, v: nat)
    requires v < TOTAL_PAGES && ph.memsz > 0 && ph.vaddr + ph.memsz <= RAM_SIZE
    ensures var d := if v >= ph.vaddr / PAGE_SIZE then v - ph.vaddr / PAGE_SIZE
                     else v - ph.vaddr / PAGE_SIZE + TOTAL_PAGES;
      PAGE_SIZE * d < ph.vaddr % PAGE_SIZE + ph.memsz <==> BytePage(ph, v)
  {
  }

  /** If no page belongs to two segments, the pages of a congruent segment show its
      frames, are there for user code, and writeable exactly when it asks for that. */
  lemma DisjointShown(elfMemory: uint32, phs: seq<ProgramHeader>, i: nat, a: uint32, prior: uint32)
    requires elfMemory % PAGE_SIZE == 0 && AllMappable(elfMemory, phs) && PageDisjoint(elfMemory, phs)
    requires i < |phs| && InBounds(elfMemory, phs[i]) && phs[i].offset % PAGE_SIZE == phs[i].vaddr % PAGE_SIZE
    requires phs[i].vaddr <= a < phs[i].vaddr + phs[i].memsz
    ensures ShownAs(elfMemory, phs, i, a / PAGE_SIZE)
    ensures var e := ElfEntry(elfMemory, phs, a / PAGE_SIZE, prior);
      0 <= e < RAM_SIZE && IsPresent(e) && IsUser(e) && (IsWriteable(e) <==> Writes(phs[i]))
  {
    hide ElfEntry, Covers, Mappable, SegmentPhysical, SegmentFrame, FrameOf, IsWriteable, IsPresent, IsUser, Writes,
      InBounds, AlignDown, PageDisjoint, LastSegment;
    SegmentByte(elfMemory, phs[i], a);
    OnlyCover(elfMemory, phs, i, a / PAGE_SIZE);
    LastDecides(elfMemory, phs, a / PAGE_SIZE, prior);
  }

  /** So user code finds such a segment where the program expects it, as far as its
      pages are not mapped anew. */
  lemma SegmentShown(m: Mem, dir: nat, elfMemory: uint32, phs: seq<ProgramHeader>, i: nat, prior: seq<uint32>)
    requires elfMemory % PAGE_SIZE == 0 && AllMappable(elfMemory, phs) && PageDisjoint(elfMemory, phs)
    requires i < |phs| && InBounds(elfMemory, phs[i]) && phs[i].offset % PAGE_SIZE == phs[i].vaddr % PAGE_SIZE
    requires dir + PAGE_SIZE <= RAM_SIZE && |prior| == TOTAL_PAGES
    requires forall v :: 0 <= v < TOTAL_PAGES && BytePage(phs[i], v) ==>
               PageEntry(m, dir, v) == ElfEntry(elfMemory, phs, v, prior[v])
    ensures ShowsRange(m, dir, phs[i].vaddr, phs[i].memsz, elfMemory + phs[i].offset, Writes(phs[i]))
  {
    hide PageEntry, ElfEntry, AllMappable, PageDisjoint, InBounds, ShownAs, Translate, IsWriteable, IsPresent, IsUser,
      Writes, BytePage;
    var ph := phs[i];
    forall a: uint32 | ph.vaddr <= a < ph.vaddr + ph.memsz
      ensures Translate(m, dir, a) == elfMemory + ph.offset + (a - ph.vaddr) && OpenAt(m, dir, a, Writes(ph))
    {
      PageOf(ph, a);
      DisjointShown(elfMemory, phs, i, a, prior[a / PAGE_SIZE]);
      ByteSeenIff(m, dir, elfMemory, phs, i, a, prior[a / PAGE_SIZE]);
    }
  }

  ghost predicate Confined(entry: uint32, lo: nat, hi: nat) {
    IsWriteable(entry) ==> lo <= FrameOf(entry) && FrameOf(entry) + PAGE_SIZE <= hi
  }

  /** Page v shows no segment, a read-only one, or a frame in [lo, hi). */
  ghost predicate PageStays(elfMemory: uint32, phs: seq<ProgramHeader>, v: nat, lo: nat, hi: nat)
    requires AllMappable(elfMemory, phs)
  {
    var i := LastSegment(elfMemory, phs, v);
    i < 0 || !Writes(phs[i])
      || (lo <= SegmentFrame(elfMemory, phs[i], v) && SegmentFrame(elfMemory, phs[i], v) + PAGE_SIZE <= hi)
  }

  /** Starting from a space without writeable pages, mapping an image leaves every
      writeable page inside [lo, hi) exactly when every page whose last segment is
      writeable shows a frame there. */
  lemma ElfConfinedIff(m: Mem, chunk: nat, elfMemory: uint32, phs: seq<ProgramHeader>, lo: nat, hi: nat)
    requires SpaceOk(m, chunk) && AllMappable(elfMemory, phs)
    requires forall v :: 0 <= v < TOTAL_PAGES ==> !IsWriteable(PageEntry(m, DirectoryOf(m, chunk), v))
    ensures var m' := MapElf(m, chunk, elfMemory, phs).0; var dir := DirectoryOf(m, chunk);
            (forall v :: 0 <= v < TOTAL_PAGES ==> Confined(PageEntry(m', dir, v), lo, hi))
            <==> forall v :: 0 <= v < TOTAL_PAGES ==> PageStays(elfMemory, phs, v, lo, hi)
  {
    DirectoryFits(m, chunk);
    hide Load32, PageEntry, MapElf, SpaceOk, OnlyTables, Mappable, LastSegment, ElfEntry, SegmentFrame, FrameOf,
      IsWriteable, Writes;
    var m', dir := MapElf(m, chunk, elfMemory, phs).0, DirectoryOf(m, chunk);
    ElfMapped(m, chunk, elfMemory, phs);
    forall v | 0 <= v < TOTAL_PAGES
      ensures Confined(PageEntry(m', dir, v), lo, hi) <==> PageStays(elfMemory, phs, v, lo, hi)
    {
      LastDecides(elfMemory, phs, v, PageEntry(m, dir, v));
    }
  }

  /** Every writeable segment lies, in whole pages, inside [lo, hi). */
  ghost predicate WritesInside(elfMemory: uint32, phs: seq<ProgramHeader>, lo: nat, hi: nat)
    requires AllMappable(elfMemory, phs)
  {
    forall i :: 0 <= i < |phs| && Writes(phs[i]) && SegmentPages(elfMemory, phs[i]) > 0 ==>
      lo <= AlignDown(SegmentPhysical(elfMemory, phs[i])) && SegmentEnd(elfMemory, phs[i]) <= hi
  }

  /** If no page belongs to two segments, the pages stay exactly if the writeable
      segments lie inside. */
  lemma WholeSegmentsIff(elfMemory: uint32, phs: seq<ProgramHeader>, lo: nat, hi: nat)
    requires AllMappable(elfMemory, phs) && PageDisjoint(elfMemory, phs)
    ensures (forall v :: 0 <= v < TOTAL_PAGES ==> PageStays(elfMemory, phs, v, lo, hi))
            <==> WritesInside(elfMemory, phs, lo, hi)
  {
    hide Covers, Mappable, SegmentPages, SegmentFrame, Writes, LastSegment;
    if WritesInside(elfMemory, phs, lo, hi) {
      forall v | 0 <= v < TOTAL_PAGES ensures PageStays(elfMemory, phs, v, lo, hi) {
        var i := LastSegment(elfMemory, phs, v);
        if i >= 0 { FrameInside(elfMemory, phs[i], v); }
      }
    }
    if forall v :: 0 <= v < TOTAL_PAGES ==> PageStays(elfMemory, phs, v, lo, hi) {
      forall i | 0 <= i < |phs| && Writes(phs[i]) && SegmentPages(elfMemory, phs[i]) > 0
        ensures lo <= AlignDown(SegmentPhysical(elfMemory, phs[i])) && SegmentEnd(elfMemory, phs[i]) <= hi
      {
        var first, last := EdgePages(elfMemory, phs[i]);
        OnlyCover(elfMemory, phs, i, first);
        OnlyCover(elfMemory, phs, i, last);
        EdgeFrames(elfMemory, phs[i], first, last);
        assert PageStays(elfMemory, phs, first, lo, hi) && PageStays(elfMemory, phs, last, lo, hi);
      }
    }
  }

  lemma OnlyCover(elfMemory: uint32, phs: seq<ProgramHeader>, i: nat, v: nat)
    requires AllMappable(elfMemory, phs) && PageDisjoint(elfMemory, phs)
    requires i < |phs| && v < TOTAL_PAGES && Covers(elfMemory, phs[i], v)
    ensures LastSegment(elfMemory, phs, v) == i
  {
    hide Covers, Mappable;
    assert Covers(elfMemory, phs[LastSegment(elfMemory, phs, v)], v);
  }

  /** A covered page shows a frame of its segment. */
  lemma FrameInside(elfMemory: uint32, ph: ProgramHeader, v: nat)
    requires Mappable(elfMemory, ph) && Covers(elfMemory, ph, v)
    ensures SegmentPages(elfMemory, ph) > 0
    ensures AlignDown(SegmentPhysical(elfMemory, ph)) <= SegmentFrame(elfMemory, ph, v)
    ensures SegmentFrame(elfMemory, ph, v) + PAGE_SIZE <= SegmentEnd(elfMemory, ph)
  {
    hide AlignDown, AlignUp, SegmentPhysical, PagesAfter;
    PagesBetween(AlignDown(SegmentPhysical(elfMemory, ph)), SegmentEnd(elfMemory, ph));
  }

  /** The first and last page a segment maps. */
  lemma EdgePages(elfMemory: uint32, ph: ProgramHeader) returns (first: nat, last: nat)
    requires Mappable(elfMemory, ph) && 0 < SegmentPages(elfMemory, ph)
    ensures first < TOTAL_PAGES && last < TOTAL_PAGES
    ensures PagesAfter(ph.vaddr / PAGE_SIZE, first) == 0
    ensures PagesAfter(ph.vaddr / PAGE_SIZE, last) == SegmentPages(elfMemory, ph) - 1
    ensures Covers(elfMemory, ph, first) && Covers(elfMemory, ph, last)
    ensures last == (ph.vaddr / PAGE_SIZE + SegmentPages(elfMemory, ph) - 1) % TOTAL_PAGES
  {
    first := ph.vaddr / PAGE_SIZE;
    last := (first + SegmentPages(elfMemory, ph) - 1) % TOTAL_PAGES;
  }

  lemma EdgeFrames(elfMemory: uint32, ph: ProgramHeader, first: nat, last: nat)
    requires Mappable(elfMemory, ph) && 0 < SegmentPages(elfMemory, ph)
    requires PagesAfter(ph.vaddr / PAGE_SIZE, first) == 0
    requires PagesAfter(ph.vaddr / PAGE_SIZE, last) == SegmentPages(elfMemory, ph) - 1
    ensures SegmentFrame(elfMemory, ph, first) == AlignDown(SegmentPhysical(elfMemory, ph))
    ensures SegmentFrame(elfMemory, ph, last) + PAGE_SIZE == SegmentEnd(elfMemory, ph)
  {
    hide AlignDown, AlignUp, SegmentPhysical, PagesAfter;
    PagesBetween(AlignDown(SegmentPhysical(elfMemory, ph)), SegmentEnd(elfMemory, ph));
  }
}
