/** Building and tearing down the page tables of one 4 GB address space. */
module AddressSpace {
  import opened Memory
  import opened Heap
  import opened HeapTable
  import opened KernelHeap
  import opened Owners
  import opened Paging

  const SPACE_BLOCKS := 1026

  /** Entries b and up of the i-th table: the identity map of its 4 MB. */
  function FillTable(m: Mem, table: nat, i: nat, b: nat, flags: nat): (r: Mem)
    requires table + PAGE_SIZE <= RAM_SIZE && i < TABLE_ENTRIES && b <= TABLE_ENTRIES && flags < 256
    decreases TABLE_ENTRIES - b
  {
    if b == TABLE_ENTRIES then m
    else FillTable(Store32(m, table + 4 * b, (i * TABLE_ENTRIES + b) * PAGE_SIZE + flags), table, i, b + 1, flags)
  }

  /** flags | PAGING_IS_WRITEABLE. */
  function LinkFlags(flags: nat): (r: nat)
    ensures flags < 256 ==> r < 256
  {
    if flags / 2 % 2 == 1 then flags else flags + WRITEABLE
  }

  function NewTables(m: Mem, dir: nat, i: nat, flags: nat): (r: Mem)
    requires dir + PAGE_SIZE <= RAM_SIZE && i <= TABLE_ENTRIES && flags < 256
    decreases TABLE_ENTRIES - i
  {
    if i == TABLE_ENTRIES then m
    else
      var (m1, table) := Kzalloc(m, PAGE_SIZE);
      var m2 := FillTable(m1, table, i, 0, flags);
      NewTables(Store32(m2, dir + 4 * i, table + LinkFlags(flags)), dir, i + 1, flags)
  }

  /** paging_new_4gb. */
  function New4gb(m: Mem, flags: nat): (r: (Mem, nat))
    requires flags < 256
  {
    var (m1, dir) := Kzalloc(m, PAGE_SIZE);
    var m2 := NewTables(m1, dir, 0, flags);
    var (m3, chunk) := Kzalloc(m2, 4);
    (Store32(m3, chunk, dir), chunk)
  }

  /** What paging_free_4gb frees, in its order. */
  function SpacePointers(m: Mem, chunk: nat): (ptrs: seq<uint32>)
    requires chunk + 4 <= RAM_SIZE && DirectoryOf(m, chunk) + PAGE_SIZE <= RAM_SIZE
    ensures |ptrs| == SPACE_BLOCKS
  {
    var dir := DirectoryOf(m, chunk);
    seq(TABLE_ENTRIES, i requires 0 <= i < TABLE_ENTRIES => TableAddress(m, dir, i)) + [dir, chunk]
  }

  function Free4gb(m: Mem, chunk: nat): (r: Mem)
    requires SpaceOk(m, chunk)
  {
    SpaceFreeable(m, chunk);
    KfreeAll(m, SpacePointers(m, chunk))
  }

  lemma SpaceFreeable(m: Mem, chunk: nat)
    requires SpaceOk(m, chunk)
    ensures forall i :: 0 <= i < SPACE_BLOCKS ==> Freeable(SpacePointers(m, chunk)[i])
  {
    hide Load32;
  }

  // ---- Reads that survive a write elsewhere ----

  ghost predicate SamePage(m: Mem, m': Mem, a: nat)
    requires a + PAGE_SIZE <= RAM_SIZE
  {
    SameOn(m, m', a, a + PAGE_SIZE)
  }

  lemma DirectoryEntrySame(m: Mem, m': Mem, dir: nat, i: nat)
    requires dir + PAGE_SIZE <= RAM_SIZE && SamePage(m, m', dir) && i < TABLE_ENTRIES
    ensures DirectoryEntry(m', dir, i) == DirectoryEntry(m, dir, i)
    ensures TableAddress(m', dir, i) == TableAddress(m, dir, i)
  {
    LoadSame(m, m', dir + 4 * i);
  }

  lemma PageEntrySame(m: Mem, m': Mem, dir: nat, v: nat)
    requires dir + PAGE_SIZE <= RAM_SIZE && v < TOTAL_PAGES
    requires DirectoryEntry(m', dir, v / TABLE_ENTRIES) == DirectoryEntry(m, dir, v / TABLE_ENTRIES)
    requires SamePage(m, m', TableAddress(m, dir, v / TABLE_ENTRIES))
    ensures PageEntry(m', dir, v) == PageEntry(m, dir, v)
  {
    hide Load32;
    LoadSame(m, m', TableAddress(m, dir, v / TABLE_ENTRIES) + 4 * (v % TABLE_ENTRIES));
  }

  // ---- Filling one table ----

  lemma {:induction false} FilledTable(m: Mem, table: nat, i: nat, b: nat, flags: nat)
    requires table + PAGE_SIZE <= RAM_SIZE && i < TABLE_ENTRIES && b <= TABLE_ENTRIES && flags < 256
    ensures var m' := FillTable(m, table, i, b, flags);
            && (forall k :: 0 <= k < RAM_SIZE && !(table <= k < table + PAGE_SIZE) ==> m'[k] == m[k])
            && (forall c :: 0 <= c < b ==> Load32(m', table + 4 * c) == Load32(m, table + 4 * c))
            && (forall c :: b <= c < TABLE_ENTRIES ==>
                  Load32(m', table + 4 * c) == (i * TABLE_ENTRIES + c) * PAGE_SIZE + flags)
    decreases TABLE_ENTRIES - b
  {
    hide Load32, Store32;
    if b < TABLE_ENTRIES {
      var val := (i * TABLE_ENTRIES + b) * PAGE_SIZE + flags;
      var m1 := Store32(m, table + 4 * b, val);
      StoreKeeps(m, table + 4 * b, val);
      LoadStored(m, table + 4 * b, val);
      forall c | 0 <= c < b ensures Load32(m1, table + 4 * c) == Load32(m, table + 4 * c) {
        LoadElsewhere(m, table + 4 * b, val, table + 4 * c);
      }
      FilledTable(m1, table, i, b + 1, flags);
    }
  }

  // ---- The space a process slot holds ----

  ghost predicate HoldsPage(held: map<Owner, Run>, o: Owner, a: nat) {
    o in held && held[o] == Run(a, 1)
  }

  /** The first n tables of the directory are blocks held for the slot. */
  ghost predicate HoldsTables(m: Mem, held: map<Owner, Run>, pid: nat, dir: nat, n: nat)
    requires dir + PAGE_SIZE <= RAM_SIZE && n <= TABLE_ENTRIES
  {
    && HoldsPage(held, Owner(pid, Directory), dir)
    && forall j :: 0 <= j < n ==> HoldsPage(held, Owner(pid, PageTable(j)), TableAddress(m, dir, j))
  }

  /** Chunk, directory and tables are blocks held for the slot. */
  ghost predicate HoldsSpace(m: Mem, held: map<Owner, Run>, pid: nat, chunk: nat) {
    && chunk + 4 <= RAM_SIZE
    && HoldsPage(held, Owner(pid, Chunk), chunk)
    && DirectoryOf(m, chunk) + PAGE_SIZE <= RAM_SIZE
    && HoldsTables(m, held, pid, DirectoryOf(m, chunk), TABLE_ENTRIES)
  }

  lemma HeldPage(m: Mem, held: map<Owner, Run>, o: Owner, a: nat)
    requires Held(m, held) && HoldsPage(held, o, a)
    ensures HeapPage(a)
  {
    RunBounds(m, held[o]);
  }

  lemma HeldPagesApart(m: Mem, held: map<Owner, Run>, o: Owner, a: nat, o': Owner, a': nat)
    requires Held(m, held) && HoldsPage(held, o, a) && HoldsPage(held, o', a') && o != o'
    ensures a != a' && (a + PAGE_SIZE <= a' || a' + PAGE_SIZE <= a)
  {
    HeldApart(m, held, o, o');
  }

  /** Holding a space means its 1026 pages are different heap pages. */
  lemma HeldSpaceOk(m: Mem, held: map<Owner, Run>, pid: nat, chunk: nat)
    requires Held(m, held) && HoldsSpace(m, held, pid, chunk)
    ensures SpaceOk(m, chunk)
  {
    hide Load32, Held, HeapPage;
    var dir := DirectoryOf(m, chunk);
    var c, d := Owner(pid, Chunk), Owner(pid, Directory);
    HeldPage(m, held, c, chunk);
    HeldPage(m, held, d, dir);
    HeldPagesApart(m, held, c, chunk, d, dir);
    forall i | 0 <= i < TABLE_ENTRIES
      ensures HeapPage(TableAddress(m, dir, i)) && TableAddress(m, dir, i) != chunk && TableAddress(m, dir, i) != dir
    {
      var t := Owner(pid, PageTable(i));
      HeldPage(m, held, t, TableAddress(m, dir, i));
      HeldPagesApart(m, held, t, TableAddress(m, dir, i), c, chunk);
      HeldPagesApart(m, held, t, TableAddress(m, dir, i), d, dir);
    }
    forall i, j | 0 <= i < j < TABLE_ENTRIES ensures TableAddress(m, dir, i) != TableAddress(m, dir, j) {
      HeldPagesApart(m, held, Owner(pid, PageTable(i)), TableAddress(m, dir, i),
                     Owner(pid, PageTable(j)), TableAddress(m, dir, j));
    }
  }

  // ---- Building ----

  /** A directory entry links its table for whoever the flags admit, for writing in
      any case: the page entry alone decides whether a page is writeable. */
  predicate LinkedAs(entry: uint32, flags: nat) {
    && (IsPresent(entry) <==> flags % 2 == 1) && IsWriteable(entry)
    && (IsUser(entry) <==> flags / 4 % 2 == 1)
  }

  lemma LinkBits(table: nat, flags: nat)
    requires table % PAGE_SIZE == 0 && flags < 256 && table + PAGE_SIZE <= RAM_SIZE
    ensures LinkedAs(table + LinkFlags(flags), flags)
  {
    FlagBits(table, LinkFlags(flags));
  }

  ghost predicate Building(m: Mem, held: map<Owner, Run>, pid: nat, dir: nat, n: nat, flags: nat)
    requires dir + PAGE_SIZE <= RAM_SIZE && n <= TABLE_ENTRIES
  {
    && Held(m, held)
    && HoldsTables(m, held, pid, dir, n)
    && (forall j :: n <= j < TABLE_ENTRIES ==> Owner(pid, PageTable(j)) !in held)
    && (forall v :: 0 <= v < n * TABLE_ENTRIES ==> PageEntry(m, dir, v) == v * PAGE_SIZE + flags)
    && (forall j :: 0 <= j < n ==> LinkedAs(DirectoryEntry(m, dir, j), flags))
  }

  /** The bytes below the heap table are as they were. */
  ghost predicate SameBelowTable(m: Mem, m': Mem) {
    forall k :: 0 <= k < TABLE_ADDRESS ==> m'[k] == m[k]
  }

  lemma SameBelowTrans(m: Mem, m1: Mem, m2: Mem)
    requires SameBelowTable(m, m1) && SameBelowTable(m1, m2)
    ensures SameBelowTable(m, m2)
  {
  }

  /** Nothing held changes but the directory page. */
  ghost predicate SameHeldBut(m: Mem, m': Mem, held: map<Owner, Run>, but: Owner) {
    forall o :: o in held && o != but ==> SameRun(m, m', held[o])
  }

  lemma SameHeldButTrans(m: Mem, m1: Mem, m2: Mem, held: map<Owner, Run>, held1: map<Owner, Run>, but: Owner)
    requires SameHeldBut(m, m1, held, but) && SameHeldBut(m1, m2, held1, but) && Extends(held, held1)
    ensures SameHeldBut(m, m2, held, but)
  {
    forall o | o in held && o != but ensures SameRun(m, m2, held[o]) {
      assert SameRun(m, m1, held[o]) && SameRun(m1, m2, held1[o]);
    }
  }

  function NextTable(m: Mem, dir: nat, i: nat, flags: nat): (r: Mem)
    requires dir + PAGE_SIZE <= RAM_SIZE && i < TABLE_ENTRIES && flags < 256
  {
    var (m1, table) := Kzalloc(m, PAGE_SIZE);
    Store32(FillTable(m1, table, i, 0, flags), dir + 4 * i, table + LinkFlags(flags))
  }

  /** Linking a table whose page was filled since m1: everything held but the
      directory stays as it was, and the directory gets exactly one entry. */
  lemma TableLinked(m: Mem, m1: Mem, m2: Mem, held: map<Owner, Run>, o: Owner, d: Owner, dir: nat, i: nat,
                    table: nat, val: uint32)
    requires i < TABLE_ENTRIES && o !in held && o != d && HoldsPage(held, d, dir)
    requires Held(m1, held[o := Run(table, 1)])
    requires forall q :: q in held ==> SameRun(m, m1, held[q])
    requires forall k :: 0 <= k < RAM_SIZE && !(table <= k < table + PAGE_SIZE) ==> m2[k] == m1[k]
    ensures HeapPage(dir) && HeapPage(table) && (table + PAGE_SIZE <= dir || dir + PAGE_SIZE <= table)
    ensures var m3 := Store32(m2, dir + 4 * i, val);
            && Table(m3) == Table(m1) && Held(m3, held[o := Run(table, 1)])
            && SameHeldBut(m, m3, held, d)
            && SamePage(m2, m3, table) && SameBelowTable(m1, m3)
            && DirectoryEntry(m3, dir, i) == val
            && forall j :: 0 <= j < i ==> DirectoryEntry(m3, dir, j) == DirectoryEntry(m, dir, j)
  {
    hide Load32, Store32, IsRun, WellFormed;
    var held1 := held[o := Run(table, 1)];
    HeldPage(m1, held1, o, table);
    HeldPage(m1, held1, d, dir);
    HeldPagesApart(m1, held1, o, table, d, dir);
    var m3 := Store32(m2, dir + 4 * i, val);
    StoreKeeps(m2, dir + 4 * i, val);
    LoadStored(m2, dir + 4 * i, val);
    forall j | 0 <= j < i ensures DirectoryEntry(m3, dir, j) == DirectoryEntry(m, dir, j) {
      assert SameRun(m, m1, held[d]);
      LoadSame(m, m1, dir + 4 * j);
      LoadSame(m1, m2, dir + 4 * j);
      LoadElsewhere(m2, dir + 4 * i, val, dir + 4 * j);
    }
    TableSame(m1, m3);
    HeldByTable(m1, m3, held1);
    forall q | q in held && q != d ensures SameRun(m, m3, held[q]) {
      HeldApart(m1, held1, q, o);
      HeldApart(m1, held1, q, d);
      assert SameRun(m, m1, held[q]);
    }
  }

  /** One more table: the memory facts. */
  lemma TableAdded(m: Mem, held: map<Owner, Run>, pid: nat, dir: nat, i: nat, flags: nat)
    requires i < TABLE_ENTRIES && dir + PAGE_SIZE <= RAM_SIZE && flags < 256
    requires Held(m, held) && HoldsPage(held, Owner(pid, Directory), dir) && Owner(pid, PageTable(i)) !in held
    requires FreeBlocks(Table(m)) != {}
    ensures var m' := NextTable(m, dir, i, flags); var table := Kzalloc(m, PAGE_SIZE).1;
            var held' := held[Owner(pid, PageTable(i)) := Run(table, 1)];
            && Held(m', held') && RunsGrew(m, m', held, held')
            && |FreeBlocks(Table(m'))| == |FreeBlocks(Table(m))| - 1
            && SameHeldBut(m, m', held, Owner(pid, Directory)) && SameBelowTable(m, m')
            && HeapPage(table)
            && DirectoryEntry(m', dir, i) == table + LinkFlags(flags)
            && (forall j :: 0 <= j < i ==> DirectoryEntry(m', dir, j) == DirectoryEntry(m, dir, j))
            && (forall c :: 0 <= c < TABLE_ENTRIES ==>
                  Load32(m', table + 4 * c) == (i * TABLE_ENTRIES + c) * PAGE_SIZE + flags)
  {
    hide Load32, Store32, IsRun, WellFormed, Kzalloc, FillTable, Fits, Take, FirstFit, FreeBlocks;
    var o, d := Owner(pid, PageTable(i)), Owner(pid, Directory);
    TakeOne(Table(m));
    assert BlocksFor(PAGE_SIZE) == 1;
    KzallocFits(m, PAGE_SIZE);
    KzallocHeld(m, held, o, PAGE_SIZE);
    var (m1, table) := Kzalloc(m, PAGE_SIZE);
    var m2 := FillTable(m1, table, i, 0, flags);
    var val := table + LinkFlags(flags);
    FilledTable(m1, table, i, 0, flags);
    TableLinked(m, m1, m2, held, o, d, dir, i, table, val);
    SameBelowTrans(m, m1, Store32(m2, dir + 4 * i, val));
    var m3 := Store32(m2, dir + 4 * i, val);
    OneNewRun(m, m1, held, o, Run(table, 1));
    forall c | 0 <= c < TABLE_ENTRIES
      ensures Load32(m3, table + 4 * c) == (i * TABLE_ENTRIES + c) * PAGE_SIZE + flags
    {
      LoadSame(m2, m3, table + 4 * c);
    }
  }

  lemma HeldRunSame(m: Mem, m': Mem, held: map<Owner, Run>, but: Owner, o: Owner, a: nat)
    requires SameHeldBut(m, m', held, but) && HoldsPage(held, o, a) && o != but
    ensures a + PAGE_SIZE <= RAM_SIZE && SamePage(m, m', a)
  {
    assert SameRun(m, m', held[o]);
  }

  lemma BuildingStep(m: Mem, held: map<Owner, Run>, pid: nat, dir: nat, i: nat, flags: nat)
    requires i < TABLE_ENTRIES && dir + PAGE_SIZE <= RAM_SIZE && flags < 256
    requires Building(m, held, pid, dir, i, flags) && FreeBlocks(Table(m)) != {}
    ensures var held' := held[Owner(pid, PageTable(i)) := Run(Kzalloc(m, PAGE_SIZE).1, 1)];
            Building(NextTable(m, dir, i, flags), held', pid, dir, i + 1, flags)
  {
    hide Load32, Store32, NextTable, Kzalloc, Held, FreeBlocks, RunsGrew, SameHeldBut, LinkedAs;
    var m', table := NextTable(m, dir, i, flags), Kzalloc(m, PAGE_SIZE).1;
    var held' := held[Owner(pid, PageTable(i)) := Run(table, 1)];
    TableAdded(m, held, pid, dir, i, flags);
    FrameOfSum(table, LinkFlags(flags));
    LinkBits(table, flags);
    assert TableAddress(m', dir, i) == table;
    forall j | 0 <= j < i ensures TableAddress(m', dir, j) == TableAddress(m, dir, j) {
      assert DirectoryEntry(m', dir, j) == DirectoryEntry(m, dir, j);
    }
    forall v | 0 <= v < (i + 1) * TABLE_ENTRIES ensures PageEntry(m', dir, v) == v * PAGE_SIZE + flags {
      var j := v / TABLE_ENTRIES;
      if j < i {
        assert DirectoryEntry(m', dir, j) == DirectoryEntry(m, dir, j);
        HeldRunSame(m, m', held, Owner(pid, Directory), Owner(pid, PageTable(j)), TableAddress(m, dir, j));
        PageEntrySame(m, m', dir, v);
      } else {
        var c := v % TABLE_ENTRIES;
        assert Load32(m', table + 4 * c) == (i * TABLE_ENTRIES + c) * PAGE_SIZE + flags;
      }
    }
  }

  ghost function TableOwners(pid: nat, i: nat): set<Owner> {
    set j | i <= j < TABLE_ENTRIES :: Owner(pid, PageTable(j))
  }

  lemma {:induction false} TablesBuilt(m: Mem, held: map<Owner, Run>, pid: nat, dir: nat, i: nat, flags: nat)
      returns (held': map<Owner, Run>)
    requires i <= TABLE_ENTRIES && dir + PAGE_SIZE <= RAM_SIZE && flags < 256
    requires Building(m, held, pid, dir, i, flags) && |FreeBlocks(Table(m))| >= TABLE_ENTRIES - i
    ensures Building(NewTables(m, dir, i, flags), held', pid, dir, TABLE_ENTRIES, flags)
    ensures RunsGrew(m, NewTables(m, dir, i, flags), held, held')
    ensures SameHeldBut(m, NewTables(m, dir, i, flags), held, Owner(pid, Directory))
    ensures SameBelowTable(m, NewTables(m, dir, i, flags))
    ensures held'.Keys == held.Keys + TableOwners(pid, i)
    ensures |FreeBlocks(Table(NewTables(m, dir, i, flags)))| == |FreeBlocks(Table(m))| - (TABLE_ENTRIES - i)
    decreases TABLE_ENTRIES - i
  {
    hide *;
    if i == TABLE_ENTRIES {
      held' := held;
      NothingBuilt(m, held, pid, dir, flags);
    } else {
      var m1, held1 := OneTableBuilt(m, held, pid, dir, i, flags);
      held' := TablesBuilt(m1, held1, pid, dir, i + 1, flags);
      var m' := NewTables(m, dir, i, flags);
      RunsGrewTrans(m, m1, m', held, held1, held');
      RunsGrewExtends(m, m1, held, held1);
      SameHeldButTrans(m, m1, m', held, held1, Owner(pid, Directory));
      SameBelowTrans(m, m1, m');
      TableOwnersStep(pid, i);
    }
  }

  lemma RunsGrewExtends(m: Mem, m': Mem, held: map<Owner, Run>, held': map<Owner, Run>)
    requires RunsGrew(m, m', held, held')
    ensures Extends(held, held')
  {
  }

  lemma TableOwnersStep(pid: nat, i: nat)
    requires i < TABLE_ENTRIES
    ensures TableOwners(pid, i) == TableOwners(pid, i + 1) + {Owner(pid, PageTable(i))}
  {
  }

  lemma OneTableBuilt(m: Mem, held: map<Owner, Run>, pid: nat, dir: nat, i: nat, flags: nat)
      returns (m1: Mem, held1: map<Owner, Run>)
    requires i < TABLE_ENTRIES && dir + PAGE_SIZE <= RAM_SIZE && flags < 256
    requires Building(m, held, pid, dir, i, flags) && |FreeBlocks(Table(m))| >= TABLE_ENTRIES - i
    ensures NewTables(m, dir, i, flags) == NewTables(m1, dir, i + 1, flags)
    ensures Building(m1, held1, pid, dir, i + 1, flags)
    ensures RunsGrew(m, m1, held, held1) && SameHeldBut(m, m1, held, Owner(pid, Directory)) && SameBelowTable(m, m1)
    ensures held1.Keys == held.Keys + {Owner(pid, PageTable(i))}
    ensures |FreeBlocks(Table(m1))| == |FreeBlocks(Table(m))| - 1
  {
    hide Load32, Kzalloc, Held, Building, NextTable, FreeBlocks, SameHeldBut, RunsGrew, Table, NewTables;
    BuildingFacts(m, held, pid, dir, i, flags);
    assert FreeBlocks(Table(m)) != {};
    TableAdded(m, held, pid, dir, i, flags);
    BuildingStep(m, held, pid, dir, i, flags);
    NewTablesStep(m, dir, i, flags);
    m1 := NextTable(m, dir, i, flags);
    held1 := held[Owner(pid, PageTable(i)) := Run(Kzalloc(m, PAGE_SIZE).1, 1)];
  }

  lemma NewTablesStep(m: Mem, dir: nat, i: nat, flags: nat)
    requires dir + PAGE_SIZE <= RAM_SIZE && i < TABLE_ENTRIES && flags < 256
    ensures NewTables(m, dir, i, flags) == NewTables(NextTable(m, dir, i, flags), dir, i + 1, flags)
  {
  }

  lemma NothingBuilt(m: Mem, held: map<Owner, Run>, pid: nat, dir: nat, flags: nat)
    requires dir + PAGE_SIZE <= RAM_SIZE && flags < 256 && Building(m, held, pid, dir, TABLE_ENTRIES, flags)
    ensures NewTables(m, dir, TABLE_ENTRIES, flags) == m
    ensures RunsGrew(m, m, held, held) && SameHeldBut(m, m, held, Owner(pid, Directory)) && SameBelowTable(m, m)
    ensures TableOwners(pid, TABLE_ENTRIES) == {}
  {
    forall o | o in held ensures SameRun(m, m, held[o]) {
      RunBounds(m, held[o]);
    }
  }

  lemma BuildingFacts(m: Mem, held: map<Owner, Run>, pid: nat, dir: nat, i: nat, flags: nat)
    requires i < TABLE_ENTRIES && dir + PAGE_SIZE <= RAM_SIZE && Building(m, held, pid, dir, i, flags)
    ensures Held(m, held) && HoldsPage(held, Owner(pid, Directory), dir) && Owner(pid, PageTable(i)) !in held
  {
  }

  ghost function SpaceOwners(pid: nat): set<Owner> {
    TableOwners(pid, 0) + {Owner(pid, Directory), Owner(pid, Chunk)}
  }

  /** With 1026 free blocks paging_new_4gb builds, in 1026 blocks nobody held, a
      space in which every page maps to itself with the given flags, and every table is
      linked present and for users as they say, and writeable; it touches no byte
      anybody else holds. */
  lemma SpaceBuilt(m: Mem, held: map<Owner, Run>, pid: nat, flags: nat) returns (held': map<Owner, Run>)
    requires flags < 256 && Held(m, held) && held.Keys !! SpaceOwners(pid)
    requires |FreeBlocks(Table(m))| >= SPACE_BLOCKS
    ensures held'.Keys == held.Keys + SpaceOwners(pid)
    ensures var (m', chunk) := New4gb(m, flags);
            && Held(m', held') && HoldsSpace(m', held', pid, chunk)
            && RunsGrew(m, m', held, held')
            && (forall o :: o in held ==> SameRun(m, m', held[o])) && SameBelowTable(m, m')
            && (forall v :: 0 <= v < TOTAL_PAGES ==>
                  PageEntry(m', DirectoryOf(m', chunk), v) == v * PAGE_SIZE + flags)
            && (forall i :: 0 <= i < TABLE_ENTRIES ==> LinkedAs(DirectoryEntry(m', DirectoryOf(m', chunk), i), flags))
            && |FreeBlocks(Table(m'))| == |FreeBlocks(Table(m))| - SPACE_BLOCKS
  {
    hide Load32, Store32, Kzalloc, Held, FreeBlocks, IsRun, Table, NewTables, LinkedAs;
    var d, c := Owner(pid, Directory), Owner(pid, Chunk);
    var m1, dir, held1 := BlockAdded(m, held, d, PAGE_SIZE);
    forall j | 0 <= j < TABLE_ENTRIES ensures Owner(pid, PageTable(j)) !in held1 {
      assert Owner(pid, PageTable(j)) in TableOwners(pid, 0);
    }
    var m2 := NewTables(m1, dir, 0, flags);
    var held2 := TablesBuilt(m1, held1, pid, dir, 0, flags);
    var m3, chunk, held3 := BlockAdded(m2, held2, c, 4);
    held' := held3;
    var m4 := Store32(m3, chunk, dir);
    assert New4gb(m, flags) == (m4, chunk);
    ChunkLinked(m2, m3, held2, held3, pid, dir, chunk, flags);
    RunsGrewTrans(m, m1, m2, held, held1, held2);
    RunsGrewTrans(m, m2, m3, held, held2, held3);
    RunsGrewTable(m, m3, m4, held, held3);
    SameBelowTrans(m, m1, m2);
    SameBelowTrans(m, m2, m3);
    SameBelowTrans(m, m3, m4);
    forall o | o in held ensures SameRun(m, m4, held[o]) {
      assert o != d && o in held1 && o in held2 && o in held3 && o != c;
      assert SameRun(m, m1, held[o]) && SameRun(m1, m2, held1[o]) && SameRun(m2, m4, held2[o]);
    }
  }

  lemma RunsGrewTable(m: Mem, m1: Mem, m2: Mem, held: map<Owner, Run>, held': map<Owner, Run>)
    requires RunsGrew(m, m1, held, held') && Table(m2) == Table(m1)
    ensures RunsGrew(m, m2, held, held')
  {
  }

  /** One block for a new owner. */
  lemma BlockAdded(m: Mem, held: map<Owner, Run>, o: Owner, size: uint32)
      returns (m': Mem, p: nat, held': map<Owner, Run>)
    requires Held(m, held) && o !in held && 0 < size <= PAGE_SIZE && FreeBlocks(Table(m)) != {}
    ensures Kzalloc(m, size) == (m', p) && HeapPage(p) && held' == held[o := Run(p, 1)]
    ensures Held(m', held') && HoldsPage(held', o, p) && RunsGrew(m, m', held, held')
    ensures forall q :: q in held ==> SameRun(m, m', held[q])
    ensures |FreeBlocks(Table(m'))| == |FreeBlocks(Table(m))| - 1 && SameBelowTable(m, m')
  {
    hide Kzalloc, IsRun, WellFormed, FirstFit, Fits, Take, FreeBlocks, SameRun;
    TakeOne(Table(m));
    assert BlocksFor(size) == 1;
    KzallocFits(m, size);
    KzallocHeld(m, held, o, size);
    m', p := Kzalloc(m, size).0, Kzalloc(m, size).1;
    held' := held[o := Run(p, 1)];
    OneNewRun(m, m', held, o, Run(p, 1));
    HeldPage(m', held', o, p);
  }

  lemma ChunkLinked(m2: Mem, m3: Mem, held2: map<Owner, Run>, held3: map<Owner, Run>, pid: nat, dir: nat,
                    chunk: nat, flags: nat)
    requires dir + PAGE_SIZE <= RAM_SIZE && Building(m2, held2, pid, dir, TABLE_ENTRIES, flags)
    requires Owner(pid, Chunk) !in held2 && held3 == held2[Owner(pid, Chunk) := Run(chunk, 1)]
    requires Held(m3, held3) && forall q :: q in held2 ==> SameRun(m2, m3, held2[q])
    ensures HeapPage(chunk)
    ensures var m4 := Store32(m3, chunk, dir);
            && Held(m4, held3) && Table(m4) == Table(m3)
            && HoldsSpace(m4, held3, pid, chunk) && DirectoryOf(m4, chunk) == dir
            && (forall q :: q in held2 ==> SameRun(m2, m4, held2[q])) && SameBelowTable(m3, m4)
            && (forall v :: 0 <= v < TOTAL_PAGES ==> PageEntry(m4, dir, v) == v * PAGE_SIZE + flags)
            && forall i :: 0 <= i < TABLE_ENTRIES ==> LinkedAs(DirectoryEntry(m4, dir, i), flags)
  {
    hide Load32, Store32, IsRun, WellFormed, LinkedAs;
    var c, d := Owner(pid, Chunk), Owner(pid, Directory);
    HeldPage(m3, held3, c, chunk);
    var m4 := Store32(m3, chunk, dir);
    StoreKeeps(m3, chunk, dir);
    LoadStored(m3, chunk, dir);
    TableSame(m3, m4);
    HeldByTable(m3, m4, held3);
    forall q | q in held2 ensures SameRun(m2, m4, held2[q]) {
      HeldApart(m3, held3, q, c);
      assert SameRun(m2, m3, held2[q]);
    }
    assert SameHeldBut(m2, m4, held2, c);
    HeldRunSame(m2, m4, held2, c, d, dir);
    forall j | 0 <= j < TABLE_ENTRIES
      ensures DirectoryEntry(m4, dir, j) == DirectoryEntry(m2, dir, j)
      ensures HoldsPage(held3, Owner(pid, PageTable(j)), TableAddress(m4, dir, j))
    {
      DirectoryEntrySame(m2, m4, dir, j);
      assert HoldsPage(held2, Owner(pid, PageTable(j)), TableAddress(m2, dir, j));
    }
    forall v | 0 <= v < TOTAL_PAGES ensures PageEntry(m4, dir, v) == v * PAGE_SIZE + flags {
      var j := v / TABLE_ENTRIES;
      assert HoldsPage(held2, Owner(pid, PageTable(j)), TableAddress(m2, dir, j));
      HeldRunSame(m2, m4, held2, c, Owner(pid, PageTable(j)), TableAddress(m2, dir, j));
      PageEntrySame(m2, m4, dir, v);
    }
  }

  // ---- Tearing down ----

  function SpaceOwnerList(pid: nat): (os: seq<Owner>)
    ensures |os| == SPACE_BLOCKS && NoRepeats(os)
    ensures OwnersOf(os) == SpaceOwners(pid)
  {
    var tables := seq(TABLE_ENTRIES, i requires i >= 0 => Owner(pid, PageTable(i)));
    var os := tables + [Owner(pid, Directory), Owner(pid, Chunk)];
    assert forall j :: 0 <= j < TABLE_ENTRIES ==> os[j] == Owner(pid, PageTable(j));
    assert os[TABLE_ENTRIES] == Owner(pid, Directory) && os[TABLE_ENTRIES + 1] == Owner(pid, Chunk);
    os
  }

  lemma SpacePointersOwned(m: Mem, held: map<Owner, Run>, pid: nat, chunk: nat)
    requires HoldsSpace(m, held, pid, chunk)
    ensures forall i :: 0 <= i < SPACE_BLOCKS ==> SpaceOwnerList(pid)[i] in held
    ensures SpacePointers(m, chunk) == Owned(held, SpaceOwnerList(pid))
  {
    hide Load32;
    var dir := DirectoryOf(m, chunk);
    forall i | 0 <= i < SPACE_BLOCKS
      ensures SpaceOwnerList(pid)[i] in held
      ensures SpacePointers(m, chunk)[i] == held[SpaceOwnerList(pid)[i]].ptr
    {
      if i < TABLE_ENTRIES {
        assert HoldsPage(held, Owner(pid, PageTable(i)), TableAddress(m, dir, i));
      }
    }
  }

  /** paging_free_4gb gives up exactly the blocks of the space. */
  lemma SpaceFreed(m: Mem, held: map<Owner, Run>, pid: nat, chunk: nat)
    requires Held(m, held) && HoldsSpace(m, held, pid, chunk)
    ensures SpaceOk(m, chunk)
    ensures Held(Free4gb(m, chunk), held - SpaceOwners(pid))
    ensures SameOutsideTable(m, Free4gb(m, chunk))
    ensures forall a, b :: IsRun(Table(Free4gb(m, chunk)), a, b) <==>
              IsRun(Table(m), a, b) && !Names(held, SpaceOwnerList(pid), a, b)
  {
    hide Load32, IsRun, Table, SpacePointers;
    HeldSpaceOk(m, held, pid, chunk);
    SpacePointersOwned(m, held, pid, chunk);
    SpaceFreeable(m, chunk);
    KfreeAllHeld(m, held, SpaceOwnerList(pid), SpacePointers(m, chunk));
    KfreeAllRuns(m, held, SpaceOwnerList(pid), SpacePointers(m, chunk));
  }

  /** Building an address space and freeing it restores the heap table entry for entry. */
  lemma NewThenFreeRestoresHeap(m: Mem, flags: nat)
    requires flags < 256 && WellFormed(Table(m)) && |FreeBlocks(Table(m))| >= SPACE_BLOCKS
    ensures var (m', chunk) := New4gb(m, flags);
            SpaceOk(m', chunk) && Table(Free4gb(m', chunk)) == Table(m)
  {
    hide Load32, IsRun, New4gb, Free4gb, HoldsSpace, FreeBlocks, WellFormed, SameRun;
    var nobody: map<Owner, Run> := map[];
    var held := SpaceBuilt(m, nobody, 0, flags);
    var (m', chunk) := New4gb(m, flags);
    SpaceFreed(m', held, 0, chunk);
    var m'' := Free4gb(m', chunk);
    forall a, b ensures IsRun(Table(m''), a, b) <==> IsRun(Table(m), a, b) {
      assert forall o :: o in held <==> o in OwnersOf(SpaceOwnerList(0));
      assert NewlyNamed(nobody, held, a, b) <==> Names(held, SpaceOwnerList(0), a, b);
    }
    RunsDetermineTable(Table(m''), Table(m));
  }
}
