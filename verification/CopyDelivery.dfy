/** What copy_string_from_task delivers: the bytes it finds while a heap block is
    taken, cleared, mapped and filled, against those the process saw before. */
module CopyDelivery {
  import opened Memory
  import opened HeapTable
  import opened Heap
  import opened KernelHeap
  import opened Paging
  import opened AddressSpace
  import opened Process
  import opened CStrings
  import opened Owners
  import opened Isolation
  import opened CS = CopyString
  import Steps

  const ONE_BLOCK_TAKEN: byte := 0x41

  /** Where virtual address x leads once the block's page maps to itself. */
  function Reached(m: Mem, dir: nat, tmp: nat, x: uint32): uint32
    requires dir + PAGE_SIZE <= RAM_SIZE && tmp + PAGE_SIZE <= RAM_SIZE
  {
    if x / PAGE_SIZE == tmp / PAGE_SIZE then tmp + x % PAGE_SIZE else Translate(m, dir, x)
  }

  /** The byte at q once the block has been taken, cleared and mapped: the part asked
      for is clear, the block's page and table entries are set. */
  function Borrowed(m: Mem, dir: nat, tmp: nat, max: nat, q: uint32): byte
    requires dir + PAGE_SIZE <= RAM_SIZE && tmp + PAGE_SIZE <= RAM_SIZE
  {
    var a := EntryAddress(m, dir, tmp / PAGE_SIZE);
    if tmp <= q < tmp + max then 0
    else if a <= q < a + 4 then Bytes32(tmp + USER_FLAGS)[q - a]
    else if q == TABLE_ADDRESS + BlockOf(tmp) then ONE_BLOCK_TAKEN
    else m[q]
  }

  /** The byte the copy finds after it has copied `t`. */
  function Found(m: Mem, dir: nat, virt: uint32, tmp: nat, max: nat, t: seq<byte>): byte
    requires dir + PAGE_SIZE <= RAM_SIZE && tmp + PAGE_SIZE <= RAM_SIZE
  {
    var q := Reached(m, dir, tmp, At(virt, |t|));
    if tmp <= q < tmp + |t| then t[q - tmp] else Borrowed(m, dir, tmp, max, q)
  }

  /** The string that arrives, `t` of it being copied already. */
  function Arriving(m: Mem, dir: nat, virt: uint32, tmp: nat, max: nat, t: seq<byte>): (s: seq<byte>)
    requires dir + PAGE_SIZE <= RAM_SIZE && tmp + PAGE_SIZE <= RAM_SIZE && |t| < max
    ensures |t| <= |s| < max && t == s[..|t|]
    ensures 0 !in t ==> 0 !in s
    decreases max - |t|
  {
    hide Found;
    var c := Found(m, dir, virt, tmp, max, t);
    if |t| == max - 1 || c == 0 then t
    else
      var s := Arriving(m, dir, virt, tmp, max, t + [c]);
      assert t == (t + [c])[..|t|] == s[..|t|];
      s
  }

  // ---- Memory while the block is borrowed ----

  lemma TakenBytes(m: Mem, max: int)
    requires WellFormed(Table(m)) && 1 <= max < PAGE_SIZE && Fits(Table(m), 1)
    ensures var m1 := Kzalloc(m, max).0; var tmp := Block(m);
      forall q: uint32 :: m1[q] == if tmp <= q < tmp + max then 0
                                   else if q == TABLE_ADDRESS + BlockOf(tmp) then ONE_BLOCK_TAKEN else m[q]
  {
    hide Kzalloc, Fits, BlocksFor, WellFormed, IsRun, Take, FirstFit, Table, RunsAdded;
    OneBlock(max);
    KzallocFits(m, max);
    BlockBounds(m);
    var m1, tmp := Kzalloc(m, max).0, Block(m);
    forall q: uint32 ensures m1[q] == if tmp <= q < tmp + max then 0
        else if q == TABLE_ADDRESS + BlockOf(tmp) then ONE_BLOCK_TAKEN else m[q]
    {
      if !OutsideTable(q) { TakenEntry(m, m1, tmp, q); }
    }
  }

  lemma TakenEntry(m: Mem, m1: Mem, tmp: nat, q: uint32)
    requires 0 <= BlockOf(tmp) < TOTAL_BLOCKS && Table(m1) == Take(Table(m), BlockOf(tmp), 1) && !OutsideTable(q)
    ensures m1[q] == if q == TABLE_ADDRESS + BlockOf(tmp) then ONE_BLOCK_TAKEN else m[q]
  {
    assert Table(m1)[q - TABLE_ADDRESS] == m1[q] && Table(m)[q - TABLE_ADDRESS] == m[q];
  }

  /** Memory and translation are those of m with the block borrowed. */
  ghost predicate Borrows(m: Mem, m2: Mem, dir: nat, tmp: nat, max: nat)
    requires dir + PAGE_SIZE <= RAM_SIZE && tmp + PAGE_SIZE <= RAM_SIZE
  {
    && (forall q: uint32 :: m2[q] == Borrowed(m, dir, tmp, max, q))
    && (forall x: uint32 :: Translate(m2, dir, x) == Reached(m, dir, tmp, x))
  }

  lemma BlockBorrowed(m: Mem, chunk: nat, max: int)
    requires WellFormed(Table(m)) && LiveSpace(m, chunk) && 1 <= max < PAGE_SIZE && Fits(Table(m), 1)
    ensures chunk + 4 <= RAM_SIZE && DirectoryOf(m, chunk) + PAGE_SIZE <= RAM_SIZE && Block(m) + PAGE_SIZE <= HEAP_END
    ensures var m1 := Kzalloc(m, max).0; var dir := DirectoryOf(m, chunk);
      && SpaceOk(m1, chunk) && DirectoryOf(m1, chunk) == dir
      && var m2 := PagingMap(m1, chunk, Block(m), Block(m), USER_FLAGS).0;
      && CopyState(m2, chunk, Block(m)) && DirectoryOf(m2, chunk) == dir
      && Borrows(m, m2, dir, Block(m), max)
  {
    hide Kzalloc, Fits, WellFormed, LiveSpace, Load32, Store32, Block, SpaceOk, CopyState, PagingMap, EntryAddress,
      Table, SameEntries, Take, FreeRun, RunAt, Translate, PageEntry, ApartFromSpace;
    LiveTells(m, chunk);
    BlockTaken(m, chunk, max);
    BlockBounds(m);
    TakenBytes(m, max);
    var m1, tmp, dir := Kzalloc(m, max).0, Block(m), DirectoryOf(m, chunk);
    SameEntriesAddress(m, m1, chunk, tmp);
    BlockMapped(m1, chunk, tmp);
    var m2 := PagingMap(m1, chunk, tmp, tmp, USER_FLAGS).0;
    CopyStateTells(m2, chunk, tmp);
    forall q: uint32 ensures m2[q] == Borrowed(m, dir, tmp, max, q) {
      MappedByte(m1, chunk, tmp, q);
    }
    forall x: uint32 ensures Translate(m2, dir, x) == Reached(m, dir, tmp, x) {
      BorrowedTranslation(m, m1, m2, dir, tmp, x);
    }
  }

  lemma MappedByte(m1: Mem, chunk: nat, tmp: nat, q: uint32)
    requires SpaceOk(m1, chunk) && ApartFromSpace(m1, chunk, tmp) && tmp + PAGE_SIZE <= HEAP_END
    ensures var dir := DirectoryOf(m1, chunk); var a := EntryAddress(m1, dir, tmp / PAGE_SIZE);
      && HEAP_ADDRESS <= a && a + 4 <= HEAP_END && (a + 4 <= tmp || tmp + PAGE_SIZE <= a)
      && Store32(m1, a, tmp + USER_FLAGS)[q] == if a <= q < a + 4 then Bytes32(tmp + USER_FLAGS)[q - a] else m1[q]
  {
    hide Load32, EntryAddress, Bytes32;
    EntryPlace(m1, chunk, tmp);
  }

  lemma BorrowedTranslation(m: Mem, m1: Mem, m2: Mem, dir: nat, tmp: nat, x: uint32)
    requires dir + PAGE_SIZE <= RAM_SIZE && tmp + PAGE_SIZE <= RAM_SIZE && tmp % PAGE_SIZE == 0
    requires SameEntries(m, m1, dir) && MapsToSelf(m2, dir, tmp)
    requires forall v :: 0 <= v < TOTAL_PAGES && v != tmp / PAGE_SIZE ==> PageEntry(m2, dir, v) == PageEntry(m1, dir, v)
    ensures Translate(m2, dir, x) == Reached(m, dir, tmp, x)
  {
    hide PageEntry, FrameOf;
    if x / PAGE_SIZE == tmp / PAGE_SIZE {
      SelfTranslation(m2, dir, tmp, x % PAGE_SIZE);
    }
  }

  // ---- The copy through the page tables ----

  /** One turn: the byte found, and the state after it has been written. */
  lemma TurnFinds(m: Mem, m2: Mem, mc: Mem, chunk: nat, virt: uint32, tmp: nat, max: nat, t: seq<byte>)
    requires CopyState(m2, chunk, tmp) && CopyState(mc, chunk, tmp) && |t| < max < PAGE_SIZE
    requires chunk + 4 <= RAM_SIZE && tmp + PAGE_SIZE <= RAM_SIZE
    requires var dir := DirectoryOf(m2, chunk);
             dir + PAGE_SIZE <= RAM_SIZE && Borrows(m, m2, dir, tmp, max) && SameEntries(m2, mc, dir)
    requires OnlyBytes(m2, mc, tmp, tmp + |t|) && mc[tmp..tmp + |t|] == t
    ensures var dir := DirectoryOf(m2, chunk);
      && mc[Translate(mc, dir, At(virt, |t|))] == Found(m, dir, virt, tmp, max, t)
  {
    hide SameEntries, CopyState, Translate, Reached, Borrowed, At, Load32;
    var dir := DirectoryOf(m2, chunk);
    var x := At(virt, |t|);
    SameTranslation(m2, mc, dir, x);
    var q := Reached(m, dir, tmp, x);
    if tmp <= q < tmp + |t| { assert mc[tmp..tmp + |t|][q - tmp] == mc[q]; }
  }

  lemma TurnWritten(m2: Mem, mc: Mem, chunk: nat, tmp: nat, t: seq<byte>, c: byte)
    requires CopyState(mc, chunk, tmp) && |t| + 1 < PAGE_SIZE && tmp + PAGE_SIZE <= RAM_SIZE
    requires chunk + 4 <= RAM_SIZE && DirectoryOf(mc, chunk) + PAGE_SIZE <= RAM_SIZE
    requires OnlyBytes(m2, mc, tmp, tmp + |t|) && mc[tmp..tmp + |t|] == t
    requires SameEntries(m2, mc, DirectoryOf(mc, chunk))
    ensures var m' := mc[tmp + |t| := c];
      && CopyState(m', chunk, tmp) && DirectoryOf(m', chunk) == DirectoryOf(mc, chunk)
      && OnlyBytes(m2, m', tmp, tmp + |t + [c]|) && m'[tmp..tmp + |t + [c]|] == t + [c]
      && SameEntries(m2, m', DirectoryOf(mc, chunk))
  {
    hide PageEntry, CopyState, Load32;
    var m' := mc[tmp + |t| := c];
    CopyStateStays(mc, m', chunk, tmp);
  }

  lemma CopyTurn(m: Mem, dir: nat, dest: uint32, src: uint32, n: nat, i: nat)
    requires dir + PAGE_SIZE <= RAM_SIZE && i <= n
    ensures var c := m[Translate(m, dir, At(src, i))]; var at := Translate(m, dir, At(dest, i));
      VirtualCopy(m, dir, dest, src, n, i) ==
        if i == n || c == 0 then m[at := 0] else VirtualCopy(m[at := c], dir, dest, src, n, i + 1)
  {
    hide Translate, At;
  }

  lemma ArrivingTurn(m: Mem, dir: nat, virt: uint32, tmp: nat, max: nat, t: seq<byte>)
    requires dir + PAGE_SIZE <= RAM_SIZE && tmp + PAGE_SIZE <= RAM_SIZE && |t| < max
    ensures var c := Found(m, dir, virt, tmp, max, t);
      Arriving(m, dir, virt, tmp, max, t) ==
        if |t| == max - 1 || c == 0 then t else Arriving(m, dir, virt, tmp, max, t + [c])
  {
    hide Found;
  }

  lemma {:induction false} VirtualArrives(m: Mem, m2: Mem, mc: Mem, chunk: nat, virt: uint32, tmp: nat, max: nat,
                                          t: seq<byte>)
    requires CopyState(m2, chunk, tmp) && CopyState(mc, chunk, tmp) && |t| < max < PAGE_SIZE
    requires chunk + 4 <= RAM_SIZE && tmp + PAGE_SIZE <= RAM_SIZE && DirectoryOf(mc, chunk) == DirectoryOf(m2, chunk)
    requires var dir := DirectoryOf(m2, chunk);
             dir + PAGE_SIZE <= RAM_SIZE && Borrows(m, m2, dir, tmp, max) && SameEntries(m2, mc, dir)
    requires OnlyBytes(m2, mc, tmp, tmp + |t|) && mc[tmp..tmp + |t|] == t
    ensures var dir := DirectoryOf(m2, chunk);
      var s := Arriving(m, dir, virt, tmp, max, t); var m' := VirtualCopy(mc, dir, tmp, virt, max - 1, |t|);
      m'[tmp..tmp + |s|] == s && m'[tmp + |s|] == 0
    decreases max - |t|
  {
    hide SameEntries, CopyState, Translate, At, Load32, Found, Borrows, OnlyBytes, MapsToSelf, VirtualCopy, Arriving,
      SpaceOk, ApartFromSpace;
    var dir := DirectoryOf(m2, chunk);
    CopyStateTells(mc, chunk, tmp);
    SelfTranslation(mc, dir, tmp, |t|);
    TurnFinds(m, m2, mc, chunk, virt, tmp, max, t);
    var c := Found(m, dir, virt, tmp, max, t);
    CopyTurn(mc, dir, tmp, virt, max - 1, |t|);
    ArrivingTurn(m, dir, virt, tmp, max, t);
    if |t| == max - 1 || c == 0 {
      assert mc[tmp + |t| := 0][tmp..tmp + |t|] == mc[tmp..tmp + |t|];
    } else {
      TurnWritten(m2, mc, chunk, tmp, t, c);
      VirtualArrives(m, m2, mc[tmp + |t| := c], chunk, virt, tmp, max, t + [c]);
    }
  }

  // ---- The whole call ----

  lemma BlockFilled(m: Mem, chunk: nat, virt: uint32, max: int)
    requires WellFormed(Table(m)) && LiveSpace(m, chunk) && 1 <= max < PAGE_SIZE && Fits(Table(m), 1)
    ensures chunk + 4 <= RAM_SIZE && DirectoryOf(m, chunk) + PAGE_SIZE <= RAM_SIZE && Block(m) + PAGE_SIZE <= RAM_SIZE
    ensures var m1 := Kzalloc(m, max).0; var dir := DirectoryOf(m, chunk); var tmp := Block(m);
      && SpaceOk(m1, chunk)
      && var m3 := VirtualCopy(PagingMap(m1, chunk, tmp, tmp, USER_FLAGS).0, dir, tmp, virt, max - 1, 0);
      var s := Arriving(m, dir, virt, tmp, max, []);
      m3[tmp..tmp + |s|] == s && m3[tmp + |s|] == 0
  {
    hide Kzalloc, Fits, WellFormed, LiveSpace, Load32, Block, SpaceOk, CopyState, PagingMap, Table, Borrows, Arriving,
      VirtualCopy, SameEntries;
    BlockBorrowed(m, chunk, max);
    var m2 := PagingMap(Kzalloc(m, max).0, chunk, Block(m), Block(m), USER_FLAGS).0;
    EntriesSame(m2, DirectoryOf(m, chunk));
    assert m2[Block(m)..Block(m)] == [];
    VirtualArrives(m, m2, m2, chunk, virt, Block(m), max, []);
  }

  lemma EntriesSame(m: Mem, dir: nat)
    requires dir + PAGE_SIZE <= RAM_SIZE
    ensures SameEntries(m, m, dir)
  {
  }

  /** Whatever is asked for, what arrives is the string the copy finds. */
  lemma CopyArrives(m: Mem, chunk: nat, virt: uint32, phys: nat, max: int)
    requires WellFormed(Table(m)) && LiveSpace(m, chunk) && KernelBuffer(phys, max)
    requires max < PAGE_SIZE && Fits(Table(m), 1)
    ensures chunk + 4 <= RAM_SIZE && DirectoryOf(m, chunk) + PAGE_SIZE <= RAM_SIZE && Block(m) + PAGE_SIZE <= RAM_SIZE
    ensures var (m', res) := CS.CopyString(m, chunk, virt, phys, max);
      res == 0 && CStringAt(m', phys, Arriving(m, DirectoryOf(m, chunk), virt, Block(m), max, []))
  {
    hide LiveSpace, WellFormed, Fits, Table, Load32, Taken, CS.CopyString, PhysicalCopy, Kfree, PagingSet,
      VirtualCopy, PagingMap, PagingGet, OnlyBytes, Block, SpaceOk, CStringAt, SameEntries, ApartFromSpace,
      KernelHeap.Kzalloc, RunAt, Arriving;
    BlockFilled(m, chunk, virt, max);
    BlockBounds(m);
    var m1, m4 := CopyGranted(m, chunk, virt, phys, max);
    var tmp, dir := Block(m), DirectoryOf(m, chunk);
    TakenTells(m, m1, chunk, tmp);
    EntryRestored(m1, chunk, tmp, virt, max - 1);
    var s := Arriving(m, dir, virt, tmp, max, []);
    var m3 := VirtualCopy(PagingMap(m1, chunk, tmp, tmp, USER_FLAGS).0, dir, tmp, virt, max - 1, 0);
    BlockCopied(m3, m4, tmp, s);
    PhysicalDelivers(m4, phys, tmp, max - 1, 0, s);
    CopiedOut(m, m1, m4, chunk, tmp, phys, max);
    DeliveredString(CS.CopyString(m, chunk, virt, phys, max).0, phys, s);
  }

  lemma BlockCopied(m3: Mem, m4: Mem, tmp: nat, s: seq<byte>)
    requires tmp + PAGE_SIZE <= RAM_SIZE && |s| < PAGE_SIZE && m3[tmp..tmp + |s|] == s && m3[tmp + |s|] == 0
    requires forall k :: tmp <= k < tmp + PAGE_SIZE ==> m4[k] == m3[k]
    ensures (forall j :: 0 <= j < |s| ==> m4[tmp + j] == s[j]) && m4[tmp + |s|] == 0
  {
    forall j | 0 <= j < |s| ensures m4[tmp + j] == s[j] {
      assert m3[tmp..tmp + |s|][j] == m3[tmp + j];
    }
  }

  lemma TakenTells(m: Mem, m1: Mem, chunk: nat, tmp: nat)
    requires Taken(m, m1, chunk, tmp) && chunk + 4 <= RAM_SIZE
    ensures DirectoryOf(m1, chunk) == DirectoryOf(m, chunk) && HEAP_ADDRESS <= tmp
    ensures SpaceOk(m1, chunk) && ApartFromSpace(m1, chunk, tmp)
  {
    hide SpaceOk, ApartFromSpace, WellFormed, IsRun, Take, FreeRun, SameEntries, Load32;
  }

  lemma DeliveredString(m: Mem, phys: nat, s: seq<byte>)
    requires phys + |s| < RAM_SIZE && 0 !in s
    requires (forall j :: 0 <= j < |s| ==> m[phys + j] == s[j]) && m[phys + |s|] == 0
    ensures CStringAt(m, phys, s)
  {
    assert m[phys..phys + |s|] == s;
  }

  // ---- Against the string the process saw ----

  lemma {:induction false} ArrivingIsIff(m: Mem, dir: nat, virt: uint32, tmp: nat, max: nat, s: seq<byte>, i: nat)
    requires dir + PAGE_SIZE <= RAM_SIZE && tmp + PAGE_SIZE <= RAM_SIZE && i <= |s| < max && 0 !in s
    ensures Arriving(m, dir, virt, tmp, max, s[..i]) == s <==>
            forall j :: i <= j <= |s| && j < max - 1 ==>
              Found(m, dir, virt, tmp, max, s[..j]) == if j < |s| then s[j] else 0
    decreases |s| - i
  {
    hide Found;
    var c := Found(m, dir, virt, tmp, max, s[..i]);
    if i < |s| {
      if c == s[i] {
        assert s[..i] + [c] == s[..i + 1];
        ArrivingIsIff(m, dir, virt, tmp, max, s, i + 1);
      } else if c != 0 {
        assert Arriving(m, dir, virt, tmp, max, s[..i])[i] == c;
      }
    } else {
      assert s[..i] == s;
      if i < max - 1 && c != 0 { assert |Arriving(m, dir, virt, tmp, max, s + [c])| > |s|; }
    }
  }

  lemma SameString(m: Mem, p: nat, s: seq<byte>, t: seq<byte>)
    requires CStringAt(m, p, s) && CStringAt(m, p, t)
    ensures s == t
  {
    StringBytes(m, p, s);
    StringBytes(m, p, t);
  }

  /** Every byte the copy finds is the byte the process sees there. */
  ghost predicate FoundAsSeen(m: Mem, dir: nat, virt: uint32, tmp: nat, max: nat)
    requires dir + PAGE_SIZE <= RAM_SIZE && tmp + PAGE_SIZE <= RAM_SIZE && max >= 1
  {
    var s := VisibleString(m, dir, virt, max - 1);
    forall j :: 0 <= j <= |s| && j < max - 1 ==>
      Found(m, dir, virt, tmp, max, s[..j]) == m[Translate(m, dir, At(virt, j))]
  }

  /** On success the destination holds the string the process saw at `virt` before the
      call, cut to max - 1 characters and terminated, exactly if the copy finds each of
      its bytes as the process saw it. */
  lemma CopyDelivers(m: Mem, chunk: nat, virt: uint32, phys: nat, max: int)
    requires WellFormed(Table(m)) && LiveSpace(m, chunk) && KernelBuffer(phys, max)
    requires max < PAGE_SIZE && Fits(Table(m), 1)
    ensures chunk + 4 <= RAM_SIZE && DirectoryOf(m, chunk) + PAGE_SIZE <= RAM_SIZE && Block(m) + PAGE_SIZE <= RAM_SIZE
    ensures var dir := DirectoryOf(m, chunk);
      CStringAt(CS.CopyString(m, chunk, virt, phys, max).0, phys, VisibleString(m, dir, virt, max - 1)) <==>
        FoundAsSeen(m, dir, virt, Block(m), max)
  {
    hide LiveSpace, WellFormed, Fits, Table, Load32, CS.CopyString, Block, CStringAt, Arriving, Found, Translate, At,
      VisibleString;
    CopyArrives(m, chunk, virt, phys, max);
    var dir := DirectoryOf(m, chunk);
    var s, m' := VisibleString(m, dir, virt, max - 1), CS.CopyString(m, chunk, virt, phys, max).0;
    assert s[..0] == [];
    ArrivingIsIff(m, dir, virt, Block(m), max, s, 0);
    if CStringAt(m', phys, s) { SameString(m', phys, s, Arriving(m, dir, virt, Block(m), max, [])); }
  }

  /** The first free block, whose page every process has mapped to itself, read as a
      string: the process sees what the block held last, and the kernel, which has just
      cleared it, an empty string. The call succeeds. */
  lemma FreeBlockArrivesEmpty(m: Mem, chunk: nat, phys: nat, max: int)
    requires WellFormed(Table(m)) && LiveSpace(m, chunk) && KernelBuffer(phys, max)
    requires 2 <= max < PAGE_SIZE && Fits(Table(m), 1)
    requires chunk + 4 <= RAM_SIZE && DirectoryOf(m, chunk) + PAGE_SIZE <= RAM_SIZE && Block(m) + PAGE_SIZE <= RAM_SIZE
    requires Translate(m, DirectoryOf(m, chunk), Block(m)) == Block(m) && m[Block(m)] != 0
    ensures var dir := DirectoryOf(m, chunk); var (m', res) := CS.CopyString(m, chunk, Block(m), phys, max);
      VisibleString(m, dir, Block(m), max - 1) != [] && res == 0 && CStringAt(m', phys, [])
  {
    hide LiveSpace, WellFormed, Fits, Table, Load32, CS.CopyString, CStringAt, Translate, Block, Found, Arriving, At;
    CopyArrives(m, chunk, Block(m), phys, max);
    BlockBounds(m);
    AtSelf(Block(m));
    var dir := DirectoryOf(m, chunk);
    ClearFound(m, dir, Block(m), max);
    ArrivingTurn(m, dir, Block(m), Block(m), max, []);
  }

  lemma AtSelf(a: uint32)
    ensures At(a, 0) == a
  {
  }

  lemma ClearFound(m: Mem, dir: nat, tmp: nat, max: nat)
    requires dir + PAGE_SIZE <= RAM_SIZE && tmp + PAGE_SIZE <= RAM_SIZE && tmp % PAGE_SIZE == 0 && max >= 1
    ensures Found(m, dir, tmp, tmp, max, []) == 0
  {
    hide Translate, EntryAddress, Bytes32;
  }

  // ---- Bytes that are found as they were ----

  /** The process reads byte `j` neither through the page of the block the kernel is
      about to take, nor from that block, its page table entry or its heap table entry. */
  ghost predicate Undisturbed(m: Mem, dir: nat, virt: uint32, tmp: nat, j: nat)
    requires dir + PAGE_SIZE <= RAM_SIZE && tmp < RAM_SIZE
  {
    var q := Translate(m, dir, At(virt, j));
    var a := EntryAddress(m, dir, tmp / PAGE_SIZE);
    && At(virt, j) / PAGE_SIZE != tmp / PAGE_SIZE
    && (q < tmp || tmp + PAGE_SIZE <= q) && (q < a || a + 4 <= q) && q != TABLE_ADDRESS + BlockOf(tmp)
  }

  lemma UndisturbedFound(m: Mem, dir: nat, virt: uint32, tmp: nat, max: nat, t: seq<byte>)
    requires dir + PAGE_SIZE <= RAM_SIZE && tmp + PAGE_SIZE <= RAM_SIZE && |t| <= max < PAGE_SIZE
    requires Undisturbed(m, dir, virt, tmp, |t|)
    ensures Found(m, dir, virt, tmp, max, t) == m[Translate(m, dir, At(virt, |t|))]
  {
    hide Translate, At, EntryAddress, Bytes32;
  }

  /** A string all of whose bytes are undisturbed arrives as the process saw it. */
  lemma UndisturbedDelivered(m: Mem, chunk: nat, virt: uint32, phys: nat, max: int)
    requires WellFormed(Table(m)) && LiveSpace(m, chunk) && KernelBuffer(phys, max)
    requires max < PAGE_SIZE && Fits(Table(m), 1)
    requires chunk + 4 <= RAM_SIZE && DirectoryOf(m, chunk) + PAGE_SIZE <= RAM_SIZE && Block(m) + PAGE_SIZE <= RAM_SIZE
    requires var dir := DirectoryOf(m, chunk);
      forall j :: 0 <= j <= |VisibleString(m, dir, virt, max - 1)| && j < max - 1 ==>
        Undisturbed(m, dir, virt, Block(m), j)
    ensures var s := VisibleString(m, DirectoryOf(m, chunk), virt, max - 1);
      CStringAt(CS.CopyString(m, chunk, virt, phys, max).0, phys, s)
  {
    hide LiveSpace, WellFormed, Fits, Table, Load32, CS.CopyString, Block, CStringAt, Found, Translate, At,
      VisibleString, Undisturbed;
    CopyDelivers(m, chunk, virt, phys, max);
    var dir := DirectoryOf(m, chunk);
    var s := VisibleString(m, dir, virt, max - 1);
    forall j | 0 <= j <= |s| && j < max - 1
      ensures Found(m, dir, virt, Block(m), max, s[..j]) == m[Translate(m, dir, At(virt, j))]
    {
      UndisturbedFound(m, dir, virt, Block(m), max, s[..j]);
    }
  }

  /** A string in memory the process owns, not seen through the block's own page,
      is undisturbed. */
  lemma OwnByteUndisturbed(k: KState, pid: nat, virt: uint32, j: nat, o: Owner)
    requires Inv(k) && Live(k, pid) && Fits(Table(k.m), 1)
    requires o in k.held && !o.role.PageTable?
    ensures Steps.SpaceDefined(k, pid) && Block(k.m) < RAM_SIZE
    ensures var dir := DirectoryOf(k.m, k.procs[pid].value.chunk); var q := Translate(k.m, dir, At(virt, j));
      k.held[o].ptr <= q < k.held[o].End() && At(virt, j) / PAGE_SIZE != Block(k.m) / PAGE_SIZE ==>
        Undisturbed(k.m, dir, virt, Block(k.m), j)
  {
    Steps.LiveSpaceDefined(k, pid);
    BlockBounds(k.m);
    HeapAboveTable(k.m);
    hide Load32, Translate, Inv, Fits, FirstFit, Table, At, Block, EntryAddress;
    FreeBlockApart(k, o);
    OwnedEntryApart(k, pid, Block(k.m) / PAGE_SIZE, o);
  }

  lemma OwnedEntryApart(k: KState, pid: nat, v: nat, o: Owner)
    requires Inv(k) && Live(k, pid) && Steps.SpaceDefined(k, pid) && v < TOTAL_PAGES
    requires o in k.held && !o.role.PageTable?
    ensures var a := EntryAddress(k.m, DirectoryOf(k.m, k.procs[pid].value.chunk), v);
      a + 4 <= k.held[o].ptr || k.held[o].End() <= a
  {
    hide Load32, PagesOk, SlotsOk, PartsOk, IsRun, WellFormed;
    var p := k.procs[pid].value;
    assert ProcOk(k.m, k.held, pid, p);
    var i := v / TABLE_ENTRIES;
    assert HoldsPage(k.held, Owner(pid, PageTable(i)), TableAddress(k.m, DirectoryOf(k.m, p.chunk), i));
    HeldApart(k.m, k.held, Owner(pid, PageTable(i)), o);
  }

  /** No byte of the heap is a byte of its table. */
  lemma HeapAboveTable(m: Mem)
    requires Fits(Table(m), 1)
    ensures TABLE_ADDRESS + BlockOf(Block(m)) < HEAP_ADDRESS
  {
    FittingStart(Table(m), 1);
  }
}
