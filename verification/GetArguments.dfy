/** process_get_arguments: the kernel writes argc and argv where an address that
    user code picks leads, whatever the page's flags are. */
module GetArguments {
  import opened Memory
  import opened HeapTable
  import opened Heap
  import opened KernelHeap
  import opened Owners
  import opened Paging
  import opened AddressSpace
  import opened Process
  import opened Isolation
  import opened Steps

  const ARGUMENTS_SIZE := 8

  /** argc and argv as they lie in memory. */
  function ArgumentBytes(argc: uint32, argv: uint32): (s: seq<byte>)
    ensures |s| == ARGUMENTS_SIZE
  {
    Bytes32(argc) + Bytes32(argv)
  }

  function GetStep(k: KState, pid: nat, a: uint32, argc: uint32, argv: uint32): (k': KState)
    requires SpaceDefined(k, pid)
  {
    k.(m := SpliceRound(k.m, Target(k, pid, a), ArgumentBytes(argc, argv)))
  }

  /** task_virtual_address_to_physical. */
  function Target(k: KState, pid: nat, a: uint32): uint32
    requires SpaceDefined(k, pid)
  {
    PhysicalFits(k.m, DirectoryOf(k.m, k.procs[pid].value.chunk), a);
    PhysicalAddress(k.m, DirectoryOf(k.m, k.procs[pid].value.chunk), a)
  }

  lemma PhysicalFits(m: Mem, dir: nat, a: uint32)
    requires dir + PAGE_SIZE <= RAM_SIZE
    ensures PhysicalAddress(m, dir, a) < RAM_SIZE
  {
    hide PagingGet;
  }

  // ---- What must not change ----

  predicate OwnRole(r: Role) {
    r == Image || r == Stack || r.Allocation?
  }

  /** Byte t belongs to the kernel below the heap, to another process, or to one of
      the kernel's structures for this one. */
  ghost predicate Protected(k: KState, pid: nat, t: nat) {
    || t < HEAP_ADDRESS
    || exists o :: o in k.held && !(o.pid == pid && OwnRole(o.role)) && k.held[o].ptr <= t < k.held[o].End()
  }

  /** What a store by user code spares, this write spares too. */
  ghost predicate Spared(k: KState, m': Mem, pid: nat) {
    forall t: uint32 :: Protected(k, pid, t) ==> m'[t] == k.m[t]
  }

  /** The bytes the write reaches are not protected, or hold what is written already. */
  ghost predicate Harmless(k: KState, pid: nat, a: uint32, argc: uint32, argv: uint32)
    requires SpaceDefined(k, pid)
  {
    forall i :: 0 <= i < ARGUMENTS_SIZE ==>
      var t := Round(Target(k, pid, a), i);
      Protected(k, pid, t) ==> k.m[t] == ArgumentBytes(argc, argv)[i]
  }

  /** The write changes no protected byte exactly if it is harmless. */
  lemma GetSparesIff(k: KState, pid: nat, a: uint32, argc: uint32, argv: uint32)
    requires SpaceDefined(k, pid)
    ensures Spared(k, GetStep(k, pid, a, argc, argv).m, pid) <==> Harmless(k, pid, a, argc, argv)
  {
    hide Protected, Load32, PhysicalAddress, Bytes32;
    var p, s, m' := Target(k, pid, a), ArgumentBytes(argc, argv), GetStep(k, pid, a, argc, argv).m;
    forall t: uint32 ensures m'[t] == if Behind(t, p) < ARGUMENTS_SIZE then s[Behind(t, p)] else k.m[t] {
      SplicedRoundAt(k.m, p, s, t);
    }
    forall i | 0 <= i < ARGUMENTS_SIZE ensures Behind(Round(p, i), p) == i {
      RoundBehind(p, i);
    }
    forall t: uint32 ensures Round(p, Behind(t, p)) == t {
      BehindRound(t, p);
    }
    if Spared(k, m', pid) {
      forall i | 0 <= i < ARGUMENTS_SIZE && Protected(k, pid, Round(p, i)) ensures k.m[Round(p, i)] == s[i] {
        assert m'[Round(p, i)] == k.m[Round(p, i)];
      }
    }
    if Harmless(k, pid, a, argc, argv) {
      forall t: uint32 | Protected(k, pid, t) ensures m'[t] == k.m[t] {
        if Behind(t, p) < ARGUMENTS_SIZE { assert t == Round(p, Behind(t, p)); }
      }
    }
  }

  lemma SparedRuns(k: KState, m': Mem, pid: nat, o: Owner)
    requires Spared(k, m', pid) && Held(k.m, k.held) && o in k.held && !(o.pid == pid && OwnRole(o.role))
    ensures SameRun(k.m, m', k.held[o])
  {
    hide Held;
    HeldBounds(k.m, k.held, o);
    forall t | k.held[o].ptr <= t < k.held[o].End() ensures m'[t] == k.m[t] {
      assert Protected(k, pid, t);
    }
  }

  /** Then the kernel stays sound. */
  lemma SparedKeepsInv(k: KState, m': Mem, pid: nat)
    requires Inv(k) && Spared(k, m', pid)
    ensures Inv(k.(m := m'))
  {
    hide Inv, Held, LowGuard, KernelRunsSame, SameRun, Table, Protected;
    InvProcs(k);
    LowSpared(k, m', pid);
    BelowHeapSame(k.m, m');
    HeldByTable(k.m, m', k.held);
    forall q: nat ensures KernelRunsSame(k.m, m', k.held, q) {
      SparedKernelRuns(k, m', pid, q);
    }
    FrameKeepsInv(k, m');
  }

  lemma LowSpared(k: KState, m': Mem, pid: nat)
    requires Spared(k, m', pid)
    ensures forall j :: 0 <= j < HEAP_ADDRESS ==> m'[j] == k.m[j]
  {
    forall j | 0 <= j < HEAP_ADDRESS ensures m'[j] == k.m[j] {
      assert Protected(k, pid, j);
    }
  }

  lemma SparedKernelRuns(k: KState, m': Mem, pid: nat, q: nat)
    requires Spared(k, m', pid) && Held(k.m, k.held)
    ensures KernelRunsSame(k.m, m', k.held, q)
  {
    hide Held, Spared, SameRun;
    forall r: Role | KernelRole(r) && Owner(q, r) in k.held ensures SameRun(k.m, m', k.held[Owner(q, r)]) {
      SparedRuns(k, m', pid, Owner(q, r));
    }
  }

  /** The write changes no protected byte whatever argc and argv are exactly if none
      of the eight bytes is protected. */
  lemma AlwaysSparesIff(k: KState, pid: nat, a: uint32)
    requires SpaceDefined(k, pid)
    ensures (forall argc: uint32, argv: uint32 :: Spared(k, GetStep(k, pid, a, argc, argv).m, pid)) <==>
            forall i :: 0 <= i < ARGUMENTS_SIZE ==> !Protected(k, pid, Round(Target(k, pid, a), i))
  {
    hide Protected, Spared, GetStep, Target, Round, Harmless, SpaceDefined, ArgumentBytes;
    if forall i :: 0 <= i < ARGUMENTS_SIZE ==> !Protected(k, pid, Round(Target(k, pid, a), i)) {
      forall argc: uint32, argv: uint32 ensures Spared(k, GetStep(k, pid, a, argc, argv).m, pid) {
        NoneProtected(k, pid, a, argc, argv);
        GetSparesIff(k, pid, a, argc, argv);
      }
    } else {
      var i :| 0 <= i < ARGUMENTS_SIZE && Protected(k, pid, Round(Target(k, pid, a), i));
      var word := if k.m[Round(Target(k, pid, a), i)] == 0 then ALL_ONES else 0;
      GetSparesIff(k, pid, a, word, word);
      ProtectedHit(k, pid, a, word, i);
    }
  }

  /** The word with 1 in each of its bytes. */
  const ALL_ONES: uint32 := 0x0101_0101

  lemma ProtectedHit(k: KState, pid: nat, a: uint32, word: uint32, i: nat)
    requires SpaceDefined(k, pid) && i < ARGUMENTS_SIZE && Protected(k, pid, Round(Target(k, pid, a), i))
    requires word == if k.m[Round(Target(k, pid, a), i)] == 0 then ALL_ONES else 0
    ensures !Harmless(k, pid, a, word, word)
  {
    hide Protected, Target, Round, SpaceDefined;
    assert Bytes32(0) == [0, 0, 0, 0];
    assert Bytes32(ALL_ONES) == [1, 1, 1, 1];
  }

  /** The frame is held by another process or is a kernel structure of this one. */
  ghost predicate ForeignFrame(k: KState, pid: nat, frame: nat) {
    exists o :: o in k.held && Inside(frame, k.held[o]) && !(o.pid == pid && OwnRole(o.role))
  }

  /** A target inside one page of the heap or above it: the page decides. It is held
      by nobody, or by the process itself as image, stack or allocation. */
  lemma AlwaysSparesPageIff(k: KState, pid: nat, a: uint32)
    requires Inv(k) && SpaceDefined(k, pid) && a % PAGE_SIZE + ARGUMENTS_SIZE <= PAGE_SIZE
    ensures Target(k, pid, a) >= a % PAGE_SIZE
    ensures var frame := Target(k, pid, a) - a % PAGE_SIZE;
      (forall argc: uint32, argv: uint32 :: Spared(k, GetStep(k, pid, a, argc, argv).m, pid)) <==>
        frame >= HEAP_ADDRESS && !ForeignFrame(k, pid, frame)
  {
    hide Inv, Protected, Spared, GetStep, Target, SpaceDefined, Held, ProcOk, OwnersLive, LowGuard, Round;
    AlwaysSparesIff(k, pid, a);
    TargetOffset(k, pid, a);
    InvProcs(k);
    var p, frame := Target(k, pid, a), Target(k, pid, a) - a % PAGE_SIZE;
    forall i | 0 <= i < ARGUMENTS_SIZE
      ensures Protected(k, pid, Round(p, i)) <==>
        frame < HEAP_ADDRESS || ForeignFrame(k, pid, frame)
    {
      NoRound(p, i);
      PageProtected(k, pid, frame, p + i);
    }
    assert Protected(k, pid, Round(p, 0)) <==>
        frame < HEAP_ADDRESS || ForeignFrame(k, pid, frame);
  }

  lemma TargetOffset(k: KState, pid: nat, a: uint32)
    requires SpaceDefined(k, pid)
    ensures Target(k, pid, a) >= a % PAGE_SIZE && (Target(k, pid, a) - a % PAGE_SIZE) % PAGE_SIZE == 0
    ensures Target(k, pid, a) - a % PAGE_SIZE + PAGE_SIZE <= RAM_SIZE
  {
    hide PagingGet;
  }

  lemma PageProtected(k: KState, pid: nat, frame: nat, t: nat)
    requires Held(k.m, k.held) && frame % PAGE_SIZE == 0 && frame <= t < frame + PAGE_SIZE
    ensures Protected(k, pid, t) <==>
      frame < HEAP_ADDRESS || ForeignFrame(k, pid, frame)
  {
    hide Held;
    forall o | o in k.held ensures k.held[o].ptr <= t < k.held[o].End() <==> Inside(frame, k.held[o]) {
      RunBounds(k.m, k.held[o]) by { RunOf(k.m, k.held, o); }
      WholePages(k.held[o], frame, t);
    }
    if frame >= HEAP_ADDRESS { assert t >= HEAP_ADDRESS; }
  }

  lemma RunOf(m: Mem, held: map<Owner, Run>, o: Owner)
    requires Held(m, held) && o in held
    ensures RunAt(m, held[o])
  {
  }

  lemma WholePages(r: Run, frame: nat, t: nat)
    requires r.ptr % PAGE_SIZE == 0 && frame % PAGE_SIZE == 0 && frame <= t < frame + PAGE_SIZE
    ensures r.ptr <= t < r.End() <==> Inside(frame, r)
  {
    assert r.ptr == PAGE_SIZE * (r.ptr / PAGE_SIZE) && frame == PAGE_SIZE * (frame / PAGE_SIZE);
  }

  lemma GetKeepsInv(k: KState, pid: nat, a: uint32, argc: uint32, argv: uint32)
    requires Inv(k) && Live(k, pid) && SpaceDefined(k, pid) && Harmless(k, pid, a, argc, argv)
    ensures Inv(GetStep(k, pid, a, argc, argv))
  {
    hide Inv, Harmless, Spared, Target;
    GetSparesIff(k, pid, a, argc, argv);
    SparedKeepsInv(k, GetStep(k, pid, a, argc, argv).m, pid);
  }

  // ---- What a caller could check ----

  /** All eight bytes lie in one page that user code could write itself. */
  predicate InWriteablePage(k: KState, pid: nat, a: uint32)
    requires SpaceDefined(k, pid)
  {
    && a % PAGE_SIZE + ARGUMENTS_SIZE <= PAGE_SIZE
    && IsWriteable(EntryOf(k, k.procs[pid].value, a / PAGE_SIZE))
  }

  /** Into a writeable page the write is harmless, whatever argc and argv are. */
  lemma WriteablePageHarmless(k: KState, pid: nat, a: uint32, argc: uint32, argv: uint32)
    requires Inv(k) && Live(k, pid) && SpaceDefined(k, pid) && InWriteablePage(k, pid, a)
    ensures Harmless(k, pid, a, argc, argv)
  {
    hide Inv, Held, ProcOk, OwnersLive, LowGuard, Protected, Target, InWriteablePage, Round, Harmless, SpaceDefined;
    InvProcs(k);
    var o := WriteableTarget(k, pid, a);
    var p := Target(k, pid, a);
    HeldBounds(k.m, k.held, o);
    forall i | 0 <= i < ARGUMENTS_SIZE ensures !Protected(k, pid, Round(p, i)) {
      NoRound(p, i);
      OwnNotProtected(k, pid, o, p + i);
    }
    NoneProtected(k, pid, a, argc, argv);
  }

  lemma NoneProtected(k: KState, pid: nat, a: uint32, argc: uint32, argv: uint32)
    requires SpaceDefined(k, pid)
    requires forall i :: 0 <= i < ARGUMENTS_SIZE ==> !Protected(k, pid, Round(Target(k, pid, a), i))
    ensures Harmless(k, pid, a, argc, argv)
  {
    hide Protected, Target, Round, Bytes32, SpaceDefined;
  }

  lemma NoRound(p: uint32, i: nat)
    requires p + i < RAM_SIZE
    ensures Round(p, i) == p + i
  {
  }

  lemma WriteableTarget(k: KState, pid: nat, a: uint32) returns (o: Owner)
    requires Inv(k) && Live(k, pid) && SpaceDefined(k, pid) && InWriteablePage(k, pid, a)
    ensures o in k.held && o.pid == pid && OwnRole(o.role)
    ensures k.held[o].ptr <= Target(k, pid, a) && Target(k, pid, a) + ARGUMENTS_SIZE <= k.held[o].End()
  {
    hide Inv, Load32, PageEntry, LiveSpace, PhysicalAddress, FrameOf;
    LiveCanCall(k, pid);
    LiveIsOk(k.m, k.procs[pid].value.chunk);
    PhysicalAddressIsTranslation(k.m, k.procs[pid].value.chunk, a);
    o := WriteableFrameOwned(k, pid, a / PAGE_SIZE);
  }

  lemma OwnNotProtected(k: KState, pid: nat, o: Owner, t: nat)
    requires Held(k.m, k.held) && o in k.held && o.pid == pid && OwnRole(o.role)
    requires k.held[o].ptr <= t < k.held[o].End()
    ensures !Protected(k, pid, t)
  {
    hide Held;
    HeldBounds(k.m, k.held, o);
    if q :| q in k.held && !(q.pid == pid && OwnRole(q.role)) && k.held[q].ptr <= t < k.held[q].End() {
      HeldApart(k.m, k.held, o, q);
    }
  }

  // ---- Where it is not harmless ----

  /** An address in a page that still maps to itself leads to itself. */
  lemma IdentityTarget(k: KState, pid: nat, a: uint32)
    requires Inv(k) && Live(k, pid) && SpaceDefined(k, pid)
    requires FrameOf(EntryOf(k, k.procs[pid].value, a / PAGE_SIZE)) == a / PAGE_SIZE * PAGE_SIZE
    ensures Target(k, pid, a) == a
  {
    hide Inv, Load32, PageEntry, Held, LiveSpace, PhysicalAddress, FrameOf;
    LiveCanCall(k, pid);
    LiveIsOk(k.m, k.procs[pid].value.chunk);
    PhysicalAddressIsTranslation(k.m, k.procs[pid].value.chunk, a);
  }

  /** The heap table's address, which every process starts out with mapped to itself:
      a process without arguments that asks for them there frees whatever is held in
      the heap's first block. */
  lemma HeapTableOverwritten(k: KState, pid: nat, o: Owner)
    requires Inv(k) && Live(k, pid) && SpaceDefined(k, pid)
    requires FrameOf(EntryOf(k, k.procs[pid].value, TABLE_ADDRESS / PAGE_SIZE)) == TABLE_ADDRESS / PAGE_SIZE * PAGE_SIZE
    requires o in k.held && k.held[o].ptr == HEAP_ADDRESS
    ensures !Inv(GetStep(k, pid, TABLE_ADDRESS, 0, 0))
  {
    hide Inv, Load32, PageEntry, Held, FrameOf, Target, Bytes32;
    IdentityTarget(k, pid, TABLE_ADDRESS);
    var k' := GetStep(k, pid, TABLE_ADDRESS, 0, 0);
    SplicedRoundAt(k.m, TABLE_ADDRESS, ArgumentBytes(0, 0), TABLE_ADDRESS);
    ZeroBytes32();
    if Inv(k') {
      InvProcs(k');
      FreeEntryHolds(k'.m, k'.held, o);
    }
  }

  lemma ZeroBytes32()
    ensures Bytes32(0)[0] == 0
  {
  }

  lemma FreeEntryHolds(m: Mem, held: map<Owner, Run>, o: Owner)
    requires Held(m, held) && o in held && held[o].ptr == HEAP_ADDRESS
    ensures m[TABLE_ADDRESS] != 0
  {
    assert RunAt(m, held[o]);
    assert Table(m)[0] == m[TABLE_ADDRESS];
  }

  /** The process's own chunk: the kernel loses its page directory, whatever other
      number argc is. */
  lemma ChunkOverwritten(k: KState, pid: nat, argc: uint32, argv: uint32)
    requires Inv(k) && Live(k, pid) && SpaceDefined(k, pid)
    requires var c := k.procs[pid].value.chunk;
             && FrameOf(EntryOf(k, k.procs[pid].value, c / PAGE_SIZE)) == c / PAGE_SIZE * PAGE_SIZE
             && argc != DirectoryOf(k.m, c)
    ensures !Inv(GetStep(k, pid, k.procs[pid].value.chunk, argc, argv))
  {
    hide Inv, Load32, PageEntry, Held, FrameOf, Target, Bytes32, HoldsTables, ProcOk;
    var c := k.procs[pid].value.chunk;
    IdentityTarget(k, pid, c);
    var k' := GetStep(k, pid, c, argc, argv);
    DirectoryHeld(k, pid);
    WordsWritten(k.m, c, argc, argv);
    if Inv(k') {
      DirectoryHeld(k', pid);
    }
  }

  lemma DirectoryHeld(k: KState, pid: nat)
    requires Inv(k) && Live(k, pid)
    ensures var c := k.procs[pid].value.chunk;
      && HeapPage(c) && c + PAGE_SIZE <= RAM_SIZE
      && Owner(pid, Directory) in k.held && k.held[Owner(pid, Directory)].ptr == DirectoryOf(k.m, c)
  {
    hide Load32, Held, PagesOk, SlotsOk, PartsOk, LinkWords;
    assert ProcOk(k.m, k.held, pid, k.procs[pid].value);
    HeldPage(k.m, k.held, Owner(pid, Chunk), k.procs[pid].value.chunk);
  }

  // ---- What the process reads ----

  /** Both words stand at the target. */
  lemma WordsWritten(m: Mem, p: uint32, argc: uint32, argv: uint32)
    requires p + 8 <= RAM_SIZE
    ensures var m' := SpliceRound(m, p, ArgumentBytes(argc, argv));
      && Load32(m', p) == argc && Load32(m', p + 4) == argv
      && forall k :: 0 <= k < p || p + 8 <= k < RAM_SIZE ==> m'[k] == m[k]
  {
    hide Bytes32;
    var m' := SpliceRound(m, p, ArgumentBytes(argc, argv));
    assert m'[p..p + 4] == Bytes32(argc);
    assert m'[p + 4..p + 8] == Bytes32(argv);
    LittleEndianBytes32(argc);
    LittleEndianBytes32(argv);
  }

  /** What user code at virtual address `a` reaches. */
  function SeenAt(k: KState, pid: nat, a: uint32): (p: uint32)
    requires SpaceDefined(k, pid)
    ensures a % PAGE_SIZE <= p && (p - a % PAGE_SIZE) % PAGE_SIZE == 0 && p - a % PAGE_SIZE + PAGE_SIZE <= RAM_SIZE
  {
    hide PageEntry;
    Translate(k.m, DirectoryOf(k.m, k.procs[pid].value.chunk), a)
  }

  /** The word user code loads at `a`. */
  function WordSeen(k: KState, pid: nat, a: uint32): uint32
    requires SpaceDefined(k, pid) && a % PAGE_SIZE + 4 <= PAGE_SIZE
  {
    Load32(k.m, SeenAt(k, pid, a))
  }

  ghost predicate ReadsWord(k: KState, pid: nat, a: uint32, word: uint32) {
    SpaceDefined(k, pid) && a % PAGE_SIZE + 4 <= PAGE_SIZE && WordSeen(k, pid, a) == word
  }

  /** A harmless write leaves the process's page tables as they are. */
  lemma GetKeepsSpace(k: KState, pid: nat, a: uint32, argc: uint32, argv: uint32)
    requires Inv(k) && Live(k, pid) && SpaceDefined(k, pid) && Harmless(k, pid, a, argc, argv)
    ensures var k' := GetStep(k, pid, a, argc, argv);
      && SpaceDefined(k', pid) && Target(k, pid, a) == SeenAt(k, pid, a)
      && forall b: uint32 :: SeenAt(k', pid, b) == SeenAt(k, pid, b)
  {
    hide Inv, Harmless, Spared, PageEntry, Load32, FrameOf, ProcOk, Held, LiveSpace, PhysicalAddress, SpliceRound,
      KernelRunsSame, LinkWords, OwnersLive, LowGuard;
    GetSparesIff(k, pid, a, argc, argv);
    GetKeepsInv(k, pid, a, argc, argv);
    InvProcs(k);
    var m', p := GetStep(k, pid, a, argc, argv).m, k.procs[pid].value;
    SparedKernelRuns(k, m', pid, pid);
    KernelSpace(k.m, m', k.held, pid);
    AgreeSelf(k.held, pid);
    InvProcs(k.(m := m'));
    ProcLinks(m', k.held, pid, p);
    ProcSpaceUntouched(k.m, m', k.held, k.held, pid, p);
    LiveCanCall(k, pid);
    LiveIsOk(k.m, p.chunk);
    PhysicalAddressIsTranslation(k.m, p.chunk, a);
  }

  lemma KernelSpace(m: Mem, m': Mem, held: map<Owner, Run>, pid: nat)
    requires KernelRunsSame(m, m', held, pid)
    ensures SpaceRunsSame(m, m', held, pid)
  {
  }

  lemma ProcLinks(m: Mem, held: map<Owner, Run>, pid: nat, p: Proc)
    requires ProcOk(m, held, pid, p)
    ensures LinkWords(m, p.task)
  {
    hide LinkWords, PartsOk, PagesOk, SlotsOk, Load32;
  }

  /** After a harmless write the process reads argc at `a`; at a + 4 it reads argv
      exactly if that word is next to the first in memory too, or held argv already. */
  lemma ArgumentsReadIff(k: KState, pid: nat, a: uint32, argc: uint32, argv: uint32)
    requires a + 8 <= RAM_SIZE && a % PAGE_SIZE + 4 <= PAGE_SIZE && (a + 4) % PAGE_SIZE + 4 <= PAGE_SIZE
    requires SpaceDefined(k, pid) && SeenAt(k, pid, a) + 8 <= RAM_SIZE
    requires Inv(k) && Live(k, pid) && Harmless(k, pid, a, argc, argv)
    ensures ReadsWord(GetStep(k, pid, a, argc, argv), pid, a, argc)
    ensures ReadsWord(GetStep(k, pid, a, argc, argv), pid, a + 4, argv) <==>
            SeenAt(k, pid, a + 4) == SeenAt(k, pid, a) + 4 || ReadsWord(k, pid, a + 4, argv)
  {
    hide Inv, Harmless, Load32, ArgumentBytes, SpliceRound, Target, SeenAt;
    GetKeepsSpace(k, pid, a, argc, argv);
    var p, q, m' := SeenAt(k, pid, a), SeenAt(k, pid, a + 4), GetStep(k, pid, a, argc, argv).m;
    WordsWritten(k.m, p, argc, argv);
    ReachedNext(k, pid, a);
    if q != p + 4 {
      NextWordApart(a, p, q);
      LoadSame(k.m, m', q);
    }
  }

  lemma ReachedNext(k: KState, pid: nat, a: uint32)
    requires SpaceDefined(k, pid) && a + 4 < RAM_SIZE
    ensures a % PAGE_SIZE + 4 < PAGE_SIZE ==> SeenAt(k, pid, a + 4) == SeenAt(k, pid, a) + 4
  {
    hide PageEntry, Load32, FrameOf;
  }

  lemma NextWordApart(a: uint32, p: uint32, q: uint32)
    requires a + 8 <= RAM_SIZE && a % PAGE_SIZE + 4 <= PAGE_SIZE && (a + 4) % PAGE_SIZE + 4 <= PAGE_SIZE
    requires a % PAGE_SIZE <= p && (p - a % PAGE_SIZE) % PAGE_SIZE == 0
    requires (a + 4) % PAGE_SIZE <= q && (q - (a + 4) % PAGE_SIZE) % PAGE_SIZE == 0
    requires a % PAGE_SIZE + 4 < PAGE_SIZE ==> q == p + 4
    requires q != p + 4
    ensures q + 4 <= p || p + 8 <= q
  {
  }

  /** Into a writeable page the write gives the process both words. */
  lemma ArgumentsRead(k: KState, pid: nat, a: uint32, argc: uint32, argv: uint32)
    requires Inv(k) && Live(k, pid) && SpaceDefined(k, pid) && InWriteablePage(k, pid, a)
    ensures a + 8 <= RAM_SIZE
    ensures Inv(GetStep(k, pid, a, argc, argv))
    ensures ReadsWord(GetStep(k, pid, a, argc, argv), pid, a, argc)
    ensures ReadsWord(GetStep(k, pid, a, argc, argv), pid, a + 4, argv)
  {
    hide Inv, Harmless, Load32, ArgumentBytes, SpliceRound, PageEntry, FrameOf, ReadsWord, GetStep, SpaceDefined;
    WriteablePageHarmless(k, pid, a, argc, argv);
    GetKeepsInv(k, pid, a, argc, argv);
    GetKeepsSpace(k, pid, a, argc, argv);
    SamePageNext(a);
    ReachedNext(k, pid, a);
    ArgumentsReadIff(k, pid, a, argc, argv);
  }

  lemma SamePageNext(a: uint32)
    requires a % PAGE_SIZE + ARGUMENTS_SIZE <= PAGE_SIZE
    ensures a + 8 <= RAM_SIZE && (a + 4) / PAGE_SIZE == a / PAGE_SIZE && (a + 4) % PAGE_SIZE == a % PAGE_SIZE + 4
  {
  }
}
