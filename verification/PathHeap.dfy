/** A parsed path in the heap: what pathparser_parse builds, and that
    pathparser_free gives all of it back. */
module PathHeap {
  import opened Memory
  import opened HeapTable
  import opened Heap
  import opened KernelHeap
  import opened CStrings
  import opened PathParser

  // Owners of the blocks: 0 is the root, 2i + 1 the text and 2i + 2 the node of part i,
  // so that 2i is where the pointer to part i is kept.

  // ---- Single blocks ----

  function FreeCount(m: Mem): nat {
    |FreeBlocks(Table(m))|
  }

  ghost predicate AllSame(m: Mem, m': Mem, held: map<nat, Run>) {
    forall o :: o in held ==> SameRun(m, m', held[o])
  }

  lemma BlockGranted(m: Mem, held: map<nat, Run>, o: nat, size: uint32)
    requires Held(m, held) && o !in held && 1 <= size <= BLOCK_SIZE && FreeCount(m) >= 1
    ensures var (m1, p) := Kzalloc(m, size); var held1 := held[o := Run(p, 1)];
      && HEAP_ADDRESS <= p && p + BLOCK_SIZE <= HEAP_END
      && Held(m1, held1) && AllSame(m, m1, held) && RunsGrew(m, m1, held, held1)
      && FreeCount(m1) == FreeCount(m) - 1
      && forall k :: p <= k < p + size ==> m1[k] == 0
  {
    hide Kzalloc, FreeBlocks, WellFormed, IsRun, Fits, FirstFit, BlocksFor, RunsGrew, RunsAdded, SameRun, Take, Table,
      FreeRun;
    OneBlock(size);
    HeldTells(m, held);
    TakeOne(Table(m));
    KzallocHeld(m, held, o, size);
    KzallocFits(m, size);
    var (m1, p) := Kzalloc(m, size);
    RunBounds(m1, Run(p, 1));
    OneNewRun(m, m1, held, o, Run(p, 1));
    BlockOfStart(FirstFit(Table(m), 1, 0));
  }

  lemma HeldTells(m: Mem, held: map<nat, Run>)
    requires Held(m, held)
    ensures WellFormed(Table(m))
  {
  }

  /** A block taken and given back. */
  lemma BlockReturned(m: Mem, held: map<nat, Run>, size: uint32)
    requires Held(m, held) && 1 <= size <= BLOCK_SIZE && FreeCount(m) >= 1
    ensures var (m1, p) := Kzalloc(m, size);
      && Freeable(p) && var m2 := Kfree(m1, p);
      && Held(m2, held) && AllSame(m, m2, held) && Table(m2) == Table(m)
  {
    hide Kzalloc, Kfree, FreeBlocks, WellFormed, IsRun, Fits, FirstFit, BlocksFor, RunsAdded, SameRun, Take, Release,
      Table, FreeRun, Held;
    OneBlock(size);
    HeldTells(m, held);
    TakeOne(Table(m));
    KzallocFits(m, size);
    FittingStart(Table(m), 1);
    BlockOfStart(FirstFit(Table(m), 1, 0));
    var (m1, p) := Kzalloc(m, size);
    KfreeRun(m1, Run(p, 1));
    TakeThenRelease(Table(m), BlockOf(p), 1);
    var m2 := Kfree(m1, p);
    HeldByTable(m, m2, held);
    forall o | o in held ensures SameRun(m, m2, held[o]) {
      HeldRun(m, held, o);
      KzallocKeeps(m, size, held[o]);
      SameBelow(m, m1, m2, held[o]);
    }
  }

  lemma HeldRun(m: Mem, held: map<nat, Run>, o: nat)
    requires Held(m, held) && o in held
    ensures RunAt(m, held[o]) && held[o].blocks >= 1 && HEAP_ADDRESS <= held[o].ptr
    ensures held[o].ptr + BLOCK_SIZE <= held[o].End() <= HEAP_END
  {
    RunBounds(m, held[o]);
  }

  lemma SameBelow(m: Mem, m1: Mem, m2: Mem, r: Run)
    requires SameRun(m, m1, r) && r.ptr >= HEAP_ADDRESS
    requires forall k :: 0 <= k < RAM_SIZE && OutsideTable(k) ==> m2[k] == m1[k]
    ensures SameRun(m, m2, r)
  {
  }

  // ---- Writing inside a block ----

  ghost predicate OnlyRun(m: Mem, m': Mem, r: Run) {
    forall k :: 0 <= k < RAM_SIZE && !(r.ptr <= k < r.End()) ==> m'[k] == m[k]
  }

  lemma OwnWrite(m: Mem, m': Mem, held: map<nat, Run>, o: nat)
    requires Held(m, held) && o in held && OnlyRun(m, m', held[o])
    ensures Held(m', held) && Table(m') == Table(m)
    ensures forall q :: q in held && q != o ==> SameRun(m, m', held[q])
  {
    hide WellFormed, IsRun;
    HeldRun(m, held, o);
    forall k | TABLE_ADDRESS <= k < TABLE_ADDRESS + TOTAL_BLOCKS ensures m'[k] == m[k] {}
    TableSame(m, m');
    HeldByTable(m, m', held);
    hide Table, RunAt;
    forall q | q in held && q != o ensures SameRun(m, m', held[q]) {
      HeldApart(m, held, o, q);
      HeldRun(m, held, q);
    }
  }

  lemma GrewByTable(m: Mem, m1: Mem, m2: Mem, held: map<nat, Run>, held1: map<nat, Run>)
    requires RunsGrew(m, m1, held, held1) && Table(m2) == Table(m1)
    ensures RunsGrew(m, m2, held, held1) && FreeCount(m2) == FreeCount(m1)
  {
  }

  // ---- The parts ----

  /** A word at `at` may have changed; everything else that is held has not. */
  ghost predicate SameBut(m: Mem, m': Mem, held: map<nat, Run>, o: nat)
    requires o in held
  {
    && (forall q :: q in held && q != o ==> SameRun(m, m', held[q]))
    && forall k :: held[o].ptr <= k < held[o].End() && k < RAM_SIZE && !(held[o].ptr + 4 <= k < held[o].ptr + 8) ==>
         m'[k] == m[k]
  }

  lemma TextStored(m: Mem, held: map<nat, Run>, o: nat, path: seq<byte>, pos: nat)
    requires Held(m, held) && o !in held && FreeCount(m) >= 1 && 0 !in path
    requires pos <= |path| <= MAX_PATH && PartEnd(path, pos) > pos
    requires PartEnd(path, pos) - pos < MAX_PATH
    ensures var (m1, p) := GetPart(m, path, pos); var held1 := held[o := Run(p, 1)];
      && p != 0 && Held(m1, held1) && AllSame(m, m1, held) && RunsGrew(m, m1, held, held1)
      && FreeCount(m1) == FreeCount(m) - 1
      && CStringAt(m1, p, path[pos..PartEnd(path, pos)])
  {
    hide Kzalloc, FreeBlocks, WellFormed, IsRun, RunsGrew, SameRun, Held, PartEnd;
    BlockGranted(m, held, o, MAX_PATH);
    var (m1, p) := Kzalloc(m, MAX_PATH);
    var s := path[pos..PartEnd(path, pos)];
    var m2 := Splice(m1, p, s);
    var held1 := held[o := Run(p, 1)];
    OwnWrite(m1, m2, held1, o);
    GrewByTable(m, m1, m2, held, held1);
    forall q | q in held ensures SameRun(m, m2, held[q]) {
      assert held1[q] == held[q];
      SameTwice(m, m1, m2, held[q]);
    }
    assert m2[p..p + |s|] == s;
  }

  /** A node with its part's text and no successor. */
  function NodeIn(m: Mem, part: nat, text: uint32): Mem
    requires part + NODE_SIZE <= RAM_SIZE
  {
    Store32(Store32(m, part, text), part + 4, 0)
  }

  lemma NodeWords(m: Mem, part: nat, text: uint32)
    requires part + NODE_SIZE <= RAM_SIZE
    ensures Load32(NodeIn(m, part, text), part) == text && Load32(NodeIn(m, part, text), part + 4) == 0
    ensures forall k :: 0 <= k < RAM_SIZE && !(part <= k < part + NODE_SIZE) ==> NodeIn(m, part, text)[k] == m[k]
  {
    LoadStored(m, part, text);
    LoadStored(Store32(m, part, text), part + 4, 0);
    LoadElsewhere(Store32(m, part, text), part + 4, 0, part);
    StoreKeeps(m, part, text);
    StoreKeeps(Store32(m, part, text), part + 4, 0);
  }

  lemma NodeStored(m: Mem, held: map<nat, Run>, o: nat, text: uint32)
    requires Held(m, held) && o !in held && FreeCount(m) >= 1
    ensures var (m1, p) := Kzalloc(m, NODE_SIZE); var held1 := held[o := Run(p, 1)];
      && HEAP_ADDRESS <= p && p + BLOCK_SIZE <= HEAP_END
      && var m2 := NodeIn(m1, p, text);
      && Held(m2, held1) && AllSame(m, m2, held) && RunsGrew(m, m2, held, held1)
      && FreeCount(m2) == FreeCount(m) - 1
      && Load32(m2, p) == text && Load32(m2, p + 4) == 0
  {
    hide Kzalloc, FreeBlocks, WellFormed, IsRun, RunsGrew, SameRun, Held, NodeIn, Load32;
    BlockGranted(m, held, o, NODE_SIZE);
    var (m1, p) := Kzalloc(m, NODE_SIZE);
    NodeWords(m1, p, text);
    var m2 := NodeIn(m1, p, text);
    var held1 := held[o := Run(p, 1)];
    OwnWrite(m1, m2, held1, o);
    GrewByTable(m, m1, m2, held, held1);
    forall q | q in held ensures SameRun(m, m2, held[q]) {
      assert held1[q] == held[q];
      SameTwice(m, m1, m2, held[q]);
    }
  }

  /** Setting the pointer kept in block `o`. */
  lemma Linked(m: Mem, held: map<nat, Run>, o: nat, v: uint32)
    requires Held(m, held) && o in held
    ensures held[o].ptr + NODE_SIZE <= RAM_SIZE
    ensures var m' := Store32(m, held[o].ptr + 4, v);
      && Held(m', held) && Table(m') == Table(m) && SameBut(m, m', held, o) && Load32(m', held[o].ptr + 4) == v
  {
    HeldRun(m, held, o);
    hide Held, Load32;
    LoadStored(m, held[o].ptr + 4, v);
    StoreKeeps(m, held[o].ptr + 4, v);
    OwnWrite(m, Store32(m, held[o].ptr + 4, v), held, o);
  }

  /** What a successful pathparser_parse_path_part leaves behind. */
  ghost predicate PartAdded(m: Mem, m': Mem, held: map<nat, Run>, held': map<nat, Run>, i: nat, part: nat,
                            text: seq<byte>)
    requires 2 * i in held
  {
    && 2 * i + 1 in held' && held'[2 * i + 1].blocks == 1
    && held' == held[2 * i + 1 := held'[2 * i + 1]][2 * i + 2 := Run(part, 1)]
    && Held(m', held') && RunsGrew(m, m', held, held') && FreeCount(m') == FreeCount(m) - 2
    && part != 0 && part + NODE_SIZE <= RAM_SIZE && held[2 * i].ptr + NODE_SIZE <= RAM_SIZE
    && Load32(m', part) == held'[2 * i + 1].ptr && Load32(m', part + 4) == 0
    && CStringAt(m', held'[2 * i + 1].ptr, text)
    && SameBut(m, m', held, 2 * i) && Load32(m', held[2 * i].ptr + 4) == part
  }

  lemma TextKept(m: Mem, m': Mem, r: Run, text: seq<byte>)
    requires SameRun(m, m', r) && |text| < BLOCK_SIZE * r.blocks && CStringAt(m, r.ptr, text)
    ensures CStringAt(m', r.ptr, text)
  {
    CStringSame(m, m', r.ptr, text);
  }

  lemma WordKept(m: Mem, m': Mem, r: Run, at: nat)
    requires SameRun(m, m', r) && r.ptr <= at && at + 4 <= r.End()
    ensures Load32(m', at) == Load32(m, at)
  {
    LoadSame(m, m', at);
  }

  lemma PartParsed(m: Mem, held: map<nat, Run>, i: nat, path: seq<byte>, pos: nat) returns (held': map<nat, Run>)
    requires Held(m, held) && 2 * i in held && 2 * i + 1 !in held && 2 * i + 2 !in held && FreeCount(m) >= 2
    requires 0 !in path && 3 <= pos <= |path| <= MAX_PATH && PartEnd(path, pos) > pos
    ensures held[2 * i].ptr + NODE_SIZE <= RAM_SIZE
    ensures var (m', part) := ParsePart(m, path, pos, held[2 * i].ptr);
      PartAdded(m, m', held, held', i, part, path[pos..PartEnd(path, pos)])
  {
    hide Kzalloc, FreeBlocks, WellFormed, IsRun, RunsGrew, SameRun, Held, NodeIn, Load32, Store32, GetPart, PartEnd,
      CStringAt, SameBut;
    HeldRun(m, held, 2 * i);
    var last, text := held[2 * i].ptr, path[pos..PartEnd(path, pos)];
    TextStored(m, held, 2 * i + 1, path, pos);
    var (m1, p) := GetPart(m, path, pos);
    var held1 := held[2 * i + 1 := Run(p, 1)];
    NodeStored(m1, held1, 2 * i + 2, p);
    var (m2, part) := Kzalloc(m1, NODE_SIZE);
    var m3 := NodeIn(m2, part, p);
    held' := held1[2 * i + 2 := Run(part, 1)];
    Linked(m3, held', 2 * i, part);
    var m4 := Store32(m3, last + 4, part);
    assert ParsePart(m, path, pos, last) == (m4, part) by { ParsePartIs(m, path, pos, last, m1, p, m2, part); }
    RunsGrewTrans(m, m1, m3, held, held1, held');
    GrewByTable(m, m3, m4, held, held');
    PartIn(m1, m3, m4, held1, held', i, p, part, text);
    SpareTwice(m, m1, m3, m4, held, held1, held', i);
  }

  lemma ParsePartIs(m: Mem, path: seq<byte>, pos: nat, last: nat, m1: Mem, p: nat, m2: Mem, part: nat)
    requires pos <= |path| <= MAX_PATH && last + NODE_SIZE <= RAM_SIZE && last != 0
    requires GetPart(m, path, pos) == (m1, p) && p != 0 && Kzalloc(m1, NODE_SIZE) == (m2, part)
    ensures part + NODE_SIZE <= RAM_SIZE && p < RAM_SIZE
    ensures ParsePart(m, path, pos, last) == (Store32(NodeIn(m2, part, p), last + 4, part), part)
  {
    hide GetPart, Kzalloc, Store32;
  }

  lemma PartIn(m1: Mem, m3: Mem, m4: Mem, held1: map<nat, Run>, held': map<nat, Run>, i: nat, p: nat, part: nat,
               text: seq<byte>)
    requires 2 * i in held1 && 2 * i + 1 in held1 && held1[2 * i + 1] == Run(p, 1)
    requires held' == held1[2 * i + 2 := Run(part, 1)] && part + BLOCK_SIZE <= RAM_SIZE
    requires AllSame(m1, m3, held1) && SameBut(m3, m4, held', 2 * i)
    requires CStringAt(m1, p, text) && |text| < BLOCK_SIZE
    requires Load32(m3, part) == p && Load32(m3, part + 4) == 0
    ensures Load32(m4, part) == p && Load32(m4, part + 4) == 0 && CStringAt(m4, p, text)
  {
    hide SameRun, Load32, CStringAt;
    TextKept(m1, m3, Run(p, 1), text);
    assert SameRun(m3, m4, held'[2 * i + 1]);
    TextKept(m3, m4, Run(p, 1), text);
    assert SameRun(m3, m4, held'[2 * i + 2]);
    WordKept(m3, m4, Run(part, 1), part);
    WordKept(m3, m4, Run(part, 1), part + 4);
  }

  lemma SpareTwice(m: Mem, m1: Mem, m3: Mem, m4: Mem, held: map<nat, Run>, held1: map<nat, Run>,
                   held': map<nat, Run>, i: nat)
    requires 2 * i in held && Extends(held, held1) && Extends(held1, held')
    requires AllSame(m, m1, held) && AllSame(m1, m3, held1) && SameBut(m3, m4, held', 2 * i)
    ensures SameBut(m, m4, held, 2 * i)
  {
    forall q | q in held ensures SameRun(m, m3, held[q]) && held'[q] == held[q] {
      SameTwice(m, m1, m3, held[q]);
    }
    hide Extends, AllSame;
    forall q | q in held && q != 2 * i ensures SameRun(m, m4, held[q]) {
      assert q in held' && held'[q] == held[q];
      SameTwice(m, m3, m4, held[q]);
    }
  }

  /** No part left: one block is taken and given back. */
  lemma NoPartParsed(m: Mem, held: map<nat, Run>, path: seq<byte>, pos: nat, last: nat)
    requires Held(m, held) && FreeCount(m) >= 1 && last + NODE_SIZE <= RAM_SIZE
    requires pos <= |path| <= MAX_PATH && PartEnd(path, pos) == pos
    ensures var (m', part) := ParsePart(m, path, pos, last);
      part == 0 && Held(m', held) && AllSame(m, m', held) && Table(m') == Table(m)
  {
    hide Kzalloc, Kfree, Held, AllSame, Table, Store32;
    BlockReturned(m, held, MAX_PATH);
  }

  // ---- The list ----

  /** From pointer `part` on: a node for each of `parts`, whose text it points to. */
  ghost predicate PathList(m: Mem, held: map<nat, Run>, i: nat, part: nat, parts: seq<seq<byte>>)
    decreases |parts|
  {
    if parts == [] then part == 0
    else
      && part != 0 && part + NODE_SIZE <= RAM_SIZE
      && 2 * i + 1 in held && 2 * i + 2 in held && held[2 * i + 2] == Run(part, 1) && held[2 * i + 1].blocks == 1
      && Load32(m, part) == held[2 * i + 1].ptr
      && CStringAt(m, held[2 * i + 1].ptr, parts[0])
      && PathList(m, held, i + 1, Load32(m, part + 4), parts[1..])
  }

  lemma LoopStep(m: Mem, path: seq<byte>, pos: nat, last: nat)
    requires pos <= |path| <= MAX_PATH && last + NODE_SIZE <= RAM_SIZE
    ensures var (m1, part) := ParsePart(m, path, pos, last);
      ParseRest(m, path, pos, last) == if part == 0 then m1 else ParseRest(m1, path, NextPos(path, pos), part)
  {
  }

  lemma {:induction false} ParseRestBuilds(m: Mem, held: map<nat, Run>, i: nat, path: seq<byte>, pos: nat)
    returns (held': map<nat, Run>)
    requires Held(m, held) && (forall o :: o in held ==> o <= 2 * i) && 2 * i in held
    requires 0 !in path && 3 <= pos <= |path| <= MAX_PATH && FreeCount(m) >= 2 * |PartsFrom(path, pos)| + 1
    ensures held[2 * i].ptr + NODE_SIZE <= RAM_SIZE
    requires held[2 * i].ptr + NODE_SIZE <= RAM_SIZE && Load32(m, held[2 * i].ptr + 4) == 0
    ensures var parts := PartsFrom(path, pos); var last := held[2 * i].ptr; var m' := ParseRest(m, path, pos, last);
      && Held(m', held') && RunsGrew(m, m', held, held') && SameBut(m, m', held, 2 * i)
      && (forall o :: o in held' <==> o in held || 2 * i < o <= 2 * (i + |parts|))
      && PathList(m', held', i, Load32(m', last + 4), parts)
    decreases |path| - pos
  {
    hide FreeBlocks, WellFormed, IsRun, RunsGrew, SameRun, Held, Load32, Store32, GetPart, PartEnd, ParsePart,
      ParseRest, CStringAt, SameBut, Table, PathList;
    var last := held[2 * i].ptr;
    HeldRun(m, held, 2 * i);
    LoopStep(m, path, pos, last);
    if PartEnd(path, pos) == pos {
      held' := held;
      NoPartParsed(m, held, path, pos, last);
      NoneAdded(m, ParseRest(m, path, pos, last), held, i);
    } else {
      var held1 := PartParsed(m, held, i, path, pos);
      var (m1, part) := ParsePart(m, path, pos, last);
      held' := ParseRestBuilds(m1, held1, i + 1, path, NextPos(path, pos));
      OneAdded(m, m1, ParseRest(m, path, pos, last), held, held1, held', i, part, path[pos..PartEnd(path, pos)],
               PartsFrom(path, NextPos(path, pos)));
    }
  }

  lemma NoneAdded(m: Mem, m': Mem, held: map<nat, Run>, i: nat)
    requires 2 * i in held && AllSame(m, m', held) && Table(m') == Table(m)
    requires held[2 * i].ptr + NODE_SIZE <= RAM_SIZE && held[2 * i].blocks >= 1 && Load32(m, held[2 * i].ptr + 4) == 0
    ensures RunsGrew(m, m', held, held) && SameBut(m, m', held, 2 * i)
    ensures PathList(m', held, i, Load32(m', held[2 * i].ptr + 4), [])
  {
    hide Load32, IsRun;
    WordKept(m, m', held[2 * i], held[2 * i].ptr + 4);
  }

  lemma OneAdded(m: Mem, m1: Mem, m': Mem, held: map<nat, Run>, held1: map<nat, Run>, held': map<nat, Run>,
                 i: nat, part: nat, text: seq<byte>, rest: seq<seq<byte>>)
    requires 2 * i in held && PartAdded(m, m1, held, held1, i, part, text) && |text| < BLOCK_SIZE
    requires held[2 * i].blocks >= 1 && 2 * i + 2 !in held
    requires RunsGrew(m1, m', held1, held') && SameBut(m1, m', held1, 2 * i + 2)
    requires PathList(m', held', i + 1, Load32(m', part + 4), rest)
    ensures RunsGrew(m, m', held, held') && SameBut(m, m', held, 2 * i)
    ensures PathList(m', held', i, Load32(m', held[2 * i].ptr + 4), [text] + rest)
  {
    hide Load32, IsRun, RunsGrew, Held, CStringAt, SameRun, Table, FreeBlocks, SameBut, PathList, Extends;
    RunsGrewTrans(m, m1, m', held, held1, held');
    GrewExtends(m, m1, held, held1);
    GrewExtends(m1, m', held1, held');
    SparesOn(m, m1, m', held, held1, i);
    NodeAfter(m1, m', held1, i, part, text);
    ListGrows(m', held', i, part, text, rest) by { ExtendsTells(held1, held', i); }
    ExtendsTells(held, held1, i);
  }

  lemma GrewExtends(m: Mem, m': Mem, held: map<nat, Run>, held': map<nat, Run>)
    requires RunsGrew(m, m', held, held')
    ensures Extends(held, held')
  {
  }

  lemma ExtendsTells(held: map<nat, Run>, held': map<nat, Run>, i: nat)
    requires Extends(held, held')
    ensures 2 * i in held ==> 2 * i in held' && held'[2 * i] == held[2 * i]
    ensures 2 * i + 1 in held ==> 2 * i + 1 in held' && held'[2 * i + 1] == held[2 * i + 1]
    ensures 2 * i + 2 in held ==> 2 * i + 2 in held' && held'[2 * i + 2] == held[2 * i + 2]
  {
  }

  /** Later parts leave the node, its text and the pointer to it alone. */
  lemma NodeAfter(m1: Mem, m': Mem, held1: map<nat, Run>, i: nat, part: nat, text: seq<byte>)
    requires 2 * i in held1 && 2 * i + 1 in held1 && 2 * i + 2 in held1 && held1[2 * i + 2] == Run(part, 1)
    requires held1[2 * i].blocks >= 1 && held1[2 * i + 1].blocks == 1
    requires held1[2 * i].ptr + NODE_SIZE <= RAM_SIZE && part + NODE_SIZE <= RAM_SIZE
    requires CStringAt(m1, held1[2 * i + 1].ptr, text) && |text| < BLOCK_SIZE
    requires SameBut(m1, m', held1, 2 * i + 2)
    ensures Load32(m', held1[2 * i].ptr + 4) == Load32(m1, held1[2 * i].ptr + 4)
    ensures Load32(m', part) == Load32(m1, part)
    ensures CStringAt(m', held1[2 * i + 1].ptr, text)
  {
    hide Load32, CStringAt, SameRun;
    assert SameRun(m1, m', held1[2 * i]) && SameRun(m1, m', held1[2 * i + 1]);
    WordKept(m1, m', held1[2 * i], held1[2 * i].ptr + 4);
    TextKept(m1, m', held1[2 * i + 1], text);
    FirstWordKept(m1, m', held1, 2 * i + 2);
  }

  lemma ListGrows(m: Mem, held: map<nat, Run>, i: nat, part: nat, text: seq<byte>, rest: seq<seq<byte>>)
    requires part != 0 && part + NODE_SIZE <= RAM_SIZE
    requires 2 * i + 1 in held && 2 * i + 2 in held && held[2 * i + 2] == Run(part, 1) && held[2 * i + 1].blocks == 1
    requires Load32(m, part) == held[2 * i + 1].ptr && CStringAt(m, held[2 * i + 1].ptr, text)
    requires PathList(m, held, i + 1, Load32(m, part + 4), rest)
    ensures PathList(m, held, i, part, [text] + rest)
  {
    hide Load32, CStringAt;
    assert ([text] + rest)[1..] == rest;
  }

  lemma FirstWordKept(m: Mem, m': Mem, held: map<nat, Run>, o: nat)
    requires o in held && held[o].blocks >= 1 && held[o].ptr + NODE_SIZE <= RAM_SIZE && SameBut(m, m', held, o)
    ensures Load32(m', held[o].ptr) == Load32(m, held[o].ptr)
  {
    LoadSame(m, m', held[o].ptr);
  }

  lemma SparesOn(m: Mem, m1: Mem, m': Mem, held: map<nat, Run>, held1: map<nat, Run>, i: nat)
    requires 2 * i in held && SameBut(m, m1, held, 2 * i) && 2 * i + 2 in held1 && 2 * i + 2 !in held
    requires Extends(held, held1) && SameBut(m1, m', held1, 2 * i + 2)
    ensures SameBut(m, m', held, 2 * i)
  {
    assert SameRun(m1, m', held1[2 * i]);
    forall q | q in held && q != 2 * i ensures SameRun(m, m', held[q]) {
      assert q in held1 && held1[q] == held[q];
      SameTwice(m, m1, m', held[q]);
    }
  }

  // ---- The whole path ----

  lemma LinkLater(m: Mem, path: seq<byte>, pos: nat, last: nat)
    requires pos <= |path| <= MAX_PATH && last + NODE_SIZE <= RAM_SIZE && last != 0
    ensures var (m', part) := ParsePart(m, path, pos, 0);
      && ParsePart(m, path, pos, last).1 == part
      && (part != 0 || PartEnd(path, pos) == pos ==>
            ParsePart(m, path, pos, last).0 == if part == 0 then m' else Store32(m', last + 4, part))
  {
    hide Kzalloc, Store32, GetPart;
  }

  /** Setting the root's pointer after parsing the first part is what the loop does
      for every other part. */
  lemma ParseIsLoop(m: Mem, path: seq<byte>)
    requires ValidPath(path)
    ensures var (m1, root) := Kzalloc(m, NODE_SIZE);
      root != 0 && (PartEnd(path, 3) == 3 || ParsePart(NodeIn(m1, root, Drive(path)), path, 3, root).1 != 0) ==>
        Parse(m, path) == (ParseRest(NodeIn(m1, root, Drive(path)), path, 3, root), root)
  {
    hide Kzalloc, Store32, ParsePart;
    var (m1, root) := Kzalloc(m, NODE_SIZE);
    if root != 0 {
      LinkLater(NodeIn(m1, root, Drive(path)), path, 3, root);
    }
  }

  /** The blocks of a parsed path, and what is in them. */
  ghost predicate PathBuilt(m: Mem, held: map<nat, Run>, root: nat, drive: nat, parts: seq<seq<byte>>) {
    && Held(m, held) && root != 0 && root + NODE_SIZE <= RAM_SIZE
    && (forall o: nat :: o in held <==> o <= 2 * |parts|)
    && held[0] == Run(root, 1)
    && Load32(m, root) == drive
    && PathList(m, held, 0, Load32(m, root + 4), parts)
  }

  lemma NobodyHeld(m: Mem)
    requires WellFormed(Table(m))
    ensures var nobody: map<nat, Run> := map[]; Held(m, nobody)
  {
  }

  /** Given two blocks for each part and two more, a valid path becomes a list of
      its parts, each in blocks of its own. */
  lemma ParseBuilds(m: Mem, path: seq<byte>) returns (held: map<nat, Run>)
    requires WellFormed(Table(m)) && ValidPath(path) && 0 !in path
    requires FreeCount(m) >= 2 * |PartsFrom(path, 3)| + 2
    ensures var (m', root) := Parse(m, path);
      && PathBuilt(m', held, root, Drive(path), PartsFrom(path, 3))
      && var nobody: map<nat, Run> := map[]; RunsGrew(m, m', nobody, held)
  {
    hide Kzalloc, FreeBlocks, WellFormed, IsRun, RunsGrew, SameRun, Held, Load32, NodeIn, ParseRest, Parse, PartsFrom,
      PathList, Table, ValidPath, Extends, SameBut;
    var nobody: map<nat, Run> := map[];
    NobodyHeld(m);
    NodeStored(m, nobody, 0, Drive(path));
    ParseIsLoop(m, path);
    ValidTells(path);
    var (m1, root) := Kzalloc(m, NODE_SIZE);
    var m2 := NodeIn(m1, root, Drive(path));
    var held1 := nobody[0 := Run(root, 1)];
    PartsStart(path, 3);
    if PartEnd(path, 3) > 3 {
      var _ := PartParsed(m2, held1, 0, path, 3);
    }
    held := ParseRestBuilds(m2, held1, 0, path, 3);
    var m' := ParseRest(m2, path, 3, root);
    FirstWordKept(m2, m', held1, 0);
    RunsGrewTrans(m, m2, m', nobody, held1, held);
    GrewExtends(m2, m', held1, held);
    ExtendsTells(held1, held, 0);
    assert forall o: nat :: o in held <==> o <= 2 * |PartsFrom(path, 3)|;
  }

  lemma PartsStart(path: seq<byte>, pos: nat)
    requires pos <= |path|
    ensures PartEnd(path, pos) > pos ==> |PartsFrom(path, pos)| >= 1
  {
  }

  lemma ValidTells(path: seq<byte>)
    requires ValidPath(path)
    ensures 3 <= |path| <= MAX_PATH
  {
  }

  /** The order in which pathparser_free gives the blocks back. */
  function FreeOrder(n: nat): (os: seq<nat>)
    ensures |os| == 2 * n + 1 && forall k :: 0 <= k < |os| ==> os[k] == (if k < 2 * n then k + 1 else 0)
  {
    seq(2 * n + 1, k requires 0 <= k < 2 * n + 1 => if k < 2 * n then k + 1 else 0)
  }

  lemma OrderCovers(n: nat)
    ensures NoRepeats(FreeOrder(n)) && forall o: nat :: o in FreeOrder(n) <==> o <= 2 * n
  {
    forall o: nat | o <= 2 * n ensures o in FreeOrder(n) {
      assert FreeOrder(n)[if o == 0 then 2 * n else o - 1] == o;
    }
  }

  lemma PointersFit(m: Mem, held: map<nat, Run>, n: nat) returns (ptrs: seq<uint32>)
    requires Held(m, held) && forall o: nat :: o in held <==> o <= 2 * n
    ensures (forall k :: 0 <= k < |FreeOrder(n)| ==> FreeOrder(n)[k] in held) && ptrs == Owned(held, FreeOrder(n))
    ensures forall k :: 0 <= k < |ptrs| ==> Freeable(ptrs[k])
  {
    hide Held;
    var os := FreeOrder(n);
    forall k | 0 <= k < |os| ensures held[os[k]].ptr < HEAP_END {
      HeldRun(m, held, os[k]);
    }
    ptrs := Owned(held, os);
  }

  /** Parsing a path and freeing the result restores the heap table entry for entry. */
  lemma ParseThenFree(m: Mem, path: seq<byte>) returns (held: map<nat, Run>, ptrs: seq<uint32>)
    requires WellFormed(Table(m)) && ValidPath(path) && 0 !in path
    requires FreeCount(m) >= 2 * |PartsFrom(path, 3)| + 2
    ensures PathBuilt(Parse(m, path).0, held, Parse(m, path).1, Drive(path), PartsFrom(path, 3))
    ensures (forall k :: 0 <= k < |FreeOrder(|PartsFrom(path, 3)|)| ==> FreeOrder(|PartsFrom(path, 3)|)[k] in held)
    ensures ptrs == Owned(held, FreeOrder(|PartsFrom(path, 3)|))
    ensures (forall k :: 0 <= k < |ptrs| ==> Freeable(ptrs[k]))
    ensures Table(KfreeAll(Parse(m, path).0, ptrs)) == Table(m)
  {
    hide FreeBlocks, WellFormed, IsRun, RunsGrew, Parse, PartsFrom, Table, ValidPath, PathList, Load32, Held, Names,
      NewlyNamed;
    ValidTells(path);
    held := ParseBuilds(m, path);
    var n, m' := |PartsFrom(path, 3)|, Parse(m, path).0;
    var os := FreeOrder(n);
    OrderCovers(n);
    ptrs := PointersFit(m', held, n);
    KfreeAllHeld(m', held, os, ptrs);
    KfreeAllRuns(m', held, os, ptrs);
    HeldTells(KfreeAll(m', ptrs), held - OwnersOf(os));
    SameRunsBack(m, m', KfreeAll(m', ptrs), held, os);
    RunsDetermineTable(Table(KfreeAll(m', ptrs)), Table(m));
  }

  lemma SameRunsBack(m: Mem, m': Mem, m'': Mem, held: map<nat, Run>, os: seq<nat>)
    requires var nobody: map<nat, Run> := map[]; RunsGrew(m, m', nobody, held)
    requires forall o :: o in held <==> o in os
    requires forall a, b :: IsRun(Table(m''), a, b) <==> IsRun(Table(m'), a, b) && !Names(held, os, a, b)
    ensures forall a, b :: IsRun(Table(m''), a, b) <==> IsRun(Table(m), a, b)
  {
    hide IsRun, Table;
    var nobody: map<nat, Run> := map[];
    forall a, b ensures IsRun(Table(m''), a, b) <==> IsRun(Table(m), a, b) {
      assert NewlyNamed(nobody, held, a, b) <==> Names(held, os, a, b);
    }
  }
}
