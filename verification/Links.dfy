/** Stores through the scheduler's pointers, which may be stale: when they spare
    everything a process holds. */
module Links {
  import opened Memory
  import opened HeapTable
  import opened Heap
  import opened KernelHeap
  import opened Owners
  import opened Paging
  import opened AddressSpace
  import opened Process
  import opened Tasks
  import opened Isolation
  import opened Steps

  /** `p` is the task block of some owner. */
  ghost predicate TaskBlock(held: map<Owner, Run>, p: nat) {
    exists q :: Owner(q, Task) in held && held[Owner(q, Task)].ptr == p
  }

  /** Setting p->next to v hits a task's link, memory nobody holds, or a word that
      has that value already. */
  ghost predicate LinkSafe(m: Mem, held: map<Owner, Run>, p: nat, v: uint32) {
    || p == 0 || TaskBlock(held, p)
    || (forall o :: o in held ==> p + PREV_WORD <= held[o].ptr || held[o].End() <= p + NEXT_WORD)
    || (p + TASK_SIZE <= RAM_SIZE && NextOf(m, p) == v)
  }

  /** The same whatever the value and the words in memory are. */
  ghost predicate LinkFree(held: map<Owner, Run>, p: nat) {
    || p == 0 || TaskBlock(held, p)
    || (forall o :: o in held ==> p + PREV_WORD <= held[o].ptr || held[o].End() <= p + NEXT_WORD)
  }

  lemma FreeIsSafe(m: Mem, held: map<Owner, Run>, p: nat, v: uint32)
    requires LinkFree(held, p)
    ensures LinkSafe(m, held, p, v)
  {
  }

  /** The guarded assignment p->next = v. */
  function Relinked(m: Mem, p: nat, v: uint32): Mem
    requires p + TASK_SIZE <= RAM_SIZE
  {
    if p == 0 then m else SetNext(m, p, v)
  }

  ghost predicate SameButNext(m: Mem, m': Mem, r: Run) {
    r.End() <= RAM_SIZE
    && forall k :: r.ptr <= k < r.End() && !(r.ptr + NEXT_WORD <= k < r.ptr + PREV_WORD) ==> m'[k] == m[k]
  }

  /** Everything held is as it was, except that tasks' next words may differ. */
  ghost predicate KeptButNext(m: Mem, m': Mem, held: map<Owner, Run>) {
    forall o :: o in held ==> if o.role == Task then SameButNext(m, m', held[o]) else SameRun(m, m', held[o])
  }

  ghost predicate TasksSingle(held: map<Owner, Run>) {
    forall o :: o in held && o.role == Task ==> held[o].blocks == 1
  }

  lemma InvTasksSingle(k: KState)
    requires Inv(k)
    ensures TasksSingle(k.held)
  {
    hide Load32, BlocksFor, PagesOk, SlotsOk, HoldsSpace, LinkWords, Held;
    forall o | o in k.held && o.role == Task ensures k.held[o].blocks == 1 {
      assert ProcOk(k.m, k.held, o.pid, k.procs[o.pid].value);
    }
  }

  lemma OneRunKept(m: Mem, held: map<Owner, Run>, p: nat, v: uint32, o: Owner)
    requires Held(m, held) && TasksSingle(held) && HeapPage(p) && o in held
    requires LinkSafe(m, held, p, v)
    ensures if o.role == Task then SameButNext(m, SetNext(m, p, v), held[o]) else SameRun(m, SetNext(m, p, v), held[o])
  {
    hide Load32, WellFormed, IsRun;
    HeldBounds(m, held, o);
    RunAligned(m, held, o);
    StoreKeeps(m, p + NEXT_WORD, v);
    if NextOf(m, p) == v {
      StoreSame(m, p + NEXT_WORD);
    } else if TaskBlock(held, p) {
      var q :| Owner(q, Task) in held && held[Owner(q, Task)].ptr == p;
      if o != Owner(q, Task) { HeldApart(m, held, o, Owner(q, Task)); }
    }
  }

  lemma StoreSame(m: Mem, a: nat)
    requires a + 4 <= RAM_SIZE
    ensures Store32(m, a, Load32(m, a)) == m
  {
    Bytes32Unique(m[a..a + 4]);
  }

  lemma RunAligned(m: Mem, held: map<Owner, Run>, o: Owner)
    requires Held(m, held) && o in held
    ensures held[o].ptr % BLOCK_SIZE == 0 && held[o].End() == held[o].ptr + BLOCK_SIZE * held[o].blocks
  {
    RunBounds(m, held[o]);
  }

  /** A page and a run that share the next word share it wholly. */
  lemma HitInside(p: nat, r: Run)
    requires p % BLOCK_SIZE == 0 && r.ptr % BLOCK_SIZE == 0
    requires !(p + PREV_WORD <= r.ptr || r.End() <= p + NEXT_WORD)
    ensures r.ptr <= p && p + BLOCK_SIZE <= r.End()
    ensures r.blocks == 1 ==> p == r.ptr
  {
    assert p == BLOCK_SIZE * (p / BLOCK_SIZE) && r.ptr == BLOCK_SIZE * (r.ptr / BLOCK_SIZE);
  }

  /** The store spares everything held but next words exactly if it is safe. */
  lemma RelinkKeepsIff(m: Mem, held: map<Owner, Run>, p: nat, v: uint32)
    requires Held(m, held) && TasksSingle(held) && Link(p)
    ensures p + TASK_SIZE <= RAM_SIZE
    ensures KeptButNext(m, Relinked(m, p, v), held) <==> LinkSafe(m, held, p, v)
  {
    hide Load32, Store32, Held, SameButNext, SameRun, LinkSafe;
    if p == 0 {
      NothingRelinked(m, held);
      SafeNull(m, held, v);
    } else if LinkSafe(m, held, p, v) {
      forall o | o in held
        ensures if o.role == Task then SameButNext(m, SetNext(m, p, v), held[o])
                else SameRun(m, SetNext(m, p, v), held[o])
      {
        OneRunKept(m, held, p, v, o);
      }
    } else {
      var o := HitOwner(m, held, p, v);
    }
  }

  lemma SafeNull(m: Mem, held: map<Owner, Run>, v: uint32)
    ensures LinkSafe(m, held, 0, v)
  {
  }

  lemma NothingRelinked(m: Mem, held: map<Owner, Run>)
    requires Held(m, held)
    ensures KeptButNext(m, m, held)
  {
    hide WellFormed, IsRun;
    forall o | o in held ensures SameRun(m, m, held[o]) && SameButNext(m, m, held[o]) {
      HeldBounds(m, held, o);
    }
  }

  lemma TaskBlockAt(held: map<Owner, Run>, o: Owner)
    requires o in held && o.role == Task
    ensures TaskBlock(held, held[o].ptr)
  {
    assert o == Owner(o.pid, Task);
  }

  /** An unsafe store changes a word of some run that is no task's. */
  lemma HitOwner(m: Mem, held: map<Owner, Run>, p: nat, v: uint32) returns (o: Owner)
    requires Held(m, held) && TasksSingle(held) && HeapPage(p) && !LinkSafe(m, held, p, v)
    ensures o in held && o.role != Task && held[o].ptr <= p && p + PAGE_SIZE <= held[o].End() <= RAM_SIZE
    ensures NextOf(m, p) != v && NextOf(SetNext(m, p, v), p) == v
    ensures !SameRun(m, SetNext(m, p, v), held[o])
  {
    hide Load32, Store32, WellFormed, IsRun;
    o :| o in held && !(p + PREV_WORD <= held[o].ptr || held[o].End() <= p + NEXT_WORD);
    RunAligned(m, held, o);
    HeldBounds(m, held, o);
    HitInside(p, held[o]);
    if o.role == Task { TaskBlockAt(held, o); }
    LoadStored(m, p + NEXT_WORD, v);
    if SameRun(m, SetNext(m, p, v), held[o]) {
      LoadSame(m, SetNext(m, p, v), p + NEXT_WORD);
    }
  }

  lemma KeptSpaces(m: Mem, m': Mem, held: map<Owner, Run>, pid: nat)
    requires KeptButNext(m, m', held)
    ensures SpaceRunsSame(m, m', held, pid)
  {
  }

  /** A safe store leaves every task's words links. */
  lemma RelinkKeepsWords(m: Mem, held: map<Owner, Run>, p: nat, v: uint32, task: nat)
    requires Held(m, held) && Link(p) && Link(v) && LinkWords(m, task) && HeapPage(task)
    ensures p + TASK_SIZE <= RAM_SIZE && LinkWords(Relinked(m, p, v), task)
  {
    hide Load32, Store32;
    if p != 0 { NextSet(m, p, v, task); }
  }

  lemma TaskIsPage(m: Mem, held: map<Owner, Run>, pid: nat, p: Proc)
    requires Held(m, held) && ProcOk(m, held, pid, p)
    ensures HeapPage(p.task)
  {
    hide Load32, PagesOk, SlotsOk, HoldsSpace, LinkWords, BlocksFor, Held;
    HeldBounds(m, held, Owner(pid, Task));
    RunAligned(m, held, Owner(pid, Task));
  }

  /** Only the heap's blocks are written. */
  lemma RelinkTable(m: Mem, p: nat, v: uint32)
    requires Link(p)
    ensures p + TASK_SIZE <= RAM_SIZE && Table(Relinked(m, p, v)) == Table(m)
    ensures LowGuard(m) ==> LowGuard(Relinked(m, p, v))
  {
    hide Load32;
    BelowHeapSame(m, Relinked(m, p, v));
  }

  /** A safe store through a link keeps the kernel sound. */
  lemma RelinkKeepsInv(k: KState, p: nat, v: uint32)
    requires Inv(k) && Link(p) && Link(v) && LinkSafe(k.m, k.held, p, v)
    ensures p + TASK_SIZE <= RAM_SIZE && Inv(k.(m := Relinked(k.m, p, v)))
  {
    hide Load32, Store32, Inv, Held, LowGuard, ProcOk, OwnersLive, KeptButNext, Relinked, LinkSafe, SpaceRunsSame,
      AgreeOn, LinkWords, SameRun, Table, TasksSingle;
    InvProcs(k);
    InvTasksSingle(k);
    RelinkKeepsIff(k.m, k.held, p, v);
    RelinkTable(k.m, p, v);
    var m' := Relinked(k.m, p, v);
    HeldByTable(k.m, m', k.held);
    forall q | 0 <= q < MAX_PROCESSES && k.procs[q].Some? ensures ProcOk(m', k.held, q, k.procs[q].value) {
      var proc := k.procs[q].value;
      KeptSpaces(k.m, m', k.held, q);
      AgreeSelf(k.held, q);
      TaskIsPage(k.m, k.held, q, proc);
      ProcTask(k.m, k.held, q, proc);
      RelinkKeepsWords(k.m, k.held, p, v, proc.task);
      ProcSpaceUntouched(k.m, m', k.held, k.held, q, proc);
    }
    InvFrom(k.(m := m'));
  }

  lemma ProcTask(m: Mem, held: map<Owner, Run>, pid: nat, p: Proc)
    requires ProcOk(m, held, pid, p)
    ensures LinkWords(m, p.task) && HoldsRun(held, Owner(pid, Task), p.task, 1)
  {
  }

  // ---- The unguarded store of task_new ----

  /** Through a tail that serves, the store spares everything held but next words. */
  lemma SetNextKept(m: Mem, held: map<Owner, Run>, p: nat, v: uint32)
    requires Held(m, held) && TasksSingle(held) && Link(p) && LinkFree(held, p)
    ensures p + TASK_SIZE <= RAM_SIZE
    ensures var m' := SetNext(m, p, v);
            && KeptButNext(m, m', held) && Table(m') == Table(m) && (LowGuard(m) ==> LowGuard(m'))
  {
    hide Load32, SameButNext, SameRun, LinkSafe, Held;
    FreeIsSafe(m, held, p, v);
    if p == 0 {
      LowStoreKept(m, held, v);
    } else {
      RelinkTable(m, p, v);
      RelinkKeepsIff(m, held, p, v);
    }
  }

  /** Through a tail whose next is not the new task yet, it spares them exactly if the
      tail serves. */
  lemma SetNextKeepsIff(m: Mem, held: map<Owner, Run>, p: nat, v: uint32)
    requires Held(m, held) && TasksSingle(held) && HeapPage(p) && NextOf(m, p) != v
    ensures KeptButNext(m, SetNext(m, p, v), held) <==> LinkFree(held, p)
  {
    hide Load32, SameButNext, SameRun, Held, KeptButNext, TaskBlock, TasksSingle;
    RelinkKeepsIff(m, held, p, v);
  }

  lemma LowStoreKept(m: Mem, held: map<Owner, Run>, v: uint32)
    requires Held(m, held)
    ensures KeptButNext(m, SetNext(m, 0, v), held) && Table(SetNext(m, 0, v)) == Table(m)
    ensures LowGuard(m) ==> LowGuard(SetNext(m, 0, v))
  {
    hide WellFormed, IsRun, Load32;
    var m' := SetNext(m, 0, v);
    StoreKeeps(m, NEXT_WORD, v);
    TableSame(m, m');
    forall o | o in held ensures SameRun(m, m', held[o]) && SameButNext(m, m', held[o]) {
      HeldBounds(m, held, o);
    }
    if LowGuard(m) {
      var j :| NULL_ENTRY <= j < TABLE_ADDRESS && !HasNext(m[j]);
      assert !HasNext(m'[j]);
    }
  }

  lemma SetNextWords(m: Mem, p: nat, v: uint32, u: nat)
    requires Link(p) && Link(v) && HeapPage(u) && LinkWords(m, u)
    ensures p + TASK_SIZE <= RAM_SIZE && LinkWords(SetNext(m, p, v), u)
  {
    hide Load32, Store32;
    if p == 0 {
      LoadElsewhere(m, NEXT_WORD, v, u + NEXT_WORD);
      LoadElsewhere(m, NEXT_WORD, v, u + PREV_WORD);
    } else {
      NextSet(m, p, v, u);
    }
  }

  lemma SetPrevWords(m: Mem, p: nat, v: uint32, u: nat)
    requires HeapPage(p) && Link(v) && HeapPage(u) && LinkWords(m, u)
    ensures LinkWords(Store32(m, p + PREV_WORD, v), u)
  {
    hide Load32, Store32;
    PrevSet(m, p, v, u);
  }

  /** A write inside one owner's run. */
  lemma OwnWordKept(m: Mem, held: map<Owner, Run>, o: Owner, a: nat, v: uint32)
    requires Held(m, held) && o in held && held[o].ptr <= a && a + 4 <= held[o].End()
    ensures a + 4 <= HEAP_END
    ensures var m' := Store32(m, a, v);
            && (forall q :: q in held && q != o ==> SameRun(m, m', held[q]))
            && Table(m') == Table(m) && (LowGuard(m) ==> LowGuard(m'))
  {
    hide Load32, WellFormed, IsRun;
    HeldBounds(m, held, o);
    StoreKeeps(m, a, v);
    BelowHeapSame(m, Store32(m, a, v));
    forall q | q in held && q != o ensures SameRun(m, Store32(m, a, v), held[q]) {
      HeldApart(m, held, o, q);
      HeldBounds(m, held, q);
    }
  }
}
