/** Task switches, and what the kernel notes down about a process in its structure
    and its task's registers. */
module Switches {
  import opened Memory
  import opened HeapTable
  import opened Heap
  import opened KernelHeap
  import opened Owners
  import opened Paging
  import opened AddressSpace
  import opened Process
  import opened Tasks
  import opened Isolation
  import opened Steps
  import opened Links

  // ---- task_switch and task_next ----

  /** task_switch to the task of process pid. */
  function SwitchTo(k: KState, pid: nat): (k': KState)
    requires Live(k, pid)
  {
    k.(ring := k.ring.(current := k.procs[pid].value.task))
  }

  lemma SwitchToKeepsInv(k: KState, pid: nat)
    requires Inv(k) && Live(k, pid)
    ensures Inv(SwitchTo(k, pid))
  {
    hide Load32, Held, LowGuard, OwnersLive, ProcOk;
    TaskIsPage(k.m, k.held, pid, k.procs[pid].value);
  }

  /** task_next. */
  function SwitchNext(k: KState): (k': KState)
    requires k.ring.current + TASK_SIZE <= RAM_SIZE
  {
    k.(ring := k.ring.(current := NextTask(k.m, k.ring)))
  }

  /** task_next follows a word of the current task's block. The kernel stays sound
      exactly if that word is a link. */
  lemma SwitchNextKeepsInvIff(k: KState)
    requires Inv(k) && k.ring.current + TASK_SIZE <= RAM_SIZE
    ensures Inv(SwitchNext(k)) <==> Link(NextOf(k.m, k.ring.current))
  {
    hide Load32, Held, LowGuard, OwnersLive, ProcOk;
  }

  /** The current task is that of a live process. */
  ghost predicate CurrentLive(k: KState) {
    exists pid: nat :: Live(k, pid) && k.ring.current == k.procs[pid].value.task
  }

  /** Then the word is a link. */
  lemma CurrentLiveLinked(k: KState)
    requires Inv(k) && CurrentLive(k)
    ensures k.ring.current + TASK_SIZE <= RAM_SIZE && Link(NextOf(k.m, k.ring.current))
  {
    hide Load32, Held, LowGuard, OwnersLive, PagesOk, SlotsOk, PartsOk, HoldsSpace;
    var pid: nat :| Live(k, pid) && k.ring.current == k.procs[pid].value.task;
    assert ProcOk(k.m, k.held, pid, k.procs[pid].value);
  }

  // ---- What the kernel notes down ----

  const REGISTERS := 4
  const REGISTERS_END := 52

  /** Byte t of the process's structure (its keyboard buffer, its arguments, its
      allocations) or of its task's saved registers. */
  ghost predicate OwnNote(p: Proc, t: int) {
    || p.struct <= t < Run(p.struct, BlocksFor(PROCESS_SIZE)).End()
    || p.task + REGISTERS <= t < p.task + REGISTERS_END
  }

  /** keyboard_push, keyboard_pop and keyboard_backspace for the process, storing argc
      and argv, and task_save_state: only such bytes change. */
  ghost predicate Noted(m: Mem, m': Mem, p: Proc) {
    forall t :: 0 <= t < RAM_SIZE && !OwnNote(p, t) ==> m'[t] == m[t]
  }

  lemma NoteSpares(k: KState, m': Mem, pid: nat, o: Owner)
    requires Inv(k) && Live(k, pid) && Noted(k.m, m', k.procs[pid].value) && o in k.held
    ensures o != Owner(pid, ProcessStruct) && o != Owner(pid, Task) ==> SameRun(k.m, m', k.held[o])
    ensures forall t :: 0 <= t < HEAP_ADDRESS ==> m'[t] == k.m[t]
  {
    hide Load32, Inv, Held, LowGuard, OwnersLive, ProcOk, BlocksFor;
    InvProcs(k);
    var p := k.procs[pid].value;
    NoteRuns(k.m, k.held, pid, p);
    HeldBounds(k.m, k.held, o);
    HeldBounds(k.m, k.held, Owner(pid, ProcessStruct));
    HeldBounds(k.m, k.held, Owner(pid, Task));
    if o != Owner(pid, ProcessStruct) && o != Owner(pid, Task) {
      HeldApart(k.m, k.held, o, Owner(pid, ProcessStruct));
      HeldApart(k.m, k.held, o, Owner(pid, Task));
    }
  }

  lemma NoteRuns(m: Mem, held: map<Owner, Run>, pid: nat, p: Proc)
    requires ProcOk(m, held, pid, p)
    ensures Owner(pid, ProcessStruct) in held
    ensures held[Owner(pid, ProcessStruct)] == Run(p.struct, BlocksFor(PROCESS_SIZE))
    ensures Owner(pid, Task) in held && held[Owner(pid, Task)] == Run(p.task, 1)
    ensures LinkWords(m, p.task)
  {
    hide Load32, PagesOk, SlotsOk, HoldsSpace, BlocksFor, LinkWords;
  }

  /** The task's own links are no notes. */
  lemma NoteKeepsLinks(m: Mem, m': Mem, held: map<Owner, Run>, pid: nat, p: Proc)
    requires Held(m, held) && ProcOk(m, held, pid, p) && Noted(m, m', p)
    ensures p.task + TASK_SIZE <= RAM_SIZE
    ensures NextOf(m', p.task) == NextOf(m, p.task) && PrevOf(m', p.task) == PrevOf(m, p.task)
  {
    hide Load32, Held, ProcOk, BlocksFor, LinkWords;
    NoteRuns(m, held, pid, p);
    HeldApart(m, held, Owner(pid, ProcessStruct), Owner(pid, Task));
    HeldBounds(m, held, Owner(pid, Task));
    LoadSame(m, m', p.task + NEXT_WORD);
    LoadSame(m, m', p.task + PREV_WORD);
  }

  lemma NoteKeepsInv(k: KState, pid: nat, m': Mem)
    requires Inv(k) && Live(k, pid) && Noted(k.m, m', k.procs[pid].value)
    ensures Inv(k.(m := m'))
  {
    hide Load32, Inv, Held, LowGuard, OwnersLive, ProcOk, Noted, SameRun, Table, SpaceRunsSame, AgreeOn, LinkWords;
    InvProcs(k);
    NoteRuns(k.m, k.held, pid, k.procs[pid].value);
    NoteSpares(k, m', pid, Owner(pid, Task));
    BelowHeapSame(k.m, m');
    HeldByTable(k.m, m', k.held);
    forall q | 0 <= q < MAX_PROCESSES && k.procs[q].Some? ensures ProcOk(m', k.held, q, k.procs[q].value) {
      NotedProc(k, pid, m', q);
    }
    InvFrom(k.(m := m'));
  }

  lemma NotedProc(k: KState, pid: nat, m': Mem, q: nat)
    requires Inv(k) && Live(k, pid) && Noted(k.m, m', k.procs[pid].value) && Live(k, q)
    ensures ProcOk(m', k.held, q, k.procs[q].value)
  {
    hide Load32, Inv, Held, LowGuard, OwnersLive, ProcOk, Noted, SameRun, AgreeOn, NextOf, PrevOf;
    InvProcs(k);
    var p := k.procs[q].value;
    NoteRuns(k.m, k.held, q, p);
    forall r: Role | SpaceRole(r) && Owner(q, r) in k.held ensures SameRun(k.m, m', k.held[Owner(q, r)]) {
      NoteSpares(k, m', pid, Owner(q, r));
    }
    if q == pid {
      NoteKeepsLinks(k.m, m', k.held, pid, p);
    } else {
      NoteSpares(k, m', pid, Owner(q, Task));
      LinkWordsSame(k.m, m', p.task);
    }
    AgreeSelf(k.held, q);
    ProcSpaceUntouched(k.m, m', k.held, k.held, q, p);
  }
}
