/** Runs in which every exiting task's prev serves: the scheduler's ring lists exactly
    the live processes' tasks all the time. */
module RingRuns {
  import opened Memory
  import opened HeapTable
  import opened Heap
  import opened KernelHeap
  import opened Owners
  import opened Paging
  import opened AddressSpace
  import opened Elf
  import opened Process
  import opened Tasks
  import opened Isolation
  import opened Steps
  import opened Requests
  import opened Links
  import opened Switches
  import opened Frees
  import opened Terminate
  import opened Load
  import opened GetArguments
  import opened Machine
  import opened StaleLinks
  import Arguments
  import CopyString

  // ---- The ring and the process table ----

  ghost predicate TaskOfLive(k: KState, t: nat) {
    exists pid: nat :: Live(k, pid) && k.procs[pid].value.task == t
  }

  /** The ring is sound and its list holds exactly the tasks of the live processes. */
  ghost predicate Scheduled(k: KState, list: seq<nat>) {
    && Sound(k.m, k.ring, list)
    && forall t :: t in list <==> TaskOfLive(k, t)
  }

  ghost predicate WordsSame(m: Mem, m': Mem, t: nat) {
    t + TASK_SIZE <= RAM_SIZE && NextOf(m', t) == NextOf(m, t) && PrevOf(m', t) == PrevOf(m, t)
  }

  ghost predicate SameTasks(procs: seq<Option<Proc>>, procs': seq<Option<Proc>>) {
    && |procs'| == |procs|
    && forall q :: 0 <= q < |procs| ==>
         (procs'[q].Some? <==> procs[q].Some?) && (procs[q].Some? ==> procs'[q].value.task == procs[q].value.task)
  }

  /** Ring, live tasks and their links are as they were. */
  ghost predicate TasksSame(k: KState, k': KState) {
    && k'.ring == k.ring && SameTasks(k.procs, k'.procs)
    && forall t :: TaskOfLive(k, t) ==> WordsSame(k.m, k'.m, t)
  }

  lemma SameTasksLive(k: KState, k': KState)
    requires SameTasks(k.procs, k'.procs)
    ensures forall t :: TaskOfLive(k, t) <==> TaskOfLive(k', t)
  {
    forall t ensures TaskOfLive(k, t) <==> TaskOfLive(k', t) {
      if TaskOfLive(k, t) {
        var pid: nat :| Live(k, pid) && k.procs[pid].value.task == t;
        assert Live(k', pid) && k'.procs[pid].value.task == t;
      }
      if TaskOfLive(k', t) {
        var pid: nat :| Live(k', pid) && k'.procs[pid].value.task == t;
        assert Live(k, pid) && k.procs[pid].value.task == t;
      }
    }
  }

  /** A sound ring stays sound while its tasks' words stay. */
  lemma SoundMoves(m: Mem, m': Mem, ring: Ring, list: seq<nat>)
    requires Sound(m, ring, list) && forall t :: t in list ==> WordsSame(m, m', t)
    ensures Sound(m', ring, list)
  {
    hide Load32, NextOf, PrevOf;
    forall i | 0 <= i < |list| ensures NextOf(m', list[i]) == TaskAt(list, i + 1) {
      assert list[i] in list && NextOf(m, list[i]) == TaskAt(list, i + 1);
    }
  }

  lemma SameScheduled(k: KState, k': KState, list: seq<nat>)
    requires Scheduled(k, list) && TasksSame(k, k')
    ensures Scheduled(k', list)
  {
    hide Sound, SameTasks, TaskOfLive, WordsSame;
    SameTasksLive(k, k');
    SoundMoves(k.m, k'.m, k.ring, list);
  }

  lemma RunWordsSame(m: Mem, m': Mem, t: nat)
    requires SameRun(m, m', Run(t, 1))
    ensures WordsSame(m, m', t)
  {
    hide Load32;
    LoadSame(m, m', t + NEXT_WORD);
    LoadSame(m, m', t + PREV_WORD);
  }

  /** Enough that the live processes' task blocks are as they were. */
  lemma TaskRunsSame(k: KState, k': KState)
    requires Inv(k) && k'.ring == k.ring && SameTasks(k.procs, k'.procs)
    requires forall o :: o in k.held && o.role == Task ==> SameRun(k.m, k'.m, k.held[o])
    ensures TasksSame(k, k')
  {
    hide Load32, Inv, Held, LowGuard, OwnersLive, ProcOk, SameRun, WordsSame, LinkWords;
    InvProcs(k);
    forall t | TaskOfLive(k, t) ensures WordsSame(k.m, k'.m, t) {
      var pid: nat :| Live(k, pid) && k.procs[pid].value.task == t;
      ProcTask(k.m, k.held, pid, k.procs[pid].value);
      RunWordsSame(k.m, k'.m, t);
    }
  }

  // ---- The steps that leave tasks alone ----

  lemma MemoryOnly(k: KState, m': Mem)
    requires Inv(k) && forall o :: o in k.held && o.role == Task ==> SameRun(k.m, m', k.held[o])
    ensures TasksSame(k, k.(m := m'))
  {
    hide Inv, SameRun;
    TaskRunsSame(k, k.(m := m'));
  }

  lemma ForeignTasks(k: KState, k': KState, pid: nat)
    requires Inv(k) && k'.ring == k.ring && SameTasks(k.procs, k'.procs) && Arguments.SparesForeign(k, k', pid)
    ensures TasksSame(k, k')
  {
    hide Inv, SameRun, SameTasks;
    TaskRunsSame(k, k');
  }

  lemma MallocShape(k: KState, pid: nat, size: uint32)
    requires CanCall(k, pid)
    ensures var k' := MallocStep(k, pid, size); k'.ring == k.ring && SameTasks(k.procs, k'.procs)
  {
    hide ProcessMalloc, WellFormed, Table, LiveSpace, SlotsFreeable, Load32, DirectoryOf, SlotOf, BlocksFor;
  }

  lemma MallocTasks(k: KState, pid: nat, size: uint32)
    requires Inv(k) && Live(k, pid) && CanCall(k, pid) && MallocSound(k, pid, size)
    ensures TasksSame(k, MallocStep(k, pid, size)) && Arguments.SparesForeign(k, MallocStep(k, pid, size), pid)
  {
    hide Inv, Fits, BlocksFor, SlotOf, MallocStep, MallocPtr, CanCall, Arguments.SparesHeld, Table, MallocSound, Undone,
      SameTasks, Arguments.SparesForeign, TasksSame;
    SlotCount(k, pid);
    MallocShape(k, pid, size);
    if Fits(Table(k.m), BlocksFor(size)) && SlotOf(k.procs[pid].value.slots, 0) < MAX_ALLOCATIONS {
      Arguments.GrantedRun(k, pid, size);
      Arguments.GrantedForeign(k, MallocStep(k, pid, size), pid,
                               Owner(pid, Allocation(SlotOf(k.procs[pid].value.slots, 0))),
                               Run(MallocPtr(k, pid, size), BlocksFor(size)));
    } else {
      NotGranted(k, pid, size);
      Arguments.UndoneForeign(k, MallocStep(k, pid, size), pid);
    }
    ForeignTasks(k, MallocStep(k, pid, size), pid);
  }

  lemma FreeTasks(k: KState, pid: nat, ptr: uint32)
    requires Inv(k) && Live(k, pid) && CanCall(k, pid)
    ensures TasksSame(k, FreeStep(k, pid, ptr))
  {
    hide Inv, SlotOf, FreeStep, CanCall, SlotFreed, SameRun, TasksSame;
    var slots := k.procs[pid].value.slots;
    var i := SlotOf(slots, ptr);
    SlotFound(slots, ptr);
    if i < |slots| {
      FreeOneSlot(k, pid, i);
      FreedTasks(k, FreeStep(k, pid, ptr), pid, i);
    } else {
      FreeUnknown(k, pid, ptr);
      Arguments.ForeignSelf(k, pid);
      MemoryOnly(k, k.m);
      assert k.(m := k.m) == k;
    }
  }

  lemma SlotFound(slots: seq<Slot>, ptr: uint32)
    ensures SlotOf(slots, ptr) <= |slots|
    ensures SlotOf(slots, ptr) < |slots| ==> slots[SlotOf(slots, ptr)].ptr == ptr
  {
  }

  lemma FreedTasks(k: KState, k': KState, pid: nat, i: nat)
    requires Inv(k) && SlotFreed(k, k', pid, i)
    ensures TasksSame(k, k')
  {
    hide Inv, RunsLost, SameRun;
    TaskRunsSame(k, k');
  }

  lemma StoreTasks(k: KState, pid: nat, a: uint32, b: byte)
    requires Inv(k) && Live(k, pid) && SpaceDefined(k, pid)
    ensures TasksSame(k, UserStore(k, pid, a, b))
  {
    hide Load32, Inv, UserStore, SameRun;
    UserStoreConfined(k, pid, a, b);
    MemoryOnly(k, UserStore(k, pid, a, b).m);
  }

  lemma GetTasks(k: KState, pid: nat, a: uint32, argc: uint32, argv: uint32)
    requires Inv(k) && Live(k, pid) && SpaceDefined(k, pid) && Harmless(k, pid, a, argc, argv)
    ensures TasksSame(k, GetStep(k, pid, a, argc, argv))
  {
    hide Inv, Held, Harmless, Spared, Target, SpaceDefined, SameRun, ProcOk, OwnersLive, LowGuard, GetStep;
    GetSparesIff(k, pid, a, argc, argv);
    GetIsMemory(k, pid, a, argc, argv);
    InvProcs(k);
    var m' := GetStep(k, pid, a, argc, argv).m;
    forall o | o in k.held && o.role == Task ensures SameRun(k.m, m', k.held[o]) {
      SparedRuns(k, m', pid, o);
    }
    MemoryOnly(k, m');
  }

  lemma GetIsMemory(k: KState, pid: nat, a: uint32, argc: uint32, argv: uint32)
    requires SpaceDefined(k, pid)
    ensures GetStep(k, pid, a, argc, argv) == k.(m := GetStep(k, pid, a, argc, argv).m)
  {
    hide SpaceDefined, Target;
  }

  lemma NoteTasks(k: KState, pid: nat, m': Mem)
    requires Inv(k) && Live(k, pid) && Noted(k.m, m', k.procs[pid].value)
    ensures TasksSame(k, k.(m := m'))
  {
    hide Load32, Inv, Held, LowGuard, OwnersLive, ProcOk, SameRun, WordsSame, LinkWords, Noted, NextOf, PrevOf;
    InvProcs(k);
    forall t | TaskOfLive(k, t) ensures WordsSame(k.m, m', t) {
      var q: nat :| Live(k, q) && k.procs[q].value.task == t;
      ProcTask(k.m, k.held, q, k.procs[q].value);
      if q == pid {
        NoteKeepsLinks(k.m, m', k.held, pid, k.procs[pid].value);
        WordsAre(k.m, m', t);
      } else {
        NoteSpares(k, m', pid, Owner(q, Task));
        RunWordsSame(k.m, m', t);
      }
    }
  }

  lemma WordsAre(m: Mem, m': Mem, t: nat)
    requires t + TASK_SIZE <= RAM_SIZE && NextOf(m', t) == NextOf(m, t) && PrevOf(m', t) == PrevOf(m, t)
    ensures WordsSame(m, m', t)
  {
  }

  lemma OtherTasks(k: KState, memory: Mem)
    requires Inv(k) && Environment(k.m, memory, k.held)
    ensures TasksSame(k, k.(m := memory))
  {
    hide Inv, Held, LowGuard, SameRun;
    MemoryOnly(k, memory);
  }

  lemma ReadTasks(k: KState, pid: nat, virt: uint32, phys: nat, max: int)
    requires Inv(k) && Live(k, pid) && CopyString.KernelBuffer(phys, max) && CanCall(k, pid)
    ensures TasksSame(k, k.(m := CopyString.CopyString(k.m, k.procs[pid].value.chunk, virt, phys, max).0))
  {
    hide Inv, SameRun, CopyString.CopyString, CopyString.KernelBuffer, LiveSpace, WellFormed, SlotsFreeable, TasksSame;
    CopyString.CopySparesRuns(k, pid, virt, phys, max);
    MemoryOnly(k, CopyString.CopyString(k.m, k.procs[pid].value.chunk, virt, phys, max).0);
  }

  // ---- process_inject_arguments ----

  lemma PlaceOneShape(k: KState, pid: nat, v: nat, i: nat, arg: seq<byte>)
    requires Inv(k) && Live(k, pid) && Arguments.ArrayIn(k, pid, v, i + 1)
    ensures var r := Arguments.PlaceOne(k, pid, v, i, arg);
      r.k.ring == k.ring && SameTasks(k.procs, r.k.procs)
  {
    hide Inv, MallocStep, MallocPtr, CanCall, SameTasks, Arguments.StringStored, Store32;
    LiveCanCall(k, pid);
    Arguments.ArrayBounds(k, pid, v, i + 1, i);
    MallocShape(k, pid, Arguments.CL.ARGUMENT_SIZE);
  }

  lemma SameTasksTwice(procs: seq<Option<Proc>>, procs1: seq<Option<Proc>>, procs2: seq<Option<Proc>>)
    requires SameTasks(procs, procs1) && SameTasks(procs1, procs2)
    ensures SameTasks(procs, procs2)
  {
  }

  lemma {:induction false} PlaceFromShape(k: KState, pid: nat, v: nat, args: seq<seq<byte>>, i: nat)
    requires Inv(k) && Live(k, pid) && Arguments.ArrayIn(k, pid, v, |args|) && i <= |args| && Arguments.Strings(args)
    ensures var r := Arguments.PlaceFrom(k, pid, v, args, i);
      r.k.ring == k.ring && SameTasks(k.procs, r.k.procs)
    decreases |args| - i
  {
    hide Inv, Arguments.PlaceOne, Arguments.EntryPlaced, Arguments.TurnSpares, Arguments.SparesForeign, SameTasks;
    if i == |args| {
      SameTasksSelf(k.procs);
    } else {
      Arguments.TurnPlaces(k, pid, v, i, args[i]);
      PlaceOneShape(k, pid, v, i, args[i]);
      var r := Arguments.PlaceOne(k, pid, v, i, args[i]);
      if r.res >= 0 {
        PlaceFromShape(r.k, pid, v, args, i + 1);
        SameTasksTwice(k.procs, r.k.procs, Arguments.PlaceFrom(r.k, pid, v, args, i + 1).k.procs);
      }
    }
  }

  lemma SameTasksSelf(procs: seq<Option<Proc>>)
    ensures SameTasks(procs, procs)
  {
  }

  lemma InjectTasks(k: KState, pid: nat, args: seq<seq<byte>>)
    requires Arguments.CanInject(k, pid, args)
    ensures TasksSame(k, Arguments.Inject(k, pid, args).k)
  {
    hide Inv, Arguments.Inject, SameTasks, TasksSame, Arguments.ArgsPlaced, Arguments.SparesForeign, MallocSound,
      Arguments.Strings;
    var _, _ := Arguments.InjectDelivers(k, pid, args);
    InjectShape(k, pid, args);
    ForeignTasks(k, Arguments.Inject(k, pid, args).k, pid);
  }

  lemma InjectShape(k: KState, pid: nat, args: seq<seq<byte>>)
    requires Arguments.CanInject(k, pid, args)
    ensures var r := Arguments.Inject(k, pid, args); r.k.ring == k.ring && SameTasks(k.procs, r.k.procs)
  {
    hide Inv, MallocPtr, MallocStep, CanCall, Arguments.PlaceFrom, MallocSound, SlotOf, SameTasks, Arguments.Strings,
      Arguments.SparesForeign;
    LiveCanCall(k, pid);
    var size := Arguments.ArraySize(|args|);
    MallocShape(k, pid, size);
    if args == [] {
      SameTasksSelf(k.procs);
    } else if MallocPtr(k, pid, size) != 0 {
      Arguments.ArrayGranted(k, pid, |args|);
      var k1 := MallocStep(k, pid, size);
      PlaceFromShape(k1, pid, SlotOf(k.procs[pid].value.slots, 0), args, 0);
      SameTasksTwice(k.procs, k1.procs, Arguments.Inject(k, pid, args).k.procs);
    }
  }

  // ---- Exits ----

  /** task_list_remove's effect on the globals depends on the task's two words only. */
  lemma RingWithoutSame(m: Mem, m': Mem, ring: Ring, task: nat)
    requires WordsSame(m, m', task)
    ensures RingWithout(m', ring, task) == RingWithout(m, ring, task)
  {
    hide Load32;
  }

  lemma ExitRing(k: KState, pid: nat)
    requires Inv(k) && Live(k, pid)
    ensures CanExit(k.m, k.procs[pid].value)
    ensures var task := k.procs[pid].value.task;
      && HeapPage(task) && Link(PrevOf(k.m, task))
      && TerminateStep(k, pid).ring == RingWithout(Unlist(k.m, task), k.ring, task)
      && TerminateStep(k, pid).procs == k.procs[pid := None]
  {
    hide Load32, Inv, Held, LowGuard, OwnersLive, CanTerminate, BeforeExit, Kfree, WithoutPid, RunsLost, OthersKept,
      Leftover, ProcOk, LinkWords, RingWithout, SameRun, PrevOf, NextOf, Unlist;
    InvProcs(k);
    TerminateExact(k, pid);
    RestExact(k, pid);
    var p := k.procs[pid].value;
    var m3 := BeforeExit(k.m, p);
    ProcTask(k.m, k.held, pid, p);
    TaskIsPage(k.m, k.held, pid, p);
    TaskWords(k.m, m3, p.task);
    TaskWordsFit(k.m, p.task);
    TaskWordsFit(m3, p.task);
    UnlistOwnWords(k.m, p.task);
    UnlistOwnWords(m3, p.task);
    WordsAre(Unlist(k.m, p.task), Unlist(m3, p.task), p.task);
    RingWithoutSame(Unlist(k.m, p.task), Unlist(m3, p.task), k.ring, p.task);
  }

  lemma TaskWordsFit(m: Mem, task: nat)
    requires LinkWords(m, task)
    ensures task + TASK_SIZE <= RAM_SIZE && Link(PrevOf(m, task)) && PrevOf(m, task) + TASK_SIZE <= RAM_SIZE
  {
    hide Load32;
  }

  /** Every other live task's words after the exit are those after task_list_remove. */
  lemma ExitWords(k: KState, pid: nat, t: nat)
    requires Inv(k) && Live(k, pid) && TaskOfLive(k, t) && t != k.procs[pid].value.task
    ensures CanExit(k.m, k.procs[pid].value) && k.procs[pid].value.task + TASK_SIZE <= RAM_SIZE
    ensures PrevOf(k.m, k.procs[pid].value.task) + TASK_SIZE <= RAM_SIZE
    ensures WordsSame(Unlist(k.m, k.procs[pid].value.task), TerminateStep(k, pid).m, t)
  {
    hide Load32, Store32, Inv, Held, LowGuard, OwnersLive, CanExit, CanTerminate, RestStep, TerminateStep, WithoutPid,
      RunsLost, OthersKept, Leftover, ProcOk, LinkWords, SameRun, PrevOf, NextOf, SetNext, WordsSame;
    InvProcs(k);
    RestExact(k, pid);
    ExitIsRestAndStore(k, pid);
    TaskFits(k, pid);
    var task := k.procs[pid].value.task;
    var prev, next := PrevOf(k.m, task), NextOf(k.m, task);
    var q: nat :| Live(k, q) && k.procs[q].value.task == t;
    ProcTask(k.m, k.held, pid, k.procs[pid].value);
    TaskWordsFit(k.m, task);
    ProcTask(k.m, k.held, q, k.procs[q].value);
    TaskIsPage(k.m, k.held, q, k.procs[q].value);
    OtherKept(k.m, RestStep(k, pid).m, k.held, RestStep(k, pid).held, pid, Owner(q, Task));
    RunWordsSame(k.m, RestStep(k, pid).m, t);
    RelinkedWords(k.m, RestStep(k, pid).m, prev, next, t);
  }

  lemma OtherKept(m: Mem, m': Mem, held: map<Owner, Run>, held': map<Owner, Run>, pid: nat, o: Owner)
    requires OthersKept(m, m', held, held', pid) && o in held && o.pid != pid
    ensures SameRun(m, m', held[o])
  {
    hide SameRun;
  }

  /** The same store on both sides keeps words equal. */
  lemma RelinkedWords(m: Mem, m': Mem, prev: nat, next: uint32, t: nat)
    requires Link(prev) && prev + TASK_SIZE <= RAM_SIZE && HeapPage(t) && WordsSame(m, m', t)
    ensures WordsSame(Relinked(m, prev, next), Relinked(m', prev, next), t)
  {
    hide Load32, Store32;
    if prev != 0 {
      NextSet(m, prev, next, t);
      NextSet(m', prev, next, t);
    }
  }

  /** An exit takes the task out of the ring exactly if its prev serves. */
  lemma ExitScheduledIff(k: KState, pid: nat, list: seq<nat>, i: nat)
    requires Inv(k) && Live(k, pid) && Scheduled(k, list)
    requires i < |list| && list[i] == k.procs[pid].value.task && HeapPage(list[i])
    ensures CanExit(k.m, k.procs[pid].value)
    ensures Scheduled(TerminateStep(k, pid), Without(list, i)) <==> PrevServes(k.m, list, i)
  {
    hide Load32, Inv, Held, LowGuard, OwnersLive, CanExit, TerminateStep, ProcOk, PrevOf, NextOf, Sound, WordsSame,
      TaskOfLive, RingWithout, Unlist, PrevServes;
    ExitRing(k, pid);
    SoundPages(k.m, k.ring, list);
    RemoveSoundIff(k.m, k.ring, list, i);
    RestPages(list, i);
    var task, k', rest := list[i], TerminateStep(k, pid), Without(list, i);
    TaskFits(k, pid);
    forall t | t in rest ensures WordsSame(Unlist(k.m, task), k'.m, t) && WordsSame(k'.m, Unlist(k.m, task), t) {
      InRest(list, i, t);
      ExitWords(k, pid, t);
      WordsBack(Unlist(k.m, task), k'.m, t);
    }
    if PrevServes(k.m, list, i) {
      SoundMoves(Unlist(k.m, task), k'.m, k'.ring, rest);
    } else if Sound(k'.m, k'.ring, rest) {
      SoundMoves(k'.m, Unlist(k.m, task), k'.ring, rest);
    }
    forall t ensures t in rest <==> TaskOfLive(k', t) {
      InRest(list, i, t);
      LiveAfterExit(k, k', pid, t);
    }
  }

  lemma WordsBack(m: Mem, m': Mem, t: nat)
    requires WordsSame(m, m', t)
    ensures WordsSame(m', m, t)
  {
    hide Load32;
  }

  lemma TaskFits(k: KState, pid: nat)
    requires Inv(k) && Live(k, pid)
    ensures k.procs[pid].value.task + TASK_SIZE <= RAM_SIZE
    ensures PrevOf(k.m, k.procs[pid].value.task) + TASK_SIZE <= RAM_SIZE
  {
    hide Load32, Inv, Held, LowGuard, OwnersLive, ProcOk, LinkWords;
    InvProcs(k);
    ProcTask(k.m, k.held, pid, k.procs[pid].value);
    TaskWordsFit(k.m, k.procs[pid].value.task);
  }

  lemma SoundPages(m: Mem, ring: Ring, list: seq<nat>)
    requires Sound(m, ring, list)
    ensures Distinct(list) && Pages(list)
  {
    hide Linked;
  }

  lemma InRest(list: seq<nat>, i: nat, t: nat)
    requires i < |list| && Distinct(list)
    ensures t in Without(list, i) <==> t in list && t != list[i]
  {
    if t in list && t != list[i] { StaysIn(list, i, t); }
    if t in Without(list, i) {
      var j :| 0 <= j < |list| - 1 && Without(list, i)[j] == t;
      assert list[if j < i then j else j + 1] == t;
    }
  }

  lemma LiveAfterExit(k: KState, k': KState, pid: nat, t: nat)
    requires Inv(k) && Live(k, pid) && k'.procs == k.procs[pid := None]
    ensures TaskOfLive(k', t) <==> TaskOfLive(k, t) && t != k.procs[pid].value.task
  {
    hide Inv, Held, LowGuard, OwnersLive, ProcOk, LinkWords;
    InvProcs(k);
    ProcTask(k.m, k.held, pid, k.procs[pid].value);
    if TaskOfLive(k, t) && t != k.procs[pid].value.task {
      var q: nat :| Live(k, q) && k.procs[q].value.task == t;
      assert Live(k', q);
    }
    if TaskOfLive(k', t) {
      var q: nat :| Live(k', q) && k'.procs[q].value.task == t;
      assert q != pid && Live(k, q);
      ProcTask(k.m, k.held, q, k.procs[q].value);
      TasksDiffer(k.m, k.held, pid, k.procs[pid].value.task, q, t);
    }
  }

  // ---- Loads ----

  function Joined(list: seq<nat>, task: nat): seq<nat> { list + [task] }

  function LastOf(list: seq<nat>): nat { if list == [] then 0 else list[|list| - 1] }

  /** Words of live tasks, and of the new one, through the stages of a load. */
  lemma PreparedWords(k: KState, pid: nat, t: Trace, held': map<Owner, Run>, u: nat)
    requires Inv(k) && TaskOfLive(k, u) && Advanced(k.m, t.m8, k.held, held') && OwnersSplit(k.held, held', pid)
    requires HoldsRun(held', Owner(pid, Task), t.task, 1)
    ensures WordsSame(k.m, t.m8, u) && u != t.task && HeapPage(u)
  {
    hide Load32, Inv, Held, LowGuard, OwnersLive, ProcOk, LinkWords, SameRun, WordsSame, Advanced, Extends;
    InvProcs(k);
    AdvancedHeld(k.m, t.m8, k.held, held');
    var q: nat :| Live(k, q) && k.procs[q].value.task == u;
    ProcTask(k.m, k.held, q, k.procs[q].value);
    TaskIsPage(k.m, k.held, q, k.procs[q].value);
    AdvancedTask(k.m, t.m8, k.held, held', Owner(q, Task));
    RunWordsSame(k.m, t.m8, u);
    TasksDiffer(t.m8, held', pid, t.task, q, u);
  }

  /** After task_new the ring's list is longer by the new task. */
  lemma EnlistScheduled(k: KState, pid: nat, t: Trace, held': map<Owner, Run>, list: seq<nat>, m8: Mem, ring: Ring)
    requires CanEnlist(k, t) && Enlist(t.m8, k.ring, t.task) == (m8, ring)
    requires HeapPage(t.task) && NextOf(t.m8, t.task) == 0 && PrevOf(t.m8, t.task) == 0
    requires Inv(k) && Scheduled(k, list)
    requires Advanced(k.m, t.m8, k.held, held') && OwnersSplit(k.held, held', pid)
    requires HoldsRun(held', Owner(pid, Task), t.task, 1)
    ensures Sound(m8, ring, Joined(list, t.task))
    ensures PrevOf(m8, t.task) == LastOf(list)
  {
    hide Load32, Store32, Inv, Advanced, WordsSame, TaskOfLive, PrevOf, NextOf, Linked, OwnersSplit;
    forall u | u in list ensures WordsSame(k.m, t.m8, u) && u != t.task {
      PreparedWords(k, pid, t, held', u);
    }
    SoundMoves(k.m, t.m8, k.ring, list);
    EnlistAppends(t.m8, k.ring, list, t.task);
    if list != [] { assert HeapPage(list[0]); }
  }

  lemma MappedWords(m8: Mem, m9: Mem, held': map<Owner, Run>, pid: nat, chunk: nat, q: nat, u: nat)
    requires Held(m8, held') && HoldsSpace(m8, held', pid, chunk) && OnlyTables(m8, m9, chunk)
    requires HoldsRun(held', Owner(q, Task), u, 1)
    ensures WordsSame(m8, m9, u) && HeapPage(u)
  {
    hide Load32, Held, HoldsSpace, OnlyTables, SameRun, WordsSame;
    OnlyTablesSpares(m8, m9, held', pid, chunk);
    RunWordsSame(m8, m9, u);
    HeldBounds(m8, held', Owner(q, Task));
    RunAligned(m8, held', Owner(q, Task));
  }

  lemma OutsideWords(m: Mem, m': Mem, u: nat)
    requires HeapPage(u) && SameOutsideTable(m, m')
    ensures WordsSame(m, m', u)
  {
    hide Load32;
    LoadSame(m, m', u + NEXT_WORD);
    LoadSame(m, m', u + PREV_WORD);
  }

  lemma WordsTwice(m: Mem, m1: Mem, m2: Mem, u: nat)
    requires WordsSame(m, m1, u) && WordsSame(m1, m2, u)
    ensures WordsSame(m, m2, u)
  {
    hide Load32;
  }

  /** The tasks of the longer list all have runs in held'. */
  lemma ListedRun(k: KState, pid: nat, t: Trace, held': map<Owner, Run>, list: seq<nat>, u: nat) returns (q: nat)
    requires Inv(k) && Scheduled(k, list) && OwnersSplit(k.held, held', pid)
    requires HoldsRun(held', Owner(pid, Task), t.task, 1) && u in Joined(list, t.task)
    ensures HoldsRun(held', Owner(q, Task), u, 1)
  {
    hide Inv, Held, LowGuard, OwnersLive, ProcOk, LinkWords, Sound;
    InvProcs(k);
    if u == t.task {
      q := pid;
    } else {
      assert TaskOfLive(k, u);
      q :| Live(k, q) && k.procs[q].value.task == u;
      ProcTask(k.m, k.held, q, k.procs[q].value);
    }
  }

  lemma LoadScheduled(k: KState, k': KState, pid: nat, program: Program, imageSize: uint32, t: Trace, list: seq<nat>)
    requires t.chunk + 4 <= RAM_SIZE && DirectoryOf(t.m8, t.chunk) + PAGE_SIZE <= RAM_SIZE
    requires TailServes(k, pid, program.ElfProgram?, imageSize, t)
    requires Inv(k) && LoadNext(k, k', pid, program, imageSize, t) && Scheduled(k, list)
    ensures Scheduled(k', if Live(k', pid) then Joined(list, t.task) else list)
  {
    hide Load32, Inv, Prepares, Advanced, HeldForTask, SpaceOwners, SpaceHolding, Enlisted, LinkFree, TasksSingle,
      Held, PageEntry, HoldsSpace, LowGuard, Unlist, RingWithout, PrevOf, NextOf, PageFits, MapMemory, Free4gb,
      Kfree, SpaceOk, PartsOk, OnlyTables, WritesInEither, BlocksFor, LoadedProc, OwnersSplit, Extends, Enlist,
      LoadNext, TailServes, Sound, TaskOfLive, WordsSame, LoadedHeld, ImageFits;
    LoadTells(k, k', pid, program, imageSize, t);
    var held' := LoadPrepared(k, pid, program, imageSize, t);
    EnlistReady(k, pid, t, held');
    var (m8, ring) := Enlist(t.m8, k.ring, t.task);
    EnlistScheduled(k, pid, t, held', list, m8, ring);
    LoadMapped(k, pid, program, imageSize, t, held', m8, ring);
    EnlistedTells(k, pid, t, held', m8, ring);
    var (m9, res) := MapMemory(m8, t.chunk, program, t.image, imageSize, t.stack);
    forall u | u in Joined(list, t.task) ensures WordsSame(m8, m9, u) && HeapPage(u) {
      var q := ListedRun(k, pid, t, held', list, u);
      MappedWords(m8, m9, held', pid, t.chunk, q, u);
    }
    SoundMoves(m8, m9, ring, Joined(list, t.task));
    LoadOutcome(k, k', pid, program, imageSize, t, m8, ring);
    if res == 0 {
      LiveAfterLoad(k, k', pid, list, t.task);
    } else {
      SplitBack(k.held, held', pid);
      SpaceGivenBack(k, pid, t, held', m8, ring, m9);
      AbandonedScheduled(k, k', pid, t, held', list, m8, m9, ring);
    }
  }

  /** Where a load ends, by the result of mapping. */
  lemma LoadOutcome(k: KState, k': KState, pid: nat, program: Program, imageSize: uint32, t: Trace, m8: Mem, ring: Ring)
    requires LoadNext(k, k', pid, program, imageSize, t)
    requires CanEnlist(k, t) && Enlist(t.m8, k.ring, t.task) == (m8, ring) && SpaceOk(m8, t.chunk)
    ensures pid < |k.procs| && k.procs[pid].None?
    ensures var (m9, res) := MapMemory(m8, t.chunk, program, t.image, imageSize, t.stack);
      if res == 0 then
        && k'.m == m9 && k'.ring == ring && k'.procs == k.procs[pid := k'.procs[pid]] && Live(k', pid)
        && k'.procs[pid].value.task == t.task
      else
        && SpaceOk(m9, t.chunk) && Freeable(t.task)
        && var m10 := Free4gb(m9, t.chunk);
        && PrevOf(m10, t.task) + TASK_SIZE <= RAM_SIZE
        && k'.m == Kfree(Unlist(m10, t.task), t.task) && k'.procs == k.procs && !Live(k', pid)
        && k'.ring == RingWithout(Unlist(m10, t.task), ring, t.task)
  {
    hide Load32, Prepares, MapMemory, Kfree, Free4gb, Unlist, RingWithout, PrevOf, SpaceOk, LoadedHeld, Enlist;
  }

  lemma LiveAfterLoad(k: KState, k': KState, pid: nat, list: seq<nat>, task: nat)
    requires Scheduled(k, list) && pid < |k.procs| && k.procs[pid].None? && Live(k', pid)
    requires k'.procs == k.procs[pid := k'.procs[pid]] && k'.procs[pid].value.task == task
    requires Sound(k'.m, k'.ring, Joined(list, task))
    ensures Scheduled(k', Joined(list, task))
  {
    hide Sound;
    forall u ensures u in Joined(list, task) <==> TaskOfLive(k', u) {
      if TaskOfLive(k, u) {
        var q: nat :| Live(k, q) && k.procs[q].value.task == u;
        assert Live(k', q) && k'.procs[q].value.task == u;
      }
      if TaskOfLive(k', u) && u != task {
        var q: nat :| Live(k', q) && k'.procs[q].value.task == u;
        assert Live(k, q) && k.procs[q].value.task == u;
      }
    }
  }

  /** The abandoned load takes its task, the last of the list, out again. */
  lemma AbandonedScheduled(k: KState, k': KState, pid: nat, t: Trace, held': map<Owner, Run>, list: seq<nat>, m8: Mem,
                           m9: Mem, ring: Ring)
    requires Scheduled(k, list) && Sound(m9, ring, Joined(list, t.task)) && HeapPage(t.task)
    requires forall u :: u in Joined(list, t.task) ==> WordsSame(m8, m9, u) && HeapPage(u)
    requires SpaceOk(m9, t.chunk) && SameOutsideTable(m9, Free4gb(m9, t.chunk)) && Freeable(t.task)
    requires PrevOf(m8, t.task) == LastOf(list)
    requires var m10 := Free4gb(m9, t.chunk);
      && PrevOf(m10, t.task) + TASK_SIZE <= RAM_SIZE
      && k'.m == Kfree(Unlist(m10, t.task), t.task) && k'.procs == k.procs
      && k'.ring == RingWithout(Unlist(m10, t.task), ring, t.task)
    ensures Scheduled(k', list)
  {
    hide Load32, Free4gb, Kfree, Unlist, RingWithout, PrevOf, NextOf, SpaceOk, Sound, TaskOfLive, SameOutsideTable;
    var m10 := Free4gb(m9, t.chunk);
    var longer := Joined(list, t.task);
    forall u | u in longer ensures WordsSame(m9, m10, u) && WordsSame(m8, m10, u) {
      OutsideWords(m9, m10, u);
      WordsTwice(m8, m9, m10, u);
    }
    SoundMoves(m9, m10, ring, longer);
    assert t.task in longer && longer[|list|] == t.task;
    LastServes(m10, list, t.task);
    RemoveSoundIff(m10, ring, longer, |list|);
    assert Without(longer, |list|) == list;
    var m11 := Unlist(m10, t.task);
    KfreeOutside(m11, t.task);
    forall u | u in list ensures WordsSame(m11, k'.m, u) {
      assert u in longer;
      OutsideWords(m11, k'.m, u);
    }
    SoundMoves(m11, k'.m, k'.ring, list);
    SameTasksSelf(k.procs);
    SameTasksLive(k, k');
  }

  lemma LastServes(m: Mem, list: seq<nat>, task: nat)
    requires task + TASK_SIZE <= RAM_SIZE && PrevOf(m, task) == LastOf(list)
    requires forall u :: u in list ==> HeapPage(u)
    ensures PrevServes(m, Joined(list, task), |list|) && Link(PrevOf(m, task))
  {
    hide Load32, PrevOf;
    if list != [] { assert list[|list| - 1] in list; }
  }

  // ---- Runs ----

  /** The exiting task's prev serves, put without the list: it names the live task whose
      next the exiting one is, or, for the list's head, no other live task. */
  ghost predicate ExitServes(k: KState, pid: nat)
    requires Live(k, pid) && k.procs[pid].value.task + TASK_SIZE <= RAM_SIZE
  {
    var task := k.procs[pid].value.task;
    var prev := PrevOf(k.m, task);
    if task == k.ring.head then prev == task || !TaskOfLive(k, prev)
    else TaskOfLive(k, prev) && prev + TASK_SIZE <= RAM_SIZE && NextOf(k.m, prev) == task
  }

  lemma LivePlace(k: KState, pid: nat, list: seq<nat>) returns (i: nat)
    requires Inv(k) && Live(k, pid) && Scheduled(k, list)
    ensures i < |list| && list[i] == k.procs[pid].value.task && HeapPage(list[i])
    ensures list[i] + TASK_SIZE <= RAM_SIZE
  {
    hide Inv, Sound;
    TaskFits(k, pid);
    assert TaskOfLive(k, k.procs[pid].value.task);
    SoundPages(k.m, k.ring, list);
    i :| 0 <= i < |list| && list[i] == k.procs[pid].value.task;
  }

  lemma ExitServesIff(k: KState, pid: nat, list: seq<nat>, i: nat)
    requires Inv(k) && Live(k, pid) && Scheduled(k, list) && k.procs[pid].value.task + TASK_SIZE <= RAM_SIZE
    requires i < |list| && list[i] == k.procs[pid].value.task
    ensures ExitServes(k, pid) <==> PrevServes(k.m, list, i)
  {
    hide Load32, Inv, NextOf, PrevOf, TaskOfLive;
    var prev := PrevOf(k.m, list[i]);
    assert TaskAt(list, 0) == list[0];
    if i == 0 {
      InRest(list, 0, prev);
    } else {
      assert list[0] != list[i];
      SoundNext(k.m, k.ring, list, i - 1);
      if ExitServes(k, pid) {
        var j :| 0 <= j < |list| && list[j] == prev;
        SoundNext(k.m, k.ring, list, j);
      }
      assert list[i - 1] in list;
    }
  }

  lemma SoundNext(m: Mem, ring: Ring, list: seq<nat>, j: nat)
    requires Sound(m, ring, list) && j < |list|
    ensures list[j] + TASK_SIZE <= RAM_SIZE && NextOf(m, list[j]) == TaskAt(list, j + 1)
    ensures j + 1 < |list| ==> list[j + 1] != 0
  {
    hide Load32;
    assert HeapPage(list[j]);
    if j + 1 < |list| { assert HeapPage(list[j + 1]); }
  }

  /** Exits are made through a prev that serves. */
  ghost predicate Disciplined(k: KState, a: Action) {
    a.Exit? ==> Live(k, a.pid) && k.procs[a.pid].value.task + TASK_SIZE <= RAM_SIZE && ExitServes(k, a.pid)
  }

  lemma SwitchScheduled(k: KState, pid: nat, list: seq<nat>)
    requires Live(k, pid) && Scheduled(k, list)
    ensures Scheduled(SwitchTo(k, pid), list)
  {
    hide Linked;
    assert TaskOfLive(k, k.procs[pid].value.task);
    SameTasksSelf(k.procs);
    SameTasksLive(k, SwitchTo(k, pid));
  }

  /** With a live process the current task is in the ring; then task_next stays in it. */
  lemma NextScheduled(k: KState, list: seq<nat>)
    requires Scheduled(k, list) && k.ring.current + TASK_SIZE <= RAM_SIZE && list != []
    ensures Scheduled(SwitchNext(k), list)
  {
    hide Load32, NextTask, Linked, TaskOfLive;
    var c :| 0 <= c < |list| && list[c] == k.ring.current;
    NextIsSuccessor(k.m, k.ring, list, c);
    SameTasksSelf(k.procs);
    SameTasksLive(k, SwitchNext(k));
  }

  /** Every step of a disciplined run keeps the ring. task_next without any task, which
      panics, is no step of it. */
  lemma StepScheduled(k: KState, a: Action, k': KState, list: seq<nat>) returns (list': seq<nat>)
    requires Inv(k) && Next(k, a, k') && Scheduled(k, list) && Disciplined(k, a) && (a.NextTurn? ==> list != [])
    ensures Scheduled(k', list')
  {
    hide Inv, CanCall, MallocStep, FreeStep, UserStore, TerminateStep, LoadNext, Environment, SpaceDefined, CanExit,
      ExitSafe, TailServes, ImageFits, Noted, SwitchTo, SwitchNext, NextOf, MallocSound, Live, Harmless, GetStep,
      CopyString.CopyString, Arguments.Inject, Arguments.CanInject, Scheduled, TasksSame, ExitServes, PrevServes;
    list' := list;
    match a
    case Exit(pid) =>
      NextLive(k, pid);
      var i := LivePlace(k, pid, list);
      ExitServesIff(k, pid, list, i);
      ExitScheduledIff(k, pid, list, i);
      list' := Without(list, i);
    case Start(pid, program, imageSize, trace) =>
      LoadTells(k, k', pid, program, imageSize, trace);
      LoadScheduled(k, k', pid, program, imageSize, trace, list);
      list' := if Live(k', pid) then Joined(list, trace.task) else list;
    case Switch(pid) => SwitchScheduled(k, pid, list);
    case NextTurn => NextScheduled(k, list);
    case _ =>
      QuietStep(k, a, k');
      SameScheduled(k, k', list);
  }

  predicate Quiet(a: Action) {
    !a.Exit? && !a.Start? && !a.Switch? && !a.NextTurn?
  }

  lemma QuietStep(k: KState, a: Action, k': KState)
    requires Inv(k) && Next(k, a, k') && Quiet(a)
    ensures TasksSame(k, k')
  {
    hide Inv, CanCall, MallocStep, FreeStep, UserStore, TerminateStep, LoadNext, Environment, SpaceDefined, CanExit,
      ExitSafe, TailServes, ImageFits, Noted, MallocSound, Live, Harmless, GetStep, CopyString.CopyString,
      Arguments.Inject, Arguments.CanInject, TasksSame;
    match a
    case Malloc(pid, size) =>
      CanCallLive(k, pid);
      MallocTasks(k, pid, size);
    case Free(pid, ptr) =>
      CanCallLive(k, pid);
      FreeTasks(k, pid, ptr);
    case Store(pid, address, value) =>
      CanCallLive(k, pid);
      StoreTasks(k, pid, address, value);
    case GiveArguments(pid, args) =>
      InjectTasks(k, pid, args);
    case TakeArguments(pid, address, argc, argv) =>
      CanCallLive(k, pid);
      GetTasks(k, pid, address, argc, argv);
    case ReadString(pid, address, buffer, max) =>
      CanCallLive(k, pid);
      ReadTasks(k, pid, address, buffer, max);
    case Note(pid, memory) =>
      NoteTasks(k, pid, memory);
    case Other(memory) =>
      OtherTasks(k, memory);
  }

  ghost predicate InRing(k: KState) {
    exists list :: Scheduled(k, list)
  }

  ghost predicate NobodyLive(k: KState) {
    forall pid: nat :: !Live(k, pid)
  }

  ghost predicate DisciplinedRun(states: seq<KState>, actions: seq<Action>) {
    && Execution(states, actions)
    && forall i :: 0 <= i < |actions| ==>
         Disciplined(states[i], actions[i]) && (actions[i].NextTurn? ==> !NobodyLive(states[i]))
  }

  lemma BootedScheduled(k: KState)
    requires Booted(k)
    ensures Scheduled(k, [])
  {
    hide WellFormed, LowGuard;
  }

  lemma LiveListed(k: KState, list: seq<nat>)
    requires Scheduled(k, list) && !NobodyLive(k)
    ensures list != []
  {
    hide Sound;
    var pid: nat :| Live(k, pid);
    assert TaskOfLive(k, k.procs[pid].value.task);
  }

  /** In every state of a disciplined run the ring is sound and lists exactly the live
      processes' tasks. */
  lemma {:induction false} AlwaysScheduled(states: seq<KState>, actions: seq<Action>, i: nat)
    requires DisciplinedRun(states, actions) && i < |states|
    ensures InRing(states[i])
    decreases i
  {
    hide Inv, Next, Booted, Scheduled, Disciplined, NobodyLive;
    if i == 0 {
      BootedScheduled(states[0]);
    } else {
      AlwaysScheduled(states, actions, i - 1);
      AlwaysSound(states, actions, i - 1);
      var list :| Scheduled(states[i - 1], list);
      if actions[i - 1].NextTurn? { LiveListed(states[i - 1], list); }
      var _ := StepScheduled(states[i - 1], actions[i - 1], states[i], list);
    }
  }

  // ---- What such a ring gives ----

  lemma Listed(k: KState, list: seq<nat>, i: nat) returns (q: nat)
    requires Scheduled(k, list) && i < |list|
    ensures Live(k, q) && k.procs[q].value.task == list[i]
  {
    hide Sound;
    assert list[i] in list;
    q :| Live(k, q) && k.procs[q].value.task == list[i];
  }

  /** Every load's tail serves. */
  lemma RingTailServes(k: KState, pid: nat, elf: bool, imageSize: uint32, t: Trace)
    requires t.chunk + 4 <= RAM_SIZE && DirectoryOf(t.m8, t.chunk) + PAGE_SIZE <= RAM_SIZE
    requires Inv(k) && InRing(k) && !Live(k, pid)
    ensures TailServes(k, pid, elf, imageSize, t)
  {
    hide Load32, Inv, Linked, LoadedHeld, LinkFree, TaskOfLive;
    var list :| Scheduled(k, list);
    if list != [] {
      var q := Listed(k, list, |list| - 1);
      LiveTailServes(k, pid, elf, imageSize, t, q);
    }
  }

  /** An exit through a prev that serves, and that is null for the list's head, is safe. */
  lemma RingExitSafe(k: KState, pid: nat)
    requires Inv(k) && InRing(k) && Live(k, pid) && k.procs[pid].value.task + TASK_SIZE <= RAM_SIZE
    requires ExitServes(k, pid)
    requires k.procs[pid].value.task == k.ring.head ==> PrevOf(k.m, k.procs[pid].value.task) == 0
    ensures ExitSafe(k, pid)
  {
    hide Load32, Inv, NextOf, PrevOf, LinkSafe, Scheduled;
    var task := k.procs[pid].value.task;
    if task == k.ring.head {
      LivePrevIsSafe(k, pid, pid);
    } else {
      var q: nat :| Live(k, q) && k.procs[q].value.task == PrevOf(k.m, task);
      NotOwnPrev(k, pid, q);
      LivePrevIsSafe(k, pid, q);
    }
  }

  lemma NotOwnPrev(k: KState, pid: nat, q: nat)
    requires Inv(k) && InRing(k) && Live(k, pid) && Live(k, q)
    requires k.procs[pid].value.task + TASK_SIZE <= RAM_SIZE
    requires k.procs[q].value.task + TASK_SIZE <= RAM_SIZE
    requires NextOf(k.m, k.procs[q].value.task) == k.procs[pid].value.task
    ensures q != pid
  {
    hide Load32, Inv, NextOf, TaskOfLive;
    var list :| Scheduled(k, list);
    var i := LivePlace(k, pid, list);
    SoundNext(k.m, k.ring, list, i);
  }

  /** Every live process gets its turn: within as many switches as there are live
      processes its task becomes the current one. */
  lemma EveryTurnComes(k: KState, pid: nat)
    requires InRing(k) && Live(k, pid)
    ensures exists list :: Scheduled(k, list) && Visited(k.m, k.ring, |list|, k.procs[pid].value.task)
  {
    hide Sound, Visited;
    var list :| Scheduled(k, list);
    assert TaskOfLive(k, k.procs[pid].value.task);
    RoundVisitsAll(k.m, k.ring, list);
    assert Scheduled(k, list) && Visited(k.m, k.ring, |list|, k.procs[pid].value.task);
  }

  /** ... in every state of a disciplined run. */
  lemma AlwaysTurns(states: seq<KState>, actions: seq<Action>, i: nat, pid: nat)
    requires DisciplinedRun(states, actions) && i < |states| && Live(states[i], pid)
    ensures exists list :: Scheduled(states[i], list)
              && Visited(states[i].m, states[i].ring, |list|, states[i].procs[pid].value.task)
  {
    hide *;
    AlwaysScheduled(states, actions, i);
    EveryTurnComes(states[i], pid);
  }
}
