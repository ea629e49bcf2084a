/** The far end of the command line: the program asks for its arguments
    (isr80h_command8_get_program_arguments) and reads them as user code does, through
    its own page tables. */
module ProgramArguments {
  import opened Memory
  import opened HeapTable
  import opened KernelHeap
  import opened Owners
  import opened Paging
  import opened Isolation
  import opened Steps
  import opened GetArguments
  import opened CStrings
  import opened Requests
  import opened Arguments
  import opened ProcessOps
  import opened ArgumentOps
  import opened CommandToArgv
  import CL = CommandLine

  // ---- What user code sees ----

  function ByteSeen(k: KState, pid: nat, a: uint32): byte
    requires SpaceDefined(k, pid)
  {
    k.m[SeenAt(k, pid, a)]
  }

  /** User code finds the string `s` at `a`. */
  ghost predicate StringSeen(k: KState, pid: nat, a: nat, s: seq<byte>) {
    && SpaceDefined(k, pid) && a + |s| < RAM_SIZE && 0 !in s
    && (forall i :: 0 <= i < |s| ==> ByteSeen(k, pid, a + i) == s[i])
    && ByteSeen(k, pid, a + |s|) == 0
  }

  /** At `a` it finds a pointer to the string `s`. */
  ghost predicate PointerSeen(k: KState, pid: nat, a: nat, s: seq<byte>) {
    && SpaceDefined(k, pid) && a + POINTER_SIZE <= RAM_SIZE && a % PAGE_SIZE + POINTER_SIZE <= PAGE_SIZE
    && StringSeen(k, pid, WordSeen(k, pid, a), s)
  }

  /** From `argv` on it finds pointers to the words, each cut to 511 characters. */
  ghost predicate ArgvSeen(k: KState, pid: nat, argv: nat, words: seq<seq<byte>>) {
    forall i :: 0 <= i < |words| ==> PointerSeen(k, pid, argv + POINTER_SIZE * i, Cut(words[i], CL.ARGUMENT_SIZE - 1))
  }

  lemma OwnReached(k: KState, pid: nat, j: nat, a: uint32)
    requires Inv(k) && Live(k, pid) && Owner(pid, Allocation(j)) in k.held
    requires k.held[Owner(pid, Allocation(j))].ptr <= a < k.held[Owner(pid, Allocation(j))].End()
    ensures SpaceDefined(k, pid) && SeenAt(k, pid, a) == a
  {
    hide Inv, PageEntry, Load32;
    OwnBytesVisible(k, pid, j, a);
  }

  lemma OwnString(k: KState, pid: nat, j: nat, s: seq<byte>)
    requires Inv(k) && Live(k, pid) && Owner(pid, Allocation(j)) in k.held
    requires |s| < PAGE_SIZE * k.held[Owner(pid, Allocation(j))].blocks
    requires CStringAt(k.m, ArrayOf(k, pid, j), s)
    ensures StringSeen(k, pid, ArrayOf(k, pid, j), s)
  {
    hide Inv, SeenAt;
    var p := ArrayOf(k, pid, j);
    StringBytes(k.m, p, s);
    LiveSpaceDefined(k, pid);
    forall a: uint32 | p <= a <= p + |s| ensures SeenAt(k, pid, a) == a {
      OwnReached(k, pid, j, a);
    }
    forall i | 0 <= i < |s| ensures ByteSeen(k, pid, p + i) == s[i] {
      assert SeenAt(k, pid, p + i) == p + i;
    }
    assert SeenAt(k, pid, p + |s|) == p + |s|;
  }

  lemma ArrayWord(ptr: nat, i: nat)
    requires ptr % PAGE_SIZE == 0
    ensures (ptr + POINTER_SIZE * i) % PAGE_SIZE + POINTER_SIZE <= PAGE_SIZE
  {
  }

  /** What is placed in the array is what the process sees there. */
  lemma EntrySeen(k: KState, pid: nat, v: nat, i: nat, j: nat, arg: seq<byte>)
    requires Inv(k) && Live(k, pid) && EntryPlaced(k, pid, v, i, j, arg)
    ensures PointerSeen(k, pid, ArrayOf(k, pid, v) + POINTER_SIZE * i, Cut(arg, CL.ARGUMENT_SIZE - 1))
  {
    hide Inv, Load32, CStringAt, StringSeen, SeenAt, Held;
    InvHolds(k);
    ArrayBounds(k, pid, v, i + 1, i);
    AllocationRun(k, Owner(pid, Allocation(v)));
    RunBounds(k.m, k.held[Owner(pid, Allocation(v))]);
    ArrayWord(ArrayOf(k, pid, v), i);
    OwnReached(k, pid, v, ArrayOf(k, pid, v) + POINTER_SIZE * i);
    OwnString(k, pid, j, Cut(arg, CL.ARGUMENT_SIZE - 1));
  }

  // ---- Asking for the arguments ----

  /** argv in slot `v`, and word i in slot slots[i]. */
  ghost predicate Placed(k: KState, pid: nat, words: seq<seq<byte>>, v: nat, slots: seq<nat>) {
    |slots| == |words| && forall i :: 0 <= i < |words| ==> EntryPlaced(k, pid, v, i, slots[i], words[i])
  }

  /** The eight bytes at `a` lie outside allocation `j`. */
  ghost predicate Outside(k: KState, pid: nat, a: uint32, j: nat)
    requires SpaceDefined(k, pid)
  {
    Owner(pid, Allocation(j)) in k.held ==>
      var r := k.held[Owner(pid, Allocation(j))];
      SeenAt(k, pid, a) + ARGUMENTS_SIZE <= r.ptr || r.End() <= SeenAt(k, pid, a)
  }

  /** A place a program can ask for: writeable, and not on the arguments themselves. */
  ghost predicate GoodPlace(k: KState, pid: nat, a: uint32, v: nat, slots: seq<nat>) {
    && SpaceDefined(k, pid) && InWriteablePage(k, pid, a)
    && Outside(k, pid, a, v) && forall i :: 0 <= i < |slots| ==> Outside(k, pid, a, slots[i])
  }

  /** What the process reads at `a` is argc and argv, and through argv the words. */
  ghost predicate ArgumentsSeen(k: KState, pid: nat, a: uint32, words: seq<seq<byte>>) {
    && a + ARGUMENTS_SIZE <= RAM_SIZE && |words| < RAM_SIZE
    && ReadsWord(k, pid, a, |words|)
    && SpaceDefined(k, pid) && (a + 4) % PAGE_SIZE + 4 <= PAGE_SIZE
    && ArgvSeen(k, pid, WordSeen(k, pid, a + 4), words)
  }

  lemma OutsideSame(k: KState, pid: nat, a: uint32, argc: uint32, argv: uint32, j: nat)
    requires Held(k.m, k.held) && Owner(pid, Allocation(j)) in k.held
    requires SpaceDefined(k, pid) && Outside(k, pid, a, j)
    requires Target(k, pid, a) == SeenAt(k, pid, a) && SeenAt(k, pid, a) + ARGUMENTS_SIZE <= RAM_SIZE
    ensures SameRun(k.m, GetStep(k, pid, a, argc, argv).m, k.held[Owner(pid, Allocation(j))])
  {
    hide Held, Load32, SpliceRound, ArgumentBytes, SeenAt, Target;
    HeldBounds(k.m, k.held, Owner(pid, Allocation(j)));
    WordsWritten(k.m, SeenAt(k, pid, a), argc, argv);
  }

  lemma EntryUntouched(k: KState, k': KState, pid: nat, v: nat, i: nat, j: nat, arg: seq<byte>)
    requires EntryPlaced(k, pid, v, i, j, arg) && k'.held == k.held
    requires SameRun(k.m, k'.m, k.held[Owner(pid, Allocation(v))])
    requires SameRun(k.m, k'.m, k.held[Owner(pid, Allocation(j))])
    ensures EntryPlaced(k', pid, v, i, j, arg)
  {
    hide Load32, Cut;
    CStringSame(k.m, k'.m, ArrayOf(k, pid, j), Cut(arg, CL.ARGUMENT_SIZE - 1));
    LoadSame(k.m, k'.m, ArrayOf(k, pid, v) + POINTER_SIZE * i);
  }

  lemma EntrySlots(k: KState, pid: nat, v: nat, i: nat, j: nat, arg: seq<byte>)
    requires EntryPlaced(k, pid, v, i, j, arg)
    ensures Owner(pid, Allocation(v)) in k.held && Owner(pid, Allocation(j)) in k.held
  {
    hide Load32, CStringAt, Cut;
  }

  /** A program that asks for its arguments at a good place reads its argument count
      there, behind it argv, and through argv its arguments. */
  lemma ProgramReads(k: KState, pid: nat, words: seq<seq<byte>>, v: nat, slots: seq<nat>, a: uint32, argc: uint32,
                     argv: uint32)
    requires GoodPlace(k, pid, a, v, slots) && IsArray(k, pid, v, argv) && argc == |words|
    requires Inv(k) && Live(k, pid) && Placed(k, pid, words, v, slots)
    ensures Inv(GetStep(k, pid, a, argc, argv))
    ensures ArgumentsSeen(GetStep(k, pid, a, argc, argv), pid, a, words)
  {
    hide Inv, GetStep, Target, SeenAt, InWriteablePage, PointerSeen, EntryPlaced, WordSeen, Outside, SpaceDefined,
      Harmless, Held, Cut;
    var k' := GetStep(k, pid, a, argc, argv);
    WriteablePageHarmless(k, pid, a, argc, argv);
    GetKeepsSpace(k, pid, a, argc, argv);
    ArgumentsRead(k, pid, a, argc, argv);
    AskedPlace(k, pid, a);
    InvHolds(k);
    GetLeaves(k, pid, a, argc, argv);
    forall i | 0 <= i < |words|
      ensures PointerSeen(k', pid, argv + POINTER_SIZE * i, Cut(words[i], CL.ARGUMENT_SIZE - 1))
    {
      EntrySlots(k, pid, v, i, slots[i], words[i]);
      OutsideSame(k, pid, a, argc, argv, v);
      OutsideSame(k, pid, a, argc, argv, slots[i]);
      EntryUntouched(k, k', pid, v, i, slots[i], words[i]);
      EntrySeen(k', pid, v, i, slots[i], words[i]);
    }
  }

  lemma AskedPlace(k: KState, pid: nat, a: uint32)
    requires SpaceDefined(k, pid) && InWriteablePage(k, pid, a)
    ensures a + ARGUMENTS_SIZE <= RAM_SIZE && (a + 4) % PAGE_SIZE + 4 <= PAGE_SIZE
    ensures SeenAt(k, pid, a) + ARGUMENTS_SIZE <= RAM_SIZE
  {
    hide SeenAt, SpaceDefined;
    SamePageNext(a);
    assert SeenAt(k, pid, a) - a % PAGE_SIZE + PAGE_SIZE <= RAM_SIZE;
  }

  lemma GetLeaves(k: KState, pid: nat, a: uint32, argc: uint32, argv: uint32)
    requires SpaceDefined(k, pid) && Live(k, pid)
    ensures var k' := GetStep(k, pid, a, argc, argv);
      Live(k', pid) && k'.held == k.held && k'.procs == k.procs
  {
    hide Target, SpliceRound, ArgumentBytes;
  }

  /** Wherever the program asks, it reads its arguments. */
  ghost predicate AnswersAsked(k: KState, pid: nat, words: seq<seq<byte>>, v: nat, slots: seq<nat>) {
    && |words| < RAM_SIZE && SpaceDefined(k, pid)
    && Owner(pid, Allocation(v)) in k.held && ArrayOf(k, pid, v) < RAM_SIZE
    && forall a: uint32 :: GoodPlace(k, pid, a, v, slots) ==>
         ArgumentsSeen(GetStep(k, pid, a, |words|, ArrayOf(k, pid, v)), pid, a, words)
  }

  /** From the line to the program's eyes: whenever process_inject_arguments succeeds
      for the words of a line, a program that asks for its arguments reads their number
      and, through argv, the words, each cut to 511 characters. */
  lemma CommandSeen(k: KState, pid: nat, command: seq<byte>) returns (v: nat, slots: seq<nat>)
    requires Inv(k) && Live(k, pid) && 0 !in command && CommandWords(command) != []
    ensures CanInject(k, pid, CommandArguments(command))
    ensures var r := Inject(k, pid, CommandArguments(command));
      r.res == 0 ==> AnswersAsked(r.k, pid, CommandWords(command), v, slots)
  {
    hide Inv, Inject, CanInject, EntryPlaced, CommandWords, CommandArguments, GoodPlace, ArgumentsSeen, GetStep,
      SpaceDefined, Live;
    v, slots := CommandReachesProgram(k, pid, command);
    var args, words := CommandArguments(command), CommandWords(command);
    var r := Inject(k, pid, args);
    if r.res == 0 {
      InjectedLive(k, pid, args);
      LiveSpaceDefined(r.k, pid);
      FewWords(r.k, pid, words, v, slots);
      forall a: uint32 | GoodPlace(r.k, pid, a, v, slots)
        ensures ArgumentsSeen(GetStep(r.k, pid, a, |words|, ArrayOf(r.k, pid, v)), pid, a, words)
      {
        ProgramReads(r.k, pid, words, v, slots, a, |words|, ArrayOf(r.k, pid, v));
      }
    }
  }

  lemma InjectedLive(k: KState, pid: nat, args: seq<seq<byte>>)
    requires CanInject(k, pid, args)
    ensures Live(Inject(k, pid, args).k, pid)
  {
    hide *;
    var _, _ := InjectDelivers(k, pid, args);
  }

  lemma FewWords(k: KState, pid: nat, words: seq<seq<byte>>, v: nat, slots: seq<nat>)
    requires Inv(k) && Placed(k, pid, words, v, slots) && words != []
    ensures |words| < RAM_SIZE
    ensures Owner(pid, Allocation(v)) in k.held && ArrayOf(k, pid, v) < RAM_SIZE
  {
    hide Inv, Load32, CStringAt, Cut, Held;
    var n := |words| - 1;
    assert EntryPlaced(k, pid, v, n, slots[n], words[n]);
    ArrayBounds(k, pid, v, n + 1, n);
  }

  /** The system call, for a process that has been given the words. */
  method TakeArguments(process: ProcessObject, arguments: ProcessArguments, a: uint32, ghost k: KState, ghost pid: nat,
                       ghost words: seq<seq<byte>>, ghost v: nat, ghost slots: seq<nat>)
    returns (ghost k': KState)
    requires Given(process, arguments, k, pid, words, v, slots) && words != []
    requires GoodPlace(k, pid, a, v, slots)
    modifies process.kernel.ram
    ensures InState(process, k', pid) && Inv(k') && ArgumentsSeen(k', pid, a, words)
  {
    hide Inv, EntryPlaced, GoodPlace, ArgumentsSeen, GetStep;
    FewWords(k, pid, words, v, slots);
    GivenSpace(process, k, pid);
    process.GetArguments(a, arguments.argc, arguments.argv);
    k' := GetStep(k, pid, a, arguments.argc, arguments.argv);
    ProgramReads(k, pid, words, v, slots, a, arguments.argc, arguments.argv);
    AskedState(k, pid, a, arguments.argc, arguments.argv);
  }

  lemma GivenSpace(process: ProcessObject, k: KState, pid: nat)
    requires InState(process, k, pid) && Inv(k)
    ensures SpaceOk(process.Contents(), process.chunk) && SpaceDefined(k, pid)
  {
    hide Inv;
    LiveCanCall(k, pid);
    Process.LiveIsOk(k.m, process.chunk);
    LiveSpaceDefined(k, pid);
  }

  lemma AskedState(k: KState, pid: nat, a: uint32, argc: uint32, argv: uint32)
    requires SpaceDefined(k, pid)
    ensures var c := k.procs[pid].value.chunk; var k' := GetStep(k, pid, a, argc, argv);
      && PhysicalAddress(k.m, DirectoryOf(k.m, c), a) < RAM_SIZE
      && k' == k.(m := SpliceRound(k.m, PhysicalAddress(k.m, DirectoryOf(k.m, c), a), ArgumentBytes(argc, argv)))
  {
    hide PhysicalAddress, SpliceRound, ArgumentBytes, Load32;
    PhysicalFits(k.m, DirectoryOf(k.m, k.procs[pid].value.chunk), a);
  }
}
