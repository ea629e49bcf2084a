/** From the command line typed into the shell to the argv of the program it starts. */
module CommandToArgv {
  import opened Memory
  import opened HeapTable
  import opened Isolation
  import opened CStrings
  import opened Strtok
  import CL = CommandLine
  import Owners
  import Process
  import Load
  import Machine
  import opened ProcessOps
  import opened ArgumentOps
  import opened Requests
  import opened Arguments

  /** What slobos_system_run hands over when none of its allocations fails. */
  function CommandArguments(command: seq<byte>): seq<seq<byte>> {
    CL.CutAll(CommandWords(command))
  }

  function CommandWords(command: seq<byte>): seq<seq<byte>> {
    Words(Cut(command, CL.RUN_SIZE - 1), CL.SPACES)
  }

  /** Words are at least one character long and a delimiter apart. */
  lemma {:induction false} SpanCount(s: seq<byte>, delims: seq<byte>, from: nat)
    requires from <= |s|
    ensures 2 * |Spans(s, from, delims)| <= |s| - from + 1
    decreases |s| - from
  {
    var lo := SkipDelims(s, from, delims);
    if lo < |s| {
      var hi := WordEnd(s, lo, delims);
      SpanCount(s, delims, Resume(s, hi));
      if hi == |s| { NothingLeft(s, delims); }
    }
  }

  lemma NothingLeft(s: seq<byte>, delims: seq<byte>)
    ensures Spans(s, |s|, delims) == []
  {
  }

  lemma WordsAreStrings(s: seq<byte>, delims: seq<byte>)
    requires 0 !in s
    ensures Strings(Words(s, delims))
  {
    hide Spans;
    var words := Words(s, delims);
    forall i | 0 <= i < |words| ensures 0 !in words[i] {
      var span := Spans(s, 0, delims)[i];
      assert words[i] == s[span.lo..span.hi];
    }
  }

  lemma CommandFits(k: KState, pid: nat, command: seq<byte>)
    requires Live(k, pid) && 0 !in command && CommandWords(command) != []
    ensures var args := CommandArguments(command);
      Strings(args) && ArrayOk(|args|) && MallocSound(k, pid, ArraySize(|args|))
  {
    hide Words, ArrayOk, MallocSound;
    var line := Cut(command, CL.RUN_SIZE - 1);
    WordsAreStrings(line, CL.SPACES);
    SpanCount(line, CL.SPACES, 0);
    ArrayAnswered(k, pid, |CommandWords(command)|);
    forall i | 0 <= i < |CommandArguments(command)| ensures 0 !in CommandArguments(command)[i] {
      CutHasNoZero(CommandWords(command)[i], CL.ARGUMENT_SIZE - 1);
    }
  }

  /** Whenever process_inject_arguments succeeds for a command line, argc is the
      number of the line's words, and argv[i] is word i cut to 511 characters, in
      memory of the program's own. */
  lemma CommandReachesProgram(k: KState, pid: nat, command: seq<byte>) returns (v: nat, slots: seq<nat>)
    requires Inv(k) && Live(k, pid) && 0 !in command && CommandWords(command) != []
    ensures var args := CommandArguments(command);
      CanInject(k, pid, args)
    ensures var r := Inject(k, pid, CommandArguments(command));
      && Inv(r.k) && (r.res == 0 || r.res == -ENOMEM)
      && (r.res == 0 ==>
            && v == Process.SlotOf(k.procs[pid].value.slots, 0)
            && |slots| == |CommandWords(command)|
            && (forall i, j :: 0 <= i < j < |slots| ==> slots[i] != slots[j])
            && forall i :: 0 <= i < |slots| ==> EntryPlaced(r.k, pid, v, i, slots[i], CommandWords(command)[i]))
  {
    hide Inv, Words, Inject, EntryPlaced, ArrayOk, MallocSound, Live, Strings;
    var args := CommandArguments(command);
    CommandFits(k, pid, command);
    v, slots := InjectDelivers(k, pid, args);
    var r := Inject(k, pid, args);
    if r.res == 0 {
      forall i | 0 <= i < |slots|
        ensures EntryPlaced(r.k, pid, v, i, slots[i], CommandWords(command)[i])
      {
        assert EntryPlaced(r.k, pid, v, i, slots[i], args[i]);
        SameEntry(r.k, pid, v, i, slots[i], CommandWords(command)[i]);
      }
    }
  }

  lemma SameEntry(k: KState, pid: nat, v: nat, i: nat, j: nat, word: seq<byte>)
    requires EntryPlaced(k, pid, v, i, j, Cut(word, CL.ARGUMENT_SIZE - 1))
    ensures EntryPlaced(k, pid, v, i, j, word)
  {
    hide Load32;
    CutTwice(word, CL.ARGUMENT_SIZE - 1, CL.ARGUMENT_SIZE - 1);
  }

  /** A finished load leaves a process that any command line can be given to. */
  lemma LoadedCanTake(k: KState, k': KState, pid: nat, program: Process.Program, imageSize: uint32, t: Load.Trace,
                      command: seq<byte>)
    requires Inv(k) && Machine.LoadNext(k, k', pid, program, imageSize, t) && Live(k', pid)
    requires t.chunk + 4 <= RAM_SIZE && Paging.DirectoryOf(t.m8, t.chunk) + Paging.PAGE_SIZE <= RAM_SIZE
    requires Machine.TailServes(k, pid, program.ElfProgram?, imageSize, t)
    requires Load.ImageFits(program, Machine.ImageOf(imageSize, t), Machine.StackOf(t))
    requires 0 !in command && CommandWords(command) != []
    ensures CanInject(k', pid, CommandArguments(command))
  {
    hide *;
    Machine.LoadKeepsInv(k, k', pid, program, imageSize, t);
    CanTake(k', pid, command);
  }

  /** The list in the caller's memory is still there after the load. */
  lemma LoadKeepsList(k: KState, k': KState, pid: nat, program: Process.Program, imageSize: uint32, t: Load.Trace,
                      caller: nat, ptrs: seq<nat>, args: seq<seq<byte>>)
    requires t.chunk + 4 <= RAM_SIZE && Paging.DirectoryOf(t.m8, t.chunk) + Paging.PAGE_SIZE <= RAM_SIZE
    requires Machine.TailServes(k, pid, program.ElfProgram?, imageSize, t)
    requires Inv(k) && Machine.LoadNext(k, k', pid, program, imageSize, t) && Live(k', pid)
    requires ListAt(k, caller, ptrs, args)
    ensures ListAt(k', caller, ptrs, args)
  {
    hide *;
    Machine.LoadSpares(k, k', pid, program, imageSize, t);
    ListKept(k, k', caller, ptrs, args);
  }

  lemma CanTake(k: KState, pid: nat, command: seq<byte>)
    requires Inv(k) && Live(k, pid) && 0 !in command && CommandWords(command) != []
    ensures CanInject(k, pid, CommandArguments(command))
  {
    hide Inv, Words, ArrayOk, MallocSound, Strings, CommandArguments, CommandWords;
    CommandFits(k, pid, command);
  }

  /** argc and argv are in the process structure, and argv[i] is word i. */
  ghost predicate Given(process: ProcessObject, arguments: ProcessArguments, k: KState, pid: nat, words: seq<seq<byte>>,
                        v: nat, slots: seq<nat>)
    reads process, process.kernel, process.kernel.heap, process.kernel.ram, process.slots, arguments
  {
    && InState(process, k, pid) && Inv(k)
    && arguments.argc == |words| == |slots| && IsArray(k, pid, v, arguments.argv)
    && (forall i, j :: 0 <= i < j < |slots| ==> slots[i] != slots[j])
    && forall i :: 0 <= i < |slots| ==> EntryPlaced(k, pid, v, i, slots[i], words[i])
  }

  /** The objects of the list, byte for byte, in memory that process `caller` has
      allocated: this is what slobos_malloc's blocks are to the kernel. */
  ghost predicate LaidOut(list: seq<CL.CommandArgument>, k: KState, caller: nat, ptrs: seq<nat>)
    reads list, set x | x in list :: x.argument
  {
    && |ptrs| == |list|
    && forall i :: 0 <= i < |list| ==>
         && ptrs[i] != 0 && InAllocationOf(k.held, caller, ptrs[i]) && ptrs[i] + NODE_BYTES <= RAM_SIZE
         && k.m[ptrs[i]..ptrs[i] + NEXT_NODE] == list[i].argument[..]
         && Load32(k.m, ptrs[i] + NEXT_NODE) == AddressAt(ptrs, i + 1)
  }

  /** Laid out, the shell's list is a list for the kernel, with the same strings. */
  lemma LaidOutIsList(root: CL.CommandArgument?, list: seq<CL.CommandArgument>, args: seq<seq<byte>>, k: KState,
                      caller: nat, ptrs: seq<nat>)
    requires CL.IsList(root, list, args) && LaidOut(list, k, caller, ptrs)
    ensures ListAt(k, caller, ptrs, args)
  {
    hide Load32, InAllocationOf;
    forall i | 0 <= i < |ptrs| ensures NodeAt(k.m, ptrs[i], AddressAt(ptrs, i + 1), args[i]) {
      SameText(list[i].argument[..], k.m, ptrs[i], args[i]);
    }
  }

  lemma SameText(text: seq<byte>, m: Mem, p: nat, arg: seq<byte>)
    requires p + NEXT_NODE <= RAM_SIZE && m[p..p + NEXT_NODE] == text && CStringAt(text, 0, arg)
    ensures |arg| < NEXT_NODE && CStringAt(m, p, arg)
  {
    forall j | 0 <= j < |text| ensures m[p + j] == text[j] {
      assert m[p..p + NEXT_NODE][j] == m[p + j];
    }
    StringBytes(text, 0, arg);
    assert m[p..p + |arg|] == arg;
  }

  /** The whole way: slobos_system_run reads the words out of the line, and once the
      program has been loaded as process `pid` of `k`, process_inject_arguments gives
      them to it, out of the list at `root` in the shell's memory. */
  method RunCommand(shell: CL.Shell, command: array<byte>, at: nat, budget: nat, process: ProcessObject,
                    arguments: ProcessArguments, root: nat, ghost ptrs: seq<nat>, ghost s: seq<byte>,
                    ghost k: KState, ghost pid: nat, ghost caller: nat)
    returns (res: int, ghost k': KState, ghost v: nat, ghost slots: seq<nat>)
    requires shell.library.sp == Null && CStringAt(command[..], at, s) && |CommandWords(s)| <= budget
    requires Inv(k) && InState(process, k, pid) && caller != pid
    requires CommandWords(s) != [] ==> ListAt(k, caller, ptrs, CommandArguments(s)) && root == AddressAt(ptrs, 0)
    modifies shell.library, process.kernel.ram, process.slots, arguments
    ensures res == 0 || res == -1 || res == -ENOMEM
    ensures res == -1 <==> CommandWords(s) == []
    ensures res == 0 ==> Given(process, arguments, k', pid, CommandWords(s), v, slots)
  {
    hide *;
    k', v, slots := k, 0, [];
    var first, list := shell.SystemRun(command, at, budget, s);
    CL.StringChars(command[..], at, s);
    AllHandedOver(first, list, s, budget);
    if first == null {
      return -1, k', v, slots;
    }
    StateLive(process, k, pid);
    v, slots := CommandReachesProgram(k, pid, s);
    res := InjectArguments(process, arguments, root, ptrs, CommandArguments(s), k, pid, caller);
    k' := Inject(k, pid, CommandArguments(s)).k;
    InjectedResult(process, arguments, k, pid, s, res, v, slots);
  }

  lemma AllHandedOver(root: CL.CommandArgument?, list: seq<CL.CommandArgument>, s: seq<byte>, budget: nat)
    requires CL.IsList(root, list, CL.FirstOf(CL.CutAll(Words(Cut(s, CL.RUN_SIZE - 1), CL.SPACES)), budget))
    requires |CommandWords(s)| <= budget
    ensures CL.IsList(root, list, CommandArguments(s)) && |CommandArguments(s)| == |CommandWords(s)|
    ensures root == null <==> CommandWords(s) == []
    ensures ENOMEM > 1 && EIO == 1
  {
    hide Words, CStringAt;
  }

  lemma StateLive(process: ProcessObject, k: KState, pid: nat)
    requires InState(process, k, pid)
    ensures Live(k, pid)
  {
  }

  lemma InjectedResult(process: ProcessObject, arguments: ProcessArguments, k: KState, pid: nat, s: seq<byte>, res: int,
                       v: nat, slots: seq<nat>)
    requires CanInject(k, pid, CommandArguments(s))
    requires Injected(process, k, pid, CommandArguments(s), res, arguments.argv)
    requires res == 0 ==> arguments.argc == |CommandWords(s)|
    requires var r := Inject(k, pid, CommandArguments(s));
      && Inv(r.k) && (r.res == 0 || r.res == -ENOMEM)
      && (r.res == 0 ==>
            && v == Process.SlotOf(k.procs[pid].value.slots, 0)
            && |slots| == |CommandWords(s)|
            && (forall i, j :: 0 <= i < j < |slots| ==> slots[i] != slots[j])
            && forall i :: 0 <= i < |slots| ==> EntryPlaced(r.k, pid, v, i, slots[i], CommandWords(s)[i]))
    ensures res == 0 || res == -ENOMEM
    ensures res == 0 ==>
      Given(process, arguments, Inject(k, pid, CommandArguments(s)).k, pid, CommandWords(s), v, slots)
  {
    hide Inv, Inject, EntryPlaced, CommandWords, CommandArguments, InState, MallocSound, Strings;
  }
}
