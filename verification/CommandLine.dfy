/** slobos_parse_command and slobos_system_run: from a command line to a linked
    list of arguments. */
module CommandLine {
  import opened Memory
  import opened CStrings
  import opened Strtok

  const ARGUMENT_SIZE := 512
  const COMMAND_SIZE := 1025
  const RUN_SIZE := 1024
  const SPACES: seq<byte> := [32]

  class CommandArgument {
    const argument: array<byte>
    var next: CommandArgument?

    constructor ()
      ensures fresh(argument) && argument.Length == ARGUMENT_SIZE && next == null
    {
      argument := new byte[ARGUMENT_SIZE];
      next := null;
    }
  }

  function CutAll(words: seq<seq<byte>>): (args: seq<seq<byte>>)
    ensures |args| == |words|
    ensures forall i :: 0 <= i < |words| ==> args[i] == Cut(words[i], ARGUMENT_SIZE - 1)
  {
    seq(|words|, i requires 0 <= i < |words| => Cut(words[i], ARGUMENT_SIZE - 1))
  }

  /** The arguments of a command line: its words, each cut to what its structure holds. */
  function Arguments(command: seq<byte>): seq<seq<byte>> {
    CutAll(Words(Cut(command, COMMAND_SIZE - 1), SPACES))
  }

  function FirstOf(args: seq<seq<byte>>, n: nat): seq<seq<byte>> {
    if n < |args| then args[..n] else args
  }

  /** The nodes from `root` on, in order, and the strings in them. */
  ghost predicate IsList(root: CommandArgument?, list: seq<CommandArgument>, args: seq<seq<byte>>)
    reads list, set x | x in list :: x.argument
  {
    && |list| == |args|
    && root == (if list == [] then null else list[0])
    && (forall i, j :: 0 <= i < j < |list| ==> list[i] != list[j] && list[i].argument != list[j].argument)
    && (forall i :: 0 <= i < |list| ==>
          && list[i].argument.Length == ARGUMENT_SIZE
          && list[i].next == (if i + 1 < |list| then list[i + 1] else null)
          && CStringAt(list[i].argument[..], 0, args[i]))
  }

  /** What one call of strtok yields and leaves behind, in terms of words. */
  lemma NextWord(m: seq<byte>, m': seq<byte>, p: nat, rest: seq<byte>)
    returns (word: seq<byte>, rest': seq<byte>)
    requires CStringAt(m, p, rest) && SkipDelims(rest, 0, SPACES) < |rest|
    requires m' == m[p + WordEnd(rest, SkipDelims(rest, 0, SPACES), SPACES) := 0]
    ensures var lo := SkipDelims(rest, 0, SPACES); var hi := WordEnd(rest, lo, SPACES);
      && |rest'| < |rest| && CStringAt(m', p + lo, word) && CStringAt(m', p + Resume(rest, hi), rest')
    ensures Words(rest, SPACES) == [word] + Words(rest', SPACES)
  {
    WordsOf(rest, SPACES);
    hide Words, CStringAt, Resume;
    TokenCut(m, m', p, rest, SPACES);
    var lo := SkipDelims(rest, 0, SPACES);
    var hi := WordEnd(rest, lo, SPACES);
    word, rest' := rest[lo..hi], rest[Resume(rest, hi)..];
  }

  class Shell {
    const library: StringLibrary

    constructor (library: StringLibrary)
      ensures this.library == library
    {
      this.library := library;
    }

    method NewArgument(buffer: array<byte>, at: nat, ghost word: seq<byte>) returns (node: CommandArgument)
      requires CStringAt(buffer[..], at, word)
      ensures fresh(node) && fresh(node.argument) && node.next == null
      ensures node.argument.Length == ARGUMENT_SIZE
      ensures CStringAt(node.argument[..], 0, Cut(word, ARGUMENT_SIZE - 1))
    {
      node := new CommandArgument();
      ghost var blank := node.argument[..];
      Strncpy(node.argument, 0, buffer, at, ARGUMENT_SIZE, word);
      SplicedString(blank, 0, Cut(word, ARGUMENT_SIZE - 1));
    }

    /** The token in hand is the first of the words still to come, and the cursor
        stands before the others; no words are left exactly if both are null. */
    ghost predicate Reading(token: Pointer, buffer: array<byte>, words: seq<seq<byte>>)
      reads library, buffer
    {
      if words == [] then token == Null && library.sp == Null
      else
        && token.To? && token.buffer == buffer && CStringAt(buffer[..], token.at, words[0])
        && library.sp.To? && library.sp.buffer == buffer
        && exists rest :: CStringAt(buffer[..], library.sp.at, rest) && words[1..] == Words(rest, SPACES)
    }

    lemma ReadingTells(token: Pointer, buffer: array<byte>, words: seq<seq<byte>>)
      requires Reading(token, buffer, words)
      ensures token == Null <==> words == []
      ensures token == Null <==> library.sp == Null
      ensures token != Null ==> token.buffer == buffer && CStringAt(buffer[..], token.at, words[0])
    {
    }

    method FirstToken(buffer: array<byte>, ghost text: seq<byte>) returns (token: Pointer)
      requires library.sp == Null && CStringAt(buffer[..], 0, text)
      modifies library, buffer
      ensures Reading(token, buffer, Words(text, SPACES))
    {
      hide CStringAt, Words, SkipDelims, WordEnd;
      ghost var m := buffer[..];
      WordsOf(text, SPACES);
      token := library.Strtok(To(buffer, 0), SPACES, text);
      if token != Null {
        ghost var word, rest := NextWord(m, buffer[..], 0, text);
        WordsPop(Words(text, SPACES), word, Words(rest, SPACES));
      }
    }

    method NextToken(previous: Pointer, buffer: array<byte>, ghost words: seq<seq<byte>>) returns (token: Pointer)
      requires words != [] && Reading(previous, buffer, words)
      modifies library, buffer
      ensures Reading(token, buffer, words[1..])
    {
      hide CStringAt, Words, SkipDelims, WordEnd;
      ghost var m, from := buffer[..], library.sp.at;
      ghost var text :| CStringAt(m, from, text) && words[1..] == Words(text, SPACES);
      WordsOf(text, SPACES);
      token := library.Strtok(Null, SPACES, text);
      if token != Null {
        ghost var word, rest := NextWord(m, buffer[..], from, text);
        WordsPop(words[1..], word, Words(rest, SPACES));
      }
    }

    method Append(root: CommandArgument, current: CommandArgument, buffer: array<byte>, at: nat,
                  ghost list: seq<CommandArgument>, ghost args: seq<seq<byte>>, ghost word: seq<byte>)
      returns (node: CommandArgument)
      requires IsList(root, list, args) && list != [] && current == list[|list| - 1]
      requires CStringAt(buffer[..], at, word)
      modifies current
      ensures fresh(node) && fresh(node.argument)
      ensures IsList(root, list + [node], args + [Cut(word, ARGUMENT_SIZE - 1)])
    {
      hide CStringAt, Cut;
      node := NewArgument(buffer, at, word);
      current.next := node;
    }

    /** The loop of slobos_parse_command: the arguments after the first. */
    method OtherArguments(root: CommandArgument, first: Pointer, scommand: array<byte>, budget: nat,
                          ghost words: seq<seq<byte>>)
      returns (ghost list: seq<CommandArgument>)
      requires words != [] && IsList(root, [root], CutAll(words)[..1]) && budget >= 1
      requires Reading(first, scommand, words[1..]) && root.argument != scommand
      modifies library, scommand, root
      ensures forall x :: x in list ==> x == root || (fresh(x) && fresh(x.argument))
      ensures IsList(root, list, FirstOf(CutAll(words), budget))
      ensures library.sp == Null <==> |words| <= budget
    {
      hide CStringAt, Words, IsList, Cut, FirstOf, Reading, CutAll;
      ghost var args := CutAll(words);
      FirstArguments(args, budget);
      var current, used, token := root, 1, first;
      list := [root];
      ReadingTells(token, scommand, words[1..]);
      while token != Null
        invariant 1 <= used == |list| <= |words| && used <= budget
        invariant current == list[used - 1] && (current == root || fresh(current))
        invariant forall x :: x in list ==> x == root || (fresh(x) && fresh(x.argument))
        invariant forall x :: x in list ==> x.argument != scommand
        invariant IsList(root, list, args[..used])
        invariant Reading(token, scommand, words[used..])
        invariant token == Null <==> used == |words|
        invariant token == Null <==> library.sp == Null
        decreases |words| - used
      {
        if used == budget {
          break;
        }
        ReadingTells(token, scommand, words[used..]);
        RestOfRest(words, used);
        var node := Append(root, current, scommand, token.at, list, args[..used], words[used]);
        OneMore(args, used);
        token := NextToken(token, scommand, words[used..]);
        ReadingTells(token, scommand, words[used + 1..]);
        current := node;
        list := list + [node];
        used := used + 1;
      }
    }

    method CopyLine(command: array<byte>, at: nat, ghost s: seq<byte>) returns (scommand: array<byte>)
      requires CStringAt(command[..], at, s)
      ensures fresh(scommand) && CStringAt(scommand[..], 0, Cut(s, COMMAND_SIZE - 1))
    {
      hide CStringAt, Cut;
      scommand := new byte[COMMAND_SIZE];
      CommandCopied(command[..], scommand[..], at, s);
      Strncpy(scommand, 0, command, at, COMMAND_SIZE, s);
    }

    /** slobos_parse_command when `budget` calls of slobos_malloc succeed. */
    method ParseCommand(command: array<byte>, at: nat, max: int, budget: nat, ghost s: seq<byte>)
      returns (root: CommandArgument?, ghost list: seq<CommandArgument>)
      requires library.sp == Null && CStringAt(command[..], at, s)
      modifies library
      ensures forall x :: x in list ==> fresh(x) && fresh(x.argument)
      ensures max >= COMMAND_SIZE ==> root == null && list == [] && library.sp == Null
      ensures max < COMMAND_SIZE ==>
        var args := Arguments(s);
        && IsList(root, list, FirstOf(args, budget))
        && (library.sp == Null <==> |args| <= budget)
    {
      hide CStringAt, Words, IsList, Cut, FirstOf, Reading, CutAll;
      root, list := null, [];
      if max >= COMMAND_SIZE {
        return;
      }
      var scommand := CopyLine(command, at, s);
      ghost var text := Cut(s, COMMAND_SIZE - 1);
      ghost var words := Words(text, SPACES);
      ghost var args := CutAll(words);
      FirstArguments(args, budget);
      EmptyList();
      var token := FirstToken(scommand, text);
      ReadingTells(token, scommand, words);
      if token == Null || budget == 0 {
        return;
      }
      root := NewArgument(scommand, token.at, words[0]);
      OneNode(root, words[0]);
      OneMore(args, 0);
      token := NextToken(token, scommand, words);
      list := OtherArguments(root, token, scommand, budget, words);
    }

    /** slobos_system_run: what it hands to the system command, or null. */
    method SystemRun(command: array<byte>, at: nat, budget: nat, ghost s: seq<byte>)
      returns (root: CommandArgument?, ghost list: seq<CommandArgument>)
      requires library.sp == Null && CStringAt(command[..], at, s)
      modifies library
      ensures forall x :: x in list ==> fresh(x) && fresh(x.argument)
      ensures IsList(root, list, FirstOf(CutAll(Words(Cut(s, RUN_SIZE - 1), SPACES)), budget))
    {
      hide CStringAt, Words, IsList, FirstOf;
      var buf := new byte[RUN_SIZE];
      ghost var blank := buf[..];
      StringChars(command[..], at, s);
      Strncpy(buf, 0, command, at, RUN_SIZE, s);
      SplicedString(blank, 0, Cut(s, RUN_SIZE - 1));
      root, list := ParseCommand(buf, 0, RUN_SIZE, budget, Cut(s, RUN_SIZE - 1));
    }
  }

  lemma WordsPop(words: seq<seq<byte>>, word: seq<byte>, rest: seq<seq<byte>>)
    requires words == [word] + rest
    ensures words[0] == word && words[1..] == rest
  {
  }

  lemma RestOfRest(words: seq<seq<byte>>, k: nat)
    requires k < |words|
    ensures words[k..][1..] == words[k + 1..] && words[k..] != [] && words[k..][0] == words[k]
  {
  }

  lemma OneMore(args: seq<seq<byte>>, k: nat)
    requires k < |args|
    ensures args[..k] + [args[k]] == args[..k + 1]
    ensures k == 0 ==> [args[0]] == args[..1]
  {
  }

  lemma FirstArguments(args: seq<seq<byte>>, n: nat)
    ensures FirstOf(args, n) == if n <= |args| then args[..n] else args
    ensures |args| == 0 || n == 0 ==> FirstOf(args, n) == []
    ensures n >= |args| ==> FirstOf(args, n) == args[..|args|]
  {
  }

  lemma EmptyList()
    ensures IsList(null, [], [])
  {
  }

  lemma OneNode(node: CommandArgument, word: seq<byte>)
    requires node.argument.Length == ARGUMENT_SIZE && node.next == null
    requires CStringAt(node.argument[..], 0, Cut(word, ARGUMENT_SIZE - 1))
    ensures IsList(node, [node], [Cut(word, ARGUMENT_SIZE - 1)])
  {
  }

  lemma StringChars(m: seq<byte>, p: nat, s: seq<byte>)
    requires CStringAt(m, p, s)
    ensures 0 !in s
  {
  }

  lemma CommandCopied(command: seq<byte>, blank: seq<byte>, at: nat, s: seq<byte>)
    requires CStringAt(command, at, s) && |blank| == COMMAND_SIZE
    ensures CStringAt(Splice(blank, 0, Cut(s, COMMAND_SIZE - 1) + [0]), 0, Cut(s, COMMAND_SIZE - 1))
  {
    SplicedString(blank, 0, Cut(s, COMMAND_SIZE - 1));
  }
}
