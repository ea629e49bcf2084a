/** The path parser's operations in place on kernel memory. */
module PathOps {
  import opened Memory
  import opened HeapTable
  import opened Heap
  import opened KernelHeap
  import opened CStrings
  import opened KernelOps
  import P = PathParser
  import opened PathHeap

  class Parser {
    const kernel: Kernel

    constructor (kernel: Kernel)
      ensures this.kernel == kernel
    {
      this.kernel := kernel;
    }

    /** pathparser_get_path_part; the cursor moves past the part and its slash. */
    method GetPathPart(path: seq<byte>, pos: nat) returns (text: nat, next: nat)
      requires kernel.Valid() && pos <= |path| <= P.MAX_PATH
      modifies kernel.ram
      ensures (kernel.Contents(), text) == P.GetPart(old(kernel.Contents()), path, pos)
      ensures next == P.NextPos(path, pos)
    {
      hide KernelHeap.Kzalloc, KernelHeap.Kfree, P.PartEnd, P.GetPart, P.NextPos, Splice;
      ghost var m := kernel.Contents();
      var p := kernel.Kzalloc(P.MAX_PATH);
      ghost var m1 := kernel.Contents();
      var i := 0;
      EndOne(path, pos);
      while pos + i < |path| && path[pos + i] != P.SLASH
        invariant pos + i <= |path| && P.PartEnd(path, pos) == P.PartEnd(path, pos + i)
        invariant forall k :: 0 <= k < RAM_SIZE ==>
                    kernel.ram[k] == if p <= k < p + i then path[pos + (k - p)] else m1[k]
      {
        EndOne(path, pos + i);
        kernel.ram[p + i] := path[pos + i];
        i := i + 1;
      }
      EndOne(path, pos + i);
      next := pos + i;
      if next < |path| {
        next := next + 1;
      }
      Filled(m1, kernel.Contents(), p, path, pos, i);
      PartIs(m, path, pos, pos + i);
      text := p;
      if i == 0 {
        kernel.Kfree(p);
        text := 0;
      }
    }

    /** pathparser_parse_path_part. */
    method ParsePathPart(last: nat, path: seq<byte>, pos: nat) returns (part: nat, next: nat)
      requires kernel.Valid() && pos <= |path| <= P.MAX_PATH && last + P.NODE_SIZE <= RAM_SIZE
      modifies kernel.ram
      ensures (kernel.Contents(), part) == P.ParsePart(old(kernel.Contents()), path, pos, last)
      ensures next == P.NextPos(path, pos)
    {
      hide KernelHeap.Kzalloc, P.GetPart, Store32;
      var text;
      text, next := GetPathPart(path, pos);
      if text == 0 {
        return 0, next;
      }
      part := kernel.Kzalloc(P.NODE_SIZE);
      WriteWord(kernel.ram, part, text);
      WriteWord(kernel.ram, part + 4, 0);
      if last != 0 {
        WriteWord(kernel.ram, last + 4, part);
      }
    }

    /** pathparser_parse. */
    method Parse(path: seq<byte>) returns (root: nat)
      requires kernel.Valid()
      modifies kernel.ram
      ensures (kernel.Contents(), root) == P.Parse(old(kernel.Contents()), path)
    {
      hide KernelHeap.Kzalloc, P.ParsePart, Store32;
      if |path| > P.MAX_PATH {
        return 0;
      }
      if !(|path| >= 3 && P.ZERO_DIGIT <= path[0] <= P.ZERO_DIGIT + 9 && path[1] == P.COLON && path[2] == P.SLASH) {
        return 0;
      }
      var drive := path[0] - P.ZERO_DIGIT;
      root := kernel.Kzalloc(P.NODE_SIZE);
      WriteWord(kernel.ram, root, drive);
      WriteWord(kernel.ram, root + 4, 0);
      if root == 0 {
        return;
      }
      var part: nat, pos: nat := ParsePathPart(0, path, 3);
      if part == 0 {
        return;
      }
      WriteWord(kernel.ram, root + 4, part);
      ghost var m4, first, from := kernel.Contents(), part, pos;
      while part != 0
        invariant pos <= |path| && part + P.NODE_SIZE <= RAM_SIZE
        invariant P.ParseRest(m4, path, from, first)
               == if part == 0 then kernel.Contents() else P.ParseRest(kernel.Contents(), path, pos, part)
        decreases if part == 0 then 0 else |path| - pos + 1
      {
        LoopStep(kernel.Contents(), path, pos, part);
        part, pos := ParsePathPart(part, path, pos);
      }
    }

    /** pathparser_free of a parsed path. */
    method Free(root: nat, ghost held: map<nat, Run>, ghost drive: nat, ghost parts: seq<seq<byte>>,
                ghost ptrs: seq<uint32>)
      requires kernel.Valid() && PathBuilt(kernel.Contents(), held, root, drive, parts)
      requires forall k :: 0 <= k < |FreeOrder(|parts|)| ==> FreeOrder(|parts|)[k] in held
      requires ptrs == Owned(held, FreeOrder(|parts|)) && forall k :: 0 <= k < |ptrs| ==> Freeable(ptrs[k])
      modifies kernel.ram
      ensures kernel.Contents() == KfreeAll(old(kernel.Contents()), ptrs)
    {
      hide Load32, KernelHeap.Kfree, KfreeAll, Held, PathList;
      ghost var m := kernel.Contents();
      var part := ReadWord(kernel.ram, root + 4);
      ghost var i := 0;
      assert ptrs[..0] == [];
      FreeNone(m);
      assert parts[0..] == parts;
      while part != 0
        invariant i <= |parts| && PathList(m, held, i, part, parts[i..])
        invariant kernel.Contents() == KfreeAll(m, ptrs[..2 * i]) && SameOutsideTable(m, kernel.Contents())
        decreases |parts| - i
      {
        NodeOf(m, held, i, part, parts[i..]);
        PointerAt(held, |parts|, ptrs, 2 * i);
        PointerAt(held, |parts|, ptrs, 2 * i + 1);
        FreeNext(m, ptrs, 2 * i);
        FreeNext(m, ptrs, 2 * i + 1);
        assert parts[i..][1..] == parts[i + 1..];
        ReadsAlike(m, kernel.Contents(), held, i, part);
        var next := ReadWord(kernel.ram, part + 4);
        var text := ReadWord(kernel.ram, part);
        KfreeTouchesTable(kernel.Contents(), text);
        kernel.Kfree(text);
        KfreeTouchesTable(kernel.Contents(), part);
        kernel.Kfree(part);
        part := next;
        i := i + 1;
      }
      ListEnds(m, held, i, parts[i..]);
      PointerAt(held, |parts|, ptrs, 2 * i);
      FreeNext(m, ptrs, 2 * i);
      kernel.Kfree(root);
      assert ptrs[..2 * i + 1] == ptrs;
    }
  }

  lemma PartIs(m: Mem, path: seq<byte>, pos: nat, e: nat)
    requires pos <= |path| <= P.MAX_PATH && P.PartEnd(path, pos) == e
    ensures e <= |path| && P.NextPos(path, pos) == if e < |path| then e + 1 else e
    ensures var (m1, p) := KernelHeap.Kzalloc(m, P.MAX_PATH);
      P.GetPart(m, path, pos) == if e == pos then (KernelHeap.Kfree(m1, p), 0) else (Splice(m1, p, path[pos..e]), p)
  {
    hide KernelHeap.Kzalloc, KernelHeap.Kfree;
  }

  lemma EndOne(path: seq<byte>, pos: nat)
    requires pos <= |path|
    ensures P.PartEnd(path, pos) == if pos == |path| || path[pos] == P.SLASH then pos else P.PartEnd(path, pos + 1)
  {
  }

  lemma Filled(m1: Mem, m2: Mem, p: nat, path: seq<byte>, pos: nat, i: nat)
    requires p + i <= RAM_SIZE && pos + i <= |path|
    requires forall k :: 0 <= k < RAM_SIZE ==> m2[k] == if p <= k < p + i then path[pos + (k - p)] else m1[k]
    ensures m2 == Splice(m1, p, path[pos..pos + i])
    ensures i == 0 ==> m2 == m1
  {
  }

  lemma NodeOf(m: Mem, held: map<nat, Run>, i: nat, part: nat, parts: seq<seq<byte>>)
    requires PathList(m, held, i, part, parts) && part != 0
    ensures parts != [] && part + P.NODE_SIZE <= RAM_SIZE
    ensures 2 * i + 1 in held && 2 * i + 2 in held && held[2 * i + 2].ptr == part
    ensures Load32(m, part) == held[2 * i + 1].ptr
    ensures PathList(m, held, i + 1, Load32(m, part + 4), parts[1..])
  {
  }

  lemma ListEnds(m: Mem, held: map<nat, Run>, i: nat, parts: seq<seq<byte>>)
    requires PathList(m, held, i, 0, parts)
    ensures parts == []
  {
  }

  lemma PointerAt(held: map<nat, Run>, n: nat, ptrs: seq<uint32>, k: nat)
    requires forall j :: 0 <= j < |FreeOrder(n)| ==> FreeOrder(n)[j] in held
    requires ptrs == Owned(held, FreeOrder(n)) && k <= 2 * n
    ensures |ptrs| == 2 * n + 1 && var o := if k < 2 * n then k + 1 else 0; o in held && ptrs[k] == held[o].ptr
  {
    assert FreeOrder(n)[k] in held;
  }

  lemma ReadsAlike(m: Mem, m': Mem, held: map<nat, Run>, i: nat, part: nat)
    requires Held(m, held) && 2 * i + 1 in held && 2 * i + 2 in held && held[2 * i + 2].ptr == part
    requires SameOutsideTable(m, m') && part + P.NODE_SIZE <= RAM_SIZE
    ensures HEAP_ADDRESS <= part < HEAP_END && HEAP_ADDRESS <= held[2 * i + 1].ptr < HEAP_END
    ensures Load32(m', part) == Load32(m, part) && Load32(m', part + 4) == Load32(m, part + 4)
  {
    HeldRun(m, held, 2 * i + 1);
    HeldRun(m, held, 2 * i + 2);
    LoadSame(m, m', part);
    LoadSame(m, m', part + 4);
  }
}
