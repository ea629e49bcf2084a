/** The path parser (src/fs/pparser.c): from a path to a linked list of parts in
    kernel heap blocks, and back to the heap. */
module PathParser {
  import opened Memory
  import opened HeapTable
  import opened Heap
  import opened KernelHeap
  import opened CStrings

  const MAX_PATH := 108
  const NODE_SIZE := 8
  const SLASH: byte := 47
  const COLON: byte := 58
  const ZERO_DIGIT := 48

  // ---- Paths ----

  /** A digit, ":/", and anything, at most 108 characters. */
  predicate ValidPath(path: seq<byte>) {
    && 3 <= |path| <= MAX_PATH
    && ZERO_DIGIT <= path[0] <= ZERO_DIGIT + 9 && path[1] == COLON && path[2] == SLASH
  }

  function Drive(path: seq<byte>): (d: nat)
    requires ValidPath(path)
    ensures d <= 9
  {
    path[0] - ZERO_DIGIT
  }

  /** The end of the part that starts at `pos`. */
  function PartEnd(path: seq<byte>, pos: nat): (e: nat)
    requires pos <= |path|
    ensures pos <= e <= |path|
    ensures forall k :: pos <= k < e ==> path[k] != SLASH
    ensures e < |path| ==> path[e] == SLASH
    decreases |path| - pos
  {
    if pos == |path| || path[pos] == SLASH then pos else PartEnd(path, pos + 1)
  }

  /** Where parsing goes on: after the slash, if there is one. */
  function NextPos(path: seq<byte>, pos: nat): (q: nat)
    requires pos <= |path|
    ensures pos <= q <= |path|
    ensures PartEnd(path, pos) > pos ==> q > pos
  {
    var e := PartEnd(path, pos);
    if e < |path| then e + 1 else e
  }

  /** The parts from `pos` on, up to the first empty one. */
  function PartsFrom(path: seq<byte>, pos: nat): (parts: seq<seq<byte>>)
    requires pos <= |path|
    decreases |path| - pos
  {
    var e := PartEnd(path, pos);
    if e == pos then [] else [path[pos..e]] + PartsFrom(path, NextPos(path, pos))
  }

  // ---- Splitting and joining, as the reference ----

  /** All components between slashes, empty ones included. */
  function Components(s: seq<byte>): (cs: seq<seq<byte>>)
    ensures |cs| >= 1
    decreases |s|
  {
    if s == [] then [[]]
    else
      var rest := Components(s[1..]);
      if s[0] == SLASH then [[]] + rest else [[s[0]] + rest[0]] + rest[1..]
  }

  function BeforeEmpty(cs: seq<seq<byte>>): seq<seq<byte>> {
    if cs == [] || cs[0] == [] then [] else [cs[0]] + BeforeEmpty(cs[1..])
  }

  lemma {:induction false} ComponentsFrom(path: seq<byte>, pos: nat)
    requires pos <= |path|
    ensures var e := PartEnd(path, pos);
      Components(path[pos..]) == [path[pos..e]] + (if e < |path| then Components(path[e + 1..]) else [])
    decreases |path| - pos
  {
    var s := path[pos..];
    if pos < |path| {
      assert s[1..] == path[pos + 1..];
      var e := PartEnd(path, pos);
      if path[pos] != SLASH {
        ComponentsFrom(path, pos + 1);
        assert [s[0]] + path[pos + 1..e] == path[pos..e];
      } else {
        assert path[pos..e] == [];
      }
    } else {
      assert s == [] && path[pos..pos] == [];
    }
  }

  /** The parser delivers the components before the first empty one. */
  lemma {:induction false} PartsAreComponents(path: seq<byte>, pos: nat)
    requires pos <= |path|
    ensures PartsFrom(path, pos) == BeforeEmpty(Components(path[pos..]))
    decreases |path| - pos
  {
    ComponentsFrom(path, pos);
    var e := PartEnd(path, pos);
    var cs := Components(path[pos..]);
    if e > pos {
      var q := NextPos(path, pos);
      PartsAreComponents(path, q);
      if e < |path| {
        assert cs[1..] == Components(path[q..]);
      } else {
        EmptyTail(path);
        assert cs[1..] == [];
      }
    }
  }

  lemma EmptyTail(path: seq<byte>)
    ensures BeforeEmpty(Components(path[|path|..])) == [] == BeforeEmpty([])
  {
    assert path[|path|..] == [];
  }

  /** The parts with slashes between them. */
  function Join(parts: seq<seq<byte>>): seq<byte> {
    if parts == [] then []
    else if |parts| == 1 then parts[0]
    else parts[0] + [SLASH] + Join(parts[1..])
  }

  function Print(drive: nat, parts: seq<seq<byte>>): (path: seq<byte>)
    requires drive <= 9
  {
    [ZERO_DIGIT + drive, COLON, SLASH] + Join(parts)
  }

  predicate PlainParts(parts: seq<seq<byte>>) {
    forall i :: 0 <= i < |parts| ==> parts[i] != [] && SLASH !in parts[i]
  }

  lemma {:induction false} PlainComponent(part: seq<byte>, rest: seq<byte>)
    requires SLASH !in part
    ensures Components(part + [SLASH] + rest) == [part] + Components(rest)
    decreases |part|
  {
    var s := part + [SLASH] + rest;
    if part == [] {
      assert s[1..] == rest;
    } else {
      assert s[1..] == part[1..] + [SLASH] + rest;
      PlainComponent(part[1..], rest);
      assert [part[0]] + part[1..] == part;
    }
  }

  lemma {:induction false} LastComponent(part: seq<byte>)
    requires SLASH !in part
    ensures Components(part) == [part]
    decreases |part|
  {
    if part != [] {
      LastComponent(part[1..]);
      assert [part[0]] + part[1..] == part;
    }
  }

  lemma {:induction false} JoinSplits(parts: seq<seq<byte>>)
    requires PlainParts(parts)
    ensures BeforeEmpty(Components(Join(parts))) == parts
    decreases |parts|
  {
    if parts == [] {
      assert Components([]) == [[]];
    } else if |parts| == 1 {
      LastComponent(parts[0]);
      assert BeforeEmpty([parts[0]]) == [parts[0]] + BeforeEmpty([]);
      assert parts == [parts[0]];
    } else {
      JoinSplits(parts[1..]);
      PlainComponent(parts[0], Join(parts[1..]));
      assert ([parts[0]] + Components(Join(parts[1..])))[1..] == Components(Join(parts[1..]));
    }
  }

  /** Parsing the printed form of a drive and its parts gives them back. */
  lemma PrintThenParse(drive: nat, parts: seq<seq<byte>>)
    requires drive <= 9 && PlainParts(parts) && |Print(drive, parts)| <= MAX_PATH
    ensures ValidPath(Print(drive, parts))
    ensures Drive(Print(drive, parts)) == drive && PartsFrom(Print(drive, parts), 3) == parts
  {
    var path := Print(drive, parts);
    assert path[3..] == Join(parts);
    PartsAreComponents(path, 3);
    JoinSplits(parts);
  }

  /** A path is valid exactly if it is at most 108 characters long and starts with one
      of the ten drive prefixes, whose digit is the drive. */
  lemma ValidIff(path: seq<byte>)
    ensures ValidPath(path) <==> |path| <= 108 && exists d: nat :: d <= 9 && Print(d, []) <= path
    ensures forall d: nat :: d <= 9 && ValidPath(path) ==> (Drive(path) == d <==> Print(d, []) <= path)
  {
    forall d: nat | d <= 9 ensures Print(d, []) == [48 + d, 58, 47] {
      assert Print(d, []) == [48 + d, 58, 47] + [];
    }
    if ValidPath(path) {
      assert path[..3] == [48 + Drive(path), 58, 47];
      assert Print(Drive(path), []) <= path;
    }
  }

  lemma {:induction false} AllPlain(cs: seq<seq<byte>>)
    ensures BeforeEmpty(cs) == cs <==> forall i :: 0 <= i < |cs| ==> cs[i] != []
    decreases |cs|
  {
    if cs != [] && cs[0] != [] {
      AllPlain(cs[1..]);
      assert cs == [cs[0]] + cs[1..];
      assert forall i :: 0 <= i < |cs[1..]| ==> cs[1..][i] == cs[i + 1];
    }
  }

  lemma {:induction false} JoinComponents(s: seq<byte>)
    ensures Join(Components(s)) == s
    decreases |s|
  {
    if s != [] {
      var rest := Components(s[1..]);
      JoinComponents(s[1..]);
      if s[0] == SLASH {
        JoinStep([], rest);
      } else {
        FirstLonger(s[0], rest[0], rest[1..]);
        assert rest == [rest[0]] + rest[1..];
      }
    }
  }

  lemma JoinStep(head: seq<byte>, tail: seq<seq<byte>>)
    ensures Join([head] + tail) == if tail == [] then head else head + ([SLASH] + Join(tail))
  {
    assert ([head] + tail)[1..] == tail;
  }

  lemma FirstLonger(c: byte, head: seq<byte>, tail: seq<seq<byte>>)
    ensures Join([[c] + head] + tail) == [c] + Join([head] + tail)
  {
    hide Join;
    JoinStep([c] + head, tail);
    JoinStep(head, tail);
    if tail != [] { Longer(c, head, [SLASH] + Join(tail)); }
  }

  lemma Longer(c: byte, s: seq<byte>, t: seq<byte>)
    ensures [c] + s + t == [c] + (s + t)
  {
  }

  /** Printing what was parsed gives the path back exactly if it names the root or has
      no empty component. */
  lemma ParseThenPrintIff(path: seq<byte>)
    requires ValidPath(path)
    ensures Print(Drive(path), PartsFrom(path, 3)) == path <==>
      path[3..] == [] || forall i :: 0 <= i < |Components(path[3..])| ==> Components(path[3..])[i] != []
  {
    var cs := Components(path[3..]);
    PartsAreComponents(path, 3);
    JoinComponents(path[3..]);
    AllPlain(cs);
    assert path == [ZERO_DIGIT + Drive(path), COLON, SLASH] + path[3..];
    if BeforeEmpty(cs) != cs && path[3..] != [] {
      ShorterJoin(cs);
    }
  }

  lemma {:induction false} ShorterJoin(cs: seq<seq<byte>>)
    requires BeforeEmpty(cs) != cs && Join(cs) != []
    ensures |Join(BeforeEmpty(cs))| < |Join(cs)|
    decreases |cs|
  {
    if cs[0] != [] {
      var rest := cs[1..];
      assert cs == [cs[0]] + rest;
      assert BeforeEmpty(rest) != rest;
      assert rest != [];
      var before := BeforeEmpty(rest);
      assert ([cs[0]] + before)[1..] == before;
      if Join(rest) != [] { ShorterJoin(rest); } else { NothingJoined(rest); }
    }
  }

  lemma {:induction false} NothingJoined(cs: seq<seq<byte>>)
    requires Join(cs) == [] && cs != []
    ensures BeforeEmpty(cs) == []
  {
  }

  /** Every part, with its terminator, fits the 108 bytes allocated for it. */
  lemma {:induction false} PartsFit(path: seq<byte>, pos: nat)
    requires 3 <= pos <= |path| <= MAX_PATH
    ensures forall i :: 0 <= i < |PartsFrom(path, pos)| ==>
              0 < |PartsFrom(path, pos)[i]| && |PartsFrom(path, pos)[i]| + 1 <= MAX_PATH
    decreases |path| - pos
  {
    if PartEnd(path, pos) > pos { PartsFit(path, NextPos(path, pos)); }
  }

  // ---- Parsing into the heap ----

  /** pathparser_get_path_part: memory and the string's address, 0 for no part. */
  function GetPart(m: Mem, path: seq<byte>, pos: nat): (r: (Mem, nat))
    requires pos <= |path| <= MAX_PATH
    ensures r.1 < HEAP_END
    ensures r.1 != 0 ==> PartEnd(path, pos) > pos
  {
    var (m1, p) := Kzalloc(m, MAX_PATH);
    var e := PartEnd(path, pos);
    if e == pos then (Kfree(m1, p), 0) else (Splice(m1, p, path[pos..e]), p)
  }

  /** pathparser_parse_path_part: memory and the node's address. */
  function ParsePart(m: Mem, path: seq<byte>, pos: nat, last: nat): (r: (Mem, nat))
    requires pos <= |path| <= MAX_PATH && last + NODE_SIZE <= RAM_SIZE
    ensures r.1 < HEAP_END
    ensures r.1 != 0 ==> PartEnd(path, pos) > pos
  {
    var (m1, text) := GetPart(m, path, pos);
    if text == 0 then (m1, 0)
    else
      var (m2, part) := Kzalloc(m1, NODE_SIZE);
      var m3 := Store32(Store32(m2, part, text), part + 4, 0);
      (if last != 0 then Store32(m3, last + 4, part) else m3, part)
  }

  /** The loop of pathparser_parse. */
  function ParseRest(m: Mem, path: seq<byte>, pos: nat, last: nat): Mem
    requires pos <= |path| <= MAX_PATH && last + NODE_SIZE <= RAM_SIZE
    decreases |path| - pos
  {
    var (m1, part) := ParsePart(m, path, pos, last);
    if part == 0 then m1 else ParseRest(m1, path, NextPos(path, pos), part)
  }

  /** pathparser_parse: memory and the root's address, 0 for a path refused. */
  function Parse(m: Mem, path: seq<byte>): (r: (Mem, nat))
    ensures r.1 < HEAP_END
  {
    if !ValidPath(path) then (m, 0)
    else
      var (m1, root) := Kzalloc(m, NODE_SIZE);
      var m2 := Store32(Store32(m1, root, Drive(path)), root + 4, 0);
      if root == 0 then (m2, 0)
      else
        var (m3, first) := ParsePart(m2, path, 3, 0);
        if first == 0 then (m3, root)
        else (ParseRest(Store32(m3, root + 4, first), path, NextPos(path, 3), first), root)
  }
}
