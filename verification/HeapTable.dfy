/** The heap's block table as a sequence of bytes: what its bits say about which
    blocks belong to which allocation. */
module HeapTable {
  import Bits
  import opened Memory

  const ENOMEM := 3

  const ENTRY_TAKEN := 0x01
  const ENTRY_FREE := 0x00
  const HAS_NEXT := 0x80
  const IS_FIRST := 0x40

  predicate IsFree(e: byte): (r: bool)
    ensures r <==> e % 16 == 0
  {
    Bits.EntryBits(e);
    Bits.BitAnd(e, 0x0f) == ENTRY_FREE
  }

  predicate HasNext(e: byte): (r: bool)
    ensures r <==> e >= 128
  {
    Bits.EntryBits(e);
    Bits.BitAnd(e, HAS_NEXT) != 0
  }

  // ---- Runs: one allocation of n blocks starting at block s ----

  /** The entry of block k in a run of n blocks that starts at s. */
  function RunEntry(s: int, n: int, k: int): byte {
    if k == s
    then if k < s + n - 1 then 0xC1 else 0x41
    else if k < s + n - 1 then 0x81 else 0x01
  }

  ghost predicate IsRun(t: seq<byte>, s: int, n: int) {
    0 <= s && 1 <= n && s + n <= |t| && forall k :: s <= k < s + n ==> t[k] == RunEntry(s, n, k)
  }

  ghost predicate InRun(t: seq<byte>, i: int) {
    exists s, n :: IsRun(t, s, n) && s <= i < s + n
  }

  /** Every entry is free or lies in a run. */
  ghost predicate WellFormed(t: seq<byte>) {
    forall i :: 0 <= i < |t| ==> t[i] == ENTRY_FREE || InRun(t, i)
  }

  /** What the bits of entry i must look like next to its neighbours. */
  predicate EntryOk(t: seq<byte>, i: int)
    requires 0 <= i < |t|
  {
    && t[i] in {0x00, 0x01, 0x41, 0x81, 0xC1}
    && (HasNext(t[i]) ==> i + 1 < |t| && t[i + 1] in {0x01, 0x81})
    && (t[i] in {0x01, 0x81} ==> i > 0 && HasNext(t[i - 1]))
  }

  lemma RunMarks(t: seq<byte>, s: int, n: int, k: int)
    requires IsRun(t, s, n) && s <= k < s + n
    ensures t[k] != ENTRY_FREE && !IsFree(t[k])
    ensures t[k] in {0x41, 0xC1} <==> k == s
    ensures HasNext(t[k]) <==> k < s + n - 1
  {
  }

  /** Two runs that share a block are the same run. */
  lemma RunsDisjoint(t: seq<byte>, s: int, n: int, s': int, n': int)
    requires IsRun(t, s, n) && IsRun(t, s', n')
    requires s < s' + n' && s' < s + n
    ensures s == s' && n == n'
  {
    var k := if s < s' then s' else s;
    RunMarks(t, s, n, k);
    RunMarks(t, s', n', k);
    var e := if n < n' then s + n - 1 else s' + n' - 1;
    if s == s' {
      RunMarks(t, s, n, e);
      RunMarks(t, s', n', e);
    }
  }

  /** The end of the chain of HAS_NEXT entries from i on. */
  function ChainEnd(t: seq<byte>, i: int): (e: int)
    requires 0 <= i < |t|
    ensures i < e <= |t|
    ensures forall k :: i <= k < e - 1 ==> HasNext(t[k])
    ensures e == |t| || !HasNext(t[e - 1])
    decreases |t| - i
  {
    if HasNext(t[i]) && i + 1 < |t| then ChainEnd(t, i + 1) else i + 1
  }

  /** Walking back from a non-FIRST entry reaches the head of its chain. */
  function ChainHead(t: seq<byte>, i: int): (h: int)
    requires 0 <= i < |t|
    ensures 0 <= h <= i
    ensures forall k :: h < k <= i ==> t[k] in {0x01, 0x81}
    ensures h == 0 || t[h] !in {0x01, 0x81}
  {
    if t[i] in {0x01, 0x81} && i > 0 then ChainHead(t, i - 1) else i
  }

  /** The neighbour conditions say exactly that the table decodes into runs. */
  lemma WellFormedIffEntriesOk(t: seq<byte>)
    ensures WellFormed(t) <==> forall i :: 0 <= i < |t| ==> EntryOk(t, i)
  {
    if WellFormed(t) {
      forall i | 0 <= i < |t| ensures EntryOk(t, i) {
        RunEntriesOk(t, i);
      }
    }
    if forall i :: 0 <= i < |t| ==> EntryOk(t, i) {
      forall i | 0 <= i < |t| && t[i] != ENTRY_FREE ensures InRun(t, i) {
        ChainIsRun(t, i);
      }
    }
  }

  lemma RunEntriesOk(t: seq<byte>, i: int)
    requires WellFormed(t) && 0 <= i < |t|
    ensures EntryOk(t, i)
  {
    if t[i] != ENTRY_FREE {
      var s, n :| IsRun(t, s, n) && s <= i < s + n;
      assert i + 1 < s + n ==> t[i + 1] == RunEntry(s, n, i + 1);
      assert i > s ==> t[i - 1] == RunEntry(s, n, i - 1);
    }
  }

  lemma ChainIsRun(t: seq<byte>, i: int)
    requires forall k :: 0 <= k < |t| ==> EntryOk(t, k)
    requires 0 <= i < |t| && t[i] != ENTRY_FREE
    ensures InRun(t, i)
  {
    var h := ChainHead(t, i);
    var e := ChainEnd(t, i);
    assert EntryOk(t, h);
    forall k | h <= k < e ensures t[k] == RunEntry(h, e - h, k) {
      assert EntryOk(t, k);
      if h <= k < i { assert EntryOk(t, k + 1); }
      if k > i { assert EntryOk(t, k - 1); }
    }
    assert EntryOk(t, e - 1);
    assert IsRun(t, h, e - h);
  }

  /** The allocations a table stands for. */
  ghost function Runs(t: seq<byte>): set<(int, int)> {
    set s, n | 0 <= s < |t| && 0 <= n <= |t| && IsRun(t, s, n) :: (s, n)
  }

  lemma InRuns(t: seq<byte>, s: int, n: int)
    ensures (s, n) in Runs(t) <==> IsRun(t, s, n)
  {
  }

  /** The runs determine the table: decoding is injective. */
  lemma RunsDetermineTable(t: seq<byte>, t': seq<byte>)
    requires WellFormed(t) && WellFormed(t') && |t| == |t'|
    requires forall s, n :: IsRun(t, s, n) <==> IsRun(t', s, n)
    ensures t == t'
  {
    forall i | 0 <= i < |t| ensures t[i] == t'[i] {
      assert InRun(t, i) <==> InRun(t', i);
      if InRun(t, i) {
        var s, n :| IsRun(t, s, n) && s <= i < s + n;
        assert IsRun(t', s, n);
      }
    }
  }

  // ---- Searching ----

  predicate FreeRun(t: seq<byte>, s: int, n: int) {
    0 <= s && 0 <= n && s + n <= |t| && forall k :: s <= k < s + n ==> IsFree(t[k])
  }

  /** The least start at or after `from` of n consecutive free blocks, or |t| if there is none. */
  function FirstFit(t: seq<byte>, n: nat, from: nat): (s: nat)
    requires from <= |t|
    ensures from <= s <= |t|
    ensures s < |t| ==> FreeRun(t, s, n)
    ensures forall j :: from <= j < s && j < |t| ==> !FreeRun(t, j, n)
    decreases |t| - from
  {
    if from == |t| || FreeRun(t, from, n) then from else FirstFit(t, n, from + 1)
  }

  /** Where the free blocks at the very end of the table start. */
  function TrailingStart(t: seq<byte>): (s: nat)
    ensures s <= |t|
    ensures forall k :: s <= k < |t| ==> IsFree(t[k])
    ensures s == 0 || !IsFree(t[s - 1])
  {
    if |t| > 0 && IsFree(t[|t| - 1])
    then
      var t' := t[..|t| - 1];
      var s := TrailingStart(t');
      assert forall k :: s <= k < |t'| ==> IsFree(t[k]) by {
        assert forall k :: s <= k < |t'| ==> t[k] == t'[k];
      }
      assert s > 0 ==> t[s - 1] == t'[s - 1];
      s
    else |t|
  }

  predicate Fits(t: seq<byte>, n: nat) {
    n >= 1 && FirstFit(t, n, 0) < |t|
  }

  /** The block the scan answers for a request of n blocks, or -ENOMEM. When
      nothing fits it still answers the start of a free run at the end of the table. */
  function StartBlock(t: seq<byte>, n: nat): int {
    if Fits(t, n) then FirstFit(t, n, 0)
    else if TrailingStart(t) < |t| then TrailingStart(t)
    else -ENOMEM
  }

  /** The scan reports failure truthfully, and answers a fitting block, exactly
      when n blocks fit or the last block of the table is taken. */
  lemma ScanTruthfulIff(t: seq<byte>, n: nat)
    requires n >= 1
    ensures (if exists s :: FreeRun(t, s, n) then FreeRun(t, StartBlock(t, n), n) else StartBlock(t, n) == -ENOMEM)
        <==> Fits(t, n) || |t| == 0 || !IsFree(t[|t| - 1])
  {
    if s :| FreeRun(t, s, n) {
      assert Fits(t, n);
    }
  }

  /** A table of one taken and one free block: a request for two blocks is
      answered with the last block alone. */
  lemma ShortTailAnswered()
    ensures var t := [0x41 as byte, 0x00];
            !(exists s :: FreeRun(t, s, 2)) && StartBlock(t, 2) == 1
  {
    var t := [0x41 as byte, 0x00];
    assert !IsFree(t[0]) && IsFree(t[1]);
    assert forall s :: FreeRun(t, s, 2) ==> s == 0;
  }

  // ---- Marking ----

  function RunBytes(n: nat): (s: seq<byte>)
    ensures |s| == n && forall k :: 0 <= k < n ==> s[k] == RunEntry(0, n, k)
  {
    seq(n, k => RunEntry(0, n, k))
  }

  function Take(t: seq<byte>, s: nat, n: nat): seq<byte>
    requires s + n <= |t|
  {
    Splice(t, s, RunBytes(n))
  }

  function Release(t: seq<byte>, s: nat, n: nat): seq<byte>
    requires s + n <= |t|
  {
    Splice(t, s, Fill(n, ENTRY_FREE))
  }

  ghost predicate RunsAdded(t: seq<byte>, t': seq<byte>, s: int, n: int) {
    forall a, b :: IsRun(t', a, b) <==> IsRun(t, a, b) || (a == s && b == n)
  }

  /** Taking n free blocks adds exactly the run (s, n). */
  lemma TakeAddsRun(t: seq<byte>, s: nat, n: nat)
    requires WellFormed(t) && n >= 1 && FreeRun(t, s, n)
    ensures WellFormed(Take(t, s, n))
    ensures RunsAdded(t, Take(t, s, n), s, n)
    ensures !IsRun(t, s, n) && IsRun(Take(t, s, n), s, n)
  {
    var t' := Take(t, s, n);
    assert IsRun(t', s, n);
    forall a, b | IsRun(t, a, b) ensures IsRun(t', a, b) {
      RunAvoidsFree(t, a, b, s, n);
    }
    forall a, b | IsRun(t', a, b) && (a != s || b != n) ensures IsRun(t, a, b) {
      if a < s + n && s < a + b { RunsDisjoint(t', a, b, s, n); }
    }
    forall i | 0 <= i < |t'| && t'[i] != ENTRY_FREE ensures InRun(t', i) {
      if !(s <= i < s + n) {
        var a, b :| IsRun(t, a, b) && a <= i < a + b;
        assert IsRun(t', a, b);
      }
    }
    assert IsFree(t[s]);
  }

  lemma RunAvoidsFree(t: seq<byte>, a: int, b: int, s: int, n: int)
    requires IsRun(t, a, b) && FreeRun(t, s, n)
    ensures a + b <= s || s + n <= a || n == 0
  {
    if n > 0 && a < s + n && s < a + b {
      var k := if a < s then s else a;
      RunMarks(t, a, b, k);
    }
  }

  /** Releasing a run removes exactly that run and frees its blocks. */
  lemma ReleaseRemovesRun(t: seq<byte>, s: nat, n: nat)
    requires WellFormed(t) && IsRun(t, s, n)
    ensures WellFormed(Release(t, s, n))
    ensures forall a, b :: IsRun(Release(t, s, n), a, b) <==> IsRun(t, a, b) && !(a == s && b == n)
    ensures FreeRun(Release(t, s, n), s, n)
  {
    var t' := Release(t, s, n);
    forall a, b | IsRun(t, a, b) && !(a == s && b == n) ensures IsRun(t', a, b) {
      if a < s + n && s < a + b { RunsDisjoint(t, a, b, s, n); }
    }
    forall a, b | IsRun(t', a, b) ensures IsRun(t, a, b) && !(a == s && b == n) {
      assert FreeRun(t', s, n);
      RunAvoidsFree(t', a, b, s, n);
    }
    forall i | 0 <= i < |t'| && t'[i] != ENTRY_FREE ensures InRun(t', i) {
      var a, b :| IsRun(t, a, b) && a <= i < a + b;
      assert IsRun(t', a, b);
    }
  }

  /** On the set of allocations the table stands for, marking adds one element and
      clearing removes one. */
  lemma AllocationSets(t: seq<byte>, s: nat, n: nat)
    requires WellFormed(t) && n >= 1 && s + n <= |t|
    ensures FreeRun(t, s, n) ==> (s, n) !in Runs(t) && Runs(Take(t, s, n)) == Runs(t) + {(s, n)}
    ensures (s, n) in Runs(t) ==> Runs(Release(t, s, n)) == Runs(t) - {(s, n)}
  {
    hide Runs;
    InRuns(t, s, n);
    if FreeRun(t, s, n) {
      TakeAddsRun(t, s, n);
      forall r ensures r in Runs(Take(t, s, n)) <==> r in Runs(t) || r == (s, n) {
        InRuns(t, r.0, r.1);
        InRuns(Take(t, s, n), r.0, r.1);
      }
    } else if IsRun(t, s, n) {
      ReleaseRemovesRun(t, s, n);
      forall r ensures r in Runs(Release(t, s, n)) <==> r in Runs(t) && r != (s, n) {
        InRuns(t, r.0, r.1);
        InRuns(Release(t, s, n), r.0, r.1);
      }
    }
  }

  /** Freeing an allocation straight after making it restores the table. */
  lemma TakeThenRelease(t: seq<byte>, s: nat, n: nat)
    requires WellFormed(t) && FreeRun(t, s, n)
    ensures Release(Take(t, s, n), s, n) == t
  {
    forall k | s <= k < s + n ensures t[k] == ENTRY_FREE {
      assert IsFree(t[k]);
      RunEntriesOk(t, k);
    }
  }

  // ---- Following the chain, as a free does ----

  /** Clears entries from k on up to and including the first without HAS_NEXT;
      the walk never passes `end`. */
  function ClearChain(m: seq<byte>, k: nat, end: nat): (r: seq<byte>)
    requires end <= |m|
    ensures |r| == |m|
    decreases end - k
  {
    if k >= end then m
    else if HasNext(m[k]) then ClearChain(m[k := ENTRY_FREE], k + 1, end)
    else m[k := ENTRY_FREE]
  }

  /** Clearing from a chain's first entry zeroes exactly that chain. */
  lemma {:induction false} ClearedPart(m: seq<byte>, k: nat, n: nat, end: nat)
    requires 1 <= n && k + n <= end <= |m|
    requires forall j :: k <= j < k + n - 1 ==> HasNext(m[j])
    requires !HasNext(m[k + n - 1]) || k + n == end
    ensures ClearChain(m, k, end) == Splice(m, k, Fill(n, ENTRY_FREE))
    decreases n
  {
    var m1 := m[k := ENTRY_FREE];
    if n > 1 {
      ClearedPart(m1, k + 1, n - 1, end);
      assert Splice(m1, k + 1, Fill(n - 1, ENTRY_FREE)) == Splice(m, k, Fill(n, ENTRY_FREE));
    } else {
      assert m1 == Splice(m, k, Fill(1, ENTRY_FREE));
      if HasNext(m[k]) { assert ClearChain(m1, k + 1, end) == m1; }
    }
  }

  /** Freeing at block i keeps the table well formed exactly when i is free or
      the head of an allocation, whatever i is. */
  lemma FreeKeepsWellFormedIff(t: seq<byte>, i: nat)
    requires WellFormed(t) && i < |t|
    ensures WellFormed(ClearChain(t, i, |t|)) <==> t[i] == ENTRY_FREE || t[i] in {0x41, 0xC1}
  {
    WellFormedIffEntriesOk(t);
    assert EntryOk(t, i);
    var t' := ClearChain(t, i, |t|);
    var e := ChainEnd(t, i);
    assert EntryOk(t, e - 1);
    ClearedPart(t, i, e - i, |t|);
    if t[i] == ENTRY_FREE {
      assert t' == t;
    } else if t[i] in {0x41, 0xC1} {
      var s, n :| IsRun(t, s, n) && s <= i < s + n;
      assert s == i;
      ClearedPart(t, i, n, |t|);
      ReleaseRemovesRun(t, i, n);
    } else {
      WellFormedIffEntriesOk(t');
      assert t'[i - 1] == t[i - 1] && HasNext(t'[i - 1]) && t'[i] == ENTRY_FREE;
      assert !EntryOk(t', i - 1);
    }
  }

  // ---- How many blocks are free ----

  function FreeBlocks(t: seq<byte>): set<int> {
    set i | 0 <= i < |t| && IsFree(t[i])
  }

  lemma TakeOne(t: seq<byte>)
    requires WellFormed(t) && FreeBlocks(t) != {}
    ensures Fits(t, 1)
    ensures |FreeBlocks(Take(t, FirstFit(t, 1, 0), 1))| == |FreeBlocks(t)| - 1
  {
    hide WellFormed, IsFree;
    var i :| i in FreeBlocks(t);
    assert FreeRun(t, i, 1);
    var s := FirstFit(t, 1, 0);
    assert s in FreeBlocks(t) by { assert IsFree(t[s]); }
    OneFewer(t, s);
  }

  lemma OneFewer(t: seq<byte>, s: nat)
    requires s < |t|
    ensures FreeBlocks(Take(t, s, 1)) == FreeBlocks(t) - {s}
  {
    var t' := Take(t, s, 1);
    assert !IsFree(t'[s]);
    forall i ensures i in FreeBlocks(t') <==> i in FreeBlocks(t) - {s} {}
  }
}
