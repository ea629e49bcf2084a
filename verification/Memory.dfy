/** Physical memory as 2^32 bytes, with little-endian 32-bit words. */
module Memory {

  const RAM_SIZE := 0x1_0000_0000

  type byte = x: int | 0 <= x < 256

  type uint32 = x: int | 0 <= x < RAM_SIZE

  /** A 32-bit pattern read as a signed int. */
  function Signed(x: int): int {
    var u := x % RAM_SIZE;
    if u < RAM_SIZE / 2 then u else u - RAM_SIZE
  }

  type Mem = m: seq<byte> | |m| == RAM_SIZE ghost witness seq(RAM_SIZE, i => 0)

  /** `m` with the bytes from `a` on replaced by `s`. */
  function Splice(m: seq<byte>, a: nat, s: seq<byte>): (r: seq<byte>)
    requires a + |s| <= |m|
    ensures |r| == |m|
    ensures forall k :: 0 <= k < |m| ==> r[k] == if a <= k < a + |s| then s[k - a] else m[k]
  {
    m[..a] + s + m[a + |s|..]
  }

  function Fill(n: nat, b: byte): (s: seq<byte>)
    ensures |s| == n && forall k :: 0 <= k < n ==> s[k] == b
  {
    seq(n, i => b)
  }

  /** memset(a, 0, n). */
  function Zero(m: Mem, a: nat, n: nat): (r: Mem)
    requires a + n <= RAM_SIZE
  {
    Splice(m, a, Fill(n, 0))
  }

  /** memset(a, 0, n) with an address that goes round at the top of memory. */
  function Clear(m: Mem, a: uint32, n: uint32): (r: Mem)
  {
    if a + n <= RAM_SIZE then Zero(m, a, n) else Zero(Zero(m, a, RAM_SIZE - a), 0, a + n - RAM_SIZE)
  }

  /** `m` with the bytes from `p` on, going round, replaced by `s`. */
  function SpliceRound(m: Mem, p: uint32, s: seq<byte>): (r: Mem)
    requires |s| <= RAM_SIZE
  {
    if p + |s| <= RAM_SIZE then Splice(m, p, s)
    else Splice(Splice(m, p, s[..RAM_SIZE - p]), 0, s[RAM_SIZE - p..])
  }

  // The value of a little-endian byte string, and the string of a 32-bit value.

  function LittleEndian(s: seq<byte>): nat {
    if s == [] then 0 else s[0] + 256 * LittleEndian(s[1..])
  }

  function Bytes32(v: uint32): (s: seq<byte>)
    ensures |s| == 4
  {
    [v % 256, v / 256 % 256, v / 256 / 256 % 256, v / 256 / 256 / 256]
  }

  function Word(b0: int, b1: int, b2: int, b3: int): int {
    b0 + 0x100 * b1 + 0x1_0000 * b2 + 0x100_0000 * b3
  }

  lemma FourBytes(s: seq<byte>)
    requires |s| == 4
    ensures LittleEndian(s) == Word(s[0], s[1], s[2], s[3])
  {
    var s1, s2, s3 := s[1..], s[2..], s[3..];
    assert s1[1..] == s2 && s2[1..] == s3 && s3[1..] == [];
    assert LittleEndian(s3) == s[3] + 256 * LittleEndian(s3[1..]);
    assert LittleEndian(s2) == s[2] + 256 * LittleEndian(s3);
    assert LittleEndian(s1) == s[1] + 256 * LittleEndian(s2);
  }

  lemma LittleEndianBytes32(v: uint32)
    ensures LittleEndian(Bytes32(v)) == v
  {
    FourBytes(Bytes32(v));
    var q1 := v / 256;
    var q2 := q1 / 256;
    var q3 := q2 / 256;
    assert v == v % 256 + 256 * q1 && q1 == q1 % 256 + 256 * q2 && q2 == q2 % 256 + 256 * q3;
  }

  /** The word a 32-bit load sees at address `a`. */
  function Load32(m: Mem, a: nat): (v: uint32)
    requires a + 4 <= RAM_SIZE
  {
    FourBytes(m[a..a + 4]);
    LittleEndian(m[a..a + 4])
  }

  function Store32(m: Mem, a: nat, v: uint32): (r: Mem)
    requires a + 4 <= RAM_SIZE
  {
    Splice(m, a, Bytes32(v))
  }

  lemma LoadStored(m: Mem, a: nat, v: uint32)
    requires a + 4 <= RAM_SIZE
    ensures Load32(Store32(m, a, v), a) == v
  {
    assert Store32(m, a, v)[a..a + 4] == Bytes32(v);
    LittleEndianBytes32(v);
  }

  ghost predicate SameOn(m: Mem, m': Mem, lo: nat, hi: nat)
    requires hi <= RAM_SIZE
  {
    forall k :: lo <= k < hi ==> m[k] == m'[k]
  }

  lemma LoadSame(m: Mem, m': Mem, a: nat)
    requires a + 4 <= RAM_SIZE && SameOn(m, m', a, a + 4)
    ensures Load32(m, a) == Load32(m', a)
  {
    assert m[a..a + 4] == m'[a..a + 4];
  }

  lemma StoreKeeps(m: Mem, a: nat, v: uint32)
    requires a + 4 <= RAM_SIZE
    ensures forall k :: 0 <= k < RAM_SIZE && !(a <= k < a + 4) ==> Store32(m, a, v)[k] == m[k]
  {
  }

  lemma LoadElsewhere(m: Mem, a: nat, v: uint32, b: nat)
    requires a + 4 <= RAM_SIZE && b + 4 <= RAM_SIZE
    requires b + 4 <= a || a + 4 <= b
    ensures Load32(Store32(m, a, v), b) == Load32(m, b)
  {
    LoadSame(m, Store32(m, a, v), b);
  }

  /** Putting back the word that was there restores memory byte for byte. */
  lemma StoreBack(m: Mem, a: nat, v: uint32)
    requires a + 4 <= RAM_SIZE
    ensures Store32(Store32(m, a, v), a, Load32(m, a)) == m
  {
    Bytes32Unique(m[a..a + 4]);
  }

  lemma Bytes32Unique(s: seq<byte>)
    requires |s| == 4
    ensures LittleEndian(s) < RAM_SIZE && Bytes32(LittleEndian(s)) == s
  {
    FourBytes(s);
    var w2 := s[2] + 256 * (s[3] as int);
    var w1 := s[1] + 256 * w2;
    var w0 := s[0] + 256 * w1;
    LowByte(s[0], w1);
    LowByte(s[1], w2);
    LowByte(s[2], s[3]);
    assert LittleEndian(s) == w0;
  }

  lemma LowByte(b: byte, rest: nat)
    ensures (b + 256 * rest) % 256 == b && (b + 256 * rest) / 256 == rest
  {
  }

  method ReadWord(ram: array<byte>, a: nat) returns (v: uint32)
    requires ram.Length == RAM_SIZE && a + 4 <= RAM_SIZE
    ensures v == Load32(ram[..], a)
  {
    FourBytes(ram[..][a..a + 4]);
    v := Word(ram[a], ram[a + 1], ram[a + 2], ram[a + 3]);
  }

  method WriteWord(ram: array<byte>, a: nat, v: uint32)
    requires ram.Length == RAM_SIZE && a + 4 <= RAM_SIZE
    modifies ram
    ensures ram[..] == Store32(old(ram[..]), a, v)
  {
    ram[a], ram[a + 1] := v % 256, v / 256 % 256;
    ram[a + 2], ram[a + 3] := v / 256 / 256 % 256, v / 256 / 256 / 256;
  }

  /** A word written at an address that may go round. */
  method WriteWordRound(ram: array<byte>, a: uint32, v: uint32)
    requires ram.Length == RAM_SIZE
    modifies ram
    ensures ram[..] == SpliceRound(old(ram[..]), a, Bytes32(v))
  {
    ghost var m := ram[..];
    var s := Bytes32(v);
    for i := 0 to 4
      invariant forall k :: 0 <= k < RAM_SIZE ==> ram[k] == if Behind(k, a) < i then s[Behind(k, a)] else m[k]
    {
      RoundOnce(a, i);
      ram[(a + i) % RAM_SIZE] := s[i];
    }
    forall k: uint32 ensures SpliceRound(m, a, s)[k] == if Behind(k, a) < 4 then s[Behind(k, a)] else m[k] {
      SplicedRoundAt(m, a, s, k);
    }
    assert ram[..] == SpliceRound(m, a, s);
  }

  /** memset with zero. */
  method ClearBytes(ram: array<byte>, a: uint32, n: uint32)
    requires ram.Length == RAM_SIZE
    modifies ram
    ensures ram[..] == Clear(old(ram[..]), a, n)
  {
    ghost var m := ram[..];
    for i := 0 to n
      invariant forall k :: 0 <= k < RAM_SIZE ==> ram[k] == if Behind(k, a) < i then 0 else m[k]
    {
      RoundOnce(a, i);
      ram[(a + i) % RAM_SIZE] := 0;
    }
    forall k | 0 <= k < RAM_SIZE ensures Clear(m, a, n)[k] == if Behind(k, a) < n then 0 else m[k] {
      ClearedAt(m, a, n, k);
    }
    assert ram[..] == Clear(m, a, n);
  }

  /** How far k lies after a, going round. */
  function Behind(k: int, a: int): nat {
    (k - a) % RAM_SIZE
  }

  lemma RoundOnce(a: uint32, i: uint32)
    ensures forall k :: 0 <= k < RAM_SIZE ==> (Behind(k, a) == i <==> k == (a + i) % RAM_SIZE)
  {
  }

  lemma ClearedAt(m: Mem, a: uint32, n: uint32, k: uint32)
    ensures Clear(m, a, n)[k] == if Behind(k, a) < n then 0 else m[k]
  {
    BehindIs(k, a);
    hide Behind;
  }

  function Round(p: uint32, i: nat): uint32 {
    (p + i) % RAM_SIZE
  }

  lemma RoundBehind(p: uint32, i: uint32)
    ensures Behind(Round(p, i), p) == i
  {
    RoundOnce(p, i);
  }

  lemma BehindRound(k: uint32, p: uint32)
    ensures Round(p, Behind(k, p)) == k
  {
    BehindIs(k, p);
  }

  lemma SplicedRoundAt(m: Mem, p: uint32, s: seq<byte>, k: uint32)
    requires |s| <= RAM_SIZE
    ensures SpliceRound(m, p, s)[k] == if Behind(k, p) < |s| then s[Behind(k, p)] else m[k]
  {
    BehindIs(k, p);
    hide Behind;
  }

  /** Two pieces, one behind the other. */
  lemma SplicedTwice(m: Mem, p: uint32, s: seq<byte>, s': seq<byte>)
    requires |s| + |s'| <= RAM_SIZE
    ensures SpliceRound(SpliceRound(m, p, s), Round(p, |s|), s') == SpliceRound(m, p, s + s')
  {
    var m1 := SpliceRound(m, p, s);
    forall k: uint32 ensures SpliceRound(m1, Round(p, |s|), s')[k] == SpliceRound(m, p, s + s')[k] {
      SplicedRoundAt(m, p, s, k);
      SplicedRoundAt(m, p, s + s', k);
      SplicedRoundAt(m1, Round(p, |s|), s', k);
      BehindLater(k, p, |s|);
      hide SpliceRound, Behind, Round;
    }
  }

  lemma BehindLater(k: uint32, p: uint32, n: nat)
    requires n <= RAM_SIZE
    ensures Behind(k, Round(p, n)) == if Behind(k, p) >= n then Behind(k, p) - n else Behind(k, p) - n + RAM_SIZE
  {
    BehindIs(k, p);
    if n < RAM_SIZE { BehindIs(k, Round(p, n)); }
  }

  lemma BehindIs(k: uint32, a: uint32)
    ensures Behind(k, a) == if k >= a then k - a else k - a + RAM_SIZE
  {
  }

  method ZeroBytes(ram: array<byte>, a: nat, n: nat)
    requires ram.Length == RAM_SIZE && a + n <= RAM_SIZE
    modifies ram
    ensures ram[..] == Zero(old(ram[..]), a, n)
  {
    for i := 0 to n
      invariant forall k :: a <= k < a + i ==> ram[k] == 0
      invariant forall k :: 0 <= k < a || a + i <= k < RAM_SIZE ==> ram[k] == old(ram[k])
    {
      ram[a + i] := 0;
    }
  }
}
