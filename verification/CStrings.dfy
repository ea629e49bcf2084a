/** Zero-terminated strings inside byte arrays, and strncpy. */
module CStrings {
  import opened Memory

  /** `m` holds at `p` the characters `s` and then a terminator. */
  predicate CStringAt(m: seq<byte>, p: nat, s: seq<byte>) {
    && p + |s| < |m| && 0 !in s
    && m[p..p + |s|] == s && m[p + |s|] == 0
  }

  lemma StringBytes(m: seq<byte>, p: nat, s: seq<byte>)
    requires CStringAt(m, p, s)
    ensures forall k :: p <= k < p + |s| ==> m[k] == s[k - p] && m[k] != 0
    ensures m[p + |s|] == 0
  {
    forall k | p <= k < p + |s| ensures m[k] == s[k - p] && m[k] != 0 {
      assert m[p..p + |s|][k - p] == s[k - p];
    }
  }

  lemma StringEnd(m: seq<byte>, p: nat, s: seq<byte>)
    requires CStringAt(m, p, s)
    ensures p + |s| < |m| && m[p + |s|] == 0
  {
  }

  lemma CStringSame(m: seq<byte>, m': seq<byte>, p: nat, s: seq<byte>)
    requires CStringAt(m, p, s) && |m'| == |m|
    requires forall k :: p <= k <= p + |s| ==> m'[k] == m[k]
    ensures CStringAt(m', p, s)
  {
    assert m'[p..p + |s|] == s;
  }

  function Cut(s: seq<byte>, n: nat): (r: seq<byte>)
    ensures |r| <= n && r <= s && (|s| <= n ==> r == s)
  {
    if |s| <= n then s else s[..n]
  }

  /** How many characters strncpy copies at most; it writes the terminator even when
      the count leaves no room for it. */
  function Room(count: int): nat {
    if count < 1 then 0 else count - 1
  }

  lemma CutTwice(s: seq<byte>, n: nat, k: nat)
    ensures Cut(Cut(s, n), k) == Cut(s, if n < k then n else k)
  {
  }

  lemma CutHasNoZero(s: seq<byte>, n: nat)
    requires 0 !in s
    ensures 0 !in Cut(s, n)
  {
  }

  lemma SplicedString(m: seq<byte>, at: nat, s: seq<byte>)
    requires at + |s| + 1 <= |m| && 0 !in s
    ensures CStringAt(Splice(m, at, s + [0]), at, s)
  {
    var m' := Splice(m, at, s + [0]);
    assert m'[at..at + |s|] == s;
  }

  /** strncpy: at most count - 1 characters and a terminator. The string read may
      not overlap what is written. */
  method Strncpy(dest: array<byte>, at: nat, src: array<byte>, from: nat, count: int, ghost s: seq<byte>)
    requires dest != src && CStringAt(src[..], from, s)
    requires at + |Cut(s, Room(count))| + 1 <= dest.Length
    modifies dest
    ensures dest[..] == Splice(old(dest[..]), at, Cut(s, Room(count)) + [0])
  {
    ghost var cut := Cut(s, Room(count));
    var i := 0;
    while i < count - 1
      invariant 0 <= i <= |cut|
      invariant forall k :: 0 <= k < at || at + i <= k < dest.Length ==> dest[k] == old(dest[k])
      invariant forall k :: at <= k < at + i ==> dest[k] == cut[k - at]
      decreases count - i
    {
      assert i < |s| ==> src[..][from..from + |s|][i] == s[i];
      if src[from + i] == 0 {
        break;
      }
      dest[at + i] := src[from + i];
      i := i + 1;
    }
    assert i == |cut|;
    dest[at + i] := 0;
  }

  /** The same inside one buffer, where the two do not overlap. */
  method StrncpyWithin(m: array<byte>, at: nat, from: nat, count: int, ghost s: seq<byte>)
    requires CStringAt(m[..], from, s) && at + |Cut(s, Room(count))| + 1 <= m.Length
    requires at + |Cut(s, Room(count))| < from || from + |s| < at
    modifies m
    ensures m[..] == Splice(old(m[..]), at, Cut(s, Room(count)) + [0])
  {
    ghost var cut := Cut(s, Room(count));
    StringBytes(m[..], from, s);
    var i := 0;
    while i < count - 1
      invariant 0 <= i <= |cut|
      invariant forall k :: 0 <= k < at || at + i <= k < m.Length ==> m[k] == old(m[k])
      invariant forall k :: at <= k < at + i ==> m[k] == cut[k - at]
      decreases count - i
    {
      if m[from + i] == 0 {
        break;
      }
      m[at + i] := m[from + i];
      i := i + 1;
    }
    assert i == |cut|;
    m[at + i] := 0;
  }
}
