/** Bitwise AND and OR on naturals, and the masks the kernel applies with them. */
module Bits {

  function BitAnd(a: nat, b: nat): nat {
    if a == 0 || b == 0 then 0
    else 2 * BitAnd(a / 2, b / 2) + (if a % 2 == 1 && b % 2 == 1 then 1 else 0)
  }

  function BitOr(a: nat, b: nat): nat {
    if a == 0 then b
    else if b == 0 then a
    else 2 * BitOr(a / 2, b / 2) + (if a % 2 == 1 || b % 2 == 1 then 1 else 0)
  }

  function Pow2(n: nat): (r: nat)
    ensures r >= 1
  {
    if n == 0 then 1 else 2 * Pow2(n - 1)
  }

  function Shl(x: nat, n: nat): nat {
    if n == 0 then x else 2 * Shl(x, n - 1)
  }

  function Shr(x: nat, n: nat): nat {
    if n == 0 then x else Shr(x / 2, n - 1)
  }

  /** A mask above `n` zero bits acts on the shifted value only. */
  lemma {:induction false} AndShifted(x: nat, mask: nat, n: nat)
    ensures BitAnd(x, Shl(mask, n)) == Shl(BitAnd(Shr(x, n), mask), n)
    decreases n
  {
    if n > 0 {
      AndShifted(x / 2, mask, n - 1);
      var rest := Shl(mask, n - 1);
      assert 2 * rest / 2 == rest && 2 * rest % 2 == 0;
    }
  }

  /** A mask of `w` one bits takes the remainder modulo the power of two. */
  lemma {:induction false} AndOnes(x: nat, w: nat)
    ensures BitAnd(x, Pow2(w) - 1) == x % Pow2(w)
    decreases w
  {
    if w > 0 {
      AndOnes(x / 2, w - 1);
      ModTwice(x, Pow2(w - 1));
    }
  }

  /** OR-ing a small value below a shifted one adds it. */
  lemma {:induction false} OrShifted(p: nat, f: nat, n: nat)
    requires f < Pow2(n)
    ensures BitOr(Shl(p, n), f) == Shl(p, n) + f
    decreases n
  {
    if n > 0 {
      OrShifted(p, f / 2, n - 1);
      var rest := Shl(p, n - 1);
      assert 2 * rest / 2 == rest && 2 * rest % 2 == 0;
    }
  }

  lemma MulAtLeast(d: nat, k: int)
    requires k >= 1
    ensures d * k >= d
  {
    assert d * k == d + d * (k - 1);
    MulNonNegative(d, k - 1);
  }

  lemma MulNonNegative(d: nat, k: nat)
    ensures d * k >= 0
  {
  }

  lemma MulMonotone(d: nat, a: int, b: int)
    requires a <= b
    ensures d * a <= d * b
  {
    MulNonNegative(d, b - a);
    assert d * b == d * a + d * (b - a);
  }

  lemma DivUnique(x: nat, d: nat, q: nat, r: nat)
    requires r < d && x == d * q + r
    ensures x / d == q && x % d == r
  {
    var q', r' := x / d, x % d;
    assert d * (q' - q) == d * q' - d * q == r - r';
    assert d * (q - q') == d * q - d * q' == r' - r;
    if q' > q { MulAtLeast(d, q' - q); }
    if q' < q { MulAtLeast(d, q - q'); }
  }

  lemma ModTwice(x: nat, d: nat)
    requires d >= 1
    ensures x % (2 * d) == 2 * (x / 2 % d) + x % 2
  {
    var q, r := x / 2 / d, x / 2 % d;
    assert x / 2 == q * d + r;
    assert x == (2 * d) * q + (2 * r + x % 2);
    DivUnique(x, 2 * d, q, 2 * r + x % 2);
  }

  lemma TwelveBits(x: nat)
    ensures Shl(x, 12) == 4096 * x && Shr(x, 12) == x / 4096
    ensures Pow2(12) == 4096
  {
    assert Shl(x, 1) == 2 * x;
    assert Shl(x, 3) == 8 * x;
    assert Shl(x, 5) == 32 * x;
    assert Shl(x, 7) == 128 * x;
    assert Shl(x, 9) == 512 * x;
    assert Shl(x, 11) == 2048 * x;
    assert Shr(x / 2048, 1) == x / 4096;
    assert Shr(x / 512, 3) == x / 4096;
    assert Shr(x / 128, 5) == x / 4096;
    assert Shr(x / 32, 7) == x / 4096;
    assert Shr(x / 8, 9) == x / 4096;
    assert Shr(x / 2, 11) == x / 4096;
  }

  lemma FieldAbove12(x: nat, w: nat)
    ensures BitAnd(x, 4096 * (Pow2(w) - 1)) == x / 4096 % Pow2(w) * 4096
  {
    var ones := Pow2(w) - 1;
    TwelveBits(x);
    TwelveBits(ones);
    AndShifted(x, ones, 12);
    AndOnes(x / 4096, w);
    TwelveBits(x / 4096 % Pow2(w));
  }

  lemma PowersUsed()
    ensures Pow2(16) == 0x1_0000 && Pow2(20) == 0x10_0000
  {
    assert Pow2(8) == 256;
  }

  /** The mask 0xfffff000 of paging_set and paging_free_4gb clears the low 12 bits. */
  lemma PageMask(x: nat)
    requires x < 0x1_0000_0000
    ensures BitAnd(x, 0xffff_f000) == x / 4096 * 4096
  {
    hide BitAnd;
    FieldAbove12(x, 20);
    PowersUsed();
    assert x / 4096 < 0x10_0000;
  }

  /** The mask 0xffff000 of paging_get also clears the top 4 bits. */
  lemma PageMask28(x: nat)
    ensures BitAnd(x, 0x0fff_f000) == x / 4096 % 65536 * 4096
  {
    hide BitAnd;
    FieldAbove12(x, 16);
    PowersUsed();
  }

  /** Flags below 4096 fill the low bits of a page-aligned address. */
  lemma PageFlags(a: nat, flags: nat)
    requires a % 4096 == 0 && flags < 4096
    ensures BitOr(a, flags) == a + flags
  {
    TwelveBits(a / 4096);
    OrShifted(a / 4096, flags, 12);
  }

  /** The low-nibble and top-bit tests on a heap table entry. */
  lemma EntryBits(e: nat)
    requires e < 256
    ensures BitAnd(e, 0x0f) == e % 16
    ensures BitAnd(e, 0x80) == if e >= 128 then 128 else 0
  {
    hide BitAnd;
    assert Pow2(4) == 16 by { assert Pow2(2) == 4; }
    AndOnes(e, 4);
    var top := e / 128;
    ShiftBy7(e);
    AndShifted(e, 1, 7);
    assert Pow2(1) == 2;
    AndOnes(top, 1);
    ShiftBy7(top);
  }

  lemma ShiftBy7(x: nat)
    ensures Shl(x, 7) == 128 * x && Shr(x, 7) == x / 128
  {
    assert Shl(x, 1) == 2 * x;
    assert Shl(x, 3) == 8 * x;
    assert Shl(x, 5) == 32 * x;
    assert Shr(x / 64, 1) == x / 128;
    assert Shr(x / 16, 3) == x / 128;
    assert Shr(x / 4, 5) == x / 128;
  }

  /** Setting HAS_NEXT (0x80) or IS_FIRST (0x40) in an entry that lacks it. */
  lemma OrFlagBits(f: nat)
    ensures f < 128 ==> BitOr(0x80, f) == 0x80 + f
    ensures f < 64 ==> BitOr(0x40, f) == 0x40 + f
  {
    assert Pow2(3) == 8 && Pow2(6) == 64 && Pow2(7) == 128;
    ShiftBy7(1);
    assert Shl(1, 6) == 64 by { assert Shl(1, 3) == 8; }
    if f < 128 { OrShifted(1, f, 7); }
    if f < 64 { OrShifted(1, f, 6); }
  }

  /** Setting bit 1 (PAGING_IS_WRITEABLE). */
  lemma OrBit1(x: nat)
    ensures BitOr(x, 2) == if x / 2 % 2 == 1 then x else x + 2
  {
    if x != 0 {
      assert BitOr(x, 2) == 2 * BitOr(x / 2, 1) + x % 2;
      if x / 2 != 0 {
        assert BitOr(x / 2, 1) == 2 * BitOr(x / 4, 0) + 1;
        assert BitOr(x / 4, 0) == x / 4;
      }
    }
  }
}
