/** itoa (programs/stdlib/src/stdlib.c): the decimal form of a 32-bit int, built
    backwards in a 12-byte buffer. */
module Itoa {
  import opened Memory
  import Heap
  import opened CStrings

  const TEXT_SIZE := 12
  const ZERO := 48
  const MINUS: byte := 45

  type int32 = x: int | -0x8000_0000 <= x < 0x8000_0000

  // ---- Reading decimals ----

  predicate IsDigit(c: byte) {
    ZERO <= c <= ZERO + 9
  }

  function ReadDigits(s: seq<byte>): int {
    if s == [] then 0 else 10 * ReadDigits(s[..|s| - 1]) + (s[|s| - 1] - ZERO)
  }

  function ReadDecimal(s: seq<byte>): int {
    if s != [] && s[0] == MINUS then -ReadDigits(s[1..]) else ReadDigits(s)
  }

  /** Digits only, at least one, and no leading zero unless it is the only digit. */
  predicate PlainDigits(s: seq<byte>) {
    && s != [] && (forall k :: 0 <= k < |s| ==> IsDigit(s[k]))
    && (s[0] == ZERO ==> |s| == 1)
  }

  /** A decimal numeral in its only form: a minus sign exactly for negative numbers. */
  predicate Canonical(s: seq<byte>) {
    if s != [] && s[0] == MINUS then PlainDigits(s[1..]) && s[1] != ZERO else PlainDigits(s)
  }

  // ---- Writing them ----

  function Digits(n: nat): (s: seq<byte>)
    ensures n > 0 ==> s != []
    ensures forall k :: 0 <= k < |s| ==> IsDigit(s[k])
  {
    if n == 0 then [] else Digits(n / 10) + [ZERO + n % 10]
  }

  function Magnitude(i: int): nat {
    if i < 0 then -i else i
  }

  function Numeral(i: int): seq<byte> {
    if i == 0 then [ZERO] else if i > 0 then Digits(i) else [MINUS] + Digits(-i)
  }

  lemma {:induction false} DigitsRead(n: nat)
    ensures ReadDigits(Digits(n)) == n
    ensures n > 0 ==> Digits(n)[0] != ZERO
  {
    if n > 0 {
      DigitsRead(n / 10);
      var s := Digits(n);
      assert s[..|s| - 1] == Digits(n / 10);
      if n / 10 > 0 {
        assert s[0] == Digits(n / 10)[0];
      } else {
        assert Digits(0) == [];
      }
    }
  }

  function Power10(k: nat): (p: nat)
    ensures p >= 1
  {
    if k == 0 then 1 else 10 * Power10(k - 1)
  }

  lemma {:induction false} DigitsLength(n: nat, k: nat)
    requires n < Power10(k)
    ensures |Digits(n)| <= k
    decreases k
  {
    if n > 0 {
      DigitsLength(n / 10, k - 1);
    }
  }

  /** At most ten digits and a sign: with its terminator every int fits the buffer. */
  lemma NumeralFits(i: int32)
    ensures |Digits(Magnitude(i))| <= 10 && |Numeral(i)| <= TEXT_SIZE - 1
  {
    assert Power10(5) == 100000;
    assert Power10(10) == 10000000000;
    DigitsLength(Magnitude(i), 10);
  }

  lemma DigitsPlain(n: nat)
    requires n > 0
    ensures PlainDigits(Digits(n)) && Digits(n)[0] != ZERO
  {
    DigitsRead(n);
  }

  /** Reading a numeral as decimal gives the number back. */
  lemma NumeralReadsBack(i: int)
    ensures Canonical(Numeral(i)) && ReadDecimal(Numeral(i)) == i
  {
    if i == 0 {
      assert Numeral(i)[..0] == [];
      assert ReadDigits(Numeral(i)) == 10 * ReadDigits(Numeral(i)[..0]) + 0;
    } else {
      var n := if i > 0 then i else -i;
      DigitsRead(n);
      DigitsPlain(n);
      assert ([MINUS] + Digits(n))[1..] == Digits(n);
      assert IsDigit(Digits(n)[0]);
    }
  }

  lemma {:induction false} DigitsUnique(s: seq<byte>)
    requires s != [] ==> s[0] != ZERO
    requires forall k :: 0 <= k < |s| ==> IsDigit(s[k])
    ensures ReadDigits(s) >= 0 && (s != [] ==> ReadDigits(s) > 0) && s == Digits(ReadDigits(s))
    decreases |s|
  {
    if s != [] {
      var t, d := s[..|s| - 1], s[|s| - 1] - ZERO;
      DigitsUnique(t);
      var n := ReadDigits(t);
      assert ReadDigits(s) == 10 * n + d;
      assert (10 * n + d) / 10 == n && (10 * n + d) % 10 == d;
      if t == [] {
        assert s == [s[0]];
      }
      assert s == t + [ZERO + d];
    }
  }

  /** A canonical string that reads as `i` is the numeral of `i`. */
  lemma NumeralUnique(s: seq<byte>)
    requires Canonical(s)
    ensures s == Numeral(ReadDecimal(s))
  {
    if s[0] == MINUS {
      DigitsUnique(s[1..]);
      assert s == [MINUS] + s[1..];
    } else if s[0] == ZERO {
      assert s == [ZERO];
      assert s[..0] == [];
    } else {
      DigitsUnique(s);
    }
  }

  // ---- itoa ----

  /** C's remainder takes the sign of the dividend. */
  function Remainder(a: int, b: int): int
    requires b > 0
  {
    a - Heap.TruncDiv(a, b) * b
  }

  lemma DigitStep(n: int32)
    requires n < 0
    ensures 0 <= -Remainder(n, 10) <= 9
    ensures n < Heap.TruncDiv(n, 10) <= 0
    ensures Digits(Magnitude(n)) == Digits(Magnitude(Heap.TruncDiv(n, 10))) + [ZERO - Remainder(n, 10)]
  {
  }

  /** The loop of itoa: the digits of a number that is not positive, backwards
      from the end of the buffer. */
  method WriteDigits(value: int32, text: array<byte>) returns (loc: nat)
    requires text.Length == TEXT_SIZE && value <= 0
    modifies text
    ensures 1 <= loc <= 11 && (loc == 11 <==> value == 0)
    ensures text[loc..] == Digits(Magnitude(value)) + [0]
  {
    hide Digits, Heap.TruncDiv, Remainder, IsDigit, Numeral;
    NumeralFits(value);
    NoDigits();
    loc := 11;
    text[11] := 0;
    var i: int32 := value;
    while i != 0
      invariant i <= 0 && 1 <= loc <= 11
      invariant Digits(Magnitude(value)) + [0] == Digits(Magnitude(i)) + text[loc..]
      invariant text[11..] == [0]
      decreases Magnitude(i)
    {
      DigitStep(i);
      var digit := ZERO - Remainder(i, 10);
      OneBefore(text[..], loc, digit);
      loc := loc - 1;
      text[loc] := digit;
      i := Heap.TruncDiv(i, 10);
    }
  }

  /** The numeral of every 32-bit int, -2^31 included, ends at the buffer's end;
      the subset types check that no intermediate value leaves the int range. */
  method Itoa(value: int32, text: array<byte>) returns (loc: nat)
    requires text.Length == TEXT_SIZE
    modifies text
    ensures loc <= TEXT_SIZE && text[loc..] == Numeral(value) + [0]
    ensures CStringAt(text[..], loc, Numeral(value))
  {
    hide Digits, CStringAt, IsDigit;
    var neg := true;
    var i: int32 := value;
    if i >= 0 {
      neg := false;
      i := -i;
    }
    loc := WriteDigits(i, text);
    NoDigits();
    if loc == 11 {
      OneBefore(text[..], loc, ZERO);
      loc := loc - 1;
      text[loc] := ZERO;
    }
    if neg {
      OneBefore(text[..], loc, MINUS);
      loc := loc - 1;
      text[loc] := MINUS;
    }
    NoZeroByte(value);
    EndsThere(text[..], loc, Numeral(value));
  }

  lemma OneBefore(m: seq<byte>, loc: nat, c: byte)
    requires 1 <= loc <= |m|
    ensures m[loc - 1 := c][loc - 1..] == [c] + m[loc..]
  {
  }

  lemma NoDigits()
    ensures Digits(0) == []
  {
  }

  lemma NoZeroByte(i: int)
    ensures 0 !in Numeral(i)
  {
  }

  lemma EndsThere(m: seq<byte>, loc: nat, s: seq<byte>)
    requires loc <= |m| && m[loc..] == s + [0] && 0 !in s
    ensures CStringAt(m, loc, s)
  {
    assert m[loc + |s|] == m[loc..][|s|];
    assert m[loc..loc + |s|] == m[loc..][..|s|];
  }
}
