/** Rendering of 16-bit and 8-bit register values as strings of binary
    digits, most significant bit first (the `binstring` helpers used when
    logging controlwords, statuswords and modes of operation). */
module BinString {

  /** An unsigned 16-bit value. */
  newtype uint16 = x: int | 0 <= x < 0x1_0000

  /** A signed 8-bit value (two's complement). */
  newtype int8 = x: int | -0x80 <= x < 0x80

  function Pow2(k: nat): (r: nat)
    ensures r > 0
  {
    if k == 0 then 1 else 2 * Pow2(k - 1)
  }

  /** Bit k of x: the test `x & (1 << k)` on a non-negative value. */
  predicate BitSet(x: nat, k: nat)
  {
    (x / Pow2(k)) % 2 == 1
  }

  function Digit(b: bool): char
  {
    if b then '1' else '0'
  }

  /** The n lowest bits of x as binary digits, most significant first. */
  function Rendered(x: nat, n: nat): (s: string)
    ensures |s| == n
  {
    if n == 0 then "" else Rendered(x / 2, n - 1) + [Digit(x % 2 == 1)]
  }

  /** The number that a string of binary digits denotes, most significant first. */
  function Value(s: string): nat
  {
    if s == [] then 0 else 2 * Value(s[..|s| - 1]) + (if s[|s| - 1] == '1' then 1 else 0)
  }

  lemma DivisionUnique(x: nat, d: nat, q: nat, r: nat)
    requires d > 0 && r < d && x == d * q + r
    ensures x / d == q
  {
    var q', r' := x / d, x % d;
    assert x == d * q' + r';
    if q' > q {
      MultiplyMonotone(d, q + 1, q');
      assert false;
    } else if q' < q {
      MultiplyMonotone(d, q' + 1, q);
      assert false;
    }
  }

  lemma MultiplyMonotone(d: nat, a: nat, b: nat)
    requires a <= b
    ensures d * a <= d * b
  {
  }

  lemma Pow2Values()
    ensures Pow2(7) == 0x80 && Pow2(8) == 0x100 && Pow2(16) == 0x1_0000
  {
    assert Pow2(1) == 2 && Pow2(2) == 4 && Pow2(3) == 8 && Pow2(4) == 16;
    assert Pow2(5) == 32 && Pow2(6) == 64 && Pow2(7) == 128 && Pow2(8) == 256;
    assert Pow2(9) == 512 && Pow2(10) == 1024 && Pow2(11) == 2048 && Pow2(12) == 4096;
    assert Pow2(13) == 8192 && Pow2(14) == 16384 && Pow2(15) == 32768;
  }

  /** The top bit of a byte in two's complement is set exactly for negative values. */
  lemma SignBit(v: int8)
    ensures BitSet(v as int % 0x100, 7) <==> v < 0
  {
    Pow2Values();
    var b := v as int % 0x100;
    if v < 0 {
      assert b == v as int + 0x100;
      DivisionUnique(b, 0x80, 1, b - 0x80);
    } else {
      assert b == v as int;
      DivisionUnique(b, 0x80, 0, b);
    }
  }

  /** Halving first and then dividing by p is dividing by 2p. */
  lemma HalveThenDivide(x: nat, p: nat)
    requires p > 0
    ensures x / 2 / p == x / (2 * p)
  {
    var q, r := x / (2 * p), x % (2 * p);
    assert x == 2 * p * q + r;
    assert x == 2 * (p * q + r / 2) + r % 2;
    DivisionUnique(x, 2, p * q + r / 2, r % 2);
    assert r / 2 < p;
    DivisionUnique(x / 2, p, q, r / 2);
  }

  /** Bit k of x / 2 is bit k + 1 of x. */
  lemma HalfShiftsBits(x: nat, k: nat)
    ensures BitSet(x / 2, k) == BitSet(x, k + 1)
  {
    HalveThenDivide(x, Pow2(k));
  }

  /** Character i of the rendering is '1' exactly when bit n - 1 - i is set. */
  lemma {:induction false} RenderedAt(x: nat, n: nat, i: nat)
    requires i < n
    ensures Rendered(x, n)[i] == Digit(BitSet(x, n - 1 - i))
  {
    if i == n - 1 {
      assert Rendered(x, n)[i] == Digit(x % 2 == 1);
    } else {
      RenderedAt(x / 2, n - 1, i);
      HalfShiftsBits(x, n - 2 - i);
    }
  }

  /** Reading the rendering back gives the value, when it fits in n bits. */
  lemma {:induction false} RenderedValue(x: nat, n: nat)
    requires x < Pow2(n)
    ensures Value(Rendered(x, n)) == x
  {
    if n > 0 {
      var s := Rendered(x, n);
      assert s[..|s| - 1] == Rendered(x / 2, n - 1);
      RenderedValue(x / 2, n - 1);
    }
  }

  /** binstring(uint16_t): 16 characters, character i is '1' exactly when
      bit 15 - i of the value is set. */
  method BinString16(v: uint16) returns (s: string)
    ensures s == Rendered(v as int, 16)
    ensures |s| == 16
    ensures forall i :: 0 <= i < 16 ==> (s[i] == '1' <==> BitSet(v as int, 15 - i))
    ensures forall i :: 0 <= i < 16 ==> s[i] == '0' || s[i] == '1'
    ensures Value(s) == v as int
  {
    s := "0000000000000000";
    for i := 0 to 16
      invariant |s| == 16
      invariant forall j :: 0 <= j < i ==> s[j] == Digit(BitSet(v as int, 15 - j))
      invariant forall j :: i <= j < 16 ==> s[j] == '0'
    {
      if (v as int / Pow2(15 - i)) % 2 == 1 {
        s := s[i := '1'];
      }
    }
    forall i | 0 <= i < 16
      ensures s[i] == Rendered(v as int, 16)[i]
    {
      RenderedAt(v as int, 16, i);
    }
    Pow2Values();
    RenderedValue(v as int, 16);
  }

  /** binstring(int8_t): 8 characters over the two's-complement byte of the
      value; character i is '1' exactly when bit 7 - i is set, so the first
      character is the sign. */
  method BinString8(v: int8) returns (s: string)
    ensures s == Rendered(v as int % 0x100, 8)
    ensures |s| == 8
    ensures forall i :: 0 <= i < 8 ==> (s[i] == '1' <==> BitSet(v as int % 0x100, 7 - i))
    ensures forall i :: 0 <= i < 8 ==> s[i] == '0' || s[i] == '1'
    ensures Value(s) == v as int % 0x100
    ensures s[0] == '1' <==> v < 0
  {
    // `var & (1 << k)` on the sign-extended value tests bit k of its low byte.
    var b: nat := v as int % 0x100;
    s := "00000000";
    for i := 0 to 8
      invariant |s| == 8
      invariant forall j :: 0 <= j < i ==> s[j] == Digit(BitSet(b, 7 - j))
      invariant forall j :: i <= j < 8 ==> s[j] == '0'
    {
      if (b / Pow2(7 - i)) % 2 == 1 {
        s := s[i := '1'];
      }
    }
    forall i | 0 <= i < 8
      ensures s[i] == Rendered(b, 8)[i]
    {
      RenderedAt(b, 8, i);
    }
    Pow2Values();
    RenderedValue(b, 8);
    SignBit(v);
  }
}
