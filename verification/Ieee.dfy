/**
  IEEE 754 double-precision numbers as pairs of 32-bit words, and their exact values: every
  finite double is a whole number of units of 2^-1074, the smallest subnormal number.
 */
module Ieee {
  import opened Bits

  type Word = x: int | 0 <= x < 0x1_0000_0000

  datatype Double = Double(hi: Word, lo: Word)

  /** The outcome of an operation; the payload of a NaN is not modelled. */
  datatype Result = Nan | Number(d: Double)

  const HIDDEN := 0x10_0000_0000_0000

  function Pair(hi: int, lo: int): int { hi * WORD + lo }

  predicate Negative(d: Double) { d.hi >= SIGN }

  function Expo(d: Double): (e: nat)
    ensures e < 0x800
  {
    d.hi / 0x10_0000 % 0x800
  }

  function Frac(d: Double): (f: nat)
    ensures f < HIDDEN
  {
    Pair(d.hi % 0x10_0000, d.lo)
  }

  predicate Finite(d: Double) { Expo(d) < 0x7ff }

  predicate IsNan(d: Double) { Expo(d) == 0x7ff && Frac(d) != 0 }

  predicate Infinite(d: Double) { Expo(d) == 0x7ff && Frac(d) == 0 }

  /** The significand and the exponent of its last place, counted from 2^-1074. */
  function Scaled(e: nat, f: nat): (u: nat) {
    if e == 0 then f else Shl(HIDDEN + f, e - 1)
  }

  /** The absolute value of a finite double in units of 2^-1074. */
  function Units(d: Double): (u: nat) { Scaled(Expo(d), Frac(d)) }

  /** The value of a finite double in units of 2^-1074. */
  function Value(d: Double): int {
    var u: int := Units(d);
    if Negative(d) then -u else u
  }

  /** The fields of the high word. */
  lemma Fields(d: Double)
    ensures d.hi % SIGN == Expo(d) * 0x10_0000 + d.hi % 0x10_0000
  {
    var t := d.hi / 0x10_0000;
    assert d.hi == t * 0x10_0000 + d.hi % 0x10_0000;
    assert t == t / 0x800 * 0x800 + Expo(d);
    DivModUnique(d.hi, SIGN, t / 0x800, Expo(d) * 0x10_0000 + d.hi % 0x10_0000);
  }

  /** The order of the bit patterns of non-negative finite doubles is the order of their values. */
  lemma UnitsMono(a: Double, b: Double)
    requires !Negative(a) && !Negative(b) && Pair(a.hi, a.lo) < Pair(b.hi, b.lo)
    ensures Units(a) < Units(b)
  {
    AbsolutePattern(a.hi, a.lo);
    AbsolutePattern(b.hi, b.lo);
    var e, f, e', f' := Expo(a), Frac(a), Expo(b), Frac(b);
    assert e * HIDDEN + f < e' * HIDDEN + f';
    if e == e' {
      if e > 0 { ShlLess(HIDDEN + f, HIDDEN + f', e - 1); }
    } else {
      Finer(a, e' - 1);
      ShlMono(HIDDEN, HIDDEN + f', e' - 1);
    }
  }

  /** The sign bit does not affect the absolute value. */
  lemma SignBit(h: nat, l: nat)
    requires h < SIGN && l < WORD
    ensures Expo(Double(h + SIGN, l)) == Expo(Double(h, l)) && Frac(Double(h + SIGN, l)) == Frac(Double(h, l))
  {
    assert (h + SIGN) / 0x10_0000 == h / 0x10_0000 + 0x800 && h / 0x10_0000 < 0x800;
    assert (h + SIGN) % 0x10_0000 == h % 0x10_0000;
  }

  lemma ZeroUnits(d: Double)
    ensures Units(d) == 0 <==> d.hi % SIGN == 0 && d.lo == 0
  {
    Fields(d);
  }

  /** The bit pattern of a non-negative double. */
  lemma AbsolutePattern(h: nat, l: nat)
    requires h < SIGN && l < WORD
    ensures Pair(h, l) == Expo(Double(h, l)) * HIDDEN + Frac(Double(h, l))
  {
    Fields(Double(h, l));
  }

  lemma SignedPattern(z: Double)
    ensures Pair(z.hi, z.lo) == Expo(z) * HIDDEN + Frac(z) + (if Negative(z) then 0x800 * HIDDEN else 0)
  {
    if Negative(z) {
      AbsolutePattern(z.hi - SIGN, z.lo);
      SignBit(z.hi - SIGN, z.lo);
    } else {
      AbsolutePattern(z.hi, z.lo);
    }
  }

  /** The exponent added to a full significand: a carry out of the significand lands in the exponent. */
  lemma PatternUnits(z: Double, s: nat, e: nat)
    requires 0 < e < 0x7ff && HIDDEN <= s <= 2 * HIDDEN && (s == 2 * HIDDEN ==> e < 0x7fe)
    requires Pair(z.hi, z.lo) == s + (e - 1) * HIDDEN + (if Negative(z) then 0x800 * HIDDEN else 0)
    ensures Finite(z) && Units(z) == Shl(s, e - 1)
  {
    SignedPattern(z);
    PatternFields(Expo(z), Frac(z), s, e);
    if s == 2 * HIDDEN { ShlTwice(HIDDEN, e); }
  }

  lemma PatternFields(e': nat, f': nat, s: nat, e: nat)
    requires f' < HIDDEN && HIDDEN <= s <= 2 * HIDDEN && e' * HIDDEN + f' == s + (e - 1) * HIDDEN
    ensures s < 2 * HIDDEN ==> e' == e && f' == s - HIDDEN
    ensures s == 2 * HIDDEN ==> e' == e + 1 && f' == 0
  {
  }

  /** No double lies strictly between s * 2^k and its neighbours, for a full significand s. */
  lemma NeighbourAbove(d: Double, s: nat, k: nat)
    requires HIDDEN <= s && Units(d) > Shl(s, k)
    requires s <= 2 * HIDDEN
    ensures Units(d) >= Shl(s + 1, k)
  {
    var e, f := Expo(d), Frac(d);
    if e > k {
      Coarser(HIDDEN + f, e - 1, s, k);
    } else {
      Finer(d, k);
      ShlMono(HIDDEN, s, k);
    }
  }

  lemma NeighbourBelow(d: Double, s: nat, k: nat)
    requires HIDDEN <= s && Units(d) < Shl(s, k)
    ensures s > HIDDEN ==> Units(d) <= Shl(s - 1, k)
    ensures k > 0 ==> Units(d) <= Shl(2 * s - 1, k - 1)
  {
    var e, f := Expo(d), Frac(d);
    if e > k {
      Coarser(HIDDEN + f, e - 1, s, k);
      if k > 0 {
        ShlTwice(s - 1, k);
        ShlMono(2 * (s - 1), 2 * s - 1, k - 1);
      }
    } else {
      Finer(d, k);
      if s > HIDDEN { ShlMono(HIDDEN, s - 1, k); }
      if k > 0 { ShlMono(2 * HIDDEN - 1, 2 * s - 1, k - 1); }
    }
  }

  /** Multiples of 2^j with j >= k are separated by at least 2^k. */
  lemma Coarser(x: nat, j: nat, s: nat, k: nat)
    requires j >= k
    ensures Shl(x, j) > Shl(s, k) ==> Shl(x, j) >= Shl(s + 1, k)
    ensures Shl(x, j) < Shl(s, k) ==> s > 0 && Shl(x, j) <= Shl(s - 1, k)
  {
    var y := Shl(x, j - k);
    ShlShl(x, j - k, k);
    if y > s {
      ShlMono(s, s + 1, k);
      ShlMono(s + 1, y, k);
    } else if y < s {
      ShlMono(y, s - 1, k);
      ShlMono(s - 1, s, k);
    }
  }

  /** A double with a smaller exponent is below 2^52 * 2^k, and by at least half of 2^k. */
  lemma Finer(d: Double, k: nat)
    requires Expo(d) <= k
    ensures Units(d) < Shl(HIDDEN, k)
    ensures k > 0 ==> Units(d) <= Shl(2 * HIDDEN - 1, k - 1)
  {
    var e, f := Expo(d), Frac(d);
    if k == 0 {
      assert Shl(HIDDEN, 0) == HIDDEN;
    } else {
      ShlTwice(HIDDEN, k);
      ShlAdd(2 * HIDDEN - 1, 1, k - 1);
      if e > 0 {
        ShlMono(HIDDEN + f, 2 * HIDDEN - 1, e - 1);
        ShlLonger(2 * HIDDEN - 1, e - 1, k - 1);
      } else {
        ShlMono(HIDDEN, 2 * HIDDEN - 1, k - 1);
      }
    }
  }
}
