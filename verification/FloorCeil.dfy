/**
  floor and ceil by masking the fraction bits of a double.  Rounding away from zero adds one
  unit of the integer part to the bit pattern, and a carry out of the significand lands in the
  exponent.
 */
module FloorCeil {
  import opened Bits
  import opened Ieee
  import opened Words

  const ONE := Double(0x3ff0_0000, 0)

  function Times(n: nat, u: nat): nat { n * u }

  /** The value of d is a whole number. */
  ghost predicate Integral(d: Double) { exists n: nat :: Units(d) == Times(n, Units(ONE)) }

  /** z is the greatest integer not above x, with the sign bit of x. */
  ghost predicate IsFloor(x: Double, z: Double) {
    Finite(z) && Negative(z) == Negative(x) && Integral(z) && Value(z) <= Value(x) < Value(z) + Units(ONE)
  }

  /** z is the least integer not below x, with the sign bit of x. */
  ghost predicate IsCeil(x: Double, z: Double) {
    Finite(z) && Negative(z) == Negative(x) && Integral(z) && Value(z) - Units(ONE) < Value(x) <= Value(z)
  }

  // ---------------------------------------------------------------- masks

  /** And with the complement of a mask of p ones. */
  lemma AndNotMask(x: Word, p: nat, mask: nat)
    requires p <= 32 && mask == WORD - Pow2(p)
    ensures And(x, mask) == x - x % Pow2(p)
  {
    ComplementMask(p);
    AndKeepsHigh(x, p, mask, Pow2(32 - p) - 1);
  }

  lemma AndKeepsHigh(x: Word, p: nat, mask: nat, y: nat)
    requires p <= 32 && mask == Shl(y, p) && y == Pow2(32 - p) - 1
    ensures And(x, mask) == x - x % Pow2(p)
  {
    HighBitsKept(x, p);
    AndHigh(x, y, p);
    var r := ShrSplit(x, p);
  }

  lemma HighBitsKept(x: Word, p: nat)
    requires p <= 32
    ensures And(Shr(x, p), Pow2(32 - p) - 1) == Shr(x, p)
  {
    var r := ShrSplit(x, p);
    TopBits(Shr(x, p), 32 - p);
    AndMask(Shr(x, p), 32 - p);
    DivModUnique(Shr(x, p), Pow2(32 - p), 0, Shr(x, p));
  }

  lemma ComplementMask(p: nat)
    requires p <= 32
    ensures Pow2(p) <= WORD && Shl(Pow2(32 - p) - 1, p) == WORD - Pow2(p)
  {
    Pow2Values();
    Pow2Mono(p, 32);
    ShlPow2(32 - p, p);
    ShlOne(p);
    ShlAdd(Pow2(32 - p) - 1, 1, p);
  }

  // ---------------------------------------------------------------- rounding the bit pattern

  /** The pattern a with its low bits, which number log2(p), cleared, and one more unit added if asked for. */
  ghost function Rounded(a: int, p: nat, away: bool): int
    requires p > 0
  {
    a - a % p + (if away then p else 0)
  }

  /** Clears the low bits of w that are ones in the mask i. */
  method ClearBits(w: Word, i: nat, ghost p: nat) returns (r: nat)
    requires p <= 32 && i == Pow2(p) - 1
    ensures r <= w && r == w - w % Pow2(p)
  {
    ComplementMask(p);
    var mask := WORD - 1 - i;     // ~i
    AndNotMask(w, p, mask);
    r := And(w, mask);
  }

  /** Whether the bits of w that are ones in the mask i, and all bits of lo, are zero. */
  method NoFraction(w: Word, i: nat, lo: Word, ghost p: nat) returns (none: bool)
    requires i == Pow2(p) - 1
    ensures none <==> w % Pow2(p) == 0 && lo == 0
  {
    var f := LowBits(w, i, p);
    none := BothZero(f, lo);
  }

  /** The branch for exponents 0 to 19: the fraction takes up part of the high word and all of the low word. */
  method RoundHigh(hi: Word, lo: Word, j0: nat, away: bool) returns (same: bool, r0: nat, r1: nat)
    requires j0 < 20 && hi % SIGN < 0x7f00_0000
    ensures same <==> Pair(hi, lo) % Pow2(52 - j0) == 0
    ensures !same ==> r1 < WORD && Pair(r0, r1) == Rounded(Pair(hi, lo), Pow2(52 - j0), away)
  {
    var i, unit := HighMask(j0);
    HighPart(hi, lo, j0);
    same := NoFraction(hi, i, lo, 20 - j0);
    if same { return true, hi, lo; }
    r0, r1 := hi, 0;
    if away {
      r0 := r0 + unit;
      ModPlus(hi, unit);
    }
    r0 := ClearBits(r0, i, 20 - j0);
  }

  method HighMask(j0: nat) returns (i: nat, unit: nat)
    requires j0 < 20
    ensures unit == Pow2(20 - j0) && i == unit - 1 && unit <= 0x10_0000
  {
    Pow2Values();
    MaskShift(20 - j0, j0);
    Pow2Mono(20 - j0, 20);
    i, unit := Shr(0xf_ffff, j0), Shr(0x10_0000, j0);
  }

  lemma HighPart(hi: nat, lo: nat, j0: nat)
    requires lo < WORD && j0 <= 20
    ensures Pow2(52 - j0) == Pow2(20 - j0) * WORD
    ensures Pair(hi, lo) % Pow2(52 - j0) == Pair(hi % Pow2(20 - j0), lo)
  {
    Pow2Values();
    Pow2Add(20 - j0, 32);
    var k, r := DivMod(hi, Pow2(20 - j0));
    assert Pair(hi, lo) == k * (Pow2(20 - j0) * WORD) + Pair(r, lo) by {
      MulAssoc(k, Pow2(20 - j0), WORD);
    }
    DivModUnique(Pair(hi, lo), Pow2(52 - j0), k, Pair(r, lo));
  }

  lemma ModPlus(x: nat, p: nat)
    requires p > 0
    ensures (x + p) % p == x % p
  {
    var k, r := DivMod(x, p);
    DivModUnique(x + p, p, k + 1, r);
  }

  method LowMask(j0: nat) returns (i: nat)
    requires 20 <= j0 <= 51
    ensures i == Pow2(52 - j0) - 1
  {
    Pow2Values();
    MaskShift(52 - j0, j0 - 20);
    i := Shr(0xffff_ffff, j0 - 20);
  }

  lemma CarryAdd(lo: nat, unit: nat)
    requires lo < WORD && unit < WORD
    ensures lo + unit == (lo + unit) % WORD + (if (lo + unit) % WORD < lo then WORD else 0)
  {
  }

  /** Adds one unit of the integer part to the low word, with a carry into the high word. */
  method AddUnit(hi: Word, lo: Word, j0: nat) returns (r0: nat, r1: nat)
    requires 20 <= j0 <= 51
    ensures r0 <= hi + 1 && r1 < WORD && Pair(r0, r1) == Pair(hi, lo) + Pow2(52 - j0)
  {
    Pow2Values();
    r0, r1 := hi, lo;
    if j0 == 20 {
      r0 := r0 + 1;
    } else {
      var unit := Shl(1, 52 - j0);
      Pow2Mono(52 - j0, 31);
      ShlOne(52 - j0);
      r1 := (lo + unit) % WORD;
      CarryAdd(lo, unit);
      if r1 < lo { r0 := r0 + 1; }
    }
  }

  /** The branch for exponents 20 to 51: the fraction is in the low word. */
  method RoundLow(hi: Word, lo: Word, j0: nat, away: bool) returns (same: bool, r0: nat, r1: nat)
    requires 20 <= j0 <= 51 && hi % SIGN < 0x7f00_0000
    ensures same <==> Pair(hi, lo) % Pow2(52 - j0) == 0
    ensures !same ==> r1 < WORD && Pair(r0, r1) == Rounded(Pair(hi, lo), Pow2(52 - j0), away)
  {
    var i := LowMask(j0);
    LowPart(hi, lo, 52 - j0);
    same := NoFraction(lo, i, 0, 52 - j0);
    if same { return true, hi, lo; }
    r0, r1 := hi, lo;
    if away {
      r0, r1 := AddUnit(hi, lo, j0);
      ModPlus(Pair(hi, lo), Pow2(52 - j0));
      LowPart(r0, r1, 52 - j0);
    }
    r1 := ClearBits(r1, i, 52 - j0);
  }

  lemma LowPart(hi: nat, lo: nat, p: nat)
    requires p <= 32
    ensures Pair(hi, lo) % Pow2(p) == lo % Pow2(p)
  {
    Pow2Values();
    Pow2Add(32 - p, p);
    var k, r := DivMod(lo, Pow2(p));
    assert Pair(hi, lo) == (hi * Pow2(32 - p) + k) * Pow2(p) + r by {
      MulAssoc(hi, Pow2(32 - p), Pow2(p));
      Distribute(hi * Pow2(32 - p), k, Pow2(p));
    }
    DivModUnique(Pair(hi, lo), Pow2(p), hi * Pow2(32 - p) + k, r);
  }

  // ---------------------------------------------------------------- values

  /** One, as seen from a significand whose last 52 - j bits are its fraction. */
  lemma OneAt(j: nat)
    requires j <= 52
    ensures Units(ONE) == Shl(Pow2(52 - j), j + 1022)
  {
    Pow2Values();
    assert Expo(ONE) == 1023 && Frac(ONE) == 0;
    ShlPow2(52 - j, j);
    ShlShl(Pow2(52 - j), j, 1022);
  }

  /** A significand divided into its integer part, a multiple of p, and its fraction. */
  lemma SplitSignificand(f: nat, j: nat) returns (q: nat, r: nat)
    requires j <= 52 && f < HIDDEN
    ensures HIDDEN + f == q * Pow2(52 - j) + r && r < Pow2(52 - j)
    ensures HIDDEN <= q * Pow2(52 - j) && q * Pow2(52 - j) + Pow2(52 - j) <= 2 * HIDDEN
  {
    Pow2Values();
    Pow2Add(j, 52 - j);
    q, r := DivMod(f, Pow2(52 - j));
    SplitSum(f, Pow2(52 - j), Pow2(j), q, r);
    q := Pow2(j) + q;
  }

  lemma SplitSum(f: nat, p: nat, c: nat, q: nat, r: nat)
    requires f < c * p && f == q * p + r && p > 0
    ensures c * p + f == (c + q) * p + r
    ensures c * p <= (c + q) * p && (c + q) * p + p <= 2 * (c * p)
  {
    if q >= c { MulMono(c, q, p); }
    MulMono(q + 1, c, p);
    Distribute(q, 1, p);
    Distribute(c, q, p);
  }

  lemma PatternMod(a: nat, b: nat, j: nat, q: nat, r: nat)
    requires j <= 52 && r < Pow2(52 - j) && a == q * Pow2(52 - j) + r + b * HIDDEN
    ensures a % Pow2(52 - j) == r
  {
    var p, c := Pow2(52 - j), Pow2(j);
    Pow2Values();
    Pow2Add(j, 52 - j);
    MulAssoc(b, c, p);
    Distribute(q, b * c, p);
    DivModUnique(a, p, q + b * c, r);
  }

  /** The rounded pattern and its value, as multiples of p. */
  lemma RoundedUnits(x: Double, z: Double, j: nat, away: bool) returns (q: nat, r: nat, p: nat, m: nat)
    requires j < 52 && Expo(x) == j + 1023
    requires Pair(x.hi, x.lo) % Pow2(52 - j) != 0
    requires Pair(z.hi, z.lo) == Rounded(Pair(x.hi, x.lo), Pow2(52 - j), away)
    ensures Finite(z) && Negative(z) == Negative(x) && p == Pow2(52 - j) && 0 < r < p
    ensures m == q * p && Units(x) == Shl(m + r, j + 1022)
    ensures Units(z) == Shl(if away then m + p else m, j + 1022)
  {
    p := Pow2(52 - j);
    q, r := SplitSignificand(Frac(x), j);
    m := q * p;
    SignedPattern(x);
    PatternMod(Pair(x.hi, x.lo), Expo(x) - 1 + (if Negative(x) then 0x800 else 0), j, q, r);
    var s := if away then q * p + p else q * p;
    SignKept(x, z, s);
    PatternUnits(z, s, Expo(x));
    Distribute(q, 1, p);
  }

  /** The rounded pattern is that of an integer, and x lies between it and the next one towards zero. */
  lemma RoundedValue(x: Double, z: Double, j: nat, away: bool)
    requires j < 52 && Expo(x) == j + 1023
    requires Pair(x.hi, x.lo) % Pow2(52 - j) != 0
    requires Pair(z.hi, z.lo) == Rounded(Pair(x.hi, x.lo), Pow2(52 - j), away)
    ensures Finite(z) && Negative(z) == Negative(x) && Integral(z)
    ensures away ==> Units(z) - Units(ONE) < Units(x) < Units(z)
    ensures !away ==> Units(z) < Units(x) < Units(z) + Units(ONE)
  {
    var q, r, p, m := RoundedUnits(x, z, j, away);
    OneAt(j);
    RoundedDouble(Units(x), z, q, r, p, j + 1022, away, m);
  }

  lemma RoundedDouble(ux: nat, z: Double, q: nat, r: nat, p: nat, k: nat, away: bool, m: nat)
    requires m == q * p && ux == Shl(m + r, k) && Units(z) == Shl(if away then m + p else m, k)
    requires Units(ONE) == Shl(p, k) && 0 < r < p
    ensures Integral(z)
    ensures if away then Units(z) - Units(ONE) < ux < Units(z) else Units(z) < ux < Units(z) + Units(ONE)
  {
    var uz, one := Units(z), Units(ONE);
    RoundedNumber(ux, uz, one, q, r, p, k, away, m);
    assert Units(z) == Times(if away then q + 1 else q, Units(ONE));
  }

  lemma RoundedNumber(ux: nat, uz: nat, one: nat, q: nat, r: nat, p: nat, k: nat, away: bool, m: nat)
    requires m == q * p && ux == Shl(m + r, k) && uz == Shl(if away then m + p else m, k)
    requires one == Shl(p, k) && 0 < r < p
    ensures uz == Times(if away then q + 1 else q, one)
    ensures if away then uz - one < ux < uz else uz < ux < uz + one
  {
    if away {
      Distribute(q, 1, p);
      Whole(q + 1, p, k, m + p);
    } else {
      Whole(q, p, k, m);
    }
    Between(m, r, p, k);
  }

  lemma SignKept(x: Double, z: Double, s: nat)
    requires 0 < Expo(x) < 0x7fe && HIDDEN <= s <= 2 * HIDDEN
    requires Pair(z.hi, z.lo) == s + (Expo(x) - 1) * HIDDEN + (if Negative(x) then 0x800 * HIDDEN else 0)
    ensures Negative(z) == Negative(x)
  {
  }

  lemma Whole(q: nat, p: nat, k: nat, qp: nat)
    requires qp == q * p
    ensures Shl(qp, k) == Times(q, Shl(p, k))
  {
    ShlTimes(p, q, k, qp);
  }

  lemma Between(a: nat, r: nat, p: nat, k: nat)
    requires 0 < r < p
    ensures Shl(a, k) < Shl(a + r, k) < Shl(a, k) + Shl(p, k) == Shl(a + p, k)
  {
    ShlLess(a, a + r, k);
    ShlLess(a + r, a + p, k);
    ShlAdd(a, p, k);
  }

  lemma AlreadyWhole(x: Double, j: nat)
    requires j <= 52 && Expo(x) == j + 1023 && Pair(x.hi, x.lo) % Pow2(52 - j) == 0
    ensures Integral(x)
  {
    var q, r := SplitSignificand(Frac(x), j);
    SignedPattern(x);
    PatternMod(Pair(x.hi, x.lo), Expo(x) - 1 + (if Negative(x) then 0x800 else 0), j, q, r);
    OneAt(j);
    Whole(q, Pow2(52 - j), j + 1022, q * Pow2(52 - j));
  }

  lemma LargeWhole(x: Double)
    requires 1023 + 52 <= Expo(x)
    ensures Integral(x)
  {
    var e, s, j := Expo(x), HIDDEN + Frac(x), 52;
    OneAt(j);
    ShlShl(s, e - 1075, j + 1022);
    Whole(Shl(s, e - 1075), Pow2(52 - j), j + 1022, Shl(s, e - 1075) * Pow2(52 - j));
    assert Units(x) == Times(Shl(s, e - 1075), Units(ONE));
  }

  lemma BelowOne(x: Double)
    requires Expo(x) < 1023
    ensures Units(x) < Units(ONE)
  {
    OneAt(0);
    Pow2Values();
    Finer(x, 1022);
  }

  // ---------------------------------------------------------------- floor and ceil

  method UnbiasedExponent(x: Double) returns (j0: int)
    ensures j0 == Expo(x) - 1023
  {
    Pow2Values();
    ShrDiv(x.hi, 20);
    AndMask(Shr(x.hi, 20), 11);
    j0 := And(Shr(x.hi, 20), 0x7ff) - 0x3ff;
  }

  /** The absolute value of x rounded away from zero or towards it. */
  ghost predicate RoundedTo(x: Double, z: Double, away: bool) {
    && Finite(z) && Negative(z) == Negative(x) && Integral(z)
    && (away ==> Units(z) - Units(ONE) < Units(x) <= Units(z))
    && (!away ==> Units(z) <= Units(x) < Units(z) + Units(ONE))
  }

  /** The branches for numbers from 1 up to 2^52. */
  method RoundMiddle(x: Double, j0: nat, away: bool) returns (z: Double)
    requires j0 <= 51 && Expo(x) == j0 + 1023
    ensures RoundedTo(x, z, away)
  {
    Fields(x);
    var same, r0, r1;
    if j0 < 20 {
      same, r0, r1 := RoundHigh(x.hi, x.lo, j0, away);
    } else {
      same, r0, r1 := RoundLow(x.hi, x.lo, j0, away);
    }
    if same {
      AlreadyWhole(x, j0);
      OnePositive();
      return x;
    }
    NoOverflow(x, r0, r1, j0, away);
    z := Double(r0, r1);
    RoundedValue(x, z, j0, away);
  }

  lemma OnePositive()
    ensures Units(ONE) > 0
  {
    ZeroUnits(ONE);
  }

  lemma NoOverflow(x: Double, r0: nat, r1: nat, j0: nat, away: bool)
    requires j0 <= 51 && x.hi % SIGN < 0x7f00_0000 && r1 < WORD
    requires Pair(r0, r1) == Rounded(Pair(x.hi, x.lo), Pow2(52 - j0), away)
    ensures r0 < WORD
  {
    Pow2Values();
    Pow2Mono(52 - j0, 52);
    var k, m := DivMod(x.hi * WORD + x.lo, Pow2(52 - j0));
  }

  /** The integral numbers are their own floor and ceil. */
  lemma WholeIsRounded(x: Double)
    requires Finite(x) && Integral(x)
    ensures IsFloor(x, x) && IsCeil(x, x)
  {
    OnePositive();
  }

  lemma SmallFloor(x: Double)
    requires Expo(x) < 1023
    ensures !Negative(x) ==> IsFloor(x, Double(0, 0))
    ensures Negative(x) && Units(x) > 0 ==> IsFloor(x, Double(0xbff0_0000, 0))
    ensures Units(x) == 0 ==> IsFloor(x, x)
  {
    BelowOne(x);
    Constants();
    assert Units(x) == 0 ==> Units(x) == Times(0, Units(ONE));
  }

  lemma SmallCeil(x: Double)
    requires Expo(x) < 1023
    ensures Negative(x) ==> IsCeil(x, Double(0x8000_0000, 0))
    ensures !Negative(x) && Units(x) > 0 ==> IsCeil(x, ONE)
    ensures Units(x) == 0 ==> IsCeil(x, x)
  {
    BelowOne(x);
    Constants();
    assert Units(x) == 0 ==> Units(x) == Times(0, Units(ONE));
  }

  /** The constants 0, -0, 1 and -1. */
  lemma Constants()
    ensures Units(Double(0, 0)) == 0 && Finite(Double(0, 0)) && Integral(Double(0, 0))
    ensures Units(Double(0x8000_0000, 0)) == 0 && Finite(Double(0x8000_0000, 0)) && Integral(Double(0x8000_0000, 0))
    ensures Units(Double(0xbff0_0000, 0)) == Units(ONE) > 0
    ensures Finite(Double(0xbff0_0000, 0)) && Integral(Double(0xbff0_0000, 0)) && Finite(ONE) && Integral(ONE)
  {
    OnePositive();
    ZeroConstant(Double(0, 0));
    ZeroConstant(Double(0x8000_0000, 0));
    NegatedUnits(ONE);
    OneConstant(ONE);
    OneConstant(Negated(ONE));
  }

  lemma ZeroConstant(x: Double)
    requires x.hi % SIGN == 0 && x.lo == 0
    ensures Units(x) == 0 && Finite(x) && Integral(x)
  {
    Fields(x);
    ZeroUnits(x);
    assert Units(x) == Times(0, Units(ONE));
  }

  lemma OneConstant(x: Double)
    requires Expo(x) == 0x3ff && Units(x) == Units(ONE)
    ensures Finite(x) && Integral(x)
  {
    assert Units(x) == Times(1, Units(ONE));
  }

  lemma LargeIsRounded(x: Double)
    requires 1023 + 52 <= Expo(x) && Finite(x)
    ensures IsFloor(x, x) && IsCeil(x, x)
  {
    LargeWhole(x);
    WholeIsRounded(x);
  }

  method FloorBelowOne(x: Double) returns (z: Double)
    requires Expo(x) < 1023
    ensures IsFloor(x, z)
  {
    SmallFloor(x);
    var zero := IsZero(x);
    if x.hi < SIGN { return Double(0, 0); }
    if !zero { return Double(0xbff0_0000, 0); }
    z := x;
  }

  method CeilBelowOne(x: Double) returns (z: Double)
    requires Expo(x) < 1023
    ensures IsCeil(x, z)
  {
    SmallCeil(x);
    var zero := IsZero(x);
    if x.hi >= SIGN { return Double(0x8000_0000, 0); }
    if !zero { return Double(0x3ff0_0000, 0); }
    z := x;
  }

  /** floor */
  method Floor(x: Double) returns (r: Result)
    ensures IsNan(x) ==> r == Nan
    ensures Infinite(x) ==> r == Number(x)
    ensures Finite(x) ==> r.Number? && IsFloor(x, r.d)
  {
    var j0 := UnbiasedExponent(x);
    if j0 < 0 {
      var small := FloorBelowOne(x);
      return Number(small);
    }
    if j0 > 51 {
      if j0 == 0x400 { return if Frac(x) == 0 then Number(x) else Nan; }   // x + x
      LargeIsRounded(x);
      return Number(x);
    }
    var z := RoundMiddle(x, j0, x.hi >= SIGN);
    r := Number(z);
  }

  /** ceil */
  method Ceil(x: Double) returns (r: Result)
    ensures IsNan(x) ==> r == Nan
    ensures Infinite(x) ==> r == Number(x)
    ensures Finite(x) ==> r.Number? && IsCeil(x, r.d)
  {
    var j0 := UnbiasedExponent(x);
    if j0 < 0 {
      var small := CeilBelowOne(x);
      return Number(small);
    }
    if j0 > 51 {
      if j0 == 0x400 { return if Frac(x) == 0 then Number(x) else Nan; }   // x + x
      LargeIsRounded(x);
      return Number(x);
    }
    var z := RoundMiddle(x, j0, 0 < x.hi < SIGN);
    r := Number(z);
  }

  // ---------------------------------------------------------------- what the results mean

  function Negated(x: Double): Double {
    if x.hi >= SIGN then Double(x.hi - SIGN, x.lo) else Double(x.hi + SIGN, x.lo)
  }

  lemma NegatedUnits(x: Double)
    ensures Expo(Negated(x)) == Expo(x) && Units(Negated(x)) == Units(x)
    ensures Negative(Negated(x)) != Negative(x) && Negated(Negated(x)) == x
  {
    if x.hi >= SIGN { SignBit(x.hi - SIGN, x.lo); } else { SignBit(x.hi, x.lo); }
  }

  /** No integer lies between the floor of x and x. */
  lemma FloorIsGreatest(x: Double, z: Double, n: int)
    requires IsFloor(x, z) && n * Units(ONE) <= Value(x)
    ensures n * Units(ONE) <= Value(z)
  {
    var m: nat :| Units(z) == Times(m, Units(ONE));
    NoMultipleBetween(Negative(z), m, n, Units(ONE), Value(x));
  }

  lemma NoMultipleBetween(negative: bool, m: nat, n: int, u: nat, w: int)
    requires var v := if negative then -1 * Times(m, u) else Times(m, u); n * u <= w < v + u
    ensures n * u <= if negative then -1 * Times(m, u) else Times(m, u)
  {
    var k: int := if negative then -1 * m else m;
    assert k * u == if negative then -1 * Times(m, u) else Times(m, u);
    if n > k {
      MulMono(k + 1, n, u);
      Distribute(k, 1, u);
    } else {
      MulMono(n, k, u);
    }
  }

  /** A finite double is determined by its sign and its value. */
  lemma UnitsDetermine(a: Double, b: Double)
    requires Negative(a) == Negative(b) && Units(a) == Units(b)
    ensures a == b
  {
    var a', b' := if Negative(a) then Negated(a) else a, if Negative(b) then Negated(b) else b;
    NegatedUnits(a);
    NegatedUnits(b);
    if Pair(a'.hi, a'.lo) < Pair(b'.hi, b'.lo) {
      UnitsMono(a', b');
    } else if Pair(b'.hi, b'.lo) < Pair(a'.hi, a'.lo) {
      UnitsMono(b', a');
    }
  }

  lemma FloorUnique(x: Double, z: Double, w: Double)
    requires IsFloor(x, z) && IsFloor(x, w)
    ensures z == w
  {
    var u := Units(ONE);
    var m: nat :| Units(z) == Times(m, u);
    var n: nat :| Units(w) == Times(n, u);
    SmallMultiple(m - n, u, Units(z) - Units(w)) by {
      OnePositive();
      Distribute(m - n, n, u);
    }
    UnitsDetermine(z, w);
  }

  /** ceil(x) is bit for bit -floor(-x). */
  lemma CeilIsNegatedFloor(x: Double, z: Double, w: Double)
    requires IsCeil(x, z) && IsFloor(Negated(x), w)
    ensures z == Negated(w)
  {
    NegatedUnits(x);
    NegatedUnits(z);
    var n: nat :| Units(z) == Times(n, Units(ONE));
    assert Units(Negated(z)) == Times(n, Units(ONE));
    FloorUnique(Negated(x), Negated(z), w);
    NegatedUnits(z);
  }
}
