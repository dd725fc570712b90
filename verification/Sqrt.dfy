/**
  __ieee754_sqrt: the square root by shift and subtract on two 32-bit words.  The loops compute
  the integer square root of the scaled significand together with its remainder, and the result
  is the double nearest to the real square root.
 */
module Sqrt {
  import opened Bits
  import opened Ieee
  import opened Words

  const LIMIT := 0x40_0000_0000_0000   // 2^54

  // ---------------------------------------------------------------- normalisation

  /** The loop that skips empty high words: the pair is shifted by 21 each time. */
  method SkipEmptyWords(hi: nat, lo: nat) returns (m: int, ix0: nat, ix1: nat)
    requires hi < 0x10_0000 && lo < WORD && Pair(hi, lo) > 0
    ensures -42 <= m <= 0 && 0 < ix0 < 0x20_0000 && ix1 < WORD
    ensures Pair(ix0, ix1) == Shl(hi * WORD + lo, -m)
  {
    m, ix0, ix1 := 0, hi, lo;
    while ix0 == 0
      invariant m == 0 || m == -21 || m == -42
      invariant ix0 < 0x20_0000 && ix1 < WORD
      invariant Pair(ix0, ix1) == Shl(hi * WORD + lo, -m)
      decreases m + 42
    {
      AtMostTwice(hi * WORD + lo, -m, ix1);
      ix0, ix1 := ShiftIn(ix0, ix1, 21, 0);
      m := m - 21;
    }
  }

  lemma AtMostTwice(v: nat, k: nat, l: nat)
    requires v > 0 && l < WORD && l == Shl(v, k)
    ensures k < 42 && Shl(0, 21) == 0 && Shl(l, 21) == Shl(v, k + 21) < 0x20_0000 * WORD
  {
    Pow2Values();
    ShlShl(v, k, 21);
    ShlMul(l, 21);
    ShlMul(0, 21);
    ShlMono(1, v, k);
    ShlOne(k);
    if k >= 42 { Pow2Mono(32, k); }
  }

  lemma Bit20(ix0: nat)
    requires ix0 < 0x20_0000
    ensures And(ix0, 0x10_0000) == 0 <==> ix0 < 0x10_0000
  {
    Pow2Values();
    AndBit(ix0, 20);
    ShrDiv(ix0, 20);
    ShlMul(Shr(ix0, 20) % 2, 20);
  }

  /** The loop that brings the leading one to bit 20. */
  method ShiftToBit20(h: nat) returns (ix0: nat, i: nat)
    requires 0 < h < 0x20_0000
    ensures i <= 20 && ix0 == Shl(h, i) && 0x10_0000 <= ix0 < 0x20_0000
  {
    ix0, i := h, 0;
    Bit20(ix0);
    while And(ix0, 0x10_0000) == 0
      invariant ix0 == Shl(h, i) && 0 < ix0 < 0x20_0000 && Pow2(i) <= ix0
      invariant And(ix0, 0x10_0000) == 0 <==> ix0 < 0x10_0000
      decreases 0x20_0000 - ix0
    {
      ix0 := 2 * ix0;
      i := i + 1;
      Bit20(ix0);
    }
    Pow2Values();
    if i > 20 { Pow2Mono(21, i); }
  }

  /** u units are v * 2^(m - 1) of them. */
  ghost predicate Scaled(u: nat, v: nat, m: int) { if m >= 1 then u == Shl(v, m - 1) else Shl(u, 1 - m) == v }

  /** Subnormal arguments are shifted until the leading one is at bit 20 of the high word. */
  method NormalizeSubnormal(hi: nat, lo: nat) returns (m: int, ix0: nat, ix1: nat)
    requires hi < 0x10_0000 && lo < WORD && Pair(hi, lo) > 0
    ensures 0x10_0000 <= ix0 < 0x20_0000 && ix1 < WORD && -61 <= m <= 1
    ensures Scaled(Units(Double(hi, lo)), Pair(ix0, ix1), m)
  {
    m, ix0, ix1 := SkipEmptyWords(hi, lo);
    ghost var h, l, m0 := ix0, ix1, m;
    var i;
    ix0, i := ShiftToBit20(ix0);
    m := m - i + 1;
    ix0, ix1 := ShiftIn(ix0, ix1, i, h);
    SubnormalUnits(Double(hi, lo), m0, i, Pair(h, l), Pair(ix0, ix1));
    PairBelow(h, l, i);
  }

  /**
    Normalisation: the value of the argument is ix0:ix1 * 2^(m - 1075) with a full significand,
    for normal and for subnormal arguments.
   */
  method Normalize(hi: nat, lo: nat) returns (m: int, ix0: nat, ix1: nat)
    requires hi < 0x7ff0_0000 && lo < WORD && Pair(hi, lo) > 0
    ensures 0x10_0000 <= ix0 < 0x20_0000 && ix1 < WORD && -61 <= m <= 2046
    ensures Scaled(Units(Double(hi, lo)), Pair(ix0, ix1), m)
  {
    m := HighBits(hi);
    ix0, ix1 := hi, lo;
    if m == 0 {
      m, ix0, ix1 := NormalizeSubnormal(hi, lo);
    } else {
      NormalUnits(Double(hi, lo), m);
    }
    ix0 := LeadingOne(ix0);
  }

  method HighBits(hi: nat) returns (m: nat)
    ensures m == hi / 0x10_0000
  {
    Pow2Values();
    ShrDiv(hi, 20);
    m := Shr(hi, 20);
  }

  lemma NormalUnits(x: Double, m: nat)
    requires m == Expo(x) > 0
    ensures Scaled(Units(x), Pair(0x10_0000 + x.hi % 0x10_0000, x.lo), m)
  {
    assert HIDDEN + Frac(x) == Pair(0x10_0000 + x.hi % 0x10_0000, x.lo);
  }

  lemma SubnormalUnits(x: Double, m0: int, i: nat, v: nat, w: nat)
    requires Expo(x) == 0 && -42 <= m0 <= 0 && i <= 20 && v == Shl(Frac(x), -m0) && w == Shl(v, i)
    ensures Scaled(Units(x), w, m0 - i + 1)
  {
    ShlShl(Frac(x), -m0, i);
  }

  // ---------------------------------------------------------------- the two loops

  /**
    What both loops keep: q is the square root of n to the bits found so far, d is the weight of
    the last of them, and x is the remainder, scaled so that the next bit is compared with 2q + d/2.
   */
  ghost predicate Root(n: int, x: int, q: int, d: int) {
    x * d == 2 * (n - q * q) && n < (q + d) * (q + d) && 0 <= q && 0 < d && q + d <= LIMIT && 0 <= x
  }

  lemma TakeBit(n: int, x: int, q: int, r: int)
    requires r > 0 && Root(n, x, q, 2 * r) && 2 * q + r <= x
    ensures Root(n, 2 * (x - (2 * q + r)), q + r, r)
  {
    assert 2 * (x - (2 * q + r)) * r == x * (2 * r) - 2 * (2 * q * r + r * r);
    assert (q + r) * (q + r) == q * q + 2 * q * r + r * r;
    assert q + r + r == q + 2 * r;
  }

  lemma LeaveBit(n: int, x: int, q: int, r: int)
    requires r > 0 && Root(n, x, q, 2 * r) && x < 2 * q + r
    ensures Root(n, 2 * x, q, r)
  {
    SumSquared(q, r);
    BitTooLarge(n, x, q, r, q * q);
  }

  lemma SumSquared(q: int, r: int)
    ensures (q + r) * (q + r) == q * q + 2 * (q * r) + r * r
  {
    Distribute(q, r, q + r);
    Distribute(q, r, q);
    Distribute(q, r, r);
  }

  lemma BitTooLarge(n: int, x: int, q: int, r: int, qq: int)
    requires r > 0 && x * (2 * r) == 2 * (n - qq) && x < 2 * q + r
    ensures 2 * x * r == 2 * (n - qq) && n < qq + 2 * (q * r) + r * r
  {
    MulMono(x + 1, 2 * q + r, r);
    Distribute(x, 1, r);
    Distribute(2 * q, r, r);
    MulAssoc(2, q, r);
    MulAssoc(2, x, r);
    MulAssoc(x, 2, r);
  }

  /** The remainder stays far below 2^31 in the high word, so no signed addition overflows. */
  lemma RootBound(n: int, x: int, q: int, d: int)
    requires Root(n, x, q, d)
    ensures x < 4 * LIMIT
  {
    assert (q + d) * (q + d) == q * q + (2 * q + d) * d;
    assert x * d < 2 * ((2 * q + d) * d);
    assert 2 * ((2 * q + d) * d) == (4 * q + 2 * d) * d;
    if x >= 4 * q + 2 * d { MulMono(4 * q + 2 * d, x, d); }
  }

  method CarryOut(ix1: nat) returns (b: nat)
    requires ix1 < WORD
    ensures b == ix1 / SIGN
  {
    Pow2Values();
    AndBit(ix1, 31);
    ShrDiv(ix1, 31);
    ShrShl(Shr(ix1, 31) % 2, 31);
    b := Shr(And(ix1, SIGN), 31);
  }

  /** Doubling a pair of words: the top bit of the low word is carried over. */
  method Doubled(ix0: nat, ix1: nat) returns (r0: nat, r1: nat)
    requires ix1 < WORD
    ensures r1 < WORD && Pair(r0, r1) == 2 * Pair(ix0, ix1)
  {
    var carry := CarryOut(ix1);
    r0 := ix0 + ix0 + carry;
    r1 := (ix1 + ix1) % WORD;
  }

  /** The moving bit of weight 2^(k-1), or 0 after the last round. */
  ghost function Moving(k: nat): nat { if k == 0 then 0 else Pow2(k - 1) }

  lemma MovingOn(k: nat)
    requires k > 0
    ensures Pow2(k) == 2 * Moving(k) && Moving(k) / 2 == Moving(k - 1) && Moving(k) > 0
    ensures Moving(k) > 1 ==> Moving(k) % 2 == 0
    ensures Moving(k) == Pow2(k - 1)
  {
  }

  /** The first loop finds the high 22 bits of the root. */
  method HighLoop(h: nat, l: nat, ghost n: nat) returns (ix0: nat, ix1: nat, s0: nat, q: nat)
    requires l < WORD && Root(n, Pair(h, l), 0, LIMIT)
    ensures ix1 < WORD && s0 == 2 * q && Root(n, Pair(ix0, ix1), q * WORD, WORD)
  {
    ix0, ix1, s0, q := h, l, 0, 0;
    ghost var k: nat := 22;
    Pow2Values();
    RootBound(n, Pair(h, l), 0, LIMIT);
    var r: nat := 0x20_0000;
    while r != 0
      invariant ix1 < WORD && s0 == 2 * q && k <= 22 && r == Moving(k)
      invariant Root(n, Pair(ix0, ix1), q * WORD, Pow2(k) * WORD) && ix0 < 0x100_0000
      decreases k
    {
      MovingOn(k);
      ix0, ix1, s0, q := HighRound(ix0, ix1, s0, q, r, n);
      r := r / 2;
      k := k - 1;
      RootBound(n, Pair(ix0, ix1), q * WORD, Pow2(k) * WORD);
    }
  }

  /** One round of the first loop, for the bit r of the root. */
  method HighRound(x0: nat, x1: nat, s: nat, p: nat, r: nat, ghost n: nat)
      returns (ix0: nat, ix1: nat, s0: nat, q: nat)
    requires x1 < WORD && s == 2 * p && Root(n, Pair(x0, x1), p * WORD, 2 * r * WORD)
    ensures ix1 < WORD && s0 == 2 * q && Root(n, Pair(ix0, ix1), q * WORD, r * WORD)
  {
    ix0, ix1, s0, q := x0, x1, s, p;
    var t := s0 + r;
    if t <= ix0 {
      TakeBit(n, Pair(ix0, ix1), q * WORD, r * WORD);
      s0 := t + r;
      ix0 := ix0 - t;
      q := q + r;
    } else {
      LeaveBit(n, Pair(ix0, ix1), q * WORD, r * WORD);
    }
    ix0, ix1 := Doubled(ix0, ix1);
  }

  /** q1 has no bit below 2r, and adding r to 2q1 does not leave the word. */
  ghost predicate Aligned(q1: int, r: int) {
    && 0 <= q1 && q1 + 2 * r <= WORD && 0 <= r <= SIGN
    && (r == SIGN ==> q1 == 0)
    && (r != SIGN ==> q1 + 2 * r <= SIGN || q1 >= SIGN)
  }

  /** s0:s1 is twice q:q1. */
  ghost predicate IsTwice(s0: int, s1: int, q: int, q1: int) {
    s0 == 2 * q + q1 / SIGN && s1 == 2 * (q1 % SIGN)
  }

  /** Subtracting with borrow, and adding the new bit to s0:s1 with carry. */
  method TakeLowBit(x0: int, x1: int, s: int, t1: int, r: int, ghost q: int, ghost q1: int)
      returns (ix0: int, ix1: int, s0: int, s1: int)
    requires 0 <= x1 < WORD && 0 < r && Aligned(q1, r) && IsTwice(s, t1 - r, q, q1)
    ensures 0 <= ix1 < WORD && Pair(ix0, ix1) == Pair(x0, x1) - (2 * Pair(q, q1) + r)
    ensures IsTwice(s0, s1, q, q1 + r)
  {
    s0 := s;
    s1 := (t1 + r) % WORD;
    if t1 >= SIGN && s1 < SIGN { s0 := s0 + 1; }
    ix0 := x0 - s;
    if x1 < t1 { ix0 := ix0 - 1; }
    ix1 := (x1 - t1) % WORD;
  }

  /** The sum t1 = s1 + r does not leave the word, and s0:t1 is what the next bit is compared with. */
  lemma NextSum(s0: int, s1: int, q: int, q1: int, r: int)
    requires 0 < r && Aligned(q1, r) && IsTwice(s0, s1, q, q1)
    ensures (s1 + r) % WORD == s1 + r && 0 <= s1 && Pair(s0, s1 + r) == 2 * Pair(q, q1) + r
    ensures r > 1 && r % 2 == 0 ==> Aligned(q1, r / 2) && Aligned(q1 + r, r / 2)
    ensures r == 1 ==> Aligned(q1, 0) && Aligned(q1 + 1, 0)
  {
  }

  /** One round of the second loop. */
  method LowRound(x0: nat, x1: int, s: int, t: int, p: int, r: int, ghost q: nat, ghost n: nat)
      returns (ix0: nat, ix1: int, s0: int, s1: int, q1: int)
    requires 0 <= x1 < WORD && 0 < r && Aligned(p, r) && IsTwice(s, t, q, p)
    requires Root(n, Pair(x0, x1), Pair(q, p), 2 * r)
    ensures 0 <= ix1 < WORD && (q1 == p || q1 == p + r) && IsTwice(s0, s1, q, q1)
    ensures Root(n, Pair(ix0, ix1), Pair(q, q1), r)
  {
    ix0, ix1, s0, s1, q1 := x0, x1, s, t, p;
    NextSum(s, t, q, p, r);
    var t1 := (s1 + r) % WORD;
    if s0 < ix0 || (s0 == ix0 && t1 <= ix1) {
      TakeBit(n, Pair(x0, x1), Pair(q, p), r);
      ix0, ix1, s0, s1 := TakeLowBit(ix0, ix1, s0, t1, r, q, q1);
      q1 := q1 + r;
    } else {
      LeaveBit(n, Pair(x0, x1), Pair(q, p), r);
    }
    ix0, ix1 := Doubled(ix0, ix1);
  }

  /** The second loop finds the low 32 bits, with carries and borrows between the words. */
  method LowLoop(h: nat, l: nat, s: nat, ghost q: nat, ghost n: nat) returns (ix0: nat, ix1: int, q1: int)
    requires l < WORD && s == 2 * q && Root(n, Pair(h, l), q * WORD, WORD)
    ensures 0 <= ix1 < WORD && 0 <= q1 < WORD && Root(n, Pair(ix0, ix1), Pair(q, q1), 1)
  {
    var s0: int, s1 := s, 0;
    ix0, ix1, q1 := h, l, 0;
    ghost var k: nat := 32;
    Pow2Values();
    RootBound(n, Pair(h, l), q * WORD, WORD);
    var r := SIGN;
    while r != 0
      invariant 0 <= ix1 < WORD && k <= 32 && r == Moving(k) && q1 + Pow2(k) <= WORD
      invariant Aligned(q1, r) && IsTwice(s0, s1, q, q1)
      invariant Root(n, Pair(ix0, ix1), Pair(q, q1), Pow2(k)) && ix0 < 0x100_0000
      decreases k
    {
      NextSum(s0, s1, q, q1, r);
      MovingOn(k);
      ix0, ix1, s0, s1, q1 := LowRound(ix0, ix1, s0, s1, q1, r, q, n);
      r := r / 2;
      k := k - 1;
      RootBound(n, Pair(ix0, ix1), Pair(q, q1), Pow2(k));
    }
  }

  const HALF := 0x20_0000_0000_0000   // 2^53

  lemma LargeRoot(n: int, q: int)
    requires HALF * HALF <= n < (q + 1) * (q + 1) && 0 <= q
    ensures HALF <= q
  {
    if q < HALF { MulMono(q + 1, HALF, q + 1); MulMono(q + 1, HALF, HALF); }
  }

  /**
    Both loops: q:q1 is the integer square root of the scaled significand, with 54 bits, and
    the remainder ix0:ix1 is zero exactly if that root is exact.
   */
  method BitByBit(h: nat, l: nat) returns (q: nat, q1: nat, ix0: nat, ix1: nat)
    requires l < WORD && HALF <= Pair(h, l) < 2 * LIMIT
    ensures q1 < WORD && HALF <= Pair(q, q1) < LIMIT
    ensures Pair(q, q1) * Pair(q, q1) <= Pair(h, l) * HALF < (Pair(q, q1) + 1) * (Pair(q, q1) + 1)
    ensures ix0 == 0 && ix1 == 0 <==> Pair(q, q1) * Pair(q, q1) == Pair(h, l) * HALF
  {
    ghost var n := Pair(h, l) * HALF;
    var s0;
    ix0, ix1, s0, q := HighLoop(h, l, n);
    ix0, ix1, q1 := LowLoop(ix0, ix1, s0, q, n);
    LargeRoot(n, Pair(q, q1));
  }

  // ---------------------------------------------------------------- rounding and reassembly

  /** The root is rounded up exactly if it is odd, that is, if its 54th bit is set. */
  method Round(q: nat, q1: nat, ix0: nat, ix1: nat) returns (p: nat, p1: nat)
    requires q1 < WORD
    ensures p1 < WORD
    ensures Pair(p, p1) == Pair(q, q1) + (if ix0 == 0 && ix1 == 0 then 0 else Pair(q, q1) % 2)
  {
    p, p1 := q, q1;
    PairParity(q, q1);
    var exact := BothZero(ix0, ix1);
    if !exact {
      if q1 == 0xffff_ffff {
        p, p1 := q + 1, 0;
      } else {
        var odd := LowBit(q1);
        p1 := q1 + odd;
      }
    }
  }

  lemma PairParity(q: nat, q1: nat)
    ensures Pair(q, q1) % 2 == q1 % 2
  {
    DivModUnique(Pair(q, q1), 2, q * SIGN + q1 / 2, q1 % 2);
  }

  /** The exponent is added to the significand, so that a carry out of it lands in the exponent. */
  method Assemble(q: nat, q1: nat, m: int) returns (z: Double)
    requires q1 < WORD && -600 <= m <= 600 && HALF <= Pair(q, q1) <= LIMIT
    ensures !Negative(z) && Pair(z.hi, z.lo) == Pair(q, q1) / 2 + (m + 0x3fe) * HIDDEN
  {
    var ix0 := q / 2 + 0x3fe0_0000;
    var ix1 := q1 / 2;
    var odd := LowBit(q);
    if odd == 1 { ix1 := WithTopBit(ix1); }
    ix0 := ix0 + m * 0x10_0000;
    z := Double(ix0, ix1);
  }

  // ---------------------------------------------------------------- the rounded root

  /**
    z is the double nearest to the square root of x.  In units of 2^-1074 that root is the square
    root of Units(x) * 2^1074, so it lies strictly on z's side of the middle between z and any
    other double: a halfway case does not occur.
   */
  ghost predicate NearestRoot(x: Double, z: Double) {
    && Finite(z) && !Negative(z)
    && forall d: Double :: Finite(d) && !Negative(d) ==>
         && (Units(d) > Units(z) ==> 4 * Shl(Units(x), 1074) < Square(Units(z) + Units(d)))
         && (Units(d) < Units(z) ==> 4 * Shl(Units(x), 1074) > Square(Units(z) + Units(d)))
  }

  function Square(x: int): int { x * x }

  lemma {:induction false} SquareShl(a: nat, k: nat)
    ensures Square(Shl(a, k)) == Shl(Square(a), 2 * k)
    decreases k
  {
    if k == 0 {
    } else {
      var b := Shl(a, k - 1);
      SquareShl(a, k - 1);
      assert Square(2 * b) == 4 * Square(b);
      assert Shl(Square(a), 2 * k) == 2 * Shl(Square(a), 2 * k - 1);
    }
  }

  lemma SquareMono(a: nat, b: nat)
    requires a <= b
    ensures Square(a) <= Square(b)
  {
    MulMono(a, b, a);
    MulMono(a, b, b);
  }

  /** The root r of n, rounded to s at half precision, is on s's side of s + 1/2 and s - 1/2. */
  lemma RoundedRoot(n: nat, r: nat, s: nat)
    requires Square(r) <= n < Square(r + 1)
    requires r % 2 == 1 ==> Square(r) < n
    requires r > 0 && s == (r + r % 2) / 2
    ensures n < Square(2 * s + 1)
    ensures Square(2 * s - 1) < n
    ensures r % 2 == 0 ==> Square(4 * s - 1) < 4 * n
  {
    SquareMono(r + 1, 2 * s + 1);
    if r % 2 == 0 {
      assert Square(r - 1) == Square(r) - 2 * r + 1;
      assert Square(2 * r - 1) == 4 * Square(r) - 4 * r + 1;
    }
  }

  /** If 4 Units(x) 2^1074 is n 2^2k and s is the rounded root of n, then s 2^k is nearest to the root of x. */
  lemma RootIsNearest(x: Double, z: Double, n: nat, r: nat, s: nat, k: nat)
    requires 4 * Shl(Units(x), 1074) == Shl(n, 2 * k) && Units(z) == Shl(s, k) && Finite(z) && !Negative(z)
    requires Square(r) <= n < Square(r + 1) && (r % 2 == 1 ==> Square(r) < n)
    requires HALF <= r < LIMIT && s == (r + r % 2) / 2 && k > 0
    ensures NearestRoot(x, z)
  {
    RoundedRoot(n, r, s);
    forall d: Double | Finite(d) && !Negative(d)
      ensures Units(d) > Units(z) ==> 4 * Shl(Units(x), 1074) < Square(Units(z) + Units(d))
      ensures Units(d) < Units(z) ==> 4 * Shl(Units(x), 1074) > Square(Units(z) + Units(d))
    {
      if Units(d) > Units(z) {
        Above(d, n, s, k);
      } else if Units(d) < Units(z) {
        Below(d, n, s, k);
      }
    }
  }

  lemma Above(d: Double, n: nat, s: nat, k: nat)
    requires HIDDEN <= s <= 2 * HIDDEN && Units(d) > Shl(s, k) && n < Square(2 * s + 1)
    ensures Shl(n, 2 * k) < Square(Shl(s, k) + Units(d))
  {
    NeighbourAbove(d, s, k);
    ShlAdd(s, s + 1, k);
    SquareShl(2 * s + 1, k);
    SquareMono(Shl(2 * s + 1, k), Shl(s, k) + Units(d));
    ShlLess(n, Square(2 * s + 1), 2 * k);
  }

  lemma Below(d: Double, n: nat, s: nat, k: nat)
    requires HIDDEN <= s <= 2 * HIDDEN && Units(d) < Shl(s, k) && k > 0
    requires Square(2 * s - 1) < n && (s == HIDDEN ==> Square(4 * s - 1) < 4 * n)
    ensures Shl(n, 2 * k) > Square(Shl(s, k) + Units(d))
  {
    NeighbourBelow(d, s, k);
    if s > HIDDEN {
      BelowWide(Units(d), n, s, k);
    } else {
      BelowNarrow(Units(d), n, s, k);
    }
  }

  lemma BelowWide(u: nat, n: nat, s: nat, k: nat)
    requires s > 0 && u <= Shl(s - 1, k) && Square(2 * s - 1) < n
    ensures Shl(n, 2 * k) > Square(Shl(s, k) + u)
  {
    ShlAdd(s, s - 1, k);
    SquareShl(2 * s - 1, k);
    SquareMono(Shl(s, k) + u, Shl(2 * s - 1, k));
    ShlLess(Square(2 * s - 1), n, 2 * k);
  }

  /** At the bottom of a binade the doubles below are twice as dense. */
  lemma BelowNarrow(u: nat, n: nat, s: nat, k: nat)
    requires k > 0 && s > 0 && u <= Shl(2 * s - 1, k - 1) && Square(4 * s - 1) < 4 * n
    ensures Shl(n, 2 * k) > Square(Shl(s, k) + u)
  {
    ShlTwice(s, k);
    ShlAdd(2 * s, 2 * s - 1, k - 1);
    SquareShl(4 * s - 1, k - 1);
    SquareMono(Shl(s, k) + u, Shl(4 * s - 1, k - 1));
    ShlLess(Square(4 * s - 1), 4 * n, 2 * k - 2);
    ShlTwice(n, 2 * k);
    ShlTwice(2 * n, 2 * k - 1);
  }

  /** An odd root is never exact: the scaled significand is a multiple of 4. */
  lemma OddRootInexact(v: nat, r: nat)
    requires Square(r) == v * HALF
    ensures r % 2 == 0
  {
    var h := r / 2;
    assert Square(2 * h + 1) == 2 * (2 * Square(h) + 2 * h) + 1;
  }

  /** The square root of a positive finite double. */
  method RootOfPositive(x: Double) returns (z: Double)
    requires Finite(x) && !Negative(x) && Units(x) > 0
    ensures NearestRoot(x, z)
  {
    var m, ix0, ix1 := Normalize(x.hi, x.lo);
    m := m - 1023;
    ghost var m0, v0 := m, Pair(ix0, ix1);
    if m % 2 == 1 {
      ix0, ix1 := Doubled(ix0, ix1);
    }
    ghost var v := Pair(ix0, ix1);
    m := m / 2;
    ix0, ix1 := Doubled(ix0, ix1);
    var q, q1, r0, r1 := BitByBit(ix0, ix1);
    ghost var r, n := Pair(q, q1), 2 * v * HALF;
    q, q1 := Round(q, q1, r0, r1);
    if r0 == 0 && r1 == 0 { OddRootInexact(2 * v, r); }
    assert Pair(q, q1) == r + r % 2;
    z := Assemble(q, q1, m);
    ScaledArgument(x, v0, m0, v, m);
    RootFound(x, z, n, r, (r + r % 2) / 2, m);
  }

  lemma RootFound(x: Double, z: Double, n: nat, r: nat, s: nat, m: int)
    requires -600 <= m <= 600 && 4 * Shl(Units(x), 1074) == Shl(n, 2 * (m + 1022)) && !Negative(z)
    requires Pair(z.hi, z.lo) == s + (m + 0x3fe) * HIDDEN
    requires Square(r) <= n < Square(r + 1) && (r % 2 == 1 ==> Square(r) < n)
    requires HALF <= r < LIMIT && s == (r + r % 2) / 2
    ensures NearestRoot(x, z)
  {
    PatternUnits(z, s, m + 0x3ff);
    RootIsNearest(x, z, n, r, s, m + 1022);
  }

  lemma Rescaled(u: nat, v: nat, m: int)
    requires m >= -1073 && Scaled(u, v, m)
    ensures Shl(u, 1074) == Shl(v, m + 1073)
  {
    if m >= 1 { ShlShl(v, m - 1, 1074); } else { ShlShl(u, 1 - m, m + 1073); }
  }

  lemma ScaledArgument(x: Double, v0: nat, m0: int, v: nat, m: int)
    requires -1100 <= m0 && Scaled(Units(x), v0, m0 + 1023)
    requires m == m0 / 2 && v == (if m0 % 2 == 1 then 2 * v0 else v0)
    ensures 4 * Shl(Units(x), 1074) == Shl(2 * v * HALF, 2 * (m + 1022))
  {
    var u := Units(x);
    Rescaled(u, v0, m0 + 1023);
    EvenScale(Shl(u, 1074), v0, m0, v, m);
  }

  lemma EvenScale(a: nat, v0: nat, m0: int, v: nat, m: int)
    requires -1100 <= m0 && a == Shl(v0, m0 + 2096)
    requires m == m0 / 2 && v == (if m0 % 2 == 1 then 2 * v0 else v0)
    ensures 4 * a == Shl(2 * v * HALF, 2 * (m + 1022))
  {
    Pow2Values();
    if m0 % 2 == 1 { ShlTwice(v0, m0 + 2096); }
    assert a == Shl(v, 2 * m + 2096);
    ShlShl(v, 2 * m + 2096, 2);
    ShlShl(v, 54, 2 * m + 2044);
    ShlMul(v, 54);
  }

  /** __ieee754_sqrt */
  method SquareRoot(x: Double) returns (r: Result)
    ensures IsNan(x) ==> r == Nan
    ensures Infinite(x) ==> r == if Negative(x) then Nan else Number(x)
    ensures Finite(x) && Units(x) == 0 ==> r == Number(x)
    ensures Finite(x) && Units(x) > 0 && Negative(x) ==> r == Nan
    ensures Finite(x) && Units(x) > 0 && !Negative(x) ==> r.Number? && NearestRoot(x, r.d)
  {
    var finite := IsFinite(x);
    if !finite {
      // x * x + x: a NaN stays a NaN, and infinity minus infinity is one
      return if x == Double(0x7ff0_0000, 0) then Number(x) else Nan;
    }
    var zero := IsZero(x);
    if zero { return Number(x); }
    if x.hi >= SIGN { return Nan; }
    var z := RootOfPositive(x);
    r := Number(z);
  }
}
