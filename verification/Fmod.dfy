/**
  __ieee754_fmod: the remainder by shift and subtract on two 32-bit words.  The result is the
  exact remainder, for normal and subnormal operands.
 */
module Fmod {
  import opened Bits
  import opened Ieee
  import opened Words

  // ---------------------------------------------------------------- the binary exponent

  /** Counts the shifts that bring the leading one of i to the sign bit. */
  method CountShifts(w: nat, start: int) returns (e: int)
    requires 0 < w < WORD
    ensures e <= start && SIGN <= Shl(w, start - e) < WORD
  {
    var i := w;
    e := start;
    while 0 < i < SIGN
      invariant e <= start && i == Shl(w, start - e) && 0 < i < WORD
      decreases WORD - i
    {
      i := 2 * i;
      e := e - 1;
    }
  }

  /** The exponent of the leading one of a positive finite double. */
  method Ilogb(h: nat, l: nat) returns (e: int)
    requires h < 0x7ff0_0000 && l < WORD && Pair(h, l) > 0
    ensures h >= 0x10_0000 ==> e == h / 0x10_0000 - 1023
    ensures h < 0x10_0000 ==> -1074 <= e < -1022
    ensures h < 0x10_0000 ==> HIDDEN <= Shl(h * WORD + l, -1022 - e) < 2 * HIDDEN
  {
    Pow2Values();
    if h < 0x10_0000 {
      if h == 0 {
        e := CountShifts(l, -1043);
        LowExponent(l, -1043 - e);
      } else {
        ShlMul(h, 11);
        e := CountShifts(Shl(h, 11), -1022);
        HighExponent(h, l, -1022 - e);
      }
    } else {
      ShrDiv(h, 20);
      e := Shr(h, 20) - 1023;
    }
  }

  lemma LowExponent(l: nat, j: nat)
    requires SIGN <= Shl(l, j) < WORD && 0 < l
    ensures j <= 31 && HIDDEN <= Shl(l, 21 + j) < 2 * HIDDEN
  {
    Pow2Values();
    ShlShl(l, j, 21);
    ShlMul(Shl(l, j), 21);
    ShlMono(1, l, j);
    ShlOne(j);
    if j > 31 { Pow2Mono(32, j); }
  }

  lemma HighExponent(h: nat, l: nat, j: nat)
    requires 0 < h < 0x10_0000 && l < WORD && SIGN <= Shl(Shl(h, 11), j) < WORD
    ensures 0 < j <= 20 && HIDDEN <= Shl(h * WORD + l, j) < 2 * HIDDEN
  {
    Pow2Values();
    ShlShl(h, 11, j);
    ShlShl(h, j, 11);
    ShlMul(Shl(h, j), 11);
    assert 0x10_0000 <= Shl(h, j) < 0x20_0000;
    ShlMono(1, h, j);
    ShlOne(j);
    if j > 20 { Pow2Mono(21, j); }
    PairBelow(h, l, j);
    ShlTimes(h, WORD, j, h * WORD);
    ShlMono(h * WORD, h * WORD + l, j);
  }

  // ---------------------------------------------------------------- alignment

  /** Shifting a subnormal operand to the left by n; in the second form the whole low word moves up. */
  method ShiftUp(h: nat, l: nat, n: nat) returns (r0: nat, r1: nat)
    requires l < WORD && 0 < n <= 52 && Shl(h * WORD + l, n) < 2 * HIDDEN
    ensures r1 < WORD && Pair(r0, r1) == Shl(h * WORD + l, n)
  {
    if n <= 31 {
      r0, r1 := ShiftIn(Shl(h, n), l, n, h);
    } else {
      WordMovesUp(h, l, n);
      r0 := Shl(l, n - 32);
      r1 := 0;
    }
  }

  lemma WordMovesUp(h: nat, l: nat, n: nat)
    requires 32 <= n <= 52 && Shl(h * WORD + l, n) < 2 * HIDDEN
    ensures h == 0 && Shl(l, n) == Shl(l, n - 32) * WORD
  {
    Pow2Values();
    ShlShl(l, n - 32, 32);
    ShlMul(Shl(l, n - 32), 32);
    ShlLonger(h * WORD + l, 32, n);
    ShlMul(h * WORD + l, 32);
  }

  /** The full significand of an operand whose leading one has exponent e. */
  method Significand(h: nat, l: nat, e: int) returns (r0: nat, r1: nat)
    requires h < 0x7ff0_0000 && l < WORD && Pair(h, l) > 0
    requires h >= 0x10_0000 ==> e == h / 0x10_0000 - 1023
    requires h < 0x10_0000 ==> -1074 <= e < -1022
    requires h < 0x10_0000 ==> HIDDEN <= Shl(h * WORD + l, -1022 - e) < 2 * HIDDEN
    ensures r1 < WORD && HIDDEN <= Pair(r0, r1) < 2 * HIDDEN
    ensures -1074 <= e <= 1023 && Shl(Units(Double(h, l)), 52) == Shl(Pair(r0, r1), e + 1074)
  {
    if e >= -1022 {
      r0 := LeadingOne(h);
      r1 := l;
      assert Units(Double(h, l)) == Shl(Pair(r0, r1), e + 1022);
      ShlShl(Pair(r0, r1), e + 1022, 52);
    } else {
      r0, r1 := ShiftUp(h, l, -1022 - e);
      ShlShl(h * WORD + l, -1022 - e, e + 1074);
    }
  }

  // ---------------------------------------------------------------- shift and subtract

  /** Subtraction of pairs with borrow: the sign of the difference is that of its high word. */
  method Subtract(hx: nat, lx: nat, hy: nat, ly: nat) returns (hz: int, lz: nat)
    requires lx < WORD && ly < WORD
    ensures lz < WORD && Pair(hz, lz) == Pair(hx, lx) - Pair(hy, ly)
  {
    hz, lz := hx - hy, (lx - ly) % WORD;
    if lx < ly { hz := hz - 1; }
  }

  /** Doubling a pair: the top bit of the low word is carried over. */
  method TwicePair(h: nat, l: nat) returns (hx: nat, lx: nat)
    requires l < WORD
    ensures lx < WORD && Pair(hx, lx) == 2 * Pair(h, l)
  {
    var carry := TopBit(l);
    hx, lx := h + h + carry, (l + l) % WORD;
  }

  /** What is left of a after taking away a multiple of y. */
  ghost predicate Reduced(a: int, y: int, k: int, rest: int) {
    a == k * y + rest
  }

  lemma TakeAway(a: int, y: nat, k: int, x: nat, n: nat)
    requires Reduced(a, y, k, Shl(x, n)) && x >= y
    ensures Reduced(a, y, k + Pow2(n), Shl(x - y, n))
  {
    ShlAdd(x - y, y, n);
    ShlMul(y, n);
    Distribute(k, Pow2(n), y);
    assert y * Pow2(n) == Pow2(n) * y;
  }

  lemma ReducedMod(a: int, y: int, k: int, rest: int)
    requires 0 <= rest < y && Reduced(a, y, k, rest)
    ensures a % y == rest
  {
    DivModUnique(a, y, k, rest);
  }

  /**
    The loop: before each of the n rounds, and before the last subtraction, the running
    remainder is below 2y.  It ends with x * 2^n modulo y; it ends early if that is zero.
   */
  method ShiftSubtract(x0: nat, x1: nat, hy: nat, ly: nat, rounds: nat) returns (done: bool, hx: nat, lx: nat)
    requires x1 < WORD && ly < WORD && 0 < Pair(hy, ly) < 2 * HIDDEN && Pair(x0, x1) < 2 * Pair(hy, ly)
    ensures lx < WORD
    ensures (if done then 0 else Pair(hx, lx)) == Shl(Pair(x0, x1), rounds) % Pair(hy, ly)
  {
    ghost var a, y, k := Shl(Pair(x0, x1), rounds), Pair(hy, ly), 0;
    hx, lx := x0, x1;
    var n := rounds;
    var hz, lz;
    while n > 0
      invariant lx < WORD && 0 <= Pair(hx, lx) < 2 * y && 0 <= n && Reduced(a, y, k, Shl(Pair(hx, lx), n))
    {
      n := n - 1;
      ghost var x := Pair(hx, lx);
      hz, lz := Subtract(hx, lx, hy, ly);
      if hz < 0 {
        ShlTwice(x, n + 1);
        hx, lx := TwicePair(hx, lx);
      } else {
        TakeAway(a, y, k, x, n + 1);
        k := k + Pow2(n + 1);
        var zero := BothZero(hz, lz);
        if zero {
          ShlMul(0, n + 1);
          ReducedMod(a, y, k, 0);
          return true, hx, lx;
        }
        ShlTwice(x - y, n + 1);
        hx, lx := TwicePair(hz, lz);
      }
    }
    hz, lz := Subtract(hx, lx, hy, ly);
    if hz >= 0 {
      TakeAway(a, y, k, Pair(hx, lx), 0);
      k := k + 1;
      hx, lx := hz, lz;
    }
    ReducedMod(a, y, k, Pair(hx, lx));
    done := false;
  }

  // ---------------------------------------------------------------- the result

  /** The loop that brings the leading one back to bit 20; the remainder r * 2^52 is x * 2^(e + 1074). */
  method Renormalize(h: nat, l: nat, iy: int, ghost r: nat) returns (hx: nat, lx: nat, e: int)
    requires l < WORD && 0 < Pair(h, l) < 2 * HIDDEN && -1074 <= iy
    requires Shl(r, 52) == Shl(Pair(h, l), iy + 1074)
    ensures lx < WORD && HIDDEN <= Pair(hx, lx) < 2 * HIDDEN && -1074 <= e <= iy
    ensures Shl(r, 52) == Shl(Pair(hx, lx), e + 1074)
  {
    hx, lx, e := h, l, iy;
    while hx < 0x10_0000
      invariant lx < WORD && 0 < Pair(hx, lx) < 2 * HIDDEN && -1074 <= e <= iy
      invariant Shl(r, 52) == Shl(Pair(hx, lx), e + 1074)
      decreases e + 1074
    {
      RoomBelow(r, Pair(hx, lx), e);
      ShlTwice(Pair(hx, lx), e + 1074);
      hx, lx := TwicePair(hx, lx);
      e := e - 1;
    }
  }

  lemma RoomBelow(r: nat, x: nat, e: int)
    requires -1074 <= e && 0 < x < HIDDEN && Shl(r, 52) == Shl(x, e + 1074)
    ensures -1074 < e
  {
    Pow2Values();
    ShlMul(r, 52);
    ShlMono(1, x, e + 1074);
    ShlMono(0, 1, e + 1074);
  }

  /** r * 2^n split into words, shifted back to the right by n: only zeros are dropped. */
  lemma ShiftDown(h: nat, l: nat, n: nat, r: nat) returns (b: nat)
    requires h < 0x20_0000 && l < WORD && 0 < n < 32 && Pair(h, l) == Shl(r, n)
    ensures Shl(h, 32 - n) % WORD == Shl(b, 32 - n) && Shr(l, n) < Pow2(32 - n)
    ensures r == Shr(h, n) * WORD + (Shl(b, 32 - n) + Shr(l, n))
  {
    b := ShiftOut(h, 32 - n);
    DownValue(h, l, n, r);
  }

  lemma DownValue(h: nat, l: nat, n: nat, r: nat)
    requires l < WORD && 0 < n < 32 && Pair(h, l) == Shl(r, n)
    ensures r == Shl(h, 32 - n) + Shr(l, n) && Shr(l, n) < Pow2(32 - n)
  {
    var d := ShrSplit(l, n);
    TopBits(Shr(l, n), 32 - n);
    HighWord(h, 32);
    ShlShl(h, 32 - n, n);
    ShlAdd(Shl(h, 32 - n), Shr(l, n), n);
    ShlCancel(r, Shl(h, 32 - n) + Shr(l, n), n, d);
  }

  lemma ShlCancel(r: nat, s: nat, n: nat, d: nat)
    requires Shl(r, n) == Shl(s, n) + d && d < Pow2(n)
    ensures r == s
  {
    ShlOne(n);
    if r > s {
      ShlMono(s + 1, r, n);
      ShlAdd(s, 1, n);
    } else if r < s {
      ShlLess(r, s, n);
    }
  }

  lemma ShiftDownFar(h: nat, l: nat, n: nat, r: nat)
    requires l < WORD && 32 <= n && Pair(h, l) == Shl(r, n)
    ensures r == Shr(h, n - 32)
  {
    var d := ShrSplit(h, n - 32);
    HighWord(Shr(h, n - 32), n);
    PowWord(n, d, l);
    ShlCancel(r, Shr(h, n - 32), n, d * WORD + l);
  }

  lemma HighWord(a: nat, n: nat)
    requires 32 <= n
    ensures Shl(a, n) == Shl(a, n - 32) * WORD
  {
    Pow2Values();
    ShlShl(a, n - 32, 32);
    ShlMul(Shl(a, n - 32), 32);
  }

  lemma PowWord(n: nat, d: nat, l: nat)
    requires 32 <= n && d < Pow2(n - 32) && l < WORD
    ensures d * WORD + l < Pow2(n)
  {
    Pow2Values();
    Pow2Add(n - 32, 32);
  }

  /** A subnormal result is shifted to the right by n. */
  method SubnormalWords(h: nat, l: nat, n: nat, ghost r: nat) returns (hx: nat, lx: nat)
    requires h < 0x20_0000 && l < WORD && 0 < n <= 52 && Pair(h, l) == Shl(r, n)
    ensures lx < WORD && Pair(hx, lx) == r
  {
    if n <= 20 {
      ghost var b := ShiftDown(h, l, n, r);
      OrDisjoint(b, Shr(l, n), 32 - n);
      OrCommutes(Shr(l, n), Shl(b, 32 - n));
      lx := Or(Shr(l, n), Shl(h, 32 - n) % WORD);
      hx := Shr(h, n);
      LowPartIsWord(b, Shr(l, n), n, Shl(h, 32 - n));
    } else if n <= 31 {
      ghost var b := ShiftDown(h, l, n, r);
      OrDisjoint(b, Shr(l, n), 32 - n);
      lx := Or(Shl(h, 32 - n) % WORD, Shr(l, n));
      hx := 0;
      NoHighPart(h, n);
      LowPartIsWord(b, Shr(l, n), n, Shl(h, 32 - n));
    } else {
      ShiftDownFar(h, l, n, r);
      lx := Shr(h, n - 32);
      hx := 0;
    }
  }

  lemma NoHighPart(h: nat, n: nat)
    requires h < 0x20_0000 && 21 <= n
    ensures Shr(h, n) == 0
  {
    Pow2Values();
    var d := ShrSplit(h, n);
    Pow2Mono(21, n);
    ShlOne(n);
    if Shr(h, n) >= 1 { ShlMono(1, Shr(h, n), n); }
  }

  lemma LowPartIsWord(b: nat, c: nat, n: nat, s: nat)
    requires 0 < n < 32 && c < Pow2(32 - n) && Shl(b, 32 - n) == s % WORD
    ensures Shl(b, 32 - n) + c < WORD
  {
    Pow2Values();
    ShlPow2(n, 32 - n);
    if b >= Pow2(n) { ShlMono(Pow2(n), b, 32 - n); }
    ShlMono(b + 1, Pow2(n), 32 - n);
    ShlAdd(b, 1, 32 - n);
    ShlOne(32 - n);
  }

  /** A result with the sign of the first operand; sx is its sign bit. */
  method WithSign(hx: nat, lx: nat, sx: nat) returns (z: Double)
    requires hx < SIGN && lx < WORD && (sx == 0 || sx == SIGN)
    ensures Negative(z) == (sx == SIGN) && Units(z) == Units(Double(hx, lx)) && Finite(z) == Finite(Double(hx, lx))
  {
    SignBit(hx, lx);
    var h := hx;
    if sx != 0 { h := WithTopBit(hx); }     // hx | sx
    z := Double(h, lx);
  }

  lemma NormalUnits(h: nat, l: nat, e: int, r: nat)
    requires l < WORD && HIDDEN <= Pair(h, l) < 2 * HIDDEN && -1022 <= e <= 1023
    requires Shl(r, 52) == Shl(Pair(h, l), e + 1074)
    ensures h - 0x10_0000 + (e + 1023) * 0x10_0000 < SIGN
    ensures var z := Double(h - 0x10_0000 + (e + 1023) * 0x10_0000, l); Finite(z) && Units(z) == r
  {
    PatternUnits(Double(h - 0x10_0000 + (e + 1023) * 0x10_0000, l), Pair(h, l), e + 1023);
    ShlShl(Pair(h, l), e + 1022, 52);
    ShlCancel(r, Shl(Pair(h, l), e + 1022), 52, 0);
  }

  method EncodeNormal(h: nat, l: nat, e: int, sx: nat, ghost r: nat) returns (z: Double)
    requires l < WORD && HIDDEN <= Pair(h, l) < 2 * HIDDEN && -1022 <= e <= 1023 && (sx == 0 || sx == SIGN)
    requires Shl(r, 52) == Shl(Pair(h, l), e + 1074)
    ensures Finite(z) && Units(z) == r && Negative(z) == (sx == SIGN)
  {
    NormalUnits(h, l, e, r);
    ExponentOr(h, e + 1023);
    var hx := Or(h - 0x10_0000, Shl(e + 1023, 20));
    z := WithSign(hx, l, sx);
  }

  method EncodeSubnormal(h: nat, l: nat, e: int, sx: nat, ghost r: nat) returns (z: Double)
    requires l < WORD && HIDDEN <= Pair(h, l) < 2 * HIDDEN && -1074 <= e < -1022 && (sx == 0 || sx == SIGN)
    requires Shl(r, 52) == Shl(Pair(h, l), e + 1074)
    ensures Finite(z) && Units(z) == r && Negative(z) == (sx == SIGN)
  {
    var n := -1022 - e;
    SubnormalScale(r, Pair(h, l), e);
    var hx, lx := SubnormalWords(h, l, n, r);
    SubnormalUnits(hx, lx);
    z := WithSign(hx, lx, sx);
  }

  lemma SubnormalUnits(h: nat, l: nat)
    requires l < WORD && Pair(h, l) < HIDDEN
    ensures h < 0x10_0000 && Finite(Double(h, l)) && Units(Double(h, l)) == Pair(h, l)
  {
  }

  /** The remainder r * 2^52 = h:l * 2^(iy + 1074) as a double. */
  method Encode(h: nat, l: nat, iy: int, sx: nat, ghost r: nat) returns (z: Double)
    requires l < WORD && 0 < Pair(h, l) < 2 * HIDDEN && -1074 <= iy <= 1023 && (sx == 0 || sx == SIGN)
    requires Shl(r, 52) == Shl(Pair(h, l), iy + 1074)
    ensures Finite(z) && Units(z) == r && Negative(z) == (sx == SIGN)
  {
    var hx, lx, e := Renormalize(h, l, iy, r);
    if e >= -1022 {
      z := EncodeNormal(hx, lx, e, sx, r);
    } else {
      z := EncodeSubnormal(hx, lx, e, sx, r);
    }
  }

  lemma ExponentOr(h: nat, e: nat)
    requires 0x10_0000 <= h < 0x20_0000
    ensures Or(h - 0x10_0000, Shl(e, 20)) == h - 0x10_0000 + e * 0x10_0000
  {
    Pow2Values();
    OrDisjoint(e, h - 0x10_0000, 20);
    OrCommutes(h - 0x10_0000, Shl(e, 20));
    ShlMul(e, 20);
  }

  lemma SubnormalScale(r: nat, x: nat, e: int)
    requires -1074 <= e < -1022 && x < 2 * HIDDEN && Shl(r, 52) == Shl(x, e + 1074)
    ensures x == Shl(r, -1022 - e) && r < HIDDEN
  {
    ShlShl(r, -1022 - e, e + 1074);
    ShlMono(0, 1, e + 1074);
    ShlOne(e + 1074);
    ShlCancel(x, Shl(r, -1022 - e), e + 1074, 0);
    ShlLonger(r, 1, -1022 - e);
  }

  // ---------------------------------------------------------------- fmod

  /** The larger operand does not have the smaller exponent. */
  lemma ExponentOrder(ux: nat, uy: nat, x: nat, y: nat, ix: int, iy: int)
    requires -1074 <= ix && -1074 <= iy && ux >= uy && x < 2 * HIDDEN && HIDDEN <= y
    requires Shl(ux, 52) == Shl(x, ix + 1074) && Shl(uy, 52) == Shl(y, iy + 1074)
    ensures ix >= iy
  {
    ShlMono(uy, ux, 52);
    if ix < iy {
      ShlLess(x, 2 * HIDDEN, ix + 1074);
      ShlTwice(HIDDEN, ix + 1075);
      ShlLonger(HIDDEN, ix + 1075, iy + 1074);
      ShlMono(HIDDEN, y, iy + 1074);
    }
  }

  /** The remainder of the significands is the remainder of the values. */
  lemma RemainderUnits(ux: nat, uy: nat, x: nat, y: nat, n: nat, e: nat, rest: nat) returns (r: nat)
    requires Shl(ux, 52) == Shl(x, n + e) && Shl(uy, 52) == Shl(y, e) && 0 < y && rest == Shl(x, n) % y && 0 < uy
    ensures r == ux % uy && Shl(r, 52) == Shl(rest, e) && (rest == 0 ==> r == 0)
  {
    var k, _ := DivMod(Shl(x, n), y);
    ShlShl(x, n, e);
    ScaledMultiple(uy, y, k, rest, e, k * y, uy * k);
    RemainderOfMultiple(ux, uy, k, Shl(rest, e), uy * k);
    r := ux % uy;
    if rest == 0 { ShlMul(0, e); }
  }

  lemma ScaledMultiple(uy: nat, y: nat, k: nat, rest: nat, e: nat, v: nat, u: nat)
    requires Shl(uy, 52) == Shl(y, e) && rest < y && v == k * y && u == uy * k
    ensures Shl(v + rest, e) == Shl(u, 52) + Shl(rest, e) && Shl(rest, e) < Shl(uy, 52)
  {
    ShlAdd(v, rest, e);
    ShlTimes(y, k, e, v);
    ShlTimes(uy, k, 52, u);
    ShlLess(rest, y, e);
  }

  lemma RemainderOfMultiple(ux: nat, uy: nat, k: nat, t: nat, u: nat)
    requires 0 < uy && u == uy * k && Shl(ux, 52) == Shl(u, 52) + t && t < Shl(uy, 52)
    ensures Shl(ux % uy, 52) == t
  {
    Pow2Values();
    if ux < u { ShlLess(ux, u, 52); }
    var r := ux - u;
    ShlAdd(u, r, 52);
    if r >= uy { ShlMono(uy, r, 52); }
    DivModUnique(ux, uy, k, r);
  }

  /** The remainder of the significands, found by shift and subtract. */
  method RemainderBits(hx: nat, lx: nat, hy: nat, ly: nat) returns (done: bool, r0: nat, r1: nat, iy: int, ghost r: nat)
    requires hx < 0x7ff0_0000 && lx < WORD && hy < 0x7ff0_0000 && ly < WORD
    requires 0 < Pair(hy, ly) < Pair(hx, lx)
    ensures r1 < WORD && -1074 <= iy <= 1023
    ensures Units(Double(hy, ly)) > 0 && r == Units(Double(hx, lx)) % Units(Double(hy, ly))
    ensures done ==> r == 0
    ensures !done ==> Pair(r0, r1) < 2 * HIDDEN && Shl(r, 52) == Shl(Pair(r0, r1), iy + 1074)
    ensures !done && Pair(r0, r1) == 0 ==> r == 0
  {
    ghost var ux, uy := Units(Double(hx, lx)), Units(Double(hy, ly));
    UnitsMono(Double(hy, ly), Double(hx, lx));
    ZeroUnits(Double(hy, ly));
    var ix := Ilogb(hx, lx);
    iy := Ilogb(hy, ly);
    var x0, x1 := Significand(hx, lx, ix);
    var y0, y1 := Significand(hy, ly, iy);
    ghost var sx, sy := Pair(x0, x1), Pair(y0, y1);
    ExponentOrder(ux, uy, sx, sy, ix, iy);
    done, r0, r1 := ShiftSubtract(x0, x1, y0, y1, ix - iy);
    r := RemainderUnits(ux, uy, sx, sy, ix - iy, iy + 1074, if done then 0 else Pair(r0, r1));
  }

  /** The remainder of two positive finite operands, the first of which is the larger. */
  method RemainderOfLarger(hx: nat, lx: nat, hy: nat, ly: nat, sx: nat) returns (z: Double)
    requires hx < 0x7ff0_0000 && lx < WORD && hy < 0x7ff0_0000 && ly < WORD && (sx == 0 || sx == SIGN)
    requires 0 < Pair(hy, ly) < Pair(hx, lx)
    ensures Finite(z) && Negative(z) == (sx == SIGN)
    ensures Units(Double(hy, ly)) > 0 && Units(z) == Units(Double(hx, lx)) % Units(Double(hy, ly))
  {
    var done, r0, r1, iy;
    ghost var r;
    done, r0, r1, iy, r := RemainderBits(hx, lx, hy, ly);
    var zero := BothZero(r0, r1);
    if done || zero {
      ZeroUnits(Double(sx, 0));
      z := Double(sx, 0);
    } else {
      z := Encode(r0, r1, iy, sx, r);
    }
  }

  /** The remainder of two absolute values; x is the first operand with its sign. */
  method RemainderOfWords(x: Double, hx: nat, lx: nat, sx: nat, hy: nat, ly: nat) returns (r: Result)
    requires (sx == 0 || sx == SIGN) && hx < SIGN && lx < WORD && x == Double(hx + sx, lx)
    requires hy < SIGN && ly < WORD
    ensures r == Nan <==> hx >= 0x7ff0_0000 || Pair(hy, ly) > Pair(0x7ff0_0000, 0) || Pair(hy, ly) == 0
    ensures Pair(hx, lx) < Pair(hy, ly) && r.Number? ==> r.d == x
    ensures r.Number? ==>
              && Finite(r.d) && Negative(r.d) == (sx == SIGN)
              && Units(Double(hy, ly)) > 0 && Units(r.d) == Units(Double(hx, lx)) % Units(Double(hy, ly))
  {
    NanTest(hy, ly);
    if Or(hy, ly) == 0 || hx >= 0x7ff0_0000 || Or(hy, Shr(Or(ly, (WORD - ly) % WORD), 31)) > 0x7ff0_0000 {
      return Nan;
    }
    if hx <= hy {
      if hx < hy || lx < ly {
        SmallerOperand(Double(hx, lx), Double(hy, ly));
        Absolute(x, hx);
        return Number(x);
      }
      if lx == ly {
        EqualOperands(Double(hx, lx), sx);
        return Number(Double(sx, 0));
      }
    }
    var z := RemainderOfLarger(hx, lx, hy, ly, sx);
    r := Number(z);
  }

  /** __ieee754_fmod */
  method Remainder(x: Double, y: Double) returns (r: Result)
    ensures !Finite(x) || IsNan(y) || (Finite(y) && Units(y) == 0) ==> r == Nan
    ensures Finite(x) && Infinite(y) ==> r == Number(x)
    ensures Finite(x) && Finite(y) && Units(y) > 0 ==>
              && r.Number? && Finite(r.d) && Negative(r.d) == Negative(x)
              && Units(r.d) == Units(x) % Units(y)
  {
    var sx := if x.hi >= SIGN then SIGN else 0;     // hx & 0x80000000
    var hx := x.hi - sx;                            // hx ^ sx
    var hy := And(y.hi, 0x7fff_ffff);
    ClearSign(y.hi);
    Absolute(x, hx);
    Absolute(y, hy);
    r := RemainderOfWords(x, hx, x.lo, sx, hy, y.lo);
  }

  /** Clearing the sign bit gives the absolute value. */
  lemma Absolute(x: Double, h: nat)
    requires h < SIGN && (x.hi == h || x.hi == h + SIGN)
    ensures Expo(x) == Expo(Double(h, x.lo)) && Units(x) == Units(Double(h, x.lo))
    ensures Finite(x) <==> h < 0x7ff0_0000
    ensures IsNan(x) <==> Pair(h, x.lo) > Pair(0x7ff0_0000, 0)
    ensures Units(x) == 0 <==> Pair(h, x.lo) == 0
  {
    SignBit(h, x.lo);
    AbsolutePattern(h, x.lo);
    ZeroUnits(Double(h, x.lo));
  }

  lemma ClearSign(h: Word)
    ensures And(h, 0x7fff_ffff) == if h >= SIGN then h - SIGN else h
  {
    Pow2Values();
    AndMask(h, 31);
    DivModUnique(h, SIGN, if h >= SIGN then 1 else 0, if h >= SIGN then h - SIGN else h);
  }

  /** The low word is folded into one bit, which makes the high word of a NaN exceed that of infinity. */
  lemma NanTest(hy: nat, ly: nat)
    requires hy < SIGN && ly < WORD
    ensures Or(hy, Shr(Or(ly, (WORD - ly) % WORD), 31)) > 0x7ff0_0000 <==> Pair(hy, ly) > Pair(0x7ff0_0000, 0)
  {
    var folded := FoldedWord(ly);
    OrOne(hy);
  }

  lemma FoldedWord(ly: nat) returns (b: nat)
    requires ly < WORD
    ensures b == Shr(Or(ly, (WORD - ly) % WORD), 31) && b == if ly == 0 then 0 else 1
  {
    var w := (WORD - ly) % WORD;
    assert ly != 0 ==> w == WORD - ly;
    Pow2Values();
    OrBound(ly, w, 32);
    ShrDiv(Or(ly, w), 31);
    b := Shr(Or(ly, w), 31);
  }

  lemma SmallerOperand(a: Double, b: Double)
    requires !Negative(a) && !Negative(b) && Pair(a.hi, a.lo) < Pair(b.hi, b.lo)
    ensures Units(b) > 0 && Units(a) % Units(b) == Units(a)
  {
    UnitsMono(a, b);
    DivModUnique(Units(a), Units(b), 0, Units(a));
  }

  lemma EqualOperands(a: Double, sx: nat)
    requires !Negative(a) && Pair(a.hi, a.lo) > 0 && (sx == 0 || sx == SIGN)
    ensures Units(a) > 0 && Units(a) % Units(a) == 0 && Units(Double(sx, 0)) == 0 && Finite(Double(sx, 0))
  {
    ZeroUnits(a);
    ZeroUnits(Double(sx, 0));
    DivModUnique(Units(a), Units(a), 1, 0);
  }
}
