/**
  The power-of-two helpers of the hash table, on 64-bit size_t values.
 */
module Util {
  import opened Bits

  const SIZE := 0x1_0000_0000_0000_0000   // 2^64

  type Size = x: int | 0 <= x < 0x1_0000_0000_0000_0000

  // ---------------------------------------------------------------- smearing the leading one

  lemma {:induction false} ShrOr(x: nat, y: nat, k: nat)
    ensures Shr(Or(x, y), k) == Or(Shr(x, k), Shr(y, k))
    decreases k
  {
    if k == 0 {
    } else {
      ShrOr(x, y, k - 1);
      OrHalf(Shr(x, k - 1), Shr(y, k - 1));
    }
  }

  lemma OrHalf(x: nat, y: nat)
    ensures Or(x, y) / 2 == Or(x / 2, y / 2)
  {
  }

  lemma {:induction false} ShrShr(x: nat, a: nat, b: nat)
    ensures Shr(Shr(x, a), b) == Shr(x, a + b)
    decreases b
  {
    if b == 0 {
    } else {
      ShrShr(x, a, b - 1);
    }
  }

  /** A run of ones fills the low bits. */
  lemma {:induction false} OrFill(a: nat, low: nat, c: nat)
    requires low < Pow2(c)
    ensures Or(Pow2(c) - 1, Shl(a, c) + low) == Shl(a, c) + Pow2(c) - 1
    decreases c
  {
    if c == 0 {
    } else {
      HalfSum(Shl(a, c - 1), low);
      OrFill(a, low / 2, c - 1);
      OrOddEven(Pow2(c) - 1, Shl(a, c) + low, Pow2(c - 1) - 1, Shl(a, c - 1) + low / 2);
    }
  }

  lemma HalfSum(x: nat, low: nat)
    ensures (2 * x + low) / 2 == x + low / 2
  {
  }

  lemma OrOddEven(x: nat, y: nat, m: nat, h: nat)
    requires x == 2 * m + 1 && h == y / 2
    ensures Or(x, y) == 2 * Or(m, h) + 1
  {
  }

  /** n has e significant bits, the first w of which are ones. */
  ghost predicate Led(n: nat, e: nat, w: nat) {
    w <= e && Shr(n, e - w) == Pow2(w) - 1 && n < Pow2(e)
  }

  /** One step of the smearing doubles the run of leading ones, or completes it. */
  lemma Smear(n: nat, c: nat, d: nat, t: nat, w: nat, e: nat)
    requires w == c + d && e == w + c + t && Led(n, e, w)
    ensures Led(Or(Shr(n, w), n), e, w + c)
  {
    ShrShr(n, t, c);
    SmearShifted(n, t, w);
    SmearTop(Shr(n, t), Shr(Shr(n, t), w), c, d, w);
    OrBound(Shr(n, w), n, e);
  }

  lemma SmearShifted(n: nat, t: nat, w: nat)
    ensures Shr(Or(Shr(n, w), n), t) == Or(Shr(Shr(n, t), w), Shr(n, t))
  {
    ShrOr(Shr(n, w), n, t);
    ShrShr(n, w, t);
    ShrShr(n, t, w);
  }

  lemma SmearTop(a: nat, x: nat, c: nat, d: nat, w: nat)
    requires w == c + d && Shr(a, c) == Pow2(w) - 1 && x == Shr(a, w)
    ensures Or(x, a) == Pow2(w + c) - 1
  {
    TopOnes(a, c, d);
    var low := ShrSplit(a, c);
    OnesFilled(w, c);
    LowFilled(x, a, Pow2(w) - 1, low, c, Pow2(w + c) - 1);
  }

  lemma LowFilled(x: nat, a: nat, ones: nat, low: nat, c: nat, r: nat)
    requires x == Pow2(c) - 1 && a == Shl(ones, c) + low && low < Pow2(c) && r == Shl(ones, c) + Pow2(c) - 1
    ensures Or(x, a) == r
  {
    OrFill(ones, low, c);
  }

  lemma TopOnes(a: nat, c: nat, d: nat)
    requires Shr(a, c) == Pow2(c + d) - 1
    ensures Shr(a, c + d) == Pow2(c) - 1
  {
    ShrShr(a, c, d);
    MaskShift(c, d);
  }

  lemma OnesFilled(w: nat, c: nat)
    ensures Shl(Pow2(w) - 1, c) + Pow2(c) - 1 == Pow2(w + c) - 1
  {
    ShlPow2(w, c);
    ShlAdd(Pow2(w) - 1, 1, c);
    ShlOne(c);
  }

  /** The number of significant bits of n. */
  ghost function Width(n: nat): (e: nat)
    ensures n < Pow2(e) && (n > 0 ==> e > 0 && Pow2(e - 1) <= n)
    decreases n
  {
    if n == 0 then 0 else 1 + Width(n / 2)
  }

  lemma LeadingBit(n: nat)
    requires n > 0
    ensures Led(n, Width(n), 1)
  {
    var e := Width(n);
    var r := ShrSplit(n, e - 1);
    ShlPow2(0, e - 1);
    ShlPow2(1, e - 1);
    if Shr(n, e - 1) == 0 {
      ShlMul(0, e - 1);
    } else if Shr(n, e - 1) >= 2 {
      ShlMono(2, Shr(n, e - 1), e - 1);
    }
  }

  /** The state of the smearing before the step by s. */
  ghost predicate Smearing(n: nat, e: nat, s: nat) {
    if e == 0 then n == 0 else if e <= s then n == Pow2(e) - 1 else Led(n, e, s)
  }

  /** n = (n >> s) | n */
  method SmearStep(m: nat, s: nat, ghost e: nat) returns (n: nat)
    requires Smearing(m, e, s) && 0 < s
    ensures Smearing(n, e, 2 * s)
  {
    if s < e {
      if 2 * s <= e { Smear(m, s, 0, e - 2 * s, s, e); } else { Smear(m, e - s, 2 * s - e, 0, s, e); }
    } else if 0 < e {
      MaskGone(e, s);
    }
    n := Or(Shr(m, s), m);
  }

  lemma MaskGone(e: nat, s: nat)
    requires e <= s
    ensures Shr(Pow2(e) - 1, s) == 0
  {
    ShrShr(Pow2(e) - 1, e, s - e);
    MaskShift(0, e);
  }

  /** Six smearing steps turn a 64-bit number into a mask of its width. */
  method Smeared(m: Size) returns (n: nat)
    ensures n == Pow2(Width(m)) - 1
  {
    ghost var e := Width(m);
    if m > 0 { LeadingBit(m); }
    n := SmearStep(m, 1, e);
    n := SmearStep(n, 2, e);
    n := SmearStep(n, 4, e);
    n := SmearStep(n, 8, e);
    n := SmearStep(n, 16, e);
    n := SmearStep(n, 32, e);
    WidthBound(m);
  }

  lemma WidthBound(m: Size)
    ensures Width(m) <= 64
  {
    Pow2Values();
    Pow2Add(32, 32);
    if Width(m) > 64 { Pow2Mono(64, Width(m) - 1); }
  }

  // ---------------------------------------------------------------- powers of two

  ghost predicate IsPow2(n: nat) { exists k: nat :: n == Pow2(k) }

  /**
    next_power_of_two: the least power of two that is not below n, for every n from 1 to 2^63;
    for the other arguments the last increment wraps to 0.
   */
  method NextPowerOfTwo(n: Size) returns (r: Size)
    ensures 1 <= n <= SIZE / 2 ==> r >= n && IsPow2(r) && forall k: nat :: Pow2(k) >= n ==> Pow2(k) >= r
    ensures n == 0 || n > SIZE / 2 ==> r == 0
  {
    var m: Size := (n - 1) % SIZE;
    var s := Smeared(m);
    Wrapped(n);
    NextPower(n, m);
    r := (s + 1) % SIZE;
  }

  lemma Wrapped(n: Size)
    ensures (n - 1) % SIZE == if n == 0 then SIZE - 1 else n - 1
  {
  }

  lemma NextPower(n: Size, m: Size)
    requires m == if n == 0 then SIZE - 1 else n - 1
    ensures 1 <= n <= SIZE / 2 ==> n <= Pow2(Width(m)) <= SIZE / 2
    ensures 1 <= n <= SIZE / 2 ==> forall k: nat :: Pow2(k) >= n ==> Pow2(k) >= Pow2(Width(m))
    ensures n == 0 || n > SIZE / 2 ==> Pow2(Width(m)) == SIZE
  {
    WidthBound(m);
    HalfOfSize(Width(m));
    if n > 0 { LeastPower(n, m); }
  }

  lemma HalfOfSize(e: nat)
    ensures e <= 63 ==> Pow2(e) <= SIZE / 2
    ensures e == 64 ==> Pow2(e) == SIZE && Pow2(e - 1) == SIZE / 2
  {
    Pow2Values();
    Pow2Add(32, 32);
    Pow2Add(32, 31);
    if e <= 63 { Pow2Mono(e, 63); }
  }

  lemma LeastPower(n: nat, m: nat)
    requires n == m + 1
    ensures forall k: nat :: Pow2(k) >= n ==> Pow2(k) >= Pow2(Width(m))
  {
    forall k: nat | Pow2(k) >= n
      ensures Pow2(k) >= Pow2(Width(m))
    {
      if k < Width(m) { Pow2Mono(k, Width(m) - 1); } else { Pow2Mono(Width(m), k); }
    }
  }

  /** is_power_of_two: zero or a power of two. */
  method IsPowerOfTwo(n: Size) returns (r: bool)
    ensures r <==> n == 0 || IsPow2(n)
  {
    PowerTest(n);
    r := And(n, (n - 1) % SIZE) == 0;
  }

  lemma PowerTest(n: Size)
    ensures And(n, (n - 1) % SIZE) == 0 <==> n == 0 || IsPow2(n)
  {
    if n > 0 { SingleBit(n); }
  }

  lemma {:induction false} SingleBit(n: nat)
    requires n > 0
    ensures And(n, n - 1) == 0 <==> IsPow2(n)
  {
    if n == 1 {
      assert Pow2(0) == 1;
    } else if n % 2 == 0 {
      SingleBit(n / 2);
      AndOdd(n, n - 1, n / 2 - 1);
      if k: nat :| n / 2 == Pow2(k) { assert n == Pow2(k + 1); }
      if k: nat :| n == Pow2(k) { assert n / 2 == Pow2(k - 1); }
    } else {
      AndSame(n / 2);
      AndEven(n, n / 2);
      assert forall k: nat :: k > 0 ==> Pow2(k) % 2 == 0;
    }
  }

  lemma {:induction false} AndSame(x: nat)
    ensures And(x, x) == x
  {
    if x == 0 {
    } else {
      AndSame(x / 2);
    }
  }

  /** fast_modulo: a mask instead of a division, for powers of two. */
  method FastModulo(n: Size, modul: nat) returns (r: nat)
    requires modul > 0 && IsPow2(modul)
    ensures r == n % modul
  {
    ghost var k: nat :| modul == Pow2(k);
    AndMask(n, k);
    r := And(n, modul - 1);
  }
}
