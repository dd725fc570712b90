/**
  The integer stages of __kernel_rem_pio2: the chunks q[0..jz] of the product of x and 2/pi are
  distilled into 24-bit digits, the integer part n modulo 8 is extracted, and a fraction of at
  least one half is replaced by its complement.  Doubles that hold integers are modelled by
  integers, and the fraction z by an integer multiple of 2^q0: all operations of these stages are
  exact.
 */
module RemPio2 {
  import opened Bits

  const RADIX := 0x100_0000   // 2^24
  const EXACT := 0x20_0000_0000_0000   // 2^53: integers below it are doubles
  const CHUNK_LIMIT := 0x18_0000_0000_0000   // leaves room for a carry below EXACT

  // ---------------------------------------------------------------- values

  /** RADIX to the power n. */
  function Power(n: nat): (r: nat)
    ensures r > 0
  {
    if n == 0 then 1 else RADIX * Power(n - 1)
  }

  /** Chunks, the most significant first. */
  function Chunks(q: seq<nat>): nat {
    if q == [] then 0 else q[0] * Power(|q| - 1) + Chunks(q[1..])
  }

  /** Digits, the least significant first. */
  function Digits(d: seq<int>): int {
    if d == [] then 0 else Digits(d[..|d| - 1]) + d[|d| - 1] * Power(|d| - 1)
  }

  predicate AreDigits(d: seq<int>) { forall i :: 0 <= i < |d| ==> 0 <= d[i] < RADIX }

  lemma {:induction false} DigitsBound(d: seq<int>)
    requires AreDigits(d)
    ensures 0 <= Digits(d) < Power(|d|)
  {
    if d == [] {
    } else {
      var k := |d| - 1;
      DigitsBound(d[..k]);
      MulMono(d[k], RADIX - 1, Power(k));
      MulMono(0, d[k], Power(k));
    }
  }

  // ---------------------------------------------------------------- the product chunks

  /** The first n terms of chunk i of the product: x[j] meets the digit of 2/pi that is i - j places further on. */
  ghost function Convolution(x: seq<nat>, f: seq<nat>, i: nat, n: nat): nat
    requires n <= |x| && |x| + i <= |f|
  {
    if n == 0 then 0 else Convolution(x, f, i, n - 1) + x[n - 1] * f[|x| + i - n]
  }

  /** The loops that compute q[0..jk]: the sums are exact, and small enough for the stages below. */
  method Products(x: seq<nat>, f: seq<nat>, jk: nat) returns (q: seq<nat>)
    requires 0 < |x| <= 20 && |f| == |x| + jk
    requires (forall j :: 0 <= j < |x| ==> x[j] < RADIX) && (forall j :: 0 <= j < |f| ==> f[j] < RADIX)
    ensures |q| == jk + 1
    ensures forall i :: 0 <= i <= jk ==> q[i] == Convolution(x, f, i, |x|) && q[i] < CHUNK_LIMIT
  {
    q := [];
    var i := 0;
    while i <= jk
      invariant 0 <= i <= jk + 1 && |q| == i
      invariant forall l :: 0 <= l < i ==> q[l] == Convolution(x, f, l, |x|) && q[l] < CHUNK_LIMIT
    {
      var fw, j := 0, 0;
      while j < |x|
        invariant 0 <= j <= |x| && fw == Convolution(x, f, i, j) && fw <= j * (RADIX * RADIX)
      {
        MulMono(x[j], RADIX, f[|x| - 1 + i - j]);
        MulMono(f[|x| - 1 + i - j], RADIX, RADIX);
        fw := fw + x[j] * f[|x| - 1 + i - j];
        j := j + 1;
      }
      q := q + [fw];
      i := i + 1;
    }
  }

  // ---------------------------------------------------------------- distillation

  /** The chunks from j on have been distilled into z and the digits d. */
  ghost predicate Distilled(q: seq<nat>, j: int, z: nat, d: seq<int>)
    requires 0 <= j < |q|
  {
    |d| == |q| - 1 - j && Chunks(q[j..]) == z * Power(|d|) + Digits(d)
  }

  /** One round: the low 24 bits of z are the next digit, and the rest is carried to the next chunk. */
  lemma DistillStep(q: seq<nat>, j: nat, d: seq<int>, z: nat)
    requires 0 < j < |q| && Distilled(q, j, z, d)
    ensures Distilled(q, j - 1, q[j - 1] + z / RADIX, d + [z % RADIX])
  {
    assert q[j - 1..][1..] == q[j..];
    DigitsAppend(d, z % RADIX);
    DistillSum(q[j - 1], z, Power(|d|));
  }

  lemma DistillSum(a: nat, z: nat, p: nat)
    ensures a * (RADIX * p) + z * p == (a + z / RADIX) * (RADIX * p) + z % RADIX * p
  {
    var b, r := z / RADIX, z % RADIX;
    assert z == b * RADIX + r;
    Distribute(b * RADIX, r, p);
    MulAssoc(b, RADIX, p);
    Distribute(a, b, RADIX * p);
  }

  /** The loop that distills q into iq, from the last chunk to the first. */
  method Distill(q: seq<nat>) returns (iq: array<int>, z: nat)
    requires 0 < |q| && forall j :: 0 <= j < |q| ==> q[j] < CHUNK_LIMIT
    ensures fresh(iq) && iq.Length == |q| - 1 && AreDigits(iq[..]) && z < EXACT
    ensures Chunks(q) == z * Power(|q| - 1) + Digits(iq[..])
  {
    var jz := |q| - 1;
    iq := new int[jz];
    var i, j := 0, jz;
    z := q[jz];
    assert q[jz..][1..] == [] && iq[..0] == [];
    while j > 0
      invariant 0 <= j <= jz && i == jz - j && z < EXACT && AreDigits(iq[..i])
      invariant Distilled(q, j, z, iq[..i])
    {
      var fw := z / RADIX;
      DistillStep(q, j, iq[..i], z);
      iq[i] := z - RADIX * fw;
      assert iq[..i + 1] == iq[..i] + [z % RADIX];
      z := q[j - 1] + fw;
      i, j := i + 1, j - 1;
    }
    assert q[0..] == q && iq[..i] == iq[..];
  }

  // ---------------------------------------------------------------- the complement

  lemma DigitsAppend(d: seq<int>, e: int)
    ensures Digits(d + [e]) == Digits(d) + e * Power(|d|)
  {
    assert (d + [e])[..|d|] == d;
  }

  lemma ComplementStep(carry: bool, d: seq<int>, c: seq<int>, t: int, e: int)
    requires |c| == |d| && 0 <= t < RADIX
    requires if carry then Digits(c) == Power(|d|) - Digits(d) else Digits(c) == 0 == Digits(d)
    requires e == if carry then 0xff_ffff - t else if t != 0 then RADIX - t else 0
    ensures carry || t != 0 ==> Digits(c + [e]) == Power(|d| + 1) - Digits(d + [t])
    ensures !carry && t == 0 ==> Digits(c + [e]) == 0 == Digits(d + [t])
  {
    DigitsAppend(c, e);
    DigitsAppend(d, t);
    ComplementSum(Power(|d|), t, e, if carry then 1 else 0);
  }

  lemma ComplementSum(p: int, t: int, e: int, c: int)
    ensures e == RADIX - c - t ==> e * p == RADIX * p - c * p - t * p
  {
    if e == RADIX - c - t {
      Distribute(RADIX - c, -t, p);
      Distribute(RADIX, -c, p);
    }
  }

  /** c is the complement of the digits d, or both are zero so far. */
  ghost predicate Complemented(carry: bool, c: seq<int>, d: seq<int>) {
    && |c| == |d| && AreDigits(c) && (carry ==> Digits(d) > 0)
    && if carry then Digits(c) == Power(|d|) - Digits(d) else Digits(c) == 0 == Digits(d)
  }

  lemma DigitComplemented(carry: bool, d: seq<int>, i: nat, c: seq<int>, e: int)
    requires i < |d| && AreDigits(d) && Complemented(carry, c, d[..i])
    requires e == if carry then 0xff_ffff - d[i] else if d[i] != 0 then RADIX - d[i] else 0
    ensures Complemented(carry || d[i] != 0, c + [e], d[..i + 1])
  {
    assert d[..i + 1] == d[..i] + [d[i]];
    ComplementStep(carry, d[..i], c, d[i], e);
    DigitsGrow(d, i);
  }

  method ComplementDigit(carry: bool, j: int) returns (carry': bool, e: int)
    requires 0 <= j < RADIX
    ensures carry' == (carry || j != 0) && 0 <= e < RADIX
    ensures e == if carry then 0xff_ffff - j else if j != 0 then RADIX - j else 0
  {
    carry', e := carry, j;
    if !carry {
      if j != 0 {
        carry', e := true, RADIX - j;
      }
    } else {
      e := 0xff_ffff - j;
    }
  }

  /** The loop that computes 1 - q: digits below the first that is not zero stay, the others are complemented. */
  method Complement(iq: array<int>) returns (carry: bool)
    requires AreDigits(iq[..])
    modifies iq
    ensures AreDigits(iq[..]) && (carry <==> old(Digits(iq[..])) != 0)
    ensures Digits(iq[..]) == if carry then Power(iq.Length) - old(Digits(iq[..])) else 0
  {
    ghost var d := iq[..];
    carry := false;
    var i := 0;
    while i < iq.Length
      invariant 0 <= i <= iq.Length && iq[i..] == d[i..]
      invariant Complemented(carry, iq[..i], d[..i])
    {
      var j := iq[i];
      assert j == iq[i..][0] == d[i];
      ghost var c := iq[..i];
      DigitComplemented(carry, d, i, c, if carry then 0xff_ffff - j else if j != 0 then RADIX - j else 0);
      carry, iq[i] := ComplementDigit(carry, j);
      assert iq[..i + 1] == c + [iq[i]] && iq[i + 1..] == d[i + 1..];
      i := i + 1;
    }
    assert iq[..i] == iq[..] && d[..i] == d;
  }

  lemma DigitsGrow(d: seq<int>, i: nat)
    requires i < |d| && AreDigits(d)
    ensures Digits(d[..i + 1]) == Digits(d[..i]) + d[i] * Power(i)
    ensures Digits(d[..i + 1]) >= Digits(d[..i]) && (d[i] != 0 ==> Digits(d[..i + 1]) > 0)
  {
    assert d[..i + 1][..i] == d[..i];
    DigitsBound(d[..i]);
    MulMono(0, d[i], Power(i));
    if d[i] != 0 { MulMono(1, d[i], Power(i)); }
  }

  // ---------------------------------------------------------------- scales

  lemma {:induction false} PowerPow2(n: nat)
    ensures Power(n) == Pow2(24 * n)
  {
    if n == 0 {
    } else {
      PowerPow2(n - 1);
      Pow2Values();
      Pow2Add(24, 24 * (n - 1));
    }
  }

  /** One, counted in units of the last digit: the last of jz digits is worth 2^(q0 - 24 jz). */
  ghost function One(jz: nat, q0: int): nat
    requires q0 <= 24 * jz
  {
    Pow2(24 * jz - q0)
  }

  /** The units in which the fraction z is counted: it is a multiple of 2^q0 if q0 is negative, else whole. */
  function Fraction(q0: int): (p: nat)
    ensures p > 0
  {
    if q0 < 0 then Pow2(-q0) else 1
  }

  lemma ScaleDown(jz: nat, q0: int)
    requires q0 < 0
    ensures One(jz, q0) == Fraction(q0) * Power(jz) && Fraction(q0) % 2 == 0
  {
    PowerPow2(jz);
    Pow2Add(-q0, 24 * jz);
  }

  lemma ScaleUp(jz: nat, q0: int)
    requires 0 <= q0 <= 24 && 0 < jz
    ensures Power(jz) == Pow2(q0) * One(jz, q0) && One(jz, q0) == Pow2(24 - q0) * Power(jz - 1)
    ensures q0 < 24 ==> Pow2(24 - q0) == 2 * Pow2(23 - q0)
  {
    PowerPow2(jz);
    PowerPow2(jz - 1);
    Pow2Add(q0, 24 * jz - q0);
    Pow2Add(24 - q0, 24 * (jz - 1));
  }

  // ---------------------------------------------------------------- the integer part

  /** What the stages establish: total = (8 k + n) * one plus or minus the fraction. */
  ghost predicate Split(total: int, one: int, k: int, n: int, fraction: int) {
    total == (8 * k + n) * one + fraction
  }

  /** q0 < 0: the integer part and the fraction are both in z. */
  method SplitLow(z: nat, q0: int, ghost jz: nat, ghost d: int) returns (n: int, zf: int, ih: int, ghost k: int)
    requires q0 < 0 && 0 <= d < Power(jz)
    ensures 0 <= zf < Fraction(q0) && 0 <= n < 8 && (ih == 0 || ih == 2)
    ensures Split(z * Power(jz) + d, One(jz, q0), k, n, zf * Power(jz) + d)
    ensures 0 <= zf * Power(jz) + d < One(jz, q0) && (ih > 0 <==> 2 * (zf * Power(jz) + d) >= One(jz, q0))
  {
    var p := Fraction(q0);
    ScaleDown(jz, q0);
    var trimmed := z % (8 * p);
    n, zf := trimmed / p, trimmed % p;
    ih := if 2 * zf >= p then 2 else 0;
    k := z / (8 * p);
    TrimmedLow(z, p, k, n, zf, trimmed);
    LowSplit(z, p, 8 * k + n, zf, Power(jz), d);
    HalfLow(zf, p, Power(jz), d);
  }

  lemma TrimmedLow(z: nat, p: nat, k: int, n: int, zf: int, trimmed: int)
    requires p > 0 && trimmed == z % (8 * p) && k == z / (8 * p) && n == trimmed / p && zf == trimmed % p
    ensures z == (8 * k + n) * p + zf && 0 <= n < 8
  {
    var k', r := DivMod(z, 8 * p);
    DivModUnique(z, 8 * p, k', r);
    var n', f := DivMod(r, p);
    DivModUnique(r, p, n', f);
    if n' >= 8 { MulMono(8, n', p); }
    assert (8 * k' + n') * p == k' * (8 * p) + n' * p;
  }

  lemma LowSplit(z: nat, p: nat, m: int, zf: int, w: nat, d: int)
    requires z == m * p + zf
    ensures z * w + d == m * (p * w) + (zf * w + d)
  {
    Distribute(m * p, zf, w);
    MulAssoc(m, p, w);
  }

  lemma HalfLow(zf: int, p: nat, w: nat, d: int)
    requires 0 <= zf < p && 0 <= d < w && p % 2 == 0
    ensures 0 <= zf * w + d < p * w && (2 * zf >= p <==> 2 * (zf * w + d) >= p * w)
  {
    MulMono(0, zf, w);
    MulMono(zf + 1, p, w);
    Distribute(zf, 1, w);
    MulAssoc(2, zf, w);
    if 2 * zf >= p {
      MulMono(p, 2 * zf, w);
    } else {
      MulMono(2 * zf + 2, p, w);
      Distribute(2 * zf, 2, w);
    }
  }

  /** Replacing the top digit. */
  lemma TopDigit(d: seq<int>, t: int)
    requires d != [] && AreDigits(d) && 0 <= t < RADIX
    ensures AreDigits(d[|d| - 1 := t])
    ensures 0 <= Digits(d[..|d| - 1]) < Power(|d| - 1)
    ensures Digits(d) == Digits(d[..|d| - 1]) + d[|d| - 1] * Power(|d| - 1)
    ensures Digits(d[|d| - 1 := t]) == Digits(d[..|d| - 1]) + t * Power(|d| - 1)
  {
    DigitsBound(d[..|d| - 1]);
    assert d[|d| - 1 := t][..|d| - 1] == d[..|d| - 1];
  }

  /** The bits of the top digit that belong to the integer part are taken out of it. */
  method TakeTop(iq: array<int>, q0: int) returns (i: int, ih: int)
    requires 0 <= q0 <= 2 && 0 < iq.Length && AreDigits(iq[..])
    modifies iq
    ensures AreDigits(iq[..]) && (ih == 0 || ih == 1) && (q0 == 0 ==> i == 0)
    ensures old(Digits(iq[..])) == i * One(iq.Length, q0) + Digits(iq[..])
    ensures 0 <= Digits(iq[..]) < One(iq.Length, q0) && (ih > 0 <==> 2 * Digits(iq[..]) >= One(iq.Length, q0))
  {
    ghost var d := iq[..];
    var last := iq.Length - 1;
    var t;
    t, i, ih := SplitTop(iq[last], q0);
    if q0 > 0 { iq[last] := t; }
    assert iq[..] == d[last := t];
    TakenTop(d, t, i, q0);
  }

  lemma TakenTop(d: seq<int>, t: int, i: int, q0: int)
    requires d != [] && AreDigits(d) && 0 <= q0 <= 2
    requires d[|d| - 1] == i * Pow2(24 - q0) + t && 0 <= t < Pow2(24 - q0) && t < RADIX
    ensures AreDigits(d[|d| - 1 := t]) && Digits(d) == i * One(|d|, q0) + Digits(d[|d| - 1 := t])
    ensures var g := Digits(d[|d| - 1 := t]);
            0 <= g < One(|d|, q0) && (2 * t >= Pow2(24 - q0) <==> 2 * g >= One(|d|, q0))
  {
    var p, w := Pow2(24 - q0), Power(|d| - 1);
    assert One(|d|, q0) == p * w && p % 2 == 0 by { ScaleUp(|d|, q0); }
    TakenAt(d, t, i, p, w);
  }

  lemma TakenAt(d: seq<int>, t: int, i: int, p: nat, w: nat)
    requires d != [] && AreDigits(d) && p % 2 == 0 && w == Power(|d| - 1)
    requires d[|d| - 1] == i * p + t && 0 <= t < p && t < RADIX
    ensures AreDigits(d[|d| - 1 := t]) && Digits(d) == i * (p * w) + Digits(d[|d| - 1 := t])
    ensures var g := Digits(d[|d| - 1 := t]); 0 <= g < p * w && (2 * t >= p <==> 2 * g >= p * w)
  {
    TopDigit(d, t);
    TopLaw(Digits(d[..|d| - 1]), t, i, p, w);
  }

  lemma TopLaw(low: int, t: int, i: int, p: nat, w: nat)
    requires 0 <= t < p && 0 <= low < w && p % 2 == 0
    ensures low + (i * p + t) * w == i * (p * w) + (low + t * w)
    ensures 0 <= low + t * w < p * w && (2 * t >= p <==> 2 * (low + t * w) >= p * w)
  {
    Distribute(i * p, t, w);
    MulAssoc(i, p, w);
    HalfLow(t, p, w, low);
  }

  /** q0 >= 0: z is whole, and the integer part also takes the top q0 bits of the top digit. */
  method SplitHigh(z: nat, q0: int, iq: array<int>) returns (n: int, ih: int, ghost k: int)
    requires 0 <= q0 <= 2 && 0 < iq.Length && AreDigits(iq[..])
    modifies iq
    ensures AreDigits(iq[..]) && (ih == 0 || ih == 1)
    ensures Split(z * Power(iq.Length) + old(Digits(iq[..])), One(iq.Length, q0), k, n, Digits(iq[..]))
    ensures 0 <= Digits(iq[..]) < One(iq.Length, q0) && (ih > 0 <==> 2 * Digits(iq[..]) >= One(iq.Length, q0))
  {
    n, k := z * Pow2(q0) % 8, z * Pow2(q0) / 8;
    var i;
    i, ih := TakeTop(iq, q0);
    n := n + i;
    ScaleUp(iq.Length, q0);
    HighSplit(z, Pow2(q0), One(iq.Length, q0), i, k, n);
  }

  /** The top q0 bits of a digit, the rest, and the first bit of the rest. */
  method SplitTop(digit: int, q0: nat) returns (t: int, i: int, h: int)
    requires 0 <= digit < RADIX && q0 <= 2
    ensures digit == i * Pow2(24 - q0) + t && 0 <= t < Pow2(24 - q0) && t <= digit
    ensures q0 == 0 ==> i == 0 && t == digit
    ensures (h == 0 || h == 1) && (h == 1 <==> 2 * t >= Pow2(24 - q0))
  {
    ghost var r := ShrSplit(digit, 24 - q0);
    ShlMul(Shr(digit, 24 - q0), 24 - q0);
    i := Shr(digit, 24 - q0);
    t := digit - Shl(i, 24 - q0);
    if q0 == 0 { NoTopBits(digit); }
    h := FirstBit(t, 23 - q0);
  }

  lemma NoTopBits(digit: nat)
    requires digit < RADIX
    ensures Shr(digit, 24) == 0 && Shl(0, 24) == 0
  {
    Pow2Values();
    ShrDiv(digit, 24);
    ShlMul(0, 24);
  }

  method FirstBit(t: nat, k: nat) returns (h: int)
    requires t < 2 * Pow2(k)
    ensures (h == 0 || h == 1) && (h == 1 <==> t >= Pow2(k))
  {
    ghost var r := ShrSplit(t, k);
    ShlMul(Shr(t, k), k);
    h := Shr(t, k);
    if h >= 2 { MulMono(2, h, Pow2(k)); }
    if h == 1 { MulMono(1, h, Pow2(k)); }
  }

  lemma HighSplit(z: nat, c: nat, one: nat, i: int, k: int, n: int)
    requires k == z * c / 8 && n == z * c % 8 + i
    ensures z * (c * one) + i * one == (8 * k + n) * one
  {
    MulAssoc(z, c, one);
    Distribute(z * c, i, one);
    assert 8 * k + n == z * c + i;
  }

  // ---------------------------------------------------------------- fractions of at least one half

  /** The mask on the top digit for q0 = 1 or 2: a complement modulo 2^(24 jz) becomes one modulo 1. */
  method MaskTop(iq: array<int>, q0: int, ghost g: int)
    requires 1 <= q0 <= 2 && 0 < iq.Length && AreDigits(iq[..])
    requires 0 < g < One(iq.Length, q0) && Digits(iq[..]) == Power(iq.Length) - g
    modifies iq
    ensures AreDigits(iq[..]) && Digits(iq[..]) == One(iq.Length, q0) - g
  {
    ghost var d := iq[..];
    var last := iq.Length - 1;
    Pow2Values();
    assert Pow2(24) == 2 * Pow2(23) && Pow2(23) == 2 * Pow2(22);
    AndMask(iq[last], 24 - q0);
    var t := if q0 == 1 then And(iq[last], 0x7f_ffff) else And(iq[last], 0x3f_ffff);
    iq[last] := t;
    assert iq[..] == d[last := t];
    var i, _ := DivMod(d[last], Pow2(24 - q0));
    TakenTop(d, t, i, q0);
    ScaleUp(iq.Length, q0);
    Masked(Pow2(q0), One(iq.Length, q0), g, i, Digits(iq[..]));
  }

  lemma Masked(c: int, one: int, g: int, i: int, r: int)
    requires 0 < g < one && 0 <= r < one && i * one + r == c * one - g
    ensures r == one - g
  {
    SmallMultiple(c - 1 - i, one, r - (one - g)) by {
      assert (c - 1 - i) * one == c * one - one - i * one;
    }
  }

  /** If the fraction is at least one half, n is rounded up and the fraction is taken from one. */
  method RoundUp(iq: array<int>, q0: int, zf: int, ih: int, ghost g: int) returns (z: int)
    requires q0 <= 2 && 0 < iq.Length && AreDigits(iq[..]) && g == zf * Power(iq.Length) + Digits(iq[..])
    requires 0 < g < One(iq.Length, q0) && (if q0 < 0 then ih == 2 else ih == 1 && zf == 0)
    modifies iq
    ensures AreDigits(iq[..]) && z * Power(iq.Length) + Digits(iq[..]) == One(iq.Length, q0) - g
  {
    z := zf;
    var carry := Complement(iq);
    if q0 > 0 { MaskTop(iq, q0, g); }
    if ih == 2 {
      ScaleDown(iq.Length, q0);
      z := Fraction(q0) - z;
      if carry { z := z - 1; }
      FromOne(Fraction(q0), zf, z, Power(iq.Length));
    } else if q0 == 0 {
      ScaleUp(iq.Length, 0);
    }
  }

  lemma FromOne(p: int, zf: int, z: int, w: int)
    ensures z == p - zf ==> z * w == p * w - zf * w
    ensures z == p - zf - 1 ==> z * w == p * w - zf * w - w
  {
    Distribute(p, -zf, w);
    Distribute(p - zf, -1, w);
  }

  /** total is n plus or minus g modulo 8, where one is worth `one`, except for what is lost. */
  ghost predicate Reduced(total: int, one: int, k: int, n: int, ih: int, g: int, lost: int) {
    && (ih == 0 ==> total == (8 * k + n) * one + g + lost && 0 <= 2 * g < one)
    && (ih > 0 ==> total == (8 * k + n) * one - g + lost && 0 < 2 * g <= one)
    && ih >= 0
  }

  lemma SplitReduced(total: int, one: int, k: int, n: int, ih: int, g: int)
    requires Split(total, one, k, n, g) && 0 <= g < one && ih >= 0 && (ih > 0 <==> 2 * g >= one)
    ensures if ih == 0 then Reduced(total, one, k, n, ih, g, 0) else Reduced(total, one, k, n + 1, ih, one - g, 0)
  {
    Distribute(8 * k + n, 1, one);
  }

  /**
    All integer stages.  In units of 2^(q0 - 24 jz) the chunks add up to Chunks(q): this is
    n + g modulo 8 with 0 <= g < 1/2, or n - g with 0 < g <= 1/2 if ih > 0, where g is what z
    and the digits hold afterwards.
   */
  method Reduce(q: seq<nat>, q0: int) returns (n: int, ih: int, z: int, digits: seq<int>, ghost k: int)
    requires 2 <= |q| && q0 <= 2 && forall j :: 0 <= j < |q| ==> q[j] < CHUNK_LIMIT
    ensures |digits| == |q| - 1 && AreDigits(digits)
    ensures var one, g := One(|q| - 1, q0), z * Power(|q| - 1) + Digits(digits);
            Reduced(Chunks(q), one, k, n, ih, g, 0)
  {
    var iq, zi := Distill(q);
    z := 0;
    if q0 < 0 {
      DigitsBound(iq[..]);
      n, z, ih, k := SplitLow(zi, q0, iq.Length, Digits(iq[..]));
    } else {
      n, ih, k := SplitHigh(zi, q0, iq);
    }
    ghost var one, g := One(iq.Length, q0), z * Power(iq.Length) + Digits(iq[..]);
    SplitReduced(Chunks(q), one, k, n, ih, g);
    if ih > 0 {
      n := n + 1;
      z := RoundUp(iq, q0, z, ih, g);
    }
    digits := iq[..];
  }
}
