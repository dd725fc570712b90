/**
  What the integer stages of __kernel_rem_pio2 compute: the product of x and 2/pi modulo 8, where
  2/pi is cut off after the digits that are used, and the product after the last chunk.
 */
module RemPio2Value {
  import opened Bits
  import opened RemPio2

  predicate Places(f: seq<nat>) { forall i :: 0 <= i < |f| ==> f[i] < RADIX }

  // ---------------------------------------------------------------- chunks as numbers

  lemma {:induction false} PowerAdd(m: nat, n: nat)
    ensures Power(m + n) == Power(m) * Power(n)
  {
    if m == 0 {
    } else {
      PowerAdd(m - 1, n);
      MulAssoc(RADIX, Power(m - 1), Power(n));
    }
  }

  lemma {:induction false} ChunksCat(a: seq<nat>, b: seq<nat>)
    ensures Chunks(a + b) == Chunks(a) * Power(|b|) + Chunks(b)
  {
    if a == [] {
      assert a + b == b;
    } else {
      ChunksCat(a[1..], b);
      assert (a + b)[1..] == a[1..] + b;
      PowerAdd(|a| - 1, |b|);
      CatStep(a[0], Power(|a| - 1), Chunks(a[1..]), Power(|b|));
    }
  }

  lemma CatStep(d: nat, p: nat, c: nat, w: nat)
    ensures d * (p * w) + c * w == (d * p + c) * w
  {
    MulAssoc(d, p, w);
    Distribute(d * p, c, w);
  }

  lemma {:induction false} ChunksBound(f: seq<nat>)
    requires Places(f)
    ensures Chunks(f) < Power(|f|)
  {
    if f == [] {
    } else {
      ChunksBound(f[1..]);
      MulMono(f[0], RADIX - 1, Power(|f| - 1));
    }
  }

  lemma {:induction false} ChunksZero(f: seq<nat>)
    requires forall i :: 0 <= i < |f| ==> f[i] == 0
    ensures Chunks(f) == 0
  {
    if f == [] {
    } else {
      ChunksZero(f[1..]);
    }
  }

  /** Chunk by chunk, c times b is added to a. */
  lemma {:induction false} ChunksLinear(a: seq<nat>, c: nat, b: seq<nat>, s: seq<nat>)
    requires |a| == |b| == |s| && forall i :: 0 <= i < |s| ==> s[i] == a[i] + c * b[i]
    ensures Chunks(s) == Chunks(a) + c * Chunks(b)
  {
    if s == [] {
    } else {
      ChunksLinear(a[1..], c, b[1..], s[1..]);
      LinearStep(a[0], c, b[0], Power(|s| - 1), Chunks(b[1..]));
    }
  }

  lemma LinearStep(a: nat, c: nat, b: nat, p: nat, r: nat)
    ensures (a + c * b) * p + c * r == a * p + c * (b * p + r)
  {
    Distribute(a, c * b, p);
    MulAssoc(c, b, p);
    Distribute(b * p, r, c);
  }

  // ---------------------------------------------------------------- the chunks of the product

  /** Each of the first n digits of x meets a stretch of f of the given length. */
  ghost function Stretches(x: seq<nat>, f: seq<nat>, len: nat, n: nat): nat
    requires n <= |x| && |f| == |x| - 1 + len && 0 < |x|
  {
    if n == 0 then 0
    else Stretches(x, f, len, n - 1) + x[n - 1] * Chunks(f[|x| - n..|x| - n + len])
  }

  /** The chunks that the loops compute add up to these. */
  lemma {:induction false} ChunksOfProducts(x: seq<nat>, f: seq<nat>, q: seq<nat>, n: nat)
    requires 0 < |x| && |f| == |x| - 1 + |q| && n <= |x|
    requires forall i :: 0 <= i < |q| ==> q[i] == Convolution(x, f, i, n)
    ensures Chunks(q) == Stretches(x, f, |q|, n)
    decreases n
  {
    if n == 0 {
      ChunksZero(q);
    } else {
      var p := seq(|q|, i requires 0 <= i < |q| => Convolution(x, f, i, n - 1));
      ChunksOfProducts(x, f, p, n - 1);
      ChunksLinear(p, x[n - 1], f[|x| - n..|x| - n + |q|], q);
    }
  }

  /** f around the stretch of length len that starts at p. */
  lemma Around(f: seq<nat>, p: nat, len: nat) returns (top: nat, low: nat)
    requires p + len <= |f| && Places(f)
    ensures var j := |f| - p - len;
            Chunks(f) == top * Power(len + j) + Chunks(f[p..p + len]) * Power(j) + low && low < Power(j)
    ensures top == Chunks(f[..p]) && (p + len == |f| ==> low == 0)
  {
    var a, b, c := f[..p], f[p..p + len], f[p + len..];
    top, low := Chunks(a), Chunks(c);
    assert f == a + (b + c);
    ChunksCat(b, c);
    ChunksCat(a, b + c);
    ChunksBound(c);
  }

  /** The first n digits of x, at their places. */
  ghost function Head(x: seq<nat>, n: nat): nat
    requires n <= |x|
  {
    Chunks(x[..n]) * Power(|x| - n)
  }

  lemma HeadStep(x: seq<nat>, n: nat)
    requires n < |x|
    ensures Head(x, n + 1) == Head(x, n) + x[n] * Power(|x| - 1 - n)
  {
    assert x[..n + 1] == x[..n] + [x[n]];
    ChunksCat(x[..n], [x[n]]);
    var p := Power(|x| - 1 - n);
    assert Chunks([x[n]]) == x[n] && Power(1) == RADIX;
    Distribute(Chunks(x[..n]) * RADIX, x[n], p);
    MulAssoc(Chunks(x[..n]), RADIX, p);
  }

  /** What one digit d, with the weight w of its place, adds to the product. */
  lemma DigitTimes(d: nat, w: nat, f: nat, top: nat, c: nat, low: nat, p: nat, v: nat, pv: nat, m: nat, pm: nat)
    requires f == top * pv + c * v + low && pv == p * v && m == v * w && pm == p * m
    ensures d * w * f == d * top * pm + d * c * m + d * w * low
  {
    assert d * w * (top * (p * v)) == d * top * (p * (v * w));
    assert d * w * (c * v) == d * c * (v * w);
    assert d * w * f == d * w * (top * (p * v)) + d * w * (c * v) + d * w * low;
  }

  /** Without a digit of f above the chunks, there is nothing above any stretch. */
  lemma NothingAbove(f: seq<nat>, p: nat, m: nat)
    requires p <= m <= |f| && Chunks(f[..m]) == 0
    ensures Chunks(f[..p]) == 0
  {
    assert f[..m] == f[..p] + f[p..m];
    ChunksCat(f[..p], f[p..m]);
    MulMono(1, Power(|f[p..m]|), Chunks(f[..p]));
  }

  lemma Weights(len: nat, j: nat, m: nat)
    requires j <= m
    ensures Power(len + j) == Power(len) * Power(j) && Power(j) * Power(m - j) == Power(m)
    ensures Power(len) * Power(m) == Power(len + m)
  {
    PowerAdd(len, j);
    PowerAdd(j, m - j);
    PowerAdd(len, m);
  }

  /** Digit j of x times f. */
  lemma DigitPart(x: seq<nat>, f: seq<nat>, len: nat, j: nat) returns (high: nat, low: nat)
    requires j < |x| && |f| == |x| - 1 + len && Places(x) && Places(f)
    ensures var p := |x| - 1 - j;
            Layers(x[j] * Power(p), Chunks(f), high, Power(len + |x| - 1),
                   x[j] * Chunks(f[p..p + len]), Power(|x| - 1), low)
    ensures low <= (if j == 0 then 0 else RADIX * Power(|x| - 1))
    ensures Chunks(f[..|x| - 1]) == 0 ==> high == 0
  {
    var m, p := |x| - 1, |x| - 1 - j;
    var top, rest := Around(f, p, len);
    Weights(len, j, m);
    if Chunks(f[..m]) == 0 { NothingAbove(f, p, m); }
    high, low := DigitLayers(x[j], Power(p), Chunks(f), top, Chunks(f[p..p + len]), rest,
                             Power(len), Power(j), Power(len + j), Power(m), Power(len + m));
  }

  /** The product of a and f in three layers. */
  ghost predicate Layers(a: int, f: int, high: int, p: int, mid: int, w: int, low: int) {
    a * f == high * p + mid * w + low
  }

  lemma DigitLayers(d: nat, w: nat, f: nat, top: nat, c: nat, rest: nat, p: nat, v: nat, pv: nat, m: nat, pm: nat)
      returns (high: nat, low: nat)
    requires f == top * pv + c * v + rest && pv == p * v && m == v * w && pm == p * m && d < RADIX && rest < v
    ensures Layers(d * w, f, high, pm, d * c, m, low)
    ensures low <= (if rest == 0 then 0 else RADIX * m) && (top == 0 ==> high == 0)
  {
    DigitTimes(d, w, f, top, c, rest, p, v, pv, m, pm);
    LowPart(d, w, rest, v, m);
    high, low := d * top, d * w * rest;
  }

  lemma LowPart(d: nat, w: nat, rest: nat, v: nat, m: nat)
    requires d < RADIX && rest < v && v * w == m
    ensures 0 <= d * w * rest <= RADIX * m
  {
    MulAssoc(d, w, rest);
    MulMono(rest, v, w);
    MulMono(d, RADIX, w * rest);
    MulMono(w * rest, m, RADIX);
  }

  lemma SumParts(a: int, b: int, f: int, h: int, h': int, p: int, s: int, s': int, w: int, l: int, l': int)
    requires Layers(a, f, h, p, s, w, l) && Layers(b, f, h', p, s', w, l')
    ensures Layers(a + b, f, h + h', p, s + s', w, l + l')
  {
    Distribute(a, b, f);
    Distribute(h, h', p);
    Distribute(s, s', w);
  }

  /** All digits of x but the first lose something below the last chunk. */
  function Losses(n: nat): nat { if n == 0 then 0 else n - 1 }

  /**
    The product of x and f: the chunks are its middle.  Above them are whole multiples of
    Power(len + |x| - 1), and what is below them is small.
   */
  lemma {:induction false} ProductSplit(x: seq<nat>, f: seq<nat>, len: nat, n: nat) returns (high: nat, low: nat)
    requires 0 < |x| && |f| == |x| - 1 + len && n <= |x| && Places(x) && Places(f)
    ensures Layers(Head(x, n), Chunks(f), high, Power(len + |x| - 1), Stretches(x, f, len, n), Power(|x| - 1), low)
    ensures low <= Losses(n) * (RADIX * Power(|x| - 1))
    ensures Chunks(f[..|x| - 1]) == 0 ==> high == 0
  {
    high, low := 0, 0;
    if n == 0 {
    } else {
      high, low := ProductSplit(x, f, len, n - 1);
      var h, l := DigitPart(x, f, len, n - 1);
      HeadStep(x, n - 1);
      var a, b := Head(x, n - 1), x[n - 1] * Power(|x| - n);
      var s, t := Stretches(x, f, len, n - 1), x[n - 1] * Chunks(f[|x| - n..|x| - n + len]);
      SumParts(a, b, Chunks(f), high, h, Power(len + |x| - 1), s, t, Power(|x| - 1), low, l);
      LowGrows(n, low, l, RADIX * Power(|x| - 1));
      high, low := high + h, low + l;
    }
  }

  lemma LowGrows(n: nat, low: nat, l: nat, rw: nat)
    requires n > 0 && low <= Losses(n - 1) * rw && l <= (if n == 1 then 0 else rw)
    ensures low + l <= Losses(n) * rw
  {
    if n > 1 { Distribute(n - 2, 1, rw); }
  }

  // ---------------------------------------------------------------- the digits of 2/pi that are used

  /** The exponent of x[0] tells which digits of 2/pi matter modulo 8. */
  function FirstPlace(e0: int): nat { if e0 < 3 then 0 else (e0 - 3) / 24 }

  function ChunkExponent(e0: int): int { e0 - 24 * (FirstPlace(e0) + 1) }

  /** Digit j of 2/pi, and zero in front of them. */
  function Place(ipio2: seq<nat>, j: int): nat
    requires j < |ipio2|
  {
    if j < 0 then 0 else ipio2[j]
  }

  /** The loop that sets up f[0..jx + jk]. */
  method SetUp(ipio2: seq<nat>, jv: nat, jx: nat, jk: nat) returns (f: seq<nat>)
    requires jv + jk < |ipio2| && Places(ipio2)
    ensures |f| == jx + jk + 1 && Places(f)
    ensures forall i :: 0 <= i < |f| ==> f[i] == Place(ipio2, jv - jx + i)
  {
    f := [];
    var i, j := 0, jv - jx;
    while i <= jx + jk
      invariant 0 <= i <= jx + jk + 1 && j == jv - jx + i && |f| == i && Places(f)
      invariant forall l :: 0 <= l < i ==> f[l] == Place(ipio2, jv - jx + l)
    {
      f := f + [Place(ipio2, j)];
      i, j := i + 1, j + 1;
    }
  }

  /** f holds the last digits that are used; in front of it are the rest, or f starts with zeros. */
  lemma SetUpValue(ipio2: seq<nat>, jv: nat, jx: nat, jk: nat, f: seq<nat>) returns (rest: nat)
    requires jv + jk < |ipio2| && |f| == jx + jk + 1 && forall i :: 0 <= i < |f| ==> f[i] == Place(ipio2, jv - jx + i)
    ensures Chunks(ipio2[..jv + jk + 1]) == rest * Power(|f|) + Chunks(f)
    ensures jv == 0 ==> rest == 0 && Chunks(f[..jx]) == 0
  {
    if jv >= jx {
      assert ipio2[..jv + jk + 1] == ipio2[..jv - jx] + f;
      ChunksCat(ipio2[..jv - jx], f);
      rest := Chunks(ipio2[..jv - jx]);
    } else {
      var zeros := f[..jx - jv];
      assert f == zeros + ipio2[..jv + jk + 1];
      ChunksZero(zeros);
      ChunksCat(zeros, ipio2[..jv + jk + 1]);
      rest := 0;
    }
    if jv == 0 { ChunksZero(f[..jx]); }
  }

  // ---------------------------------------------------------------- what lies above the chunks is a multiple of 8

  lemma PlaceOfOne(jk: nat, q0: int)
    requires -21 <= q0 <= 24 * jk
    ensures Power(jk + 1) == 8 * Pow2(q0 + 21) * One(jk, q0)
  {
    PowerPow2(jk + 1);
    Pow2Add(q0 + 24, 24 * jk - q0);
    Pow2Add(3, q0 + 21);
    Pow2Values();
  }

  lemma AboveIsEights(high: nat, jk: nat, jx: nat, q0: int) returns (c: nat)
    requires q0 <= 24 * jk && (q0 < -21 ==> high == 0)
    ensures high * Power(jk + 1 + jx) == 8 * c * (One(jk, q0) * Power(jx))
  {
    if q0 < -21 {
      c := 0;
    } else {
      c := high * Pow2(q0 + 21);
      PowerAdd(jk + 1, jx);
      PlaceOfOne(jk, q0);
      Eights(high, Pow2(q0 + 21), One(jk, q0), Power(jx), Power(jk + 1), Power(jk + 1 + jx));
    }
  }

  lemma Eights(high: nat, e: nat, one: nat, w: nat, p: nat, pw: nat)
    requires p == 8 * e * one && pw == p * w
    ensures high * pw == 8 * (high * e) * (one * w)
  {
    assert pw == 8 * e * (one * w) by { MulAssoc(8 * e, one, w); }
    MulAssoc(high, 8 * e, one * w);
  }

  lemma ExponentRange(e0: int)
    ensures ChunkExponent(e0) <= 2 && (ChunkExponent(e0) < -21 ==> FirstPlace(e0) == 0)
  {
  }

  // ---------------------------------------------------------------- all together

  /** The chunks are reduced; the product has multiples of 8 above them and the lost part below. */
  lemma Lifted(total: int, c: int, chunks: int, w: nat, one: int, k: int, n: int, ih: int, g: int, lost: int)
    requires w > 0 && Reduced(chunks, one, k, n, ih, g, 0) && total == 8 * c * (one * w) + chunks * w + lost
    ensures Reduced(total, one * w, k + c, n, ih, g * w, lost)
  {
    var m := 8 * k + n;
    LiftedSum(m, one, g, w, 8 * c);
    MulMono(0, g, w);
    LiftedHalf(g, one, w);
    assert 8 * (k + c) + n == 8 * c + m;
  }

  lemma LiftedSum(m: int, one: int, g: int, w: nat, c: int)
    ensures c * (one * w) + (m * one + g) * w == (c + m) * (one * w) + g * w
    ensures c * (one * w) + (m * one - g) * w == (c + m) * (one * w) - g * w
  {
    Distribute(m * one, g, w);
    Distribute(m * one, -g, w);
    MulAssoc(m, one, w);
    Distribute(c, m, one * w);
  }

  lemma LiftedHalf(g: int, one: int, w: nat)
    requires w > 0
    ensures 2 * g < one ==> 2 * (g * w) < one * w
    ensures 2 * g <= one ==> 2 * (g * w) <= one * w
    ensures 0 < g ==> 0 < g * w
    ensures 0 <= g ==> 0 <= g * w
  {
    MulAssoc(2, g, w);
    if 2 * g < one {
      MulMono(2 * g + 1, one, w);
      Distribute(2 * g, 1, w);
    }
    if 2 * g <= one { MulMono(2 * g, one, w); }
    if 0 < g { MulMono(1, g, w); }
    if 0 <= g { MulMono(0, g, w); }
  }

  /** The product with the digits of 2/pi up to the last one used, in terms of the chunks. */
  lemma ProductOfChunks(x: seq<nat>, ipio2: seq<nat>, e0: int, jk: nat, f: seq<nat>, q: seq<nat>)
      returns (c: nat, lost: nat)
    requires 0 < |x| && 0 < jk && Places(x) && Places(ipio2) && Places(f) && FirstPlace(e0) + jk < |ipio2|
    requires |f| == |x| + jk && forall i :: 0 <= i < |f| ==> f[i] == Place(ipio2, FirstPlace(e0) - (|x| - 1) + i)
    requires |q| == jk + 1 && forall i :: 0 <= i <= jk ==> q[i] == Convolution(x, f, i, |x|)
    ensures ChunkExponent(e0) <= 24 * jk
    ensures var w := Power(|x| - 1);
            Chunks(x) * Chunks(ipio2[..FirstPlace(e0) + jk + 1]) ==
            8 * c * (One(jk, ChunkExponent(e0)) * w) + Chunks(q) * w + lost
    ensures lost <= (|x| - 1) * (RADIX * Power(|x| - 1))
  {
    var jv, jx, q0 := FirstPlace(e0), |x| - 1, ChunkExponent(e0);
    ExponentRange(e0);
    var rest := SetUpValue(ipio2, jv, jx, jk, f);
    ChunksOfProducts(x, f, q, |x|);
    var high;
    high, lost := ProductSplit(x, f, jk + 1, |x|);
    assert x[..|x|] == x;
    RestAbove(Chunks(x), Chunks(f), Chunks(ipio2[..jv + jk + 1]), rest, high, Power(jk + 1 + jx),
              Chunks(q), Power(jx), lost);
    c := AboveIsEights(Chunks(x) * rest + high, jk, jx, q0);
  }

  lemma RestAbove(x: nat, f: nat, whole: nat, rest: nat, high: nat, p: nat, q: nat, w: nat, lost: nat)
    requires whole == rest * p + f && Layers(x, f, high, p, q, w, lost)
    ensures x * whole == (x * rest + high) * p + q * w + lost
    ensures x * rest + high >= 0 && (rest == 0 && high == 0 ==> x * rest + high == 0)
  {
    assert x * whole == x * (rest * p) + x * f;
    MulAssoc(x, rest, p);
    Distribute(x * rest, high, p);
    MulMono(0, rest, x);
  }

  /**
    The number 1, in units of the last place of the product, when x[0] is worth 2^e0 and digit i of
    2/pi is worth 2^(-24 (i + 1)): nx digits of x follow the first, and `used` digits of 2/pi are used.
   */
  ghost function PlaceOfUnit(nx: nat, used: nat, e0: int): nat
    requires e0 <= 24 * (nx + used)
  {
    Pow2(24 * (nx + used) - e0)
  }

  /** The exponent that the code computes for the chunks is the right one. */
  lemma UnitOfChunks(nx: nat, jk: nat, e0: int)
    requires ChunkExponent(e0) <= 24 * jk
    ensures e0 <= 24 * (nx + (FirstPlace(e0) + jk + 1))
    ensures One(jk, ChunkExponent(e0)) * Power(nx) == PlaceOfUnit(nx, FirstPlace(e0) + jk + 1, e0)
  {
    PowerPow2(nx);
    Pow2Add(24 * jk - ChunkExponent(e0), 24 * nx);
  }

  /** What is lost is less than 2^(26 - 24 jk) for each digit of x but the first. */
  lemma LossInUnits(lost: nat, nx: nat, w: nat, jk: nat, q0: int)
    requires lost <= nx * (RADIX * w) && q0 <= 2 && q0 <= 24 * jk
    ensures lost * Power(jk) <= nx * (Pow2(26) * (One(jk, q0) * w))
  {
    PowerPow2(jk);
    Pow2Values();
    Pow2Add(24, 24 * jk);
    Pow2Add(26, 24 * jk - q0);
    Pow2Mono(24 + 24 * jk, 26 + 24 * jk - q0);
    var a, b := RADIX * Power(jk), Pow2(26) * One(jk, q0);
    MulMono(lost, nx * (RADIX * w), Power(jk));
    Regroup(nx, RADIX, w, Power(jk));
    MulMono(a, b, w);
    MulMono(a * w, b * w, nx);
    MulAssoc(Pow2(26), One(jk, q0), w);
  }

  lemma Regroup(n: nat, r: nat, w: nat, p: nat)
    ensures n * (r * w) * p == r * p * w * n
  {
    MulAssoc(n, r * w, p);
    MulAssoc(r, w, p);
    MulAssoc(r, p, w);
  }

  /** The chunks q reduced to n and g, in terms of the product and of the place of 1 in it. */
  lemma StagesValue(x: seq<nat>, ipio2: seq<nat>, e0: int, jk: nat, f: seq<nat>, q: seq<nat>, k: int, n: int, ih: int,
                    g: int)
      returns (k': int, lost: nat)
    requires 0 < |x| && 0 < jk && Places(x) && Places(ipio2) && Places(f) && FirstPlace(e0) + jk < |ipio2|
    requires |f| == |x| + jk && forall i :: 0 <= i < |f| ==> f[i] == Place(ipio2, FirstPlace(e0) - (|x| - 1) + i)
    requires |q| == jk + 1 && forall i :: 0 <= i <= jk ==> q[i] == Convolution(x, f, i, |x|)
    requires ChunkExponent(e0) <= 24 * jk && Reduced(Chunks(q), One(jk, ChunkExponent(e0)), k, n, ih, g, 0)
    ensures e0 <= 24 * (|x| - 1 + (FirstPlace(e0) + jk + 1))
    ensures var used := FirstPlace(e0) + jk + 1;
            && Reduced(Chunks(x) * Chunks(ipio2[..used]), PlaceOfUnit(|x| - 1, used, e0), k', n, ih,
                       g * Power(|x| - 1), lost)
            && lost * Power(jk) <= (|x| - 1) * (Pow2(26) * PlaceOfUnit(|x| - 1, used, e0))
  {
    var q0, w := ChunkExponent(e0), Power(|x| - 1);
    var c;
    c, lost := ProductOfChunks(x, ipio2, e0, jk, f, q);
    Lifted(Chunks(x) * Chunks(ipio2[..FirstPlace(e0) + jk + 1]), c, Chunks(q), w, One(jk, q0), k, n, ih, g, lost);
    UnitOfChunks(|x| - 1, jk, e0);
    ExponentRange(e0);
    LossInUnits(lost, |x| - 1, w, jk, q0);
    k' := k + c;
  }

  /**
    From the digits of x and of 2/pi to n and the fraction.  In units of the last place, x is
    Chunks(x) and 2/pi, as far as it is used, Chunks(ipio2[..used]).  Their product is n + g
    modulo 8 with 0 <= g < 1/2, or n - g with 0 < g <= 1/2 if ih > 0, up to a loss of less than
    2^(26 - 24 jk) for each digit of x but the first.
   */
  method IntegerStages(x: seq<nat>, e0: int, jk: nat, ipio2: seq<nat>)
      returns (n: int, ih: int, z: int, digits: seq<int>, ghost used: nat, ghost k: int, ghost lost: nat)
    requires 0 < |x| && 0 < jk && |x| + jk <= 20 && FirstPlace(e0) + jk < |ipio2| && Places(x) && Places(ipio2)
    ensures |digits| == jk && AreDigits(digits) && jk < used <= |ipio2| && e0 <= 24 * (|x| - 1 + used)
    ensures Reduced(Chunks(x) * Chunks(ipio2[..used]), PlaceOfUnit(|x| - 1, used, e0), k, n, ih,
                    (z * Power(jk) + Digits(digits)) * Power(|x| - 1), lost)
    ensures lost * Power(jk) <= (|x| - 1) * (Pow2(26) * PlaceOfUnit(|x| - 1, used, e0))
  {
    var jv, q0 := FirstPlace(e0), ChunkExponent(e0);
    ExponentRange(e0);
    var f := SetUp(ipio2, jv, |x| - 1, jk);
    var q := Products(x, f, jk);
    n, ih, z, digits, k := Reduce(q, q0);
    used := jv + jk + 1;
    k, lost := StagesValue(x, ipio2, e0, jk, f, q, k, n, ih, z * Power(jk) + Digits(digits));
  }
}
