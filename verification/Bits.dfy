/**
  Powers of two and the bitwise operators on natural numbers, with the facts that turn masks,
  shifts and disjoint unions into arithmetic.  A 32-bit word is a natural number below WORD.
 */
module Bits {

  const WORD := 0x1_0000_0000
  const SIGN := 0x8000_0000

  function Pow2(n: nat): (r: nat)
    ensures r > 0
  {
    if n == 0 then 1 else 2 * Pow2(n - 1)
  }

  function Shl(x: nat, k: nat): (r: nat)
    ensures r >= x
    decreases k, x
  {
    if k == 0 then x else 2 * Shl(x, k - 1)
  }

  function Shr(x: nat, k: nat): (r: nat)
    ensures r <= x
    decreases k, x
  {
    if k == 0 then x else Shr(x, k - 1) / 2
  }

  function And(x: nat, y: nat): (r: nat)
    ensures r <= x && r <= y
  {
    if x == 0 || y == 0 then 0 else 2 * And(x / 2, y / 2) + (if x % 2 == 1 && y % 2 == 1 then 1 else 0)
  }

  function Or(x: nat, y: nat): (r: nat)
    ensures r >= x && r >= y
  {
    if x == 0 then y else if y == 0 then x
    else 2 * Or(x / 2, y / 2) + (if x % 2 == 1 || y % 2 == 1 then 1 else 0)
  }

  // ---------------------------------------------------------------- arithmetic

  lemma MulMono(a: int, b: int, d: int)
    requires a <= b && 0 <= d
    ensures a * d <= b * d
  {
    assert (b - a) * d >= 0;
  }

  lemma MulAssoc(x: int, y: int, z: int)
    ensures x * y * z == x * (y * z)
  {
  }

  lemma Distribute(a: int, b: int, c: int)
    ensures (a + b) * c == a * c + b * c
  {
  }

  lemma SmallMultiple(k: int, d: int, e: int)
    requires d > 0 && k * d == e && -d < e < d
    ensures k == 0 && e == 0
  {
    if k >= 1 {
      MulMono(1, k, d);
    } else if k <= -1 {
      MulMono(k, -1, d);
    }
  }

  lemma DivModUnique(x: int, d: int, q: int, r: int)
    requires d > 0 && x == q * d + r && 0 <= r < d
    ensures x / d == q && x % d == r
  {
    var q', r' := x / d, x % d;
    assert x == q' * d + r' && 0 <= r' < d;
    SmallMultiple(q - q', d, r' - r) by {
      assert (q - q') * d == q * d - q' * d;
    }
  }

  lemma DivMod(a: nat, y: nat) returns (k: nat, r: nat)
    requires y > 0
    ensures a == k * y + r && r < y && r == a % y
  {
    k, r := a / y, a % y;
  }

  lemma HalfMod(x: nat, p: nat)
    requires p > 0
    ensures x % (2 * p) == 2 * (x / 2 % p) + x % 2
    ensures x / (2 * p) == x / 2 / p
  {
    var a, b := x / 2 / p, x / 2 % p;
    assert x / 2 == a * p + b;
    assert x == a * (2 * p) + (2 * b + x % 2);
    DivModUnique(x, 2 * p, a, 2 * b + x % 2);
  }

  // ---------------------------------------------------------------- powers of two and shifts

  lemma {:induction false} ShlMul(x: nat, k: nat)
    ensures Shl(x, k) == x * Pow2(k)
    decreases k
  {
    if k == 0 {
    } else {
      ShlMul(x, k - 1);
      assert x * (2 * Pow2(k - 1)) == 2 * (x * Pow2(k - 1));
    }
  }

  lemma {:induction false} ShrDiv(x: nat, k: nat)
    ensures Shr(x, k) == x / Pow2(k)
    decreases k
  {
    var r := ShrSplit(x, k);
    ShlMul(Shr(x, k), k);
    DivModUnique(x, Pow2(k), Shr(x, k), r);
  }

  /** Division with remainder, said of Shr and Shl. */
  lemma {:induction false} ShrSplit(x: nat, k: nat) returns (r: nat)
    ensures x == Shl(Shr(x, k), k) + r && r < Pow2(k)
    ensures r == x % Pow2(k)
  {
    r := ShrRest(x, k);
    ShlMul(Shr(x, k), k);
    DivModUnique(x, Pow2(k), Shr(x, k), r);
  }

  lemma {:induction false} ShrRest(x: nat, k: nat) returns (r: nat)
    ensures x == Shl(Shr(x, k), k) + r && r < Pow2(k)
    decreases k
  {
    if k == 0 {
      r := 0;
    } else {
      r := ShrRest(x, k - 1);
      var y := Shr(x, k - 1);
      if y % 2 == 1 {
        r := r + Pow2(k - 1);
        ShlAdd(2 * (y / 2), 1, k - 1);
        ShlOne(k - 1);
      }
      ShlTwice(y / 2, k);
    }
  }

  /** Shifting by one bit first. */
  lemma {:induction false} ShrInner(x: nat, k: nat)
    requires k > 0
    ensures Shr(x, k) == Shr(x / 2, k - 1)
    decreases k
  {
    if k > 1 {
      ShrInner(x, k - 1);
    } else {
      assert Shr(x, 0) == x;
    }
  }

  lemma {:induction false} ShlShl(x: nat, a: nat, b: nat)
    ensures Shl(Shl(x, a), b) == Shl(x, a + b)
    decreases b
  {
    if b == 0 {
    } else {
      ShlShl(x, a, b - 1);
    }
  }

  lemma {:induction false} ShrShl(x: nat, k: nat)
    ensures Shr(Shl(x, k), k) == x
    decreases k
  {
    if k == 0 {
    } else {
      ShrInner(Shl(x, k), k);
      ShrShl(x, k - 1);
    }
  }

  lemma {:induction false} ShlAdd(a: nat, b: nat, k: nat)
    ensures Shl(a + b, k) == Shl(a, k) + Shl(b, k)
    decreases k
  {
    if k == 0 {
    } else {
      ShlAdd(a, b, k - 1);
    }
  }

  lemma {:induction false} ShlMono(a: nat, b: nat, k: nat)
    requires a <= b
    ensures Shl(a, k) <= Shl(b, k)
    decreases k
  {
    if k == 0 {
    } else {
      ShlMono(a, b, k - 1);
    }
  }

  lemma ShlLess(a: nat, b: nat, k: nat)
    requires a < b
    ensures Shl(a, k) < Shl(b, k)
  {
    ShlMono(a + 1, b, k);
    ShlAdd(a, 1, k);
  }

  lemma ShlLonger(x: nat, a: nat, b: nat)
    requires a <= b
    ensures Shl(x, a) <= Shl(x, b)
  {
    ShlShl(x, a, b - a);
  }

  /** 2^a shifted by b. */
  lemma ShlPow2(a: nat, b: nat)
    ensures Shl(Pow2(a), b) == Pow2(a + b)
  {
    ShlOne(a);
    ShlOne(a + b);
    ShlShl(1, a, b);
  }

  lemma {:induction false} ShlTwice(y: nat, k: nat)
    requires k > 0
    ensures Shl(y, k) == Shl(2 * y, k - 1)
    decreases k
  {
    if k <= 1 {
    } else {
      ShlTwice(y, k - 1);
    }
  }

  lemma {:induction false} ShlOne(k: nat)
    ensures Shl(1, k) == Pow2(k)
  {
    if k == 0 {
    } else {
      ShlOne(k - 1);
    }
  }

  lemma {:induction false} ShlTimes(x: nat, c: nat, k: nat, xc: nat)
    requires xc == x * c
    ensures Shl(xc, k) == Shl(x, k) * c
    decreases k
  {
    if k == 0 {
    } else {
      ShlTimes(x, c, k - 1, xc);
      MulAssoc(2, Shl(x, k - 1), c);
    }
  }

  lemma Pow2Add(a: nat, b: nat)
    ensures Pow2(a + b) == Pow2(a) * Pow2(b)
  {
    ShlPow2(a, b);
    ShlMul(Pow2(a), b);
  }

  lemma {:induction false} Pow2Mono(a: nat, b: nat)
    requires a <= b
    ensures Pow2(a) <= Pow2(b)
    ensures a < b ==> 2 * Pow2(a) <= Pow2(b)
    decreases b - a
  {
    if a == b {
    } else {
      Pow2Mono(a, b - 1);
    }
  }

  /** The powers of two that occur as constants. */
  lemma Pow2Values()
    ensures Pow2(8) == 0x100 && Pow2(9) == 0x200 && Pow2(11) == 0x800 && Pow2(20) == 0x10_0000
    ensures Pow2(21) == 0x20_0000 && Pow2(22) == 0x40_0000 && Pow2(24) == 0x100_0000
    ensures Pow2(31) == SIGN && Pow2(32) == WORD
    ensures Pow2(52) == 0x10_0000_0000_0000 && Pow2(53) == 0x20_0000_0000_0000 && Pow2(54) == 0x40_0000_0000_0000
  {
    assert Pow2(8) == 0x100;
    Pow2Add(8, 1); Pow2Add(8, 3); Pow2Add(11, 9); Pow2Add(20, 1); Pow2Add(21, 1); Pow2Add(22, 2);
    Pow2Add(20, 11); Pow2Add(31, 1); Pow2Add(32, 20); Pow2Add(52, 1); Pow2Add(53, 1);
    assert Pow2(1) == 2 && Pow2(2) == 4 && Pow2(3) == 8;
  }

  // ---------------------------------------------------------------- masks

  /** A mask of ones keeps the low bits. */
  lemma {:induction false} AndMask(x: nat, k: nat)
    ensures And(x, Pow2(k) - 1) == x % Pow2(k)
  {
    if x == 0 || k == 0 {
    } else {
      AndMask(x / 2, k - 1);
      AndOdd(x, Pow2(k) - 1, Pow2(k - 1) - 1);
      HalfMod(x, Pow2(k - 1));
    }
  }

  lemma AndOdd(x: nat, y: nat, h: nat)
    requires y == 2 * h + 1
    ensures And(x, y) == 2 * And(x / 2, h) + x % 2
  {
  }

  /** A mask whose low k bits are zero looks at the number shifted right by k. */
  lemma {:induction false} AndHigh(x: nat, y: nat, k: nat)
    ensures And(x, Shl(y, k)) == Shl(And(Shr(x, k), y), k)
    decreases k
  {
    if k == 0 {
    } else {
      AndHigh(x / 2, y, k - 1);
      ShrInner(x, k);
      AndEven(x, Shl(y, k - 1));
    }
  }

  lemma AndEven(x: nat, y: nat)
    ensures And(x, 2 * y) == 2 * And(x / 2, y)
  {
    assert x / 2 == 0 ==> And(x / 2, y) == 0;
  }

  /** Testing bit k. */
  lemma AndBit(x: nat, k: nat)
    ensures And(x, Pow2(k)) == Shl(Shr(x, k) % 2, k)
  {
    ShlOne(k);
    AndHigh(x, 1, k);
    AndMask(Shr(x, k), 1);
  }

  /** Or of numbers whose ones do not overlap is addition. */
  lemma {:induction false} OrDisjoint(x: nat, y: nat, k: nat)
    requires y < Pow2(k)
    ensures Or(Shl(x, k), y) == Shl(x, k) + y
    decreases k
  {
    if k == 0 {
    } else {
      OrDisjoint(x, y / 2, k - 1);
    }
  }

  lemma {:induction false} OrBound(x: nat, y: nat, k: nat)
    requires x < Pow2(k) && y < Pow2(k)
    ensures Or(x, y) < Pow2(k)
    decreases k
  {
    if k == 0 {
    } else {
      OrBound(x / 2, y / 2, k - 1);
    }
  }

  lemma OrOne(x: nat)
    ensures Or(x, 1) == x + 1 - x % 2
  {
    assert Or(x / 2, 0) == x / 2;
  }

  lemma {:induction false} OrCommutes(x: nat, y: nat)
    ensures Or(x, y) == Or(y, x)
  {
    if x == 0 || y == 0 {
    } else {
      OrCommutes(x / 2, y / 2);
    }
  }

  /** Shifting a mask or a power of two to the right. */
  lemma {:induction false} MaskShift(c: nat, d: nat)
    ensures Shr(Pow2(c + d) - 1, d) == Pow2(c) - 1 && Shr(Pow2(c + d), d) == Pow2(c)
    decreases d
  {
    if d == 0 {
    } else {
      MaskShift(c + 1, d - 1);
      assert c + 1 + (d - 1) == c + d;
    }
  }
}
