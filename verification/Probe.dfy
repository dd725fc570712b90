/**
  The probe sequence of the hash table: index -> 5 * index + 1 + perturb, where perturb starts
  as the hash code and loses five bits a step.  On a table whose size is a power of two it
  visits every slot.
 */
module Probe {
  import opened Bits
  import opened Util

  // ---------------------------------------------------------------- the unperturbed recurrence

  function Iter(x: int, n: nat): int {
    if n == 0 then x else 5 * Iter(x, n - 1) + 1
  }

  lemma {:induction false} IterAdd(x: int, a: nat, b: nat)
    ensures Iter(Iter(x, a), b) == Iter(x, a + b)
    decreases b
  {
    if b == 0 {
    } else {
      IterAdd(x, a, b - 1);
    }
  }

  /** 2^k steps move x by 2^k * (4x + 1) * Odd(k). */
  ghost function Odd(k: nat): (u: nat)
    ensures u % 2 == 1
  {
    if k == 0 then 1 else NextOdd(Odd(k - 1), Pow2(k - 1))
  }

  ghost function NextOdd(u: nat, p: nat): (r: nat)
    ensures u % 2 == 1 ==> r % 2 == 1
  {
    OddProduct(u, p * u);
    u * (1 + 2 * (p * u))
  }

  lemma OddProduct(u: nat, v: nat)
    ensures u % 2 == 1 ==> (u * (1 + 2 * v)) % 2 == 1
  {
    if u % 2 == 1 { OddTimes(u, 1 + 2 * v); }
  }

  lemma OddTimes(a: int, b: int)
    requires a % 2 == 1
    ensures (a * b) % 2 == b % 2
  {
    var h := a / 2;
    assert a * b == 2 * (h * b) + b;
  }

  lemma {:induction false} Jump(k: nat, x: int)
    ensures Iter(x, Pow2(k)) == x + Pow2(k) * ((4 * x + 1) * Odd(k))
  {
    if k == 0 {
      assert Iter(x, 1) == 5 * Iter(x, 0) + 1;
    } else {
      var p, u := Pow2(k - 1), Odd(k - 1);
      var y := Iter(x, p);
      Jump(k - 1, x);
      Jump(k - 1, y);
      IterAdd(x, p, p);
      TwoJumps(x, p, u, y);
    }
  }

  lemma TwoJumps(x: int, p: int, u: int, y: int)
    requires y == x + p * ((4 * x + 1) * u)
    ensures y + p * ((4 * y + 1) * u) == x + 2 * p * ((4 * x + 1) * (u * (1 + 2 * (p * u))))
  {
    var a := (4 * x + 1) * u;
    assert (4 * y + 1) * u == a + 4 * (p * a) * u;
    assert p * (a + 4 * (p * a) * u) == p * a + 4 * (p * (p * a * u));
    assert (4 * x + 1) * (u * (1 + 2 * (p * u))) == a * (1 + 2 * (p * u)) == a + 2 * (p * a * u);
    assert 2 * p * (a + 2 * (p * a * u)) == 2 * (p * a) + 4 * (p * (p * a * u));
  }

  /** i -> 5i + 1 is a single cycle modulo 2^k: from any x it reaches any y in fewer than 2^k steps. */
  lemma {:induction false} SingleCycle(k: nat, x: int, y: int) returns (n: nat, c: int)
    ensures n < Pow2(k) && Iter(x, n) == y + c * Pow2(k)
    decreases k
  {
    if k == 0 {
      n, c := 0, x - y;
    } else {
      n, c := SingleCycle(k - 1, x, y);
      if c % 2 == 0 {
        EvenStep(c, Pow2(k - 1));
        c := c / 2;
      } else {
        c := HalfCycle(k - 1, x, y, n, c);
        n := n + Pow2(k - 1);
      }
    }
  }

  lemma EvenStep(c: int, p: int)
    requires c % 2 == 0
    ensures c * p == c / 2 * (2 * p)
  {
    var h := c / 2;
    assert c == 2 * h;
  }

  /** 2^k steps move every number by an odd multiple of 2^k. */
  lemma OddJump(k: nat, z: int) returns (w: int)
    ensures w % 2 == 1 && Iter(z, Pow2(k)) == z + Pow2(k) * w
  {
    OddForm(z, Odd(k));
    Jump(k, z);
    w := (4 * z + 1) * Odd(k);
  }

  lemma OddForm(z: int, u: int)
    requires u % 2 == 1
    ensures ((4 * z + 1) * u) % 2 == 1
  {
    OddValue((4 * z + 1) * u, 2 * (z * u), u) by {
      assert (4 * z + 1) * u == 2 * (2 * (z * u)) + u;
    }
  }

  lemma OddValue(v: int, h: int, u: int)
    requires v == 2 * h + u && u % 2 == 1
    ensures v % 2 == 1
  {
  }

  /** From the wrong half, 2^k more steps lead to the right one. */
  lemma HalfCycle(k: nat, x: int, y: int, n: nat, c: int) returns (c': int)
    requires Iter(x, n) == y + c * Pow2(k) && c % 2 == 1
    ensures Iter(x, n + Pow2(k)) == y + c' * (2 * Pow2(k))
  {
    var z := Iter(x, n);
    var w := OddJump(k, z);
    IterAdd(x, n, Pow2(k));
    OddStep(z, y, c, Pow2(k), w);
    c' := (c + w) / 2;
  }

  lemma OddStep(z: int, y: int, c: int, p: int, w: int)
    requires z == y + c * p && c % 2 == 1 && w % 2 == 1
    ensures z + p * w == y + (c + w) / 2 * (2 * p)
  {
    var h := (c + w) / 2;
    assert c + w == 2 * h;
    Distribute(c, w, p);
    MulAssoc(2, h, p);
  }

  // ---------------------------------------------------------------- the perturbed sequence

  function Perturb(hash: Size, n: nat): Size {
    if n == 0 then hash else Perturb(hash, n - 1) / 32
  }

  function Index(hash: Size, n: nat): Size {
    if n == 0 then hash else (5 * Index(hash, n - 1) + 1 + Perturb(hash, n - 1)) % SIZE
  }

  /** The n-th slot looked at for a hash code. */
  function Slot(hash: Size, n: nat, capacity: nat): (i: nat)
    requires capacity > 0
    ensures i < capacity
  {
    Index(hash, n) % capacity
  }

  lemma {:induction false} PerturbBound(hash: Size, n: nat)
    requires n <= 13
    ensures Perturb(hash, n) < Pow2(65 - 5 * n)
  {
    if n == 0 {
      Pow2Values();
      Pow2Add(32, 32);
    } else {
      PerturbBound(hash, n - 1);
      Pow2Add(65 - 5 * n, 5);
      assert Pow2(5) == 32;
    }
  }

  /** After 13 steps nothing is left of the perturbation. */
  lemma {:induction false} PerturbEnds(hash: Size, n: nat)
    requires n >= 13
    ensures Perturb(hash, n) == 0
  {
    if n == 13 {
      PerturbBound(hash, 13);
    } else {
      PerturbEnds(hash, n - 1);
    }
  }

  /** From then on the index follows the recurrence, modulo 2^64. */
  lemma {:induction false} Unperturbed(hash: Size, m: nat) returns (d: int)
    ensures Index(hash, 13 + m) == Iter(Index(hash, 13), m) + d * SIZE
  {
    if m == 0 {
      d := 0;
    } else {
      d := Unperturbed(hash, m - 1);
      PerturbEnds(hash, 12 + m);
      var v := 5 * Index(hash, 12 + m) + 1;
      assert Index(hash, 13 + m) == v % SIZE;
      d := 5 * d - v / SIZE;
    }
  }

  /** The probe sequence of every hash code visits every slot, within capacity + 13 steps. */
  lemma ProbeVisitsAll(hash: Size, capacity: nat, slot: nat) returns (n: nat)
    requires IsPow2(capacity) && capacity <= SIZE && slot < capacity
    ensures n < capacity + 13 && Slot(hash, n, capacity) == slot
  {
    var k: nat :| capacity == Pow2(k);
    var m, c := SingleCycle(k, Index(hash, 13), slot);
    var d := Unperturbed(hash, m);
    var e := CapacityDivides(k);
    MulAssoc(d, e, capacity);
    Distribute(c, d * e, capacity);
    DivModUnique(Index(hash, 13 + m), capacity, c + d * e, slot);
    n := 13 + m;
  }

  lemma CapacityDivides(k: nat) returns (e: nat)
    requires Pow2(k) <= SIZE
    ensures SIZE == e * Pow2(k)
  {
    Pow2Values();
    Pow2Add(32, 32);
    if k > 64 { Pow2Mono(64, k); }
    Pow2Add(64 - k, k);
    e := Pow2(64 - k);
  }
}
