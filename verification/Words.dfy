/**
  Numbers held in two 32-bit words, and the steps by which the floating-point routines move
  bits between them.
 */
module Words {
  import opened Bits
  import opened Ieee

  /** The low part of a word after a shift by i. */
  lemma ShiftedLow(b: nat, i: nat)
    requires i <= 32 && b < Pow2(32 - i)
    ensures Shl(b, i) < WORD
  {
    Pow2Values();
    ShlPow2(32 - i, i);
    ShlMono(b + 1, Pow2(32 - i), i);
    ShlAdd(b, 1, i);
    ShlMono(0, 1, i);
  }

  /** A word whose top i bits are a and whose other bits are b, after a shift by i. */
  lemma ShiftedWord(l: nat, i: nat, a: nat, b: nat)
    requires i <= 32 && l == Shl(a, 32 - i) + b && b < Pow2(32 - i)
    ensures Shl(l, i) == a * WORD + Shl(b, i)
  {
    Pow2Values();
    ShlAdd(Shl(a, 32 - i), b, i);
    ShlShl(a, 32 - i, i);
    ShlMul(a, 32);
  }

  lemma TopBits(a: nat, i: nat)
    requires i <= 32 && Shl(a, 32 - i) < WORD
    ensures a < Pow2(i)
  {
    Pow2Values();
    ShlPow2(i, 32 - i);
    if a >= Pow2(i) { ShlMono(Pow2(i), a, 32 - i); }
  }

  /** The bits that a shift by i moves out of a word, and the word that remains. */
  lemma ShiftOut(l: nat, i: nat) returns (b: nat)
    requires l < WORD && i <= 32
    ensures Shr(l, 32 - i) < Pow2(i) && Shl(l, i) % WORD == Shl(b, i)
    ensures Shl(l, i) == Shr(l, 32 - i) * WORD + Shl(l, i) % WORD
  {
    b := ShrSplit(l, 32 - i);
    TopBits(Shr(l, 32 - i), i);
    ShiftedLow(b, i);
    ShiftedWord(l, i, Shr(l, 32 - i), b);
    DivModUnique(Shl(l, i), WORD, Shr(l, 32 - i), Shl(b, i));
  }

  /** The high word has been shifted by i; the low word follows, and its top bits are moved up. */
  method ShiftIn(ix0: nat, ix1: nat, i: nat, ghost h: nat) returns (r0: nat, r1: nat)
    requires ix1 < WORD && i <= 32 && ix0 == Shl(h, i)
    ensures ix0 <= r0 && r1 < WORD && Pair(r0, r1) == Shl(h * WORD + ix1, i)
  {
    var _ := ShiftOut(ix1, i);
    ShlAdd(h * WORD, ix1, i);
    ShlTimes(h, WORD, i, h * WORD);
    OrDisjoint(h, Shr(ix1, 32 - i), i);
    r0 := Or(ix0, Shr(ix1, 32 - i));
    r1 := Shl(ix1, i) % WORD;
  }

  /** Replacing everything above bit 19 by the leading one. */
  method LeadingOne(ix0: nat) returns (r: nat)
    ensures r == 0x10_0000 + ix0 % 0x10_0000
  {
    Pow2Values();
    AndMask(ix0, 20);
    ShlOne(20);
    OrDisjoint(1, ix0 % 0x10_0000, 20);
    OrCommutes(0x10_0000, ix0 % 0x10_0000);
    r := Or(And(ix0, 0xf_ffff), 0x10_0000);
  }

  lemma PairBelow(h: nat, l: nat, i: nat)
    requires i <= 20 && l < WORD && Shl(h, i) < 0x20_0000
    ensures Shl(h * WORD + l, i) < 0x20_0000 * WORD
  {
    var c := Pow2(21 - i);
    Pow2Values();
    ShlPow2(21 - i, i);
    if h >= c { ShlMono(c, h, i); }
    ShlMono(h * WORD + l + 1, c * WORD, i);
    ShlAdd(h * WORD + l, 1, i);
    ShlTimes(c, WORD, i, c * WORD);
  }

  // ---------------------------------------------------------------- single bits

  method BothZero(a: nat, b: nat) returns (zero: bool)
    ensures zero <==> a == 0 && b == 0
  {
    zero := Or(a, b) == 0;
  }

  method LowBit(w: nat) returns (b: nat)
    ensures b == w % 2
  {
    AndMask(w, 1);
    b := And(w, 1);
  }

  method TopBit(w: nat) returns (b: nat)
    requires w < WORD
    ensures b == w / SIGN
  {
    Pow2Values();
    ShrDiv(w, 31);
    b := Shr(w, 31);
  }

  method WithTopBit(w: nat) returns (r: nat)
    requires w < SIGN
    ensures r == w + SIGN
  {
    Pow2Values();
    ShlOne(31);
    OrDisjoint(1, w, 31);
    OrCommutes(SIGN, w);
    r := Or(w, SIGN);
  }

  /** And with a mask of k ones. */
  method LowBits(w: nat, mask: nat, ghost k: nat) returns (r: nat)
    requires mask == Pow2(k) - 1
    ensures r == w % Pow2(k)
  {
    AndMask(w, k);
    r := And(w, mask);
  }

  /** The test for an exponent field of ones. */
  method IsFinite(x: Double) returns (finite: bool)
    ensures finite == Finite(x)
  {
    Pow2Values();
    ShlMul(0x7ff, 20);
    AndHigh(x.hi, 0x7ff, 20);
    ShrDiv(x.hi, 20);
    AndMask(x.hi / 0x10_0000, 11);
    ShlMul(Expo(x), 20);
    finite := And(x.hi, 0x7ff0_0000) != 0x7ff0_0000;
  }

  /** The test for a zero of either sign. */
  method IsZero(x: Double) returns (zero: bool)
    ensures zero <==> Units(x) == 0
  {
    Pow2Values();
    ZeroUnits(x);
    var h := LowBits(x.hi, 0x7fff_ffff, 31);
    zero := BothZero(h, x.lo);
  }
}
