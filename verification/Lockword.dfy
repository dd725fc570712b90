/**
  The encoding of lockwords on 64-bit machines: bit 0 tells thin from fat, bits 1 to 8 hold the
  recursion count of a thin lock and the bits above them the index of its owner; a fat lockword
  is the address of a lock record with bit 0 set.  The operations on the encoded word are those
  that the protocol performs on decoded ones.
 */
module Lockword {
  import opened Bits
  import opened Util
  import opened MonitorModel

  const COUNT_INCR := 2
  const COUNT_MASK := 0x1fe
  const TID_SHIFT := 9
  const MAX_INDEX := 0x40_0000   // 2^22

  type Int32 = x: int | -0x8000_0000 <= x < 0x8000_0000

  /** A value of any size as a signed 32-bit number. */
  function AsInt32(x: int): Int32 {
    var low := x % WORD;
    if low < SIGN then low else low - WORD
  }

  // ---------------------------------------------------------------- decoding

  function ThinCount(w: Size): int { w % 0x200 / 2 }

  function ThinIndex(w: Size): Int32 { AsInt32(w / 0x200) }

  function Decode(w: Size): Word {
    if w % 2 == 0 then Thin(ThinIndex(w), ThinCount(w)) else Fat(w - 1)
  }

  /** pre_compute_thinlock: the shift is done on 32 bits, and the result is extended with its sign. */
  function PreCompute(index: Int32): Size {
    AsInt32(index * 0x200) % SIZE
  }

  /** The word of a thin lock held by the thread with the given precomputed word. */
  function ThinWord(index: Int32, count: int): Size
    requires 0 <= count <= THIN_LOCK_COUNT_MAX
  {
    (PreCompute(index) + COUNT_INCR * count) % SIZE
  }

  /** Lock records are aligned, so that bit 0 of their addresses is free. */
  predicate IsRecord(r: int) { 0 <= r < SIZE && r % 2 == 0 }

  function FatWord(r: int): Size
    requires IsRecord(r)
  {
    r + 1
  }

  // ---------------------------------------------------------------- thin words

  /** For every index below 2^22 and every count the word decodes back, and it is not the unlocked word. */
  lemma ThinDecodes(index: Int32, count: int)
    requires 0 < index < MAX_INDEX && 0 <= count <= THIN_LOCK_COUNT_MAX
    ensures Decode(ThinWord(index, count)) == Thin(index, count) && ThinWord(index, count) != 0
    ensures ThinWord(index, count) == index * 0x200 + 2 * count
  {
    ThinAt(index * 0x200 + 2 * count, index, count);
    assert AsInt32(index * 0x200) == index * 0x200;
  }

  /** An index decodes back exactly if it fits into 22 bits. */
  lemma IndexFitsExactly(index: Int32)
    requires 0 < index
    ensures Decode(PreCompute(index)) == Thin(index, 0) <==> index < MAX_INDEX
  {
    var s := index % 0x80_0000;
    ShiftedIndex(index);
    if s < 0x40_0000 {
      assert PreCompute(index) == s * 0x200;
    } else {
      assert PreCompute(index) == s * 0x200 - WORD + SIZE;
      assert PreCompute(index) / 0x200 == s - 0x80_0000 + 0x80_0000_0000_0000;
    }
  }

  lemma ShiftedIndex(index: nat)
    ensures index * 0x200 % WORD == index % 0x80_0000 * 0x200
  {
    DivModUnique(index * 0x200, WORD, index / 0x80_0000, index % 0x80_0000 * 0x200);
  }

  /** The thread with index 2^23 would hold its locks with the unlocked word. */
  lemma IndexLost()
    ensures PreCompute(2 * MAX_INDEX) == 0
  {
  }

  lemma ThinWordsDistinct(i: Int32, c: int, i': Int32, c': int)
    requires 0 < i < MAX_INDEX && 0 < i' < MAX_INDEX
    requires 0 <= c <= THIN_LOCK_COUNT_MAX && 0 <= c' <= THIN_LOCK_COUNT_MAX
    requires ThinWord(i, c) == ThinWord(i', c')
    ensures i == i' && c == c'
  {
    ThinDecodes(i, c);
    ThinDecodes(i', c');
  }

  lemma FatDecodes(r: int)
    requires IsRecord(r)
    ensures Decode(FatWord(r)) == Fat(r)
  {
  }

  lemma ThinIsNotFat(index: Int32, count: int, r: int)
    requires 0 < index < MAX_INDEX && 0 <= count <= THIN_LOCK_COUNT_MAX && IsRecord(r)
    ensures ThinWord(index, count) != FatWord(r)
  {
    ThinDecodes(index, count);
    FatDecodes(r);
  }

  // ---------------------------------------------------------------- operations

  /** The lockword of an object; the thread index of a thin lock is in range, or the lock is free. */
  class Lockword {
    var word: Size

    ghost predicate Valid()
      reads this
    {
      word % 2 == 0 ==> word < SIGN
    }

    constructor ()
      ensures Valid() && Decode(word) == UNLOCKED
    {
      word := 0;
    }

    /** is_thin_lock */
    method IsThinLock() returns (r: bool)
      ensures r <==> Decode(word).Thin?
    {
      AndMask(word, 1);
      r := And(word, 1) == 0;
    }

    /** get_thin_lock_without_count: the owner test compares it with the precomputed word, before the shape is known. */
    method GetThinLockWithoutCount() returns (r: nat)
      requires Valid()
      ensures forall index: Int32 :: 0 < index < MAX_INDEX ==>
                (r == PreCompute(index) <==> OwnThin(Decode(word), index))
    {
      r := WithoutCount(word);
      OwnerTest(word, r);
    }

    method GetThinLockCount() returns (r: int)
      requires Decode(word).Thin?
      ensures r == Decode(word).count && 0 <= r <= THIN_LOCK_COUNT_MAX
    {
      r := CountOf(word);
    }

    method GetThinLockThreadIndex() returns (r: Int32)
      requires Decode(word).Thin?
      ensures r == Decode(word).tid
    {
      Pow2Values();
      ShrDiv(word, TID_SHIFT);
      r := AsInt32(Shr(word, TID_SHIFT));
    }

    method GetFatLock() returns (r: nat)
      requires Decode(word).Fat?
      ensures r == Decode(word).rec
    {
      r := ClearShape(word);
    }

    /** lock: compare-and-swap from the unlocked word. */
    method Lock(index: Int32) returns (ok: bool)
      requires Valid() && 0 < index < MAX_INDEX
      modifies this
      ensures Valid() && (ok <==> old(Decode(word)) == UNLOCKED)
      ensures Decode(word) == if ok then Thin(index, 0) else old(Decode(word))
    {
      ThinDecodes(index, 0);
      UnlockedExactly(word);
      ok := word == 0;
      if ok { word := PreCompute(index); }
    }

    method Unlock()
      modifies this
      ensures Valid() && Decode(word) == UNLOCKED
    {
      word := 0;
    }

    method IncreaseThinLockCount()
      requires Valid() && Decode(word).Thin? && Decode(word).count < THIN_LOCK_COUNT_MAX
      modifies this
      ensures Valid() && Decode(word) == Incremented(old(Decode(word)))
    {
      CountSteps(word);
      word := word + COUNT_INCR;
    }

    method DecreaseThinLockCount()
      requires Valid() && Decode(word).Thin? && Decode(word).count > 0
      modifies this
      ensures Valid() && Decode(word) == Decremented(old(Decode(word)))
    {
      CountSteps(word);
      word := word - COUNT_INCR;
    }

    /** inflate: the count is returned for the lock record r, and the word becomes fat. */
    method Inflate(r: int, current: Int32, count: int) returns (count': int)
      requires Valid() && IsRecord(r) && 0 < current < MAX_INDEX
      requires if Decode(word).Fat? then Decode(word) == Fat(r) else OwnThin(Decode(word), current)
      modifies this
      ensures Valid() && Decode(word) == Fat(r)
      ensures count' == if old(Decode(word)).Fat? then count else old(Decode(word)).count
    {
      var thin := IsThinLock();
      if !thin { return count; }
      count' := GetThinLockCount();
      word := SetShape(r);
    }
  }

  /** The words of thin locks in use, decoded. */
  lemma ThinFields(w: Size)
    requires w % 2 == 0 && w < SIGN
    ensures Decode(w) == Thin(w / 0x200, w % 0x200 / 2) && w / 0x200 < MAX_INDEX
  {
  }

  lemma UnlockedExactly(w: Size)
    requires w % 2 == 0 ==> w < SIGN
    ensures Decode(w) == UNLOCKED <==> w == 0
  {
    if w % 2 == 0 { ThinFields(w); }
  }

  /** Adding or subtracting one step of the count changes nothing else. */
  lemma CountSteps(w: Size)
    requires w % 2 == 0 && w < SIGN
    ensures ThinCount(w) < THIN_LOCK_COUNT_MAX ==> w + 2 < SIGN && Decode(w + 2) == Incremented(Decode(w))
    ensures ThinCount(w) > 0 ==> w >= 2 && Decode(w - 2) == Decremented(Decode(w))
  {
    ThinFields(w);
    if ThinCount(w) < THIN_LOCK_COUNT_MAX { ThinAt(w + 2, w / 0x200, ThinCount(w) + 1); }
    if ThinCount(w) > 0 { ThinAt(w - 2, w / 0x200, ThinCount(w) - 1); }
  }

  lemma ThinAt(w: int, index: int, count: int)
    requires w == index * 0x200 + 2 * count && 0 <= count <= THIN_LOCK_COUNT_MAX && 0 <= index < MAX_INDEX
    ensures 0 <= w < SIGN && w % 2 == 0 && Decode(w) == Thin(index, count)
  {
    DivModUnique(w, 0x200, index, 2 * count);
    ThinFields(w);
  }

  /** A thin word without its count is the precomputed word of the owner, and a fat word never is one. */
  lemma OwnerTest(w: Size, r: nat)
    requires (w % 2 == 0 ==> w < SIGN) && r == w / 0x200 * 0x200 + w % 2
    ensures forall index: Int32 :: 0 < index < MAX_INDEX ==> (r == PreCompute(index) <==> OwnThin(Decode(w), index))
  {
    if w % 2 == 0 { ThinFields(w); }
    forall index: Int32 | 0 < index < MAX_INDEX
      ensures r == PreCompute(index) <==> OwnThin(Decode(w), index)
    {
      ThinDecodes(index, 0);
    }
  }

  // ---------------------------------------------------------------- masks

  /** w & ~0x1fe */
  method WithoutCount(w: Size) returns (r: nat)
    ensures r == w / 0x200 * 0x200 + w % 2
  {
    var mask := SIZE - 1 - COUNT_MASK;
    CountMasked(w, mask, Pow2(55) - 1);
    r := And(w, mask);
  }

  lemma CountMasked(w: Size, mask: nat, ones: nat)
    requires mask == SIZE - 1 - COUNT_MASK && ones == Pow2(55) - 1
    ensures And(w, mask) == w / 0x200 * 0x200 + w % 2
  {
    MaskValue(mask, ones);
    HighKept(w / 2, Shl(ones, 8), ones);
    AndOdd(w, mask, Shl(ones, 8));
    HalfMod(w, 0x100);
  }

  lemma MaskValue(mask: nat, ones: nat)
    requires mask == SIZE - 1 - COUNT_MASK && ones == Pow2(55) - 1
    ensures mask == 2 * Shl(ones, 8) + 1
  {
    Pow2Values();
    Pow2Add(31, 24);
    ShlMul(ones, 8);
  }

  lemma HighKept(v: nat, mask: nat, ones: nat)
    requires v < SIZE / 2 && mask == Shl(ones, 8) && ones == Pow2(55) - 1
    ensures And(v, mask) == v / 0x100 * 0x100
  {
    AndHigh(v, ones, 8);
    AllKept(v, Shr(v, 8), ones);
    ShlMul(Shr(v, 8), 8);
    Pow2Values();
  }

  lemma AllKept(v: nat, x: nat, ones: nat)
    requires v < SIZE / 2 && x == Shr(v, 8) && ones == Pow2(55) - 1
    ensures And(x, ones) == x == v / 0x100
  {
    ByteDown(v, x);
    UpperOnes(ones);
    AndMask(x, 55);
  }

  lemma ByteDown(v: nat, x: nat)
    requires x == Shr(v, 8)
    ensures x == v / 0x100
  {
    Pow2Values();
    ShrDiv(v, 8);
  }

  lemma UpperOnes(ones: nat)
    requires ones == Pow2(55) - 1
    ensures ones == 0x7f_ffff_ffff_ffff
  {
    Pow2Values();
    Pow2Add(31, 24);
  }

  /** (w & 0x1fe) >> 1 */
  method CountOf(w: Size) returns (r: nat)
    ensures r == w % 0x200 / 2
  {
    CountBits(w, COUNT_MASK);
    r := And(w, COUNT_MASK) / 2;
  }

  lemma CountBits(w: nat, mask: nat)
    requires mask == COUNT_MASK
    ensures And(w, mask) == 2 * (w % 0x200 / 2)
  {
    LowByte(w / 2, 0xff);
    EvenMask(w, mask, 0xff, w / 2 % 0x100);
    HalfMod(w, 0x100);
  }

  lemma EvenMask(w: nat, mask: nat, half: nat, r: nat)
    requires mask == 2 * half && And(w / 2, half) == r
    ensures And(w, mask) == 2 * r
  {
    AndEven(w, half);
  }

  lemma LowByte(v: nat, mask: nat)
    requires mask == 0xff
    ensures And(v, mask) == v % 0x100
  {
    Pow2Values();
    AndMask(v, 8);
  }

  /** w & ~1 */
  method ClearShape(w: Size) returns (r: nat)
    ensures r == w - w % 2
  {
    TopKept(w / 2, 0x7fff_ffff_ffff_ffff);
    EvenMask(w, 0xffff_ffff_ffff_fffe, 0x7fff_ffff_ffff_ffff, w / 2);
    r := And(w, 0xffff_ffff_ffff_fffe);
  }

  lemma TopKept(v: nat, ones: nat)
    requires v < SIZE / 2 && ones == SIZE / 2 - 1
    ensures And(v, ones) == v
  {
    Pow2Values();
    Pow2Add(32, 31);
    AndMask(v, 63);
    DivModUnique(v, SIZE / 2, 0, v);
  }

  /** r | 1 */
  method SetShape(r: int) returns (w: Size)
    requires IsRecord(r)
    ensures w == FatWord(r)
  {
    OrOne(r);
    w := Or(r, 1);
  }
}
