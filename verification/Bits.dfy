/** Single-bit facts about machine words, proved for word-sized indices and lifted to nat ones. */
module Bits {

  /** 1 << b: the word with exactly bit b set. */
  function Shift1(b: bv6): bv64 {
    (1 as bv64) << b
  }

  predicate Test(w: bv64, b: bv6) {
    w & Shift1(b) != 0
  }

  function HighFrom(b: bv6): bv64 {
    (!(0 as bv64)) << b
  }

  function LowBelow(b: bv6): bv64 {
    ((1 as bv64) << b) - 1
  }

  function Union(v: bv64, w: bv64): bv64 { v | w }

  function Common(v: bv64, w: bv64): bv64 { v & w }

  function Flip(w: bv64): bv64 { !w }

  /** n as a six-bit index into a 64-bit word. */
  function Idx(n: nat): bv6
    requires n < 64
  {
    if n == 0 then 0 else Idx(n - 1) + 1
  }

  /** The word with exactly bit k set: 1 << k. */
  function OneBit(k: nat): bv64
    requires k < 64
  {
    Shift1(Idx(k))
  }

  predicate Bit(w: bv64, k: nat)
    requires k < 64
  {
    Test(w, Idx(k))
  }

  /** All ones from bit k up. */
  function MaskHigh(k: nat): bv64
    requires k < 64
  {
    HighFrom(Idx(k))
  }

  /** All ones from bit 0 to bit k; bit 63 is special because 1 << 64 is not a word. */
  function MaskLow(k: nat): bv64
    requires k < 64
  {
    if k == 63 then !(0 as bv64) else LowBelow(Idx(k + 1))
  }

  // ---------- word-sized indices ----------

  lemma SetSame(w: bv64, j: bv6)
    ensures Test(Union(w, Shift1(j)), j)
  {}

  lemma SetOther(w: bv64, j: bv6, k: bv6)
    requires j != k
    ensures Test(Union(w, Shift1(j)), k) == Test(w, k)
  {
    assert (w | (1 << j)) & (1 << k) == w & (1 << k);
  }

  lemma ClearSame(w: bv64, j: bv6)
    ensures !Test(Common(w, Flip(Shift1(j))), j)
  {}

  lemma OthersKept(j: bv6, k: bv6)
    requires j != k
    ensures Common(Flip(Shift1(j)), Shift1(k)) == Shift1(k)
  {}

  lemma HighKept(j: bv6, k: bv6)
    ensures j <= k ==> Common(HighFrom(j), Shift1(k)) == Shift1(k)
    ensures k < j ==> Common(HighFrom(j), Shift1(k)) == 0
  {}

  lemma LowKept(j: bv6, k: bv6)
    ensures k < j ==> Common(LowBelow(j), Shift1(k)) == Shift1(k)
    ensures j <= k ==> Common(LowBelow(j), Shift1(k)) == 0
  {}

  lemma Associative(u: bv64, v: bv64, w: bv64)
    ensures Common(Common(u, v), w) == Common(u, Common(v, w))
  {}

  lemma TestCommon(w: bv64, k: bv6)
    ensures Test(w, k) <==> Common(w, Shift1(k)) != 0
    ensures Common(w, 0) == 0
  {}

  /** Masking a word keeps bit k when the mask has it and clears it when the mask lacks it. */
  lemma Masked(w: bv64, mask: bv64, k: bv6)
    ensures Common(mask, Shift1(k)) == Shift1(k) ==> Test(Common(w, mask), k) == Test(w, k)
    ensures Common(mask, Shift1(k)) == 0 ==> !Test(Common(w, mask), k)
  {
    hide Common, Shift1, Test;
    Associative(w, mask, Shift1(k));
    TestCommon(w, k);
    TestCommon(Common(w, mask), k);
  }

  lemma AllOnes(w: bv64)
    ensures Common(w, !(0 as bv64)) == w
  {}

  lemma ZeroWord(k: bv6)
    ensures !Test(0, k)
  {}

  lemma LowerClearStep(w: bv64, i: bv6)
    requires i < 63
    requires Common(w, LowBelow(i)) == 0 && !Test(w, i)
    ensures Common(w, LowBelow(i + 1)) == 0
  {}

  lemma AllClear(w: bv64)
    requires Common(w, LowBelow(63)) == 0 && !Test(w, 63)
    ensures w == 0
  {}

  // ---------- nat indices ----------

  lemma IdxValue(n: nat)
    requires n < 64
    ensures Idx(n) as nat == n
  {}

  lemma IdxOrder(j: nat, k: nat)
    requires j < 64 && k < 64
    ensures Idx(j) < Idx(k) <==> j < k
    ensures Idx(j) == Idx(k) <==> j == k
  {
    IdxValue(j);
    IdxValue(k);
  }

  lemma SetBit(w: bv64, j: nat, k: nat)
    requires j < 64 && k < 64
    ensures Bit(Union(w, OneBit(j)), k) <==> j == k || Bit(w, k)
  {
    hide Test, Shift1, Union;
    if j == k {
      SetSame(w, Idx(j));
    } else {
      IdxOrder(j, k);
      SetOther(w, Idx(j), Idx(k));
    }
  }

  lemma ClearBit(w: bv64, j: nat, k: nat)
    requires j < 64 && k < 64
    ensures Bit(Common(w, Flip(OneBit(j))), k) <==> j != k && Bit(w, k)
  {
    hide Test, Shift1, Common, Flip;
    if j == k {
      ClearSame(w, Idx(j));
    } else {
      IdxOrder(j, k);
      OthersKept(Idx(j), Idx(k));
      Masked(w, Flip(Shift1(Idx(j))), Idx(k));
    }
  }

  lemma HighBits(w: bv64, j: nat, k: nat)
    requires j < 64 && k < 64
    ensures Bit(Common(w, MaskHigh(j)), k) <==> j <= k && Bit(w, k)
  {
    hide Test, Shift1, Common, HighFrom;
    IdxOrder(k, j);
    HighKept(Idx(j), Idx(k));
    Masked(w, MaskHigh(j), Idx(k));
  }

  lemma LowBits(w: bv64, j: nat, k: nat)
    requires j < 64 && k < 64
    ensures Bit(Common(w, MaskLow(j)), k) <==> k <= j && Bit(w, k)
  {
    hide Test, Shift1, Common, LowBelow;
    if j == 63 {
      AllOnes(w);
    } else {
      IdxOrder(k, j + 1);
      LowKept(Idx(j + 1), Idx(k));
      Masked(w, MaskLow(j), Idx(k));
    }
  }

  /** A word is zero exactly when no bit of it is set. */
  lemma ZeroIffNoBit(w: bv64)
    ensures w == 0 <==> forall k :: 0 <= k < 64 ==> !Bit(w, k)
  {
    hide Test, LowBelow, Common;
    if w == 0 {
      forall k | 0 <= k < 64
        ensures !Bit(w, k)
      {
        ZeroWord(Idx(k));
      }
    } else if forall k :: 0 <= k < 64 ==> !Bit(w, k) {
      LowerClear(w, 63);
      IdxValue(63);
      assert !Bit(w, 63);
      AllClear(w);
      assert false;
    }
  }

  lemma {:induction false} LowerClear(w: bv64, n: nat)
    requires n < 64
    requires forall k :: 0 <= k < 64 ==> !Bit(w, k)
    ensures Common(w, LowBelow(Idx(n))) == 0
  {
    hide Test, LowBelow, Common;
    if n > 0 {
      LowerClear(w, n - 1);
      assert !Bit(w, n - 1);
      IdxOrder(n - 1, 63);
      IdxValue(63);
      LowerClearStep(w, Idx(n - 1));
    } else {
      NothingBelow(w);
    }
  }

  lemma NothingBelow(w: bv64)
    ensures Common(w, LowBelow(0)) == 0
  {}

  // ---------- counting zeros ----------

  /** The number of zero bits below the lowest set bit; 64 for the zero word. */
  function CountrZero(w: bv64): (n: nat)
    ensures n <= 64 && (n == 64 <==> w == 0)
    ensures n < 64 ==> Bit(w, n)
    ensures forall k :: 0 <= k < n ==> !Bit(w, k)
  {
    ZeroIffNoBit(w);
    CountrZeroFrom(w, 0)
  }

  function CountrZeroFrom(w: bv64, i: nat): (n: nat)
    requires i <= 64
    ensures i <= n <= 64
    ensures n < 64 ==> Bit(w, n)
    ensures forall k :: i <= k < n ==> !Bit(w, k)
    decreases 64 - i
  {
    if i == 64 || Bit(w, i) then i else CountrZeroFrom(w, i + 1)
  }

  /** The number of zero bits above the highest set bit; 64 for the zero word. */
  function CountlZero(w: bv64): (n: nat)
    ensures n <= 64 && (n == 64 <==> w == 0)
    ensures n < 64 ==> Bit(w, 63 - n)
    ensures forall k :: 63 - n < k < 64 ==> !Bit(w, k)
  {
    ZeroIffNoBit(w);
    CountlZeroFrom(w, 0)
  }

  function CountlZeroFrom(w: bv64, i: nat): (n: nat)
    requires i <= 64
    ensures i <= n <= 64
    ensures n < 64 ==> Bit(w, 63 - n)
    ensures forall k :: 63 - n < k <= 63 - i ==> !Bit(w, k)
    decreases 64 - i
  {
    if i == 64 || Bit(w, 63 - i) then i else CountlZeroFrom(w, i + 1)
  }

  /** The highest set bit, as the engine computes it from the leading zeros. */
  function Top(w: bv64): (k: nat)
    requires w != 0
    ensures k < 64 && Bit(w, k)
    ensures forall j :: k < j < 64 ==> !Bit(w, j)
  {
    63 - CountlZero(w)
  }
}
