/** The bit tricks of the sixteen-slot ring: wrap by masking, one-compare window test, rotate and count. */
module RingBits {
  import opened Types

  const RING_SIZE: nat := 16

  // ---------- wrapping an index ----------

  /** The machine word whose unsigned value is n, modulo 2^64. */
  function Word(n: nat): bv64 {
    if n == 0 then 0 else Word(n - 1) + 1
  }

  /** A signed value cast to an unsigned word: negative values wrap around. */
  function CastWord(r: int): bv64 {
    if r >= 0 then Word(r) else 0 - Word(-r)
  }

  function Plus(x: bv64, y: bv64): bv64 { x + y }

  function Plus4(x: bv4, y: bv4): bv4 { x + y }

  /** x & kMask */
  function Masked(x: bv64): bv4 {
    (x & 15) as bv4
  }

  function MaskedIndex(x: bv64): (i: nat)
    ensures i < RING_SIZE
  {
    Masked(x) as nat
  }

  lemma MaskedSum(x: bv64, y: bv64)
    ensures Masked(Plus(x, y)) == Plus4(Masked(x), Masked(y))
  {}

  lemma MaskedNegation(x: bv64)
    ensures Masked(0 - x) == 0 - Masked(x)
  {}

  /** n as a four-bit index. */
  function Idx(n: nat): bv4
    requires n < RING_SIZE
  {
    if n == 0 then 0 else Idx(n - 1) + 1
  }

  lemma IdxValue(n: nat)
    requires n < RING_SIZE
    ensures Idx(n) as nat == n
  {}

  lemma IdxWraps(n: nat)
    requires n < RING_SIZE
    ensures Idx(n) + 1 == Idx(if n == 15 then 0 else n + 1)
  {
    if n == 15 {
      IdxValue(15);
    }
  }

  /** The Euclidean remainder, never negative. */
  function Wrap(a: int): (i: nat)
    ensures i < RING_SIZE
  {
    a % RING_SIZE
  }

  lemma WrapSum(a: int, b: int)
    ensures Wrap(Wrap(a) + Wrap(b)) == Wrap(a + b)
  {}

  lemma WrapNext(a: int)
    ensures Wrap(a + 1) == if Wrap(a) == 15 then 0 else Wrap(a) + 1
  {}

  lemma WrapSmall(a: int)
    ensures 0 <= a < RING_SIZE ==> Wrap(a) == a
    ensures Wrap(Wrap(a) + Wrap(-a)) == 0
  {
    WrapSum(a, -a);
  }

  lemma WrapAgain(a: int, b: int)
    ensures Wrap(Wrap(a) + b) == Wrap(a + b)
  {}

  /** Offsets less than a turn apart reach different slots. */
  lemma WrapInjective(a: int, r: int, q: int)
    requires Wrap(a + r) == Wrap(a + q) && r < q + RING_SIZE && q < r + RING_SIZE
    ensures r == q
  {}

  lemma {:induction false} IdxSum(a: nat, k: nat)
    requires a < RING_SIZE && k < RING_SIZE
    ensures Plus4(Idx(k), Idx(a)) == Idx(Wrap(a + k))
  {
    hide Wrap;
    WrapSmall(a);
    if k > 0 {
      IdxSum(a, k - 1);
      IdxWraps(Wrap(a + k - 1));
      WrapNext(a + k - 1);
    }
  }

  lemma IdxNegation(a: int)
    ensures 0 - Idx(Wrap(a)) == Idx(Wrap(-a))
  {
    hide Wrap;
    IdxSum(Wrap(a), Wrap(-a));
    WrapSmall(a);
  }

  lemma {:induction false} MaskedWord(n: nat)
    ensures Masked(Word(n)) == Idx(Wrap(n))
  {
    hide Wrap, Masked;
    if n > 0 {
      MaskedWord(n - 1);
      MaskedSum(Word(n - 1), 1);
      IdxWraps(Wrap(n - 1));
      WrapNext(n - 1);
    } else {
      WrapSmall(0);
    }
    SmallMasks();
  }

  lemma SmallMasks()
    ensures Masked(0) == 0 && Masked(1) == 1
  {}

  lemma MaskedCast(r: int)
    ensures Masked(CastWord(r)) == Idx(Wrap(r))
  {
    hide Masked, Word, Wrap;
    if r >= 0 {
      MaskedWord(r);
    } else {
      MaskedWord(-r);
      MaskedNegation(Word(-r));
      IdxNegation(-r);
    }
  }

  lemma WrapValue(anchor: nat, r: int)
    ensures Masked(Plus(Word(anchor), CastWord(r))) == Idx(Wrap(anchor + r))
  {
    hide Masked, Word, CastWord, Wrap, Plus, Plus4, Idx;
    MaskedWord(anchor);
    MaskedCast(r);
    MaskedSum(Word(anchor), CastWord(r));
    IdxSum(Wrap(anchor), Wrap(r));
    IdxSum(Wrap(r), Wrap(anchor));
    WrapSum(r, anchor);
    WrapSum(anchor, r);
  }

  lemma WrapNumber(anchor: nat, r: int)
    ensures MaskedIndex(Plus(Word(anchor), CastWord(r))) == Wrap(anchor + r)
  {
    hide Masked, Word, CastWord, Wrap, Idx, Plus;
    WrapValue(anchor, r);
    IdxValue(Wrap(anchor + r));
  }

  /** Adding an offset of either sign to the anchor and masking is Euclidean remainder. */
  function WrapIndex(anchor: nat, r: int): (i: nat)
    ensures i < RING_SIZE && i == Wrap(anchor + r)
  {
    hide MaskedIndex, Plus, Word, CastWord;
    WrapNumber(anchor, r);
    MaskedIndex(Plus(Word(anchor), CastWord(r)))
  }

  /** How far slot i lies ahead of the anchor. */
  function OffsetOf(anchor: nat, i: nat): (off: nat)
    requires anchor < RING_SIZE && i < RING_SIZE
    ensures off < RING_SIZE && Wrap(anchor + off) == i
  {
    if i >= anchor then i - anchor else i + RING_SIZE - anchor
  }

  /** The unsigned 64-bit value of a signed one. */
  function Unsigned(r: int64): nat {
    if r < 0 then r + 0x1_0000_0000_0000_0000 else r
  }

  /** One unsigned comparison covers both ends of the window. */
  predicate InWindow(r: int64)
    ensures InWindow(r) <==> 0 <= r < RING_SIZE
  {
    Unsigned(r) < RING_SIZE
  }

  // ---------- the mask of live slots ----------

  function Shift1(b: bv4): bv16 {
    (1 as bv16) << b
  }

  predicate Test(w: bv16, b: bv4) {
    w & Shift1(b) != 0
  }

  predicate Bit(w: bv16, k: nat)
    requires k < RING_SIZE
  {
    Test(w, Idx(k))
  }

  function Union(v: bv16, w: bv16): bv16 { v | w }

  function Common(v: bv16, w: bv16): bv16 { v & w }

  function Flip(w: bv16): bv16 { !w }

  /** mask |= 1 << k */
  function WithBit(w: bv16, k: nat): bv16
    requires k < RING_SIZE
  {
    Union(w, Shift1(Idx(k)))
  }

  /** mask &= ~(1 << k) */
  function WithoutBit(w: bv16, k: nat): bv16
    requires k < RING_SIZE
  {
    Common(w, Flip(Shift1(Idx(k))))
  }

  lemma SetSame(w: bv16, j: bv4)
    ensures Test(Union(w, Shift1(j)), j)
  {}

  lemma SetOther(w: bv16, j: bv4, k: bv4)
    requires j != k
    ensures Test(Union(w, Shift1(j)), k) == Test(w, k)
  {
    assert (w | (1 << j)) & (1 << k) == w & (1 << k);
  }

  lemma ClearSame(w: bv16, j: bv4)
    ensures !Test(Common(w, Flip(Shift1(j))), j)
  {}

  lemma ClearOther(w: bv16, j: bv4, k: bv4)
    requires j != k
    ensures Test(Common(w, Flip(Shift1(j))), k) == Test(w, k)
  {
    assert (w & !(1 << j)) & (1 << k) == w & (1 << k);
  }

  lemma MaskUpdates(w: bv16, j: nat)
    requires j < RING_SIZE
    ensures forall k :: 0 <= k < RING_SIZE ==> (Bit(WithBit(w, j), k) <==> j == k || Bit(w, k))
    ensures forall k :: 0 <= k < RING_SIZE ==> (Bit(WithoutBit(w, j), k) <==> j != k && Bit(w, k))
  {
    hide Test, Shift1, Union, Common, Flip;
    forall k | 0 <= k < RING_SIZE
      ensures Bit(WithBit(w, j), k) <==> j == k || Bit(w, k)
      ensures Bit(WithoutBit(w, j), k) <==> j != k && Bit(w, k)
    {
      if j == k {
        SetSame(w, Idx(j));
        ClearSame(w, Idx(j));
      } else {
        IdxValue(j);
        IdxValue(k);
        SetOther(w, Idx(j), Idx(k));
        ClearOther(w, Idx(j), Idx(k));
      }
    }
  }

  /** Rotation to the right within sixteen bits. */
  function RotateRight(w: bv16, b: bv4): bv16 {
    if b == 0 then w else (w >> b) | (w << (16 - (b as bv5)))
  }

  function RotateOnce(w: bv16): bv16 {
    (w >> 1) | (w << 15)
  }

  lemma RotateStep(w: bv16, b: bv4)
    requires b < 15
    ensures RotateRight(w, b + 1) == RotateOnce(RotateRight(w, b))
  {}

  lemma RotateOnceBit(w: bv16, k: bv4)
    ensures Test(RotateOnce(w), k) == Test(w, k + 1)
  {}

  lemma {:induction false} RotateBits(w: bv16, n: nat, k: bv4)
    requires n < RING_SIZE
    ensures Test(RotateRight(w, Idx(n)), k) == Test(w, k + Idx(n))
  {
    hide Test, RotateOnce, RotateRight;
    if n == 0 {
      NoRotation(w);
    } else {
      IdxValue(n - 1);
      RotateBits(w, n - 1, k + 1);
      RotateStep(w, Idx(n - 1));
      RotateOnceBit(RotateRight(w, Idx(n - 1)), k);
    }
  }

  lemma NoRotation(w: bv16)
    ensures RotateRight(w, 0) == w
  {}

  lemma ZeroWord(k: bv4)
    ensures !Test(0, k)
  {}

  /** Bit k of the mask rotated by the anchor is the bit of the k-th slot from the anchor. */
  lemma RotatedBit(w: bv16, anchor: nat, k: nat)
    requires anchor < RING_SIZE && k < RING_SIZE
    ensures Bit(RotateRight(w, Idx(anchor)), k) == Bit(w, Wrap(anchor + k))
  {
    hide Test, RotateRight;
    RotateBits(w, anchor, Idx(k));
    IdxSum(anchor, k);
  }

  function CountrZeroFrom(w: bv16, i: nat): (n: nat)
    requires i <= RING_SIZE
    ensures i <= n <= RING_SIZE
    ensures n < RING_SIZE ==> Bit(w, n)
    ensures forall k :: i <= k < n ==> !Bit(w, k)
    decreases RING_SIZE - i
  {
    if i == RING_SIZE || Bit(w, i) then i else CountrZeroFrom(w, i + 1)
  }

  lemma ZeroIffNoBit(w: bv16)
    ensures w == 0 <==> forall k :: 0 <= k < RING_SIZE ==> !Bit(w, k)
  {
    if w == 0 {
      hide Test;
      forall k | 0 <= k < RING_SIZE
        ensures !Bit(w, k)
      {
        ZeroWord(Idx(k));
      }
    } else if forall k :: 0 <= k < RING_SIZE ==> !Bit(w, k) {
      hide Test;
      SmallIndices();
      assert !Bit(w, 0) && !Bit(w, 1) && !Bit(w, 2) && !Bit(w, 3);
      assert !Bit(w, 4) && !Bit(w, 5) && !Bit(w, 6) && !Bit(w, 7);
      assert !Bit(w, 8) && !Bit(w, 9) && !Bit(w, 10) && !Bit(w, 11);
      assert !Bit(w, 12) && !Bit(w, 13) && !Bit(w, 14) && !Bit(w, 15);
      AllClear(w);
      assert false;
    }
  }

  lemma SmallIndices()
    ensures Idx(0) == 0 && Idx(1) == 1 && Idx(2) == 2 && Idx(3) == 3
    ensures Idx(4) == 4 && Idx(5) == 5 && Idx(6) == 6 && Idx(7) == 7
    ensures Idx(8) == 8 && Idx(9) == 9 && Idx(10) == 10
    ensures Idx(11) == 11 && Idx(12) == 12 && Idx(13) == 13 && Idx(14) == 14
    ensures Idx(15) == 15
  {}

  lemma AllClear(w: bv16)
    requires !Test(w, 0) && !Test(w, 1) && !Test(w, 2) && !Test(w, 3)
    requires !Test(w, 4) && !Test(w, 5) && !Test(w, 6) && !Test(w, 7)
    requires !Test(w, 8) && !Test(w, 9) && !Test(w, 10) && !Test(w, 11) && !Test(w, 12) && !Test(w, 13) && !Test(w, 14)
    requires !Test(w, 15)
    ensures w == 0
  {}

  /** The k-th slot from the anchor is live. */
  predicate LiveFrom(mask: bv16, anchor: nat, k: nat) {
    Bit(mask, Wrap(anchor + k))
  }

  lemma RotatedBits(mask: bv16, anchor: nat)
    requires anchor < RING_SIZE
    ensures forall k :: 0 <= k < RING_SIZE ==> Bit(RotateRight(mask, Idx(anchor)), k) == LiveFrom(mask, anchor, k)
  {
    hide Bit, RotateRight;
    forall k | 0 <= k < RING_SIZE
      ensures Bit(RotateRight(mask, Idx(anchor)), k) == LiveFrom(mask, anchor, k)
    {
      RotatedBit(mask, anchor, k);
    }
  }

  /** By rotation and a count of trailing zeros: how far the nearest live bit is, or -1. */
  function NextLiveOffset(mask: bv16, anchor: nat): (off: int)
    requires anchor < RING_SIZE
    ensures -1 <= off < RING_SIZE
    ensures off >= 0 ==> LiveFrom(mask, anchor, off)
    ensures forall k {:trigger LiveFrom(mask, anchor, k)} :: 0 <= k < RING_SIZE && (off < 0 || k < off) ==>
      !LiveFrom(mask, anchor, k)
  {
    hide RotateRight, Bit, Idx, LiveFrom;
    var rotated := RotateRight(mask, Idx(anchor));
    ZeroIffNoBit(rotated);
    RotatedBits(mask, anchor);
    if rotated != 0 then CountrZeroFrom(rotated, 0) else -1
  }
}
