/** The ring of the sixteen ticks nearest the best quote. */
module RingBuffers {
  import opened PriceLevels
  import opened RingBits
  import opened Types

  /** What a vacant slot has in place of a price. */
  const NO_PRICE: int64 := -0x8000_0000_0000_0000

  /** Prices whose differences stay in range. */
  predicate Bounded(p: int) {
    -0x4000_0000_0000_0000 <= p < 0x4000_0000_0000_0000
  }

  /** Tick offset from best to price: negative for better prices, positive for worse ones. */
  function RankOf(isAsk: bool, best: int, price: int): int {
    if isAsk then price - best else best - price
  }

  datatype Slot = Slot(price: int64, level: PriceLevel?)

  const VACANT := Slot(NO_PRICE, null)

  /** Offset off is the least one from the anchor whose slot is live; -1 when no slot is. */
  ghost predicate LeastLive(s: seq<Slot>, anchor: nat, off: int) {
    && |s| == RING_SIZE && anchor < RING_SIZE && -1 <= off < RING_SIZE
    && (off >= 0 ==> s[Wrap(anchor + off)].level != null)
    && (forall i {:trigger s[i]} :: 0 <= i < RING_SIZE && s[i].level != null ==> 0 <= off <= OffsetOf(anchor, i))
  }

  class RingBuffer {
    const isAsk: bool
    const slots: array<Slot>
    var bestPrice: int64
    var anchor: nat
    var liveMask: bv16

    /** Mask, prices and levels agree on which slots are taken. */
    ghost predicate Valid()
      reads this, slots
    {
      && slots.Length == RING_SIZE && anchor < RING_SIZE
      && (forall i {:trigger slots[i]} :: 0 <= i < RING_SIZE ==>
        && (Bit(liveMask, i) <==> slots[i].level != null)
        && (slots[i].level == null <==> slots[i].price == NO_PRICE))
    }

    constructor (isAsk: bool)
      ensures Valid() && this.isAsk == isAsk && fresh(slots)
      ensures forall i :: 0 <= i < RING_SIZE ==> slots[i] == VACANT
      ensures anchor == 0 && bestPrice == NO_PRICE
    {
      this.isAsk := isAsk;
      slots := new Slot[RING_SIZE](_ => VACANT);
      bestPrice, anchor, liveMask := NO_PRICE, 0, 0;
      new;
      ZeroIffNoBit(0);
    }

    function Rank(price: int64): (r: int64)
      requires Bounded(price) && Bounded(bestPrice)
      reads this
      ensures r < 0 <==> Better(isAsk, price, bestPrice)
      ensures r == 0 <==> price == bestPrice
    {
      if isAsk then price - bestPrice else bestPrice - price
    }

    function IdxOf(r: int64): (i: nat)
      reads this
      ensures i < RING_SIZE && i == Wrap(anchor + r)
    {
      WrapIndex(anchor, r)
    }

    function Empty(): (r: bool)
      requires Valid()
      reads this, slots
      ensures r <==> forall i {:trigger slots[i]} :: 0 <= i < RING_SIZE ==> slots[i].level == null
    {
      hide Bit;
      ZeroIffNoBit(liveMask);
      assert forall i {:trigger slots[i]} {:trigger Bit(liveMask, i)} :: 0 <= i < RING_SIZE ==>
        (Bit(liveMask, i) <==> slots[i].level != null);
      liveMask == 0
    }

    method Insert(idx: nat, price: int64, level: PriceLevel)
      requires Valid() && idx < RING_SIZE && slots[idx].level == null && price != NO_PRICE
      modifies this`liveMask, slots
      ensures Valid() && slots[..] == old(slots[..])[idx := Slot(price, level)]
    {
      hide Bit, WithBit;
      MaskUpdates(liveMask, idx);
      slots[idx] := Slot(price, level);
      liveMask := WithBit(liveMask, idx);
    }

    /** Clears a slot; the level itself stays the caller's. */
    method Remove(idx: nat)
      requires Valid() && idx < RING_SIZE
      modifies this`liveMask, slots
      ensures Valid() && slots[..] == old(slots[..])[idx := VACANT]
    {
      hide Bit, WithoutBit;
      MaskUpdates(liveMask, idx);
      liveMask := WithoutBit(liveMask, idx);
      slots[idx] := VACANT;
    }

    /** Detaches the level of a slot. */
    method Evict(idx: nat) returns (level: PriceLevel?)
      requires Valid() && idx < RING_SIZE
      modifies this`liveMask, slots
      ensures Valid() && slots[..] == old(slots[..])[idx := VACANT] && level == old(slots[idx].level)
    {
      hide Bit, WithoutBit;
      MaskUpdates(liveMask, idx);
      liveMask := WithoutBit(liveMask, idx);
      level := slots[idx].level;
      slots[idx] := VACANT;
    }

    /** The least offset from the anchor at which a slot is live, or -1. */
    function NextLive(): (off: int)
      requires Valid()
      reads this, slots
      ensures LeastLive(slots[..], anchor, off)
    {
      hide LeastLive, NextLiveOffset;
      NextLiveIsLeast();
      NextLiveOffset(liveMask, anchor)
    }

    lemma NextLiveIsLeast()
      requires Valid()
      ensures LeastLive(slots[..], anchor, NextLiveOffset(liveMask, anchor))
    {
      hide Bit, Wrap, OffsetOf, NextLiveOffset;
      assert forall i {:trigger slots[i]} :: 0 <= i < RING_SIZE && slots[i].level != null ==>
        LiveFrom(liveMask, anchor, OffsetOf(anchor, i));
    }

    method SetAnchor(idx: nat, price: int64)
      requires Valid() && idx < RING_SIZE
      modifies this`anchor, this`bestPrice
      ensures Valid() && anchor == idx && bestPrice == price
    {
      anchor, bestPrice := idx, price;
    }

    /** With every slot vacant already, the mask becomes zero at once. */
    method Reset()
      requires Valid() && forall i :: 0 <= i < RING_SIZE ==> slots[i].level == null
      modifies this`liveMask, this`bestPrice
      ensures Valid() && bestPrice == NO_PRICE
    {
      ZeroIffNoBit(0);
      liveMask, bestPrice := 0, NO_PRICE;
    }
  }
}
