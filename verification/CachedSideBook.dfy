/**
 * A side book in two tiers, sixteen slots from the best quote outward and a map for all prices beyond
 * them; to its callers it is one map from price to level.
 */
module CachedSideBooks {
  import opened PriceLevelPools
  import opened PriceLevels
  import opened RingBits
  import opened RingBuffers
  import opened SideBooks
  import opened SideModel
  import opened Sequences
  import opened Types

  // ---------- the ring seen from an anchor ----------

  /** In the frame of an anchor slot at the best price, slot i is where a price in the window belongs. */
  ghost predicate InFrame(isAsk: bool, anchor: nat, best: int, price: int, i: nat) {
    Bounded(price) && 0 <= RankOf(isAsk, best, price) < RING_SIZE && i == Wrap(anchor + RankOf(isAsk, best, price))
  }

  ghost predicate Framed(isAsk: bool, anchor: nat, best: int, s: seq<Slot>) {
    Bounded(best) && anchor < RING_SIZE && |s| == RING_SIZE &&
    forall i {:trigger s[i]} :: 0 <= i < RING_SIZE && s[i].level != null ==> InFrame(isAsk, anchor, best, s[i].price, i)
  }

  /** Every cold price lies beyond the window. */
  ghost predicate Beyond(isAsk: bool, best: int, cold: LevelMap) {
    forall p {:trigger p in cold} :: p in cold ==> RankOf(isAsk, best, p) >= RING_SIZE
  }

  ghost predicate NoneLive(s: seq<Slot>) {
    forall i {:trigger s[i]} :: 0 <= i < |s| ==> s[i].level == null
  }

  lemma FramedEmpty(isAsk: bool, anchor: nat, best: int, s: seq<Slot>)
    requires NoneLive(s) && Bounded(best) && anchor < RING_SIZE && |s| == RING_SIZE
    ensures Framed(isAsk, anchor, best, s) && s[anchor].level == null
  {}

  /** Only the best price itself can sit at the anchor. */
  lemma AnchorHoldsBest(isAsk: bool, anchor: nat, best: int, s: seq<Slot>)
    requires Framed(isAsk, anchor, best, s) && s[anchor].level != null
    ensures s[anchor].price == best
  {
    hide Wrap;
    var r := RankOf(isAsk, best, s[anchor].price);
    WrapSmall(anchor);
    WrapInjective(anchor, r, 0);
  }

  lemma FrameVacate(isAsk: bool, anchor: nat, best: int, s: seq<Slot>, idx: nat)
    requires Framed(isAsk, anchor, best, s) && idx < RING_SIZE
    ensures Framed(isAsk, anchor, best, s[idx := VACANT])
  {
    hide InFrame;
    var s' := s[idx := VACANT];
    forall i | 0 <= i < RING_SIZE && s'[i].level != null
      ensures InFrame(isAsk, anchor, best, s'[i].price, i)
    {
      assert s[i].level != null;
    }
  }

  lemma FrameInsert(isAsk: bool, anchor: nat, best: int, s: seq<Slot>, idx: nat, price: int64, level: PriceLevel)
    requires Framed(isAsk, anchor, best, s) && idx < RING_SIZE && InFrame(isAsk, anchor, best, price, idx)
    ensures Framed(isAsk, anchor, best, s[idx := Slot(price, level)])
  {
    hide InFrame;
    var s' := s[idx := Slot(price, level)];
    forall i | 0 <= i < RING_SIZE && s'[i].level != null
      ensures InFrame(isAsk, anchor, best, s'[i].price, i)
    {
      assert i != idx ==> s[i].level != null;
    }
  }

  /** A price in the window that no live slot has belongs to a vacant slot. */
  lemma FrameVacancy(isAsk: bool, anchor: nat, best: int, s: seq<Slot>, price: int)
    requires Framed(isAsk, anchor, best, s) && 0 <= RankOf(isAsk, best, price) < RING_SIZE
    requires s[Wrap(anchor + RankOf(isAsk, best, price))].level != null
    ensures s[Wrap(anchor + RankOf(isAsk, best, price))].price == price
  {
    hide Wrap;
    var i := Wrap(anchor + RankOf(isAsk, best, price));
    WrapInjective(anchor, RankOf(isAsk, best, s[i].price), RankOf(isAsk, best, price));
  }

  /** Moving the anchor to the next live slot keeps every live slot in its place. */
  lemma FrameAdvance(isAsk: bool, anchor: nat, best: int, s: seq<Slot>, off: nat)
    requires Framed(isAsk, anchor, best, s) && off < RING_SIZE && s[Wrap(anchor + off)].level != null
    requires forall i {:trigger s[i]} :: 0 <= i < RING_SIZE && s[i].level != null ==> off <= OffsetOf(anchor, i)
    ensures RankOf(isAsk, best, s[Wrap(anchor + off)].price) == off
    ensures Framed(isAsk, Wrap(anchor + off), s[Wrap(anchor + off)].price, s)
  {
    hide Wrap, OffsetOf;
    var idx := Wrap(anchor + off);
    WrapInjective(anchor, RankOf(isAsk, best, s[idx].price), off);
    forall i | 0 <= i < RING_SIZE && s[i].level != null
      ensures InFrame(isAsk, idx, s[idx].price, s[i].price, i)
    {
      var r := RankOf(isAsk, best, s[i].price);
      WrapInjective(anchor, r, OffsetOf(anchor, i));
      WrapAgain(anchor + off, r - off);
    }
  }

  /** The slot k places before the anchor, around the ring. */
  function Behind(anchor: nat, k: int): (i: nat)
    ensures i < RING_SIZE
  {
    Wrap(anchor - k)
  }

  /** Moving the anchor d slots back, once the d slots before it are vacant, keeps the others in place. */
  lemma FrameRetreat(isAsk: bool, anchor: nat, best: int, s: seq<Slot>, d: nat, price: int)
    requires Framed(isAsk, anchor, best, s) && Bounded(price)
    requires 0 < d < RING_SIZE && RankOf(isAsk, best, price) + d == 0
    requires forall k {:trigger Behind(anchor, k)} :: 1 <= k <= d ==> s[Behind(anchor, k)].level == null
    ensures Framed(isAsk, Wrap(anchor - d), price, s)
  {
    hide Wrap;
    forall i | 0 <= i < RING_SIZE && s[i].level != null
      ensures InFrame(isAsk, Wrap(anchor - d), price, s[i].price, i)
    {
      var r := RankOf(isAsk, best, s[i].price);
      FullTurn(anchor, r);
      assert r + d >= RING_SIZE ==> s[Behind(anchor, RING_SIZE - r)].level == null;
      WrapAgain(anchor - d, r + d);
    }
  }

  lemma BehindRank(isAsk: bool, anchor: nat, best: int, s: seq<Slot>, k: nat)
    requires Framed(isAsk, anchor, best, s) && 1 <= k < RING_SIZE && s[Behind(anchor, k)].level != null
    ensures RankOf(isAsk, best, s[Behind(anchor, k)].price) == RING_SIZE - k
  {
    hide Wrap;
    FullTurn(anchor, RING_SIZE - k);
    WrapInjective(anchor, RankOf(isAsk, best, s[Behind(anchor, k)].price), RING_SIZE - k);
  }

  lemma BehindIndex(anchor: nat, k: int)
    ensures Wrap(anchor + RING_SIZE - k) == Behind(anchor, k)
  {
    FullTurn(anchor, RING_SIZE - k);
  }

  lemma FullTurn(anchor: nat, r: int)
    ensures Wrap(anchor - (RING_SIZE - r)) == Wrap(anchor + r)
  {}

  // ---------- the two tiers as one map ----------

  ghost predicate HotPrice(s: seq<Slot>, p: int) {
    exists i :: 0 <= i < |s| && s[i].level != null && s[i].price == p
  }

  /** The ring and the cold map are disjoint and together hold exactly the contents. */
  ghost predicate Tiers(s: seq<Slot>, cold: LevelMap, contents: LevelMap) {
    && (forall i {:trigger s[i]} :: 0 <= i < |s| && s[i].level != null ==>
      Bounded(s[i].price) && s[i].price !in cold && s[i].price in contents && contents[s[i].price] == s[i].level)
    && (forall i, j {:trigger s[i], s[j]} :: 0 <= i < j < |s| && s[i].level != null && s[j].level != null ==>
      s[i].price != s[j].price)
    && (forall p {:trigger p in cold} :: p in cold ==> Bounded(p) && p in contents && contents[p] == cold[p])
    && (forall p {:trigger p in contents} :: p in contents ==> p in cold || HotPrice(s, p))
  }

  lemma HotElsewhere(s: seq<Slot>, idx: nat, v: Slot, p: int)
    requires idx < |s| && HotPrice(s, p) && (s[idx].level == null || s[idx].price != p)
    ensures HotPrice(s[idx := v], p)
  {
    var i :| 0 <= i < |s| && s[i].level != null && s[i].price == p;
    assert s[idx := v][i] == s[i];
  }

  lemma TiersInsert(s: seq<Slot>, cold: LevelMap, contents: LevelMap, idx: nat, price: int64, level: PriceLevel)
    requires Tiers(s, cold, contents) && idx < |s| && s[idx].level == null && price !in contents && Bounded(price)
    ensures Tiers(s[idx := Slot(price, level)], cold, contents[price := level])
  {
    var s' := s[idx := Slot(price, level)];
    forall p | p in contents[price := level]
      ensures p in cold || HotPrice(s', p)
    {
      if p == price {
        assert s'[idx].price == p;
      } else if p !in cold {
        HotElsewhere(s, idx, Slot(price, level), p);
      }
    }
  }

  lemma TiersDrop(s: seq<Slot>, cold: LevelMap, contents: LevelMap, idx: nat)
    requires Tiers(s, cold, contents) && idx < |s| && s[idx].level != null
    ensures Tiers(s[idx := VACANT], cold, contents - {s[idx].price})
  {
    forall p | p in contents - {s[idx].price}
      ensures p in cold || HotPrice(s[idx := VACANT], p)
    {
      if p !in cold {
        HotElsewhere(s, idx, VACANT, p);
      }
    }
  }

  lemma TiersEvict(s: seq<Slot>, cold: LevelMap, contents: LevelMap, idx: nat)
    requires Tiers(s, cold, contents) && idx < |s| && s[idx].level != null
    ensures Tiers(s[idx := VACANT], cold[s[idx].price := s[idx].level], contents)
  {
    forall p | p in contents
      ensures p in cold[s[idx].price := s[idx].level] || HotPrice(s[idx := VACANT], p)
    {
      if p !in cold && p != s[idx].price {
        HotElsewhere(s, idx, VACANT, p);
      }
    }
  }

  lemma TiersPromote(s: seq<Slot>, cold: LevelMap, contents: LevelMap, idx: nat, p: int64)
    requires Tiers(s, cold, contents) && idx < |s| && s[idx].level == null && p in cold
    ensures Tiers(s[idx := Slot(p, cold[p])], cold - {p}, contents)
  {
    var s' := s[idx := Slot(p, cold[p])];
    forall q | q in contents
      ensures q in cold - {p} || HotPrice(s', q)
    {
      if q == p {
        assert s'[idx].price == q;
      } else if q !in cold {
        HotElsewhere(s, idx, Slot(p, cold[p]), q);
      }
    }
  }

  lemma TiersCold(s: seq<Slot>, cold: LevelMap, contents: LevelMap, p: int, level: PriceLevel)
    requires Tiers(s, cold, contents) && p !in contents && Bounded(p)
    ensures Tiers(s, cold[p := level], contents[p := level])
  {}

  // ---------- the pool ----------

  /** The pool's levels are partitioned into the free ones and the contents, one level a price. */
  ghost predicate Owned(slots: seq<LevelSlot>, owner: map<PriceLevel, LevelSlot>, free: seq<LevelSlot>,
                        contents: LevelMap) {
    && (forall p {:trigger contents[p]} :: p in contents ==> contents[p] in owner && owner[contents[p]] !in free)
    && (forall p, q {:trigger contents[p], contents[q]} ::
      p in contents && q in contents && contents[p] == contents[q] ==> p == q)
    && (forall s {:trigger s in free} :: s in slots ==> s in free || InUse(s.level, contents))
  }

  ghost predicate InUse(level: PriceLevel, contents: LevelMap) {
    exists p :: p in contents && contents[p] == level
  }

  /** A price in the window of the best whose level, like every level at least as good, is empty. */
  ghost predicate Leading(isAsk: bool, best: int, m: LevelMap, p: int)
    reads m.Values
  {
    RankOf(isAsk, best, p) < RING_SIZE &&
    forall q {:trigger m[q]} :: q in m && RankOf(isAsk, best, q) <= RankOf(isAsk, best, p) ==> m[q].queue == []
  }

  /** Where a walk toward worse prices started: the frame and the contents of then. */
  datatype Walk = Walk(isAsk: bool, anchor: nat, best: int, contents: LevelMap)

  /** So far the walk has removed exactly the prices of the starting contents up to the current best. */
  ghost predicate Walked(w: Walk, s: seq<Slot>, anchor: nat, best: int, cold: LevelMap, contents: LevelMap) {
    && Framed(w.isAsk, w.anchor, w.best, s) && Framed(w.isAsk, anchor, best, s)
    && Beyond(w.isAsk, w.best, cold) && 0 <= RankOf(w.isAsk, w.best, best) < RING_SIZE
    && (forall p {:trigger p in contents} :: p in w.contents ==>
      (p in contents <==> RankOf(w.isAsk, w.best, p) > RankOf(w.isAsk, w.best, best)))
  }

  lemma WalkStep(w: Walk, s: seq<Slot>, anchor: nat, best: int, cold: LevelMap, contents: LevelMap, off: nat)
    requires Walked(w, s, anchor, best, cold, contents) && Tiers(s, cold, contents) && Sheds(w.contents, contents)
    requires off < RING_SIZE && s[Wrap(anchor + off)].level != null
    requires forall i {:trigger s[i]} :: 0 <= i < RING_SIZE && s[i].level != null ==> off <= OffsetOf(anchor, i)
    ensures var idx := Wrap(anchor + off);
      && Framed(w.isAsk, idx, s[idx].price, s)
      && s[idx].price in contents && RankOf(w.isAsk, w.best, s[idx].price) < RING_SIZE
      && (forall p {:trigger p in contents} :: p in w.contents ==>
        (p in contents <==> RankOf(w.isAsk, w.best, p) >= RankOf(w.isAsk, w.best, s[idx].price)))
      && (forall p {:trigger p in cold} :: p in cold ==> RankOf(w.isAsk, s[idx].price, p) > 0)
      && Walked(w, s[idx := VACANT], idx, s[idx].price, cold, contents - {s[idx].price})
  {
    hide Wrap, OffsetOf;
    FrameAdvance(w.isAsk, anchor, best, s, off);
    var idx := Wrap(anchor + off);
    var price := s[idx].price;
    assert InFrame(w.isAsk, w.anchor, w.best, price, idx);
    FrameVacate(w.isAsk, w.anchor, w.best, s, idx);
    FrameVacate(w.isAsk, idx, price, s, idx);
    forall p | p in contents
      ensures RankOf(w.isAsk, w.best, p) >= RankOf(w.isAsk, w.best, price)
    {
      if p !in cold {
        var i :| 0 <= i < |s| && s[i].level != null && s[i].price == p;
        assert InFrame(w.isAsk, idx, price, p, i);
      }
    }
  }

  /** Going from one map to another loses exactly the leading prices. */
  ghost predicate LeadingRemoved(isAsk: bool, best: int, before: LevelMap, after: LevelMap)
    reads before.Values
  {
    forall p {:trigger p in after} :: p in before ==> (p in after <==> !Leading(isAsk, best, before, p))
  }

  /** Prices removed up to r, just before a level with orders or before the cold tier, are the leading ones. */
  lemma LeadingGone(w: Walk, contents: LevelMap, r: int, first: int)
    requires Sheds(w.contents, contents) && r < RING_SIZE
    requires forall p {:trigger p in contents} :: p in w.contents ==>
      (p in contents <==> RankOf(w.isAsk, w.best, p) > r)
    requires (forall p {:trigger p in contents} :: p in contents ==> RankOf(w.isAsk, w.best, p) >= RING_SIZE)
          || (first in contents && RankOf(w.isAsk, w.best, first) == r + 1 && contents[first].queue != [])
    ensures LeadingRemoved(w.isAsk, w.best, w.contents, contents)
  {
    forall p | p in w.contents
      ensures p in contents <==> !Leading(w.isAsk, w.best, w.contents, p)
    {
      if p in contents {
        assert first in contents ==> w.contents[first] == contents[first];
      } else {
        assert forall q {:trigger w.contents[q]} :: q in w.contents && RankOf(w.isAsk, w.best, q) <= r ==>
          q !in contents;
      }
    }
  }

  ghost function Far(isAsk: bool, best: int, m: LevelMap): (far: set<int>)
    ensures far <= m.Keys
  {
    set p | p in m && RankOf(isAsk, best, p) >= RING_SIZE
  }

  /** Erasing an empty best takes it, and so makes the side smaller. */
  lemma BestIsShed(isAsk: bool, best: int, before: LevelMap, after: LevelMap)
    requires Sheds(before, after) && LeadingRemoved(isAsk, best, before, after)
    requires IsBest(isAsk, best, before.Keys) && before[best].queue == []
    ensures |after| < |before|
  {
    assert Leading(isAsk, best, before, best);
    assert best !in after;
    Smaller(before, after, best);
  }

  /** With the window all empty, exactly the prices beyond it are left. */
  lemma OnlyFarLeft(isAsk: bool, best: int, before: LevelMap, after: LevelMap)
    requires Sheds(before, after) && LeadingRemoved(isAsk, best, before, after)
    requires forall p {:trigger before[p]} :: p in before && p !in Far(isAsk, best, before) ==> before[p].queue == []
    ensures after.Keys == Far(isAsk, best, before)
    ensures forall p {:trigger after[p]} :: p in after ==> after[p] == before[p]
  {
    forall p
      ensures p in after.Keys <==> p in Far(isAsk, best, before)
    {
      assert p in after ==> p in before;
      assert p in before && p !in Far(isAsk, best, before) ==> Leading(isAsk, best, before, p);
    }
  }

  /** With a level in the window that holds orders, the best one left is in the window and holds some. */
  lemma NearBestHolds(isAsk: bool, best: int, before: LevelMap, after: LevelMap, q: int)
    requires Sheds(before, after) && LeadingRemoved(isAsk, best, before, after)
    requires q in before && q !in Far(isAsk, best, before) && before[q].queue != []
    ensures after != map[] && after[BestOf(isAsk, after.Keys)].queue != []
  {
    assert q in after;
    var b := BestOf(isAsk, after.Keys);
    assert RankOf(isAsk, best, b) <= RankOf(isAsk, best, q);
    assert b in before && !Leading(isAsk, best, before, b);
  }

  /**
   * After the best was erased the new best level holds orders, except exactly when every level in the
   * window was empty and so is the best of those beyond it, which is pulled in unseen.
   */
  lemma BestAfterErase(isAsk: bool, best: int, before: LevelMap, after: LevelMap)
    requires Sheds(before, after) && LeadingRemoved(isAsk, best, before, after)
    ensures var far := Far(isAsk, best, before);
      (after != map[] && after[BestOf(isAsk, after.Keys)].queue == []) <==>
        (forall p {:trigger before[p]} :: p in before && p !in far ==> before[p].queue == [])
        && far != {} && before[BestOf(isAsk, far)].queue == []
  {
    hide LeadingRemoved, Sheds, Far;
    var far := Far(isAsk, best, before);
    if forall p {:trigger before[p]} :: p in before && p !in far ==> before[p].queue == [] {
      OnlyFarLeft(isAsk, best, before, after);
    } else {
      var q :| q in before && q !in far && before[q].queue != [];
      NearBestHolds(isAsk, best, before, after, q);
    }
  }

  lemma WalkOver(w: Walk, s: seq<Slot>, anchor: nat, best: int, cold: LevelMap, contents: LevelMap)
    requires Walked(w, s, anchor, best, cold, contents)
    requires Tiers(s, cold, contents) && Sheds(w.contents, contents) && NoneLive(s)
    ensures LeadingRemoved(w.isAsk, w.best, w.contents, contents)
    ensures contents.Keys == cold.Keys && s[0].level == null
    ensures forall p {:trigger p in cold} :: p in cold ==> Bounded(p)
    ensures forall p {:trigger Framed(w.isAsk, 0, p, s)} :: Bounded(p) ==> Framed(w.isAsk, 0, p, s)
  {
    assert forall p :: !HotPrice(s, p);
    assert forall p :: p in contents.Keys <==> p in cold.Keys;
    assert forall p {:trigger p in contents} :: p in contents ==> RankOf(w.isAsk, w.best, p) >= RING_SIZE;
    LeadingGone(w, contents, RankOf(w.isAsk, w.best, best), best);
  }

  ghost function SlotsInUse(owner: map<PriceLevel, LevelSlot>, m: LevelMap): set<LevelSlot>
    requires forall p {:trigger m[p]} :: p in m ==> m[p] in owner
  {
    set p | p in m :: owner[m[p]]
  }

  lemma {:induction false} InUseCount(owner: map<PriceLevel, LevelSlot>, m: LevelMap)
    requires forall p {:trigger m[p]} :: p in m ==> m[p] in owner
    requires forall p, q {:trigger m[p], m[q]} :: p in m && q in m && owner[m[p]] == owner[m[q]] ==> p == q
    ensures |SlotsInUse(owner, m)| == |m|
    decreases |m|
  {
    if m != map[] {
      var p := Member(m.Keys);
      InUseCount(owner, m - {p});
      assert forall q {:trigger m[q]} :: q in m && q != p ==> (m - {p})[q] == m[q];
      forall x
        ensures x in SlotsInUse(owner, m) <==> x in SlotsInUse(owner, m - {p}) || x == owner[m[p]]
      {
        assert x == owner[m[p]] ==> x in SlotsInUse(owner, m);
      }
      assert SlotsInUse(owner, m) == SlotsInUse(owner, m - {p}) + {owner[m[p]]};
      assert m == (m - {p})[p := m[p]];
    }
  }

  lemma PoolSplit(slots: seq<LevelSlot>, owner: map<PriceLevel, LevelSlot>, free: seq<LevelSlot>, m: LevelMap)
    requires Owned(slots, owner, free, m) && Embeds(slots, owner)
    requires forall s {:trigger s in free} :: s in free ==> s in slots
    ensures Elements(slots) == Elements(free) + SlotsInUse(owner, m) && Elements(free) !! SlotsInUse(owner, m)
  {
    forall s
      ensures s in slots <==> s in free || s in SlotsInUse(owner, m)
    {
      if s in slots && s !in free {
        var p :| p in m && m[p] == s.level;
        assert owner[m[p]] == s;
      }
    }
  }

  /** The pool's slots are split between the free list and the levels in use, one each. */
  lemma PoolCount(slots: seq<LevelSlot>, owner: map<PriceLevel, LevelSlot>, free: seq<LevelSlot>, m: LevelMap)
    requires Distinct(slots) && Distinct(free) && Owned(slots, owner, free, m) && Embeds(slots, owner)
    requires forall s {:trigger s in free} :: s in free ==> s in slots
    ensures |free| + |m| == |slots|
  {
    InUseCount(owner, m);
    ElementCount(free);
    ElementCount(slots);
    PoolSplit(slots, owner, free, m);
  }

  // ---------- what a slide sheds ----------

  ghost function EmptyPrices(m: LevelMap): (empties: set<int>)
    reads m.Values
    ensures forall p {:trigger p in empties} :: p in empties <==> p in m && m[p].queue == []
  {
    set p | p in m && m[p].queue == []
  }

  /** The prices of some slots. */
  ghost function PricesOf(s: seq<Slot>, visited: set<nat>): set<int> {
    set i | i in visited && i < |s| && s[i].level != null :: s[i].price
  }

  /** The visited slots are vacant, the others untouched; of the visited prices exactly the empty ones are gone. */
  ghost predicate Retired(s0: seq<Slot>, visited: set<nat>, before: LevelMap, empties: set<int>, s: seq<Slot>,
                          after: LevelMap) {
    && |s| == |s0| && after == before - (PricesOf(s0, visited) * empties)
    && forall i {:trigger s[i]} {:trigger s0[i]} :: 0 <= i < |s| ==> s[i] == if i in visited then VACANT else s0[i]
  }

  lemma RetiredNone(s: seq<Slot>, m: LevelMap, empties: set<int>)
    ensures Retired(s, {}, m, empties, s, m)
  {
    assert PricesOf(s, {}) == {};
    assert m - {} == m;
  }

  lemma RetiredOne(s0: seq<Slot>, visited: set<nat>, before: LevelMap, empties: set<int>,
                   s: seq<Slot>, m: LevelMap, idx: nat, m': LevelMap)
    requires Retired(s0, visited, before, empties, s, m) && idx < |s|
    requires m' == if s[idx].level != null && s[idx].price in empties then m - {s[idx].price} else m
    ensures Retired(s0, visited + {idx}, before, empties, s[idx := VACANT], m')
  {
    if s[idx].level != null {
      assert PricesOf(s0, visited + {idx}) == PricesOf(s0, visited) + {s[idx].price as int};
    } else {
      forall p
        ensures p in PricesOf(s0, visited + {idx}) <==>
          p in PricesOf(s0, visited) || (s0[idx].level != null && p == s0[idx].price)
      {
      }
      assert idx !in visited ==> s0[idx].level == null;
      assert PricesOf(s0, visited + {idx}) == PricesOf(s0, visited);
    }
    assert m' == before - (PricesOf(s0, visited + {idx}) * empties);
  }

  /** Where a slide of the window started: its slots, its contents and which of them are empty. */
  datatype Slide = Slide(slots: seq<Slot>, contents: LevelMap, empties: set<int>)

  ghost function FirstSlots(n: nat): (slots: set<nat>)
    ensures forall j: nat :: j in slots <==> j < n
  {
    if n == 0 then {} else FirstSlots(n - 1) + {n - 1}
  }

  ghost predicate FarSlots(isAsk: bool, price: int, s: seq<Slot>) {
    forall i {:trigger s[i]} :: 0 <= i < |s| && s[i].level != null ==> RankOf(isAsk, price, s[i].price) >= RING_SIZE
  }

  lemma RetiredContents(s0: seq<Slot>, visited: set<nat>, before: LevelMap, empties: set<int>, s: seq<Slot>,
                        after: LevelMap)
    requires Retired(s0, visited, before, empties, s, after)
    ensures after == before - (PricesOf(s0, visited) * empties)
  {}

  lemma StillThere(w: Slide, visited: set<nat>, s: seq<Slot>, m: LevelMap, i: nat)
    requires Retired(w.slots, visited, w.contents, w.empties, s, m) && i < |s|
    ensures |s| == |w.slots| && (s[i] == VACANT || s[i] == w.slots[i])
  {}

  lemma RetiredAll(w: Slide, s: seq<Slot>, m: LevelMap)
    requires Retired(w.slots, FirstSlots(RING_SIZE), w.contents, w.empties, s, m) && |s| == RING_SIZE
    ensures NoneLive(s) && m == w.contents - (PricesOf(w.slots, FirstSlots(RING_SIZE)) * w.empties)
  {}

  lemma EmptyKept(before: LevelMap, after: LevelMap, p: int)
    requires Sheds(before, after) && p in after
    ensures p in EmptyPrices(after) <==> p in EmptyPrices(before)
  {}

  /** A level without orders that was in the window of one best and is not in that of a better one. */
  ghost predicate FallsOut(isAsk: bool, best: int, price: int, empties: set<int>, p: int) {
    p in empties && RankOf(isAsk, best, p) < RING_SIZE <= RankOf(isAsk, price, p)
  }

  /** The levels left once the window has made room for a price: a price better than the best moves it. */
  ghost function Slid(isAsk: bool, m: LevelMap, price: int): (left: LevelMap)
    reads m.Values
    ensures forall p :: p in left ==> p in m
  {
    if m == map[] || !Better(isAsk, price, BestOf(isAsk, m.Keys)) then m
    else map p | p in m && !FallsOut(isAsk, BestOf(isAsk, m.Keys), price, EmptyPrices(m), p) :: m[p]
  }

  /** In terms of queues, the slide keeps what the model of the side keeps. */
  lemma SlidQueues(isAsk: bool, m: LevelMap, price: int)
    ensures Queues(Slid(isAsk, m, price)) == Kept(RingAndCold, isAsk, Queues(m), price)
  {
    QueuesKeys(m);
    forall p
      ensures p in Slid(isAsk, m, price) <==> p in Kept(RingAndCold, isAsk, Queues(m), price)
      ensures p in Slid(isAsk, m, price) ==> Slid(isAsk, m, price)[p] == m[p]
    {
    }
  }

  /** In terms of queues, the walk to the next best erases what the model of the side erases. */
  lemma LeadingQueues(isAsk: bool, best: int, before: LevelMap, after: LevelMap)
    requires Sheds(before, after) && LeadingRemoved(isAsk, best, before, after)
    requires IsBest(isAsk, best, before.Keys) && before[best].queue == []
    ensures Queues(after) == Erased(RingAndCold, isAsk, Queues(before))
  {
    QueuesKeys(before);
    OneBest(isAsk, best, BestOf(isAsk, before.Keys), before.Keys);
    forall p
      ensures p in after <==> p in Erased(RingAndCold, isAsk, Queues(before))
      ensures p in after ==> after[p] == before[p]
    {
      if p in before {
        LeadingIsLed(isAsk, best, before, p);
      }
    }
  }

  lemma LeadingIsLed(isAsk: bool, best: int, m: LevelMap, p: int)
    ensures Leading(isAsk, best, m, p) <==> Led(isAsk, best, Queues(m), p)
  {
    QueuesKeys(m);
    assert forall q {:trigger Queues(m)[q]} :: q in m ==> Queues(m)[q] == m[q].queue;
  }

  /** Adding one price changes no other. */
  lemma AddedAlone(before: LevelMap, after: LevelMap, price: int, level: PriceLevel)
    requires price !in before ==> after == before[price := level]
    ensures price !in before ==> Sheds(before, after - {price})
  {
    assert price !in before ==> after - {price} == before;
  }

  /** In a valid frame, the price at rank r is at the slot r places after the anchor. */
  lemma HotSlot(isAsk: bool, anchor: nat, best: int, s: seq<Slot>, cold: LevelMap, m: LevelMap, p: int)
    requires Framed(isAsk, anchor, best, s) && Tiers(s, cold, m) && Beyond(isAsk, best, cold) && p in m
    ensures RankOf(isAsk, best, p) < RING_SIZE ==>
      RankOf(isAsk, best, p) >= 0 &&
      var i := Wrap(anchor + RankOf(isAsk, best, p)); s[i].level != null && s[i].price == p
  {
    hide Wrap;
    if RankOf(isAsk, best, p) < RING_SIZE {
      var i :| 0 <= i < |s| && s[i].level != null && s[i].price == p;
      assert InFrame(isAsk, anchor, best, p, i);
    }
  }

  lemma SlotRank(isAsk: bool, anchor: nat, best: int, s: seq<Slot>, cold: LevelMap, m: LevelMap, i: nat)
    requires Framed(isAsk, anchor, best, s) && Tiers(s, cold, m) && i < RING_SIZE && s[i].level != null
    ensures s[i].price in m && InFrame(isAsk, anchor, best, s[i].price, i)
  {}

  /** The visited prices are exactly those that leave the window when the best improves to a price. */
  ghost predicate Leaving(isAsk: bool, best: int, price: int, s: seq<Slot>, visited: set<nat>, m: LevelMap) {
    forall p {:trigger p in m} :: p in m ==>
      (p in PricesOf(s, visited) <==> RankOf(isAsk, best, p) < RING_SIZE <= RankOf(isAsk, price, p))
  }

  lemma LeavingIsSlid(isAsk: bool, best: int, price: int, s: seq<Slot>, visited: set<nat>, m: LevelMap)
    requires m != map[] && IsBest(isAsk, best, m.Keys) && Better(isAsk, price, best)
    requires Leaving(isAsk, best, price, s, visited, m)
    ensures m - (PricesOf(s, visited) * EmptyPrices(m)) == Slid(isAsk, m, price)
  {
    hide IsBest, PricesOf;
    OneBest(isAsk, best, BestOf(isAsk, m.Keys), m.Keys);
  }

  /** A jump of a whole ring: everything hot leaves. */
  lemma AllLeave(isAsk: bool, anchor: nat, best: int, s: seq<Slot>, cold: LevelMap, m: LevelMap, price: int,
                 visited: set<nat>)
    requires Framed(isAsk, anchor, best, s) && Tiers(s, cold, m) && Beyond(isAsk, best, cold)
    requires RankOf(isAsk, best, price) + RING_SIZE <= 0 && forall i: nat :: i < RING_SIZE ==> i in visited
    ensures Leaving(isAsk, best, price, s, visited, m)
  {
    hide Wrap, Framed, Tiers, Beyond;
    FrameLength(isAsk, anchor, best, s);
    forall p | p in m
      ensures p in PricesOf(s, visited) <==> RankOf(isAsk, best, p) < RING_SIZE <= RankOf(isAsk, price, p)
    {
      HotSlot(isAsk, anchor, best, s, cold, m, p);
      forall i: nat | i < RING_SIZE && s[i].level != null && s[i].price == p
        ensures RankOf(isAsk, best, p) < RING_SIZE
      {
        SlotRank(isAsk, anchor, best, s, cold, m, i);
      }
    }
  }

  lemma FrameLength(isAsk: bool, anchor: nat, best: int, s: seq<Slot>)
    requires Framed(isAsk, anchor, best, s)
    ensures |s| == RING_SIZE && anchor < RING_SIZE
  {}

  /** The d slots before an anchor. */
  ghost function FarEnd(anchor: nat, d: nat): (slots: set<nat>) {
    set k | 1 <= k <= d :: Behind(anchor, k)
  }

  lemma FarEndGrows(anchor: nat, d: nat)
    ensures FarEnd(anchor, d + 1) == FarEnd(anchor, d) + {Behind(anchor, d + 1)}
  {
    hide Behind;
  }

  lemma FarEndStarts(anchor: nat)
    ensures FarEnd(anchor, 0) == {}
  {}

  lemma RetiredFarEnd(w: Slide, anchor: nat, d: nat, s: seq<Slot>, m: LevelMap)
    requires Retired(w.slots, FarEnd(anchor, d), w.contents, w.empties, s, m) && |s| == RING_SIZE
    ensures forall k {:trigger Behind(anchor, k)} :: 1 <= k <= d ==> s[Behind(anchor, k)].level == null
  {
    hide Behind, PricesOf;
    forall k | 1 <= k <= d
      ensures s[Behind(anchor, k)].level == null
    {
      assert Behind(anchor, k) in FarEnd(anchor, d);
    }
  }

  /** A shorter jump: exactly the prices in the slots before the anchor leave. */
  lemma FarEndLeaves(isAsk: bool, anchor: nat, best: int, s: seq<Slot>, cold: LevelMap, m: LevelMap, price: int, d: nat)
    requires Framed(isAsk, anchor, best, s) && Tiers(s, cold, m) && Beyond(isAsk, best, cold)
    requires 0 < d < RING_SIZE && RankOf(isAsk, best, price) + d == 0
    ensures Leaving(isAsk, best, price, s, FarEnd(anchor, d), m)
  {
    hide Wrap, Framed, Tiers, Beyond, Behind;
    FrameLength(isAsk, anchor, best, s);
    forall p | p in m
      ensures p in PricesOf(s, FarEnd(anchor, d)) <==> RING_SIZE - d <= RankOf(isAsk, best, p) < RING_SIZE
    {
      var r := RankOf(isAsk, best, p);
      HotSlot(isAsk, anchor, best, s, cold, m, p);
      if RING_SIZE - d <= r < RING_SIZE {
        BehindIsAhead(anchor, r);
        assert Behind(anchor, RING_SIZE - r) in FarEnd(anchor, d);
      }
      forall k | 1 <= k <= d && s[Behind(anchor, k)].level != null && s[Behind(anchor, k)].price == p
        ensures r == RING_SIZE - k
      {
        BehindRank(isAsk, anchor, best, s, k);
      }
    }
  }

  lemma BehindValue(anchor: nat, d: nat)
    ensures Behind(anchor, d) == Wrap(anchor - d)
  {}

  lemma BehindIsAhead(anchor: nat, r: nat)
    requires r < RING_SIZE
    ensures Behind(anchor, RING_SIZE - r) == Wrap(anchor + r)
  {
    FullTurn(anchor, r);
  }

  class CachedSideBook {
    const isAsk: bool
    const hot: RingBuffer
    const pool: PriceLevelPool
    var cold: LevelMap
    /** The level of every price that has one. */
    ghost var contents: LevelMap

    ghost predicate Structure()
      reads this, hot, hot.slots, pool, pool.slots, pool.Levels()
    {
      && hot.isAsk == isAsk && hot.Valid() && pool.Valid()
      && Tiers(hot.slots[..], cold, contents)
      && Owned(pool.slots, pool.owner, pool.free, contents)
    }

    /** The best price is in the ring at the anchor; cold prices lie beyond the window; no ring, no cold. */
    ghost predicate Valid()
      reads this, hot, hot.slots, pool, pool.slots, pool.Levels()
    {
      && Structure()
      && (NoneLive(hot.slots[..]) ==> cold == map[])
      && (!NoneLive(hot.slots[..]) ==>
        && Framed(isAsk, hot.anchor, hot.bestPrice, hot.slots[..])
        && hot.slots[hot.anchor].level != null
        && Beyond(isAsk, hot.bestPrice, cold))
    }

    /** The anchor is live in its frame, and better than every cold price. */
    ghost predicate Anchored()
      requires Structure()
      reads this, hot, hot.slots, pool, pool.slots, pool.Levels()
    {
      && Framed(isAsk, hot.anchor, hot.bestPrice, hot.slots[..]) && hot.slots[hot.anchor].level != null
      && forall p {:trigger p in cold} :: p in cold ==> RankOf(isAsk, hot.bestPrice, p) > 0
    }

    lemma OwnedAcquire(price: int)
      requires pool.Valid() && pool.free != []
      requires Owned(pool.slots, pool.owner, pool.free, contents) && price !in contents
      ensures Owned(pool.slots, pool.owner, pool.free[1..], contents[price := pool.free[0].level])
    {
      var level, contents' := pool.free[0].level, contents[price := pool.free[0].level];
      assert pool.free[0] in pool.slots;
      assert forall s :: s in pool.free[1..] ==> s in pool.free;
      forall p | p in contents'
        ensures contents'[p] in pool.owner && pool.owner[contents'[p]] !in pool.free[1..]
        ensures p != price ==> contents'[p] != level
      {
        assert p != price ==> pool.owner[contents[p]] !in pool.free;
      }
      forall s | s in pool.slots
        ensures s in pool.free[1..] || InUse(s.level, contents')
      {
        if s == pool.free[0] {
          assert contents'[price] == s.level;
        } else if s in pool.free {
          var i :| 0 <= i < |pool.free| && pool.free[i] == s;
          assert pool.free[1..][i - 1] == s;
        } else {
          var p :| p in contents && contents[p] == s.level;
          assert contents'[p] == s.level;
        }
      }
    }

    lemma OwnedRelease(price: int)
      requires pool.Valid() && price in contents && Owned(pool.slots, pool.owner, pool.free, contents)
      ensures Owned(pool.slots, pool.owner, [pool.owner[contents[price]]] + pool.free, contents - {price})
    {
      var contents', free' := contents - {price}, [pool.owner[contents[price]]] + pool.free;
      forall p | p in contents'
        ensures contents'[p] in pool.owner && pool.owner[contents'[p]] !in free'
      {
        assert contents[p] != contents[price];
      }
      forall s | s in pool.slots
        ensures s in free' || InUse(s.level, contents')
      {
        if s in pool.free {
          assert s in free';
        } else {
          var p :| p in contents && contents[p] == s.level;
          if p == price {
            assert pool.owner[s.level] == s;
            assert free'[0] == s;
          } else {
            assert contents'[p] == s.level;
          }
        }
      }
    }

    /** Acquires a level and installs it at a vacant slot. */
    method Materialize(idx: nat, price: int64) returns (level: PriceLevel)
      requires Structure() && idx < RING_SIZE && hot.slots[idx].level == null
      requires price !in contents && Bounded(price) && pool.free != []
      modifies this`contents, hot`liveMask, hot.slots, pool`freeHead, pool`free
      ensures Structure() && contents == old(contents)[price := level]
      ensures level == old(pool.free)[0].level && pool.free == old(pool.free)[1..]
      ensures hot.slots[..] == old(hot.slots[..])[idx := Slot(price, level)]
      ensures level.Valid() && level.queue == []
    {
      hide Tiers, Owned, RingBuffer.Valid;
      OwnedAcquire(price);
      assert hot.slots.Length == RING_SIZE by { RingLength(); }
      TiersInsert(hot.slots[..], cold, contents, idx, price, pool.free[0].level);
      level := pool.Acquire();
      hot.Insert(idx, price, level);
      contents := contents[price := level];
    }

    lemma RingLength()
      requires hot.Valid()
      ensures hot.slots.Length == RING_SIZE && hot.anchor < RING_SIZE
    {}

    /** Repoints the ring without touching the slots. */
    method AnchorAt(idx: nat, price: int64)
      requires Structure() && idx < RING_SIZE
      modifies hot`anchor, hot`bestPrice
      ensures Structure() && hot.anchor == idx && hot.bestPrice == price
      ensures hot.slots[..] == old(hot.slots[..])
    {
      hide Owned, Tiers, RingBuffer.Valid;
      hot.SetAnchor(idx, price);
    }

    /** Releases the empty level of a live slot and clears the slot. */
    method Drop(idx: nat)
      requires Structure() && Linked(contents) && idx < RING_SIZE && hot.slots[idx].level != null
      requires hot.slots[idx].level.queue == []
      modifies this`contents, hot`liveMask, hot.slots, pool`freeHead, pool`free, pool.slots`next
      modifies pool.Levels()
      ensures Structure() && Linked(contents) && Sheds(old(contents), contents) && unchanged(pool.Levels())
      ensures contents == old(contents) - {old(hot.slots[idx].price)} && |contents| < old(|contents|)
      ensures |pool.free| > old(|pool.free|)
      ensures hot.slots[..] == old(hot.slots[..])[idx := VACANT]
    {
      hide Tiers, Owned, RingBuffer.Valid, PriceLevelPool.Valid, Bounded, Linked, Sheds;
      RingLength();
      SlotLevel(idx);
      TiersDrop(hot.slots[..], cold, contents, idx);
      GiveBack(hot.slots[idx].price, hot.slots[idx].level);
      hot.Remove(idx);
    }

    /** Returns the empty level of a price to the pool. */
    method GiveBack(ghost price: int, level: PriceLevel)
      requires pool.Valid() && Owned(pool.slots, pool.owner, pool.free, contents) && Linked(contents)
      requires price in contents && contents[price] == level && level.queue == []
      modifies this`contents, pool`freeHead, pool`free, pool.slots`next, pool.Levels()
      ensures pool.Valid() && Owned(pool.slots, pool.owner, pool.free, contents)
      ensures contents == old(contents) - {price} && |contents| < old(|contents|) && |pool.free| > old(|pool.free|)
      ensures Linked(contents) && Sheds(old(contents), contents) && unchanged(pool.Levels())
    {
      hide PriceLevel.Valid, PriceLevelPool.Valid, Sheds;
      ghost var before := contents;
      ghost var rest := contents - {price};
      LevelOf(contents, price);
      LinkedFewer(contents, price);
      assert forall p {:trigger rest[p]} :: p in rest ==> rest[p] != level by {
        assert forall p :: p in rest ==> rest[p] == contents[p];
      }
      OwnedRelease(price);
      pool.Release(level);
      contents := contents - {price};
      ShedOne(before, price);
    }

    lemma SlotLevel(idx: nat)
      requires Structure() && idx < RING_SIZE && hot.slots[idx].level != null
      ensures var s := hot.slots[idx];
        && s.price in contents && contents[s.price] == s.level && Bounded(s.price) && s.price !in cold
        && s.level in pool.owner && pool.owner[s.level] !in pool.free && pool.owner[s.level] in pool.slots
        && (forall p {:trigger contents[p]} :: p in contents && p != s.price ==> contents[p] != s.level)
    {
      var s := hot.slots[..][idx];
    }

    /** Moves the level of a live slot to the cold map, under its price. */
    method EvictToCold(idx: nat)
      requires Structure() && idx < RING_SIZE && hot.slots[idx].level != null
      modifies this`cold, hot`liveMask, hot.slots
      ensures Structure() && contents == old(contents)
      ensures hot.slots[..] == old(hot.slots[..])[idx := VACANT]
      ensures cold == old(cold)[old(hot.slots[idx].price) := old(hot.slots[idx].level)]
    {
      hide Tiers, Owned, RingBuffer.Valid;
      RingLength();
      TiersEvict(hot.slots[..], cold, contents, idx);
      var price := hot.slots[idx].price;
      var level := hot.Evict(idx);
      cold := cold[price := level];
    }

    // ---------- the interface ----------

    /** The best price, at the anchor, is the most aggressive of both tiers; an empty ring means an empty side. */
    lemma BestIsAtAnchor()
      requires Valid()
      ensures NoneLive(hot.slots[..]) <==> contents == map[]
      ensures contents != map[] ==>
        && IsBest(isAsk, hot.bestPrice, contents.Keys)
        && hot.slots[hot.anchor] == Slot(hot.bestPrice, contents[hot.bestPrice])
    {
      var s := hot.slots[..];
      if NoneLive(s) {
        assert forall p :: !HotPrice(s, p);
        assert forall p :: p !in contents;
      } else {
        AnchorHoldsBest(isAsk, hot.anchor, hot.bestPrice, s);
        assert s[hot.anchor].price in contents;
        forall p | p in contents && p != hot.bestPrice
          ensures Better(isAsk, hot.bestPrice, p)
        {
          if p !in cold {
            var i :| 0 <= i < |s| && s[i].level != null && s[i].price == p;
            assert InFrame(isAsk, hot.anchor, hot.bestPrice, p, i);
          }
        }
      }
    }

    predicate Empty()
      requires Valid()
      reads this, hot, hot.slots, pool, pool.slots, pool.Levels()
      ensures Empty() <==> contents == map[]
    {
      BestIsAtAnchor();
      hot.Empty() && cold == map[]
    }

    function BestPrice(): (p: int64)
      requires Valid() && contents != map[]
      reads this, hot, hot.slots, pool, pool.slots, pool.Levels()
      ensures IsBest(isAsk, p, contents.Keys)
    {
      BestIsAtAnchor();
      hot.bestPrice
    }

    function BestLevel(): (level: PriceLevel)
      requires Valid() && contents != map[]
      reads this, hot, hot.slots, pool, pool.slots, pool.Levels()
      ensures level == contents[BestPrice()]
    {
      BestIsAtAnchor();
      hot.slots[hot.anchor].level
    }

    /** Looks up or creates the level of a price beyond the window. */
    method ColdGetOrCreate(price: int64) returns (level: PriceLevel)
      requires Valid() && Linked(contents) && !NoneLive(hot.slots[..])
      requires Bounded(price) && RankOf(isAsk, hot.bestPrice, price) >= RING_SIZE
      requires price in contents || pool.free != []
      modifies this`contents, this`cold, pool`freeHead, pool`free
      ensures Valid() && Linked(contents) && price in contents && level == contents[price]
      ensures price in old(contents) ==> contents == old(contents)
      ensures price !in old(contents) ==> contents == old(contents)[price := level] && level.queue == []
    {
      hide Tiers, Owned, Framed, NoneLive, RingBuffer.Valid, PriceLevel.Valid;
      RingFacts();
      BeyondIsNotHot(price);
      if price in cold {
        level := cold[price];
      } else {
        OwnedAcquire(price);
        TiersCold(hot.slots[..], cold, contents, price, pool.free[0].level);
        level := pool.Acquire();
        cold := cold[price := level];
        contents := contents[price := level];
      }
    }

    lemma BeyondIsNotHot(price: int)
      requires Valid() && !NoneLive(hot.slots[..]) && RankOf(isAsk, hot.bestPrice, price) >= RING_SIZE
      ensures price in contents <==> price in cold
      ensures price in cold ==> cold[price] == contents[price]
    {
      var s := hot.slots[..];
      assert forall i {:trigger s[i]} :: 0 <= i < RING_SIZE && s[i].level != null ==>
        InFrame(isAsk, hot.anchor, hot.bestPrice, s[i].price, i);
    }

    /** On an empty side the ring can start anywhere. */
    lemma StartsEmpty(price: int)
      requires Valid() && NoneLive(hot.slots[..]) && Bounded(price)
      ensures Framed(isAsk, 0, price, hot.slots[..]) && Beyond(isAsk, price, cold) && price !in contents
      ensures hot.slots[0].level == null
    {
      BestIsAtAnchor();
      FramedEmpty(isAsk, 0, price, hot.slots[..]);
    }

    /** The slot of a price in the window holds its level, or is vacant. */
    lemma SlotInWindow(price: int)
      requires Valid() && !NoneLive(hot.slots[..]) && Bounded(price)
      requires 0 <= RankOf(isAsk, hot.bestPrice, price) < RING_SIZE
      ensures var slot := hot.slots[Wrap(hot.anchor + RankOf(isAsk, hot.bestPrice, price))];
        if slot.price == price then price in contents && slot.level == contents[price]
        else price !in contents && slot.level == null
      ensures InFrame(isAsk, hot.anchor, hot.bestPrice, price, Wrap(hot.anchor + RankOf(isAsk, hot.bestPrice, price)))
    {
      hide Wrap;
      var idx := Wrap(hot.anchor + RankOf(isAsk, hot.bestPrice, price));
      if hot.slots[idx].level != null {
        FrameVacancy(isAsk, hot.anchor, hot.bestPrice, hot.slots[..], price);
        SlotLevel(idx);
      } else {
        NotYetThere(idx, price);
      }
    }

    /** A new level keeps the hot frame when its price is in the window. */
    method MaterializeInWindow(idx: nat, price: int64) returns (level: PriceLevel)
      requires Valid() && Linked(contents) && !NoneLive(hot.slots[..]) && Bounded(price) && pool.free != []
      requires InFrame(isAsk, hot.anchor, hot.bestPrice, price, idx) && idx < RING_SIZE && hot.slots[idx].level == null
      modifies this`contents, hot`liveMask, hot.slots, pool`freeHead, pool`free
      ensures Valid() && Linked(contents) && price !in old(contents) && contents == old(contents)[price := level]
      ensures contents - {price} == old(contents) && level.queue == []
    {
      hide Tiers, Owned, RingBuffer.Valid, PriceLevelPool.Valid, PriceLevel.Valid, Framed, InFrame, Beyond, NoneLive;
      RingLength();
      NotYetThere(idx, price);
      FrameInsert(isAsk, hot.anchor, hot.bestPrice, hot.slots[..], idx, price, pool.free[0].level);
      StillLive(hot.slots[..], idx, Slot(price, pool.free[0].level), hot.anchor);
      level := Materialize(idx, price);
    }

    static lemma StillLive(s: seq<Slot>, idx: nat, v: Slot, anchor: nat)
      requires idx < |s| && anchor < |s| && s[anchor].level != null && v.level != null
      ensures !NoneLive(s[idx := v]) && s[idx := v][anchor].level != null
    {
      assert s[idx := v][idx].level != null;
    }

    /** A price whose slot in the window is vacant is in neither tier. */
    lemma NotYetThere(idx: nat, price: int)
      requires Valid() && !NoneLive(hot.slots[..])
      requires InFrame(isAsk, hot.anchor, hot.bestPrice, price, idx) && idx < RING_SIZE && hot.slots[idx].level == null
      ensures price !in contents
    {
      hide Wrap;
      var s := hot.slots[..];
      forall i | 0 <= i < RING_SIZE && s[i].level != null
        ensures s[i].price != price
      {
        assert InFrame(isAsk, hot.anchor, hot.bestPrice, s[i].price, i);
      }
    }

    /** Clears a slot: an empty level goes back to the pool, one with orders goes cold. */
    method Retire(idx: nat)
      requires Structure() && Linked(contents) && idx < RING_SIZE
      modifies this`cold, this`contents, hot`liveMask, hot.slots, pool`freeHead, pool`free, pool.slots`next
      modifies pool.Levels()
      ensures Structure() && Linked(contents) && Sheds(old(contents), contents) && unchanged(pool.Levels())
      ensures |pool.free| >= old(|pool.free|)
      ensures hot.slots[..] == old(hot.slots[..])[idx := VACANT]
      ensures forall p {:trigger p in cold} :: p in cold ==>
        p in old(cold) || (old(hot.slots[idx].level) != null && p == old(hot.slots[idx].price))
      ensures contents ==
        if old(hot.slots[idx].level) != null && old(hot.slots[idx].price in EmptyPrices(contents))
        then old(contents) - {old(hot.slots[idx].price)} else old(contents)
    {
      hide Tiers, Owned, RingBuffer.Valid;
      RingLength();
      VacantSlot(idx);
      if hot.slots[idx].level != null {
        SlotLevel(idx);
        if hot.slots[idx].level.Empty() {
          Drop(idx);
        } else {
          EvictToCold(idx);
        }
      }
    }

    lemma VacantSlot(idx: nat)
      requires hot.Valid() && idx < RING_SIZE
      ensures hot.slots[idx].level == null ==> hot.slots[idx] == VACANT
    {}

    /** Retires a slot whose price lies beyond the window of a better best, as one step of a slide. */
    method RetireOne(idx: nat, ghost price: int, ghost w: Slide, ghost visited: set<nat>)
      requires Structure() && Linked(contents) && Sheds(w.contents, contents) && EmptyPrices(w.contents) == w.empties
      requires Retired(w.slots, visited, w.contents, w.empties, hot.slots[..], contents)
      requires idx < RING_SIZE && hot.slots.Length == RING_SIZE && Beyond(isAsk, price, cold)
      requires hot.slots[idx].level != null ==> RankOf(isAsk, price, hot.slots[idx].price) >= RING_SIZE
      modifies this`cold, this`contents, hot`liveMask, hot.slots, pool`freeHead, pool`free, pool.slots`next
      modifies pool.Levels()
      ensures Structure() && Linked(contents) && Sheds(w.contents, contents) && EmptyPrices(w.contents) == w.empties
      ensures Retired(w.slots, visited + {idx}, w.contents, w.empties, hot.slots[..], contents)
      ensures hot.slots[..] == old(hot.slots[..])[idx := VACANT]
      ensures Beyond(isAsk, price, cold) && unchanged(pool.Levels())
    {
      hide Structure, RingBuffer.Valid, PriceLevelPool.Valid, Linked, Sheds, Retired, EmptyPrices;
      ghost var before, s := contents, hot.slots[..];
      if s[idx].level != null {
        LiveIsListed(idx);
        EmptyKept(w.contents, contents, s[idx].price);
      }
      Retire(idx);
      ShedsChain(w.contents, before, contents);
      RetiredOne(w.slots, visited, w.contents, w.empties, s, before, idx, contents);
    }

    lemma LiveIsListed(idx: nat)
      requires Structure() && idx < RING_SIZE && hot.slots[idx].level != null
      ensures hot.slots[idx].price in contents
    {
      SlotLevel(idx);
    }

    /** Empties the ring for a jump to a price so much better that nothing hot stays in its window. */
    method FlushAllToCold(ghost price: int)
      requires Valid() && Linked(contents) && !NoneLive(hot.slots[..]) && Beyond(isAsk, price, cold)
      requires RankOf(isAsk, hot.bestPrice, price) + RING_SIZE <= 0 && FarSlots(isAsk, price, hot.slots[..])
      modifies this`cold, this`contents, hot`liveMask, hot`bestPrice, hot.slots, pool`freeHead, pool`free
      modifies pool.slots`next
      modifies pool.Levels()
      ensures Structure() && Linked(contents) && Sheds(old(contents), contents) && unchanged(pool.Levels())
      ensures hot.slots.Length == RING_SIZE && NoneLive(hot.slots[..]) && Beyond(isAsk, price, cold)
      ensures contents == old(Slid(isAsk, contents, price))
    {
      hide Structure, RingBuffer.Valid, PriceLevelPool.Valid, Linked, Sheds;
      hide Retired, PricesOf, EmptyPrices, NoneLive, Slid, Framed;
      RingOf();
      SlideAll(price);
      ghost var w := Slide(hot.slots[..], contents, EmptyPrices(contents));
      ShedsNothing(contents);
      RetiredNone(w.slots, contents, w.empties);
      for i := 0 to RING_SIZE
        invariant Structure() && Linked(contents) && Sheds(w.contents, contents) && EmptyPrices(w.contents) == w.empties
        invariant Retired(w.slots, FirstSlots(i), w.contents, w.empties, hot.slots[..], contents)
        invariant hot.slots.Length == RING_SIZE && Beyond(isAsk, price, cold) && unchanged(pool.Levels())
      {
        StillThere(w, FirstSlots(i), hot.slots[..], contents, i);
        RetireOne(i, price, w, FirstSlots(i));
      }
      RetiredAll(w, hot.slots[..], contents);
      ResetRing();
    }

    /** Drops the live bits of a ring without live slots. */
    method ResetRing()
      requires Structure() && NoneLive(hot.slots[..])
      modifies hot`liveMask, hot`bestPrice
      ensures Structure() && hot.slots[..] == old(hot.slots[..])
    {
      hide Tiers, Owned, RingBuffer.Valid;
      NoneLiveSlots();
      hot.Reset();
    }

    lemma NoneLiveSlots()
      requires Structure() && NoneLive(hot.slots[..])
      ensures forall i :: 0 <= i < RING_SIZE ==> hot.slots[i].level == null
    {
      var s := hot.slots[..];
      assert forall i {:trigger hot.slots[i]} :: 0 <= i < RING_SIZE ==> s[i] == hot.slots[i];
    }

    /** Re-centers the ring on a new best price, at a slot that is vacant there. */
    method CenterOn(idx: nat, price: int64) returns (level: PriceLevel)
      requires Structure() && idx < RING_SIZE && hot.slots[idx].level == null
      requires Framed(isAsk, idx, price, hot.slots[..]) && Beyond(isAsk, price, cold)
      requires price !in contents && pool.free != [] && Linked(contents)
      modifies this`contents, hot`liveMask, hot`anchor, hot`bestPrice, hot.slots, pool`freeHead, pool`free
      ensures Valid() && contents == old(contents)[price := level] && contents - {price} == old(contents)
      ensures Linked(contents) && level.queue == []
    {
      hide Tiers, Owned, RingBuffer.Valid, Beyond, NoneLive, InFrame, Framed;
      RingLength();
      CenterFrame(idx, price, hot.slots[..], pool.free[0].level);
      hot.SetAnchor(idx, price);
      level := Materialize(idx, price);
    }

    lemma CenterFrame(idx: nat, price: int64, s: seq<Slot>, level: PriceLevel)
      requires idx < RING_SIZE && Framed(isAsk, idx, price, s)
      ensures Bounded(price) && Framed(isAsk, idx, price, s[idx := Slot(price, level)])
      ensures !NoneLive(s[idx := Slot(price, level)])
    {
      assert s[idx := Slot(price, level)][idx].level != null;
      FrameInsert(isAsk, idx, price, s, idx, price, level);
    }

    /** A price better than the best is in neither tier. */
    lemma BetterIsNew(price: int)
      requires Valid() && !NoneLive(hot.slots[..]) && RankOf(isAsk, hot.bestPrice, price) < 0
      ensures price !in contents
    {
      hide Wrap;
      var s := hot.slots[..];
      forall i | 0 <= i < RING_SIZE && s[i].level != null
        ensures s[i].price != price
      {
        assert InFrame(isAsk, hot.anchor, hot.bestPrice, s[i].price, i);
      }
    }

    lemma RingFacts()
      requires Valid()
      ensures hot.Valid() && hot.isAsk == isAsk && hot.slots.Length == RING_SIZE && hot.anchor < RING_SIZE
      ensures NoneLive(hot.slots[..]) <==> hot.Empty()
      ensures !NoneLive(hot.slots[..]) ==> Bounded(hot.bestPrice)
    {
      var s := hot.slots[..];
      assert forall i {:trigger s[i]} {:trigger hot.slots[i]} :: 0 <= i < RING_SIZE ==> s[i] == hot.slots[i];
    }

    lemma HotRanks(price: int)
      requires Valid() && !NoneLive(hot.slots[..]) && RankOf(isAsk, hot.bestPrice, price) < 0
      ensures Bounded(hot.bestPrice) && hot.isAsk == isAsk && hot.slots.Length == RING_SIZE && hot.anchor < RING_SIZE
      ensures RankOf(isAsk, hot.bestPrice, price) + RING_SIZE <= 0 ==> FarSlots(isAsk, price, hot.slots[..])
      ensures Beyond(isAsk, price, cold)
    {
      var s := hot.slots[..];
      forall i | 0 <= i < RING_SIZE && s[i].level != null
        ensures RankOf(isAsk, hot.bestPrice, s[i].price) >= 0
      {
        assert InFrame(isAsk, hot.anchor, hot.bestPrice, s[i].price, i);
      }
    }

    lemma RingOf()
      requires Structure()
      ensures hot.slots.Length == RING_SIZE && hot.anchor < RING_SIZE && hot.isAsk == isAsk
    {}

    /** Retires the slot k places before the anchor, which a slide of k or more ticks leaves outside. */
    method RetireBehind(k: int, ghost price: int, ghost w: Slide, ghost visited: set<nat>)
      requires Structure() && Linked(contents) && Sheds(w.contents, contents) && EmptyPrices(w.contents) == w.empties
      requires Retired(w.slots, visited, w.contents, w.empties, hot.slots[..], contents)
      requires Framed(isAsk, hot.anchor, hot.bestPrice, hot.slots[..]) && Beyond(isAsk, price, cold)
      requires 1 <= k < RING_SIZE && RankOf(isAsk, hot.bestPrice, price) + k <= 0
      modifies this`cold, this`contents, hot`liveMask, hot.slots, pool`freeHead, pool`free, pool.slots`next
      modifies pool.Levels()
      ensures Structure() && Linked(contents) && Sheds(w.contents, contents) && EmptyPrices(w.contents) == w.empties
      ensures Retired(w.slots, visited + {Behind(hot.anchor, k)}, w.contents, w.empties, hot.slots[..], contents)
      ensures Framed(isAsk, hot.anchor, hot.bestPrice, hot.slots[..]) && Beyond(isAsk, price, cold)
      ensures hot.slots[..] == old(hot.slots[..])[Behind(hot.anchor, k) := VACANT] && unchanged(pool.Levels())
    {
      hide Structure, RingBuffer.Valid, PriceLevelPool.Valid, Framed, InFrame;
      hide Wrap, Behind, Linked, Sheds, Retired, EmptyPrices;
      RingOf();
      BehindIndex(hot.anchor, k);
      var i := WrapIndex(hot.anchor + RING_SIZE, -k);
      ghost var s := hot.slots[..];
      if s[i].level != null {
        BehindRank(isAsk, hot.anchor, hot.bestPrice, s, k);
      }
      FrameVacate(isAsk, hot.anchor, hot.bestPrice, s, i);
      RetireOne(i, price, w, visited);
    }

    /** Retires exactly the d slots before the anchor, whose prices leave the window when the best improves by d. */
    method RetireFarEnd(d: nat, ghost price: int)
      requires Valid() && Linked(contents) && !NoneLive(hot.slots[..]) && Beyond(isAsk, price, cold)
      requires Bounded(price) && 0 < d < RING_SIZE && RankOf(isAsk, hot.bestPrice, price) + d == 0
      modifies this`cold, this`contents, hot`liveMask, hot.slots, pool`freeHead, pool`free, pool.slots`next
      modifies pool.Levels()
      ensures Structure() && Linked(contents) && Sheds(old(contents), contents) && unchanged(pool.Levels())
      ensures Framed(isAsk, Behind(hot.anchor, d), price, hot.slots[..]) && Beyond(isAsk, price, cold)
      ensures Retired(old(hot.slots[..]), FarEnd(hot.anchor, d), old(contents), old(EmptyPrices(contents)),
                      hot.slots[..], contents)
      ensures hot.slots[Behind(hot.anchor, d)].level == null && contents == old(Slid(isAsk, contents, price))
    {
      hide Structure, RingBuffer.Valid, PriceLevelPool.Valid, Framed, InFrame, Wrap, Behind, Linked, Sheds;
      hide Retired, PricesOf, EmptyPrices, FarEnd, NoneLive, Slid;
      RingOf();
      SlideFarEnd(d, price);
      ghost var w := Slide(hot.slots[..], contents, EmptyPrices(contents));
      ShedsNothing(contents);
      RetiredNone(w.slots, contents, w.empties);
      FarEndStarts(hot.anchor);
      for k := 1 to d + 1
        invariant Structure() && Linked(contents) && Sheds(w.contents, contents) && EmptyPrices(w.contents) == w.empties
        invariant Retired(w.slots, FarEnd(hot.anchor, k - 1), w.contents, w.empties, hot.slots[..], contents)
        invariant hot.slots.Length == RING_SIZE && unchanged(pool.Levels())
        invariant Framed(isAsk, hot.anchor, hot.bestPrice, hot.slots[..]) && Beyond(isAsk, price, cold)
      {
        RetireBehind(k, price, w, FarEnd(hot.anchor, k - 1));
        FarEndGrows(hot.anchor, k - 1);
      }
      RetiredFarEnd(w, hot.anchor, d, hot.slots[..], contents);
      RetiredContents(w.slots, FarEnd(hot.anchor, d), w.contents, w.empties, hot.slots[..], contents);
      BehindValue(hot.anchor, d);
      FrameRetreat(isAsk, hot.anchor, hot.bestPrice, hot.slots[..], d, price);
    }

    /**
     * Free levels and contents make up the pool: none is leaked, shared or released twice. So there is a
     * free one exactly when the side has fewer levels than the pool.
     */
    lemma PoolConserved()
      requires Structure()
      ensures |pool.free| + |contents| == |pool.slots|
    {
      PoolCount(pool.slots, pool.owner, pool.free, contents);
    }

    /**
     * A strictly better best: the window slides to it. What falls out of the window with orders goes cold,
     * what falls out without goes back to the pool, before the new level is taken from there.
     */
    method ReanchorTo(price: int64) returns (level: PriceLevel)
      requires Valid() && Linked(contents) && !NoneLive(hot.slots[..]) && Bounded(price)
      requires RankOf(isAsk, hot.bestPrice, price) < 0 && |Slid(isAsk, contents, price)| < |pool.slots|
      modifies this`cold, this`contents, hot, hot.slots, pool`freeHead, pool`free, pool.slots`next
      modifies pool.Levels()
      ensures Valid() && Linked(contents) && unchanged(pool.Levels())
      ensures price !in old(contents) && level.queue == [] && Sheds(old(contents), contents - {price})
      ensures contents == old(Slid(isAsk, contents, price))[price := level]
    {
      hide Structure, Valid, NoneLive, Slid, Linked, Sheds;
      RingFacts();
      var d := -hot.Rank(price);
      if d >= RING_SIZE {
        level := JumpTo(price);
      } else {
        level := SlideTo(price, d);
      }
    }

    /** A price so much better that the whole ring drops out of the window. */
    method JumpTo(price: int64) returns (level: PriceLevel)
      requires Valid() && Linked(contents) && !NoneLive(hot.slots[..]) && Bounded(price)
      requires RankOf(isAsk, hot.bestPrice, price) + RING_SIZE <= 0 && |Slid(isAsk, contents, price)| < |pool.slots|
      modifies this`cold, this`contents, hot, hot.slots, pool`freeHead, pool`free, pool.slots`next
      modifies pool.Levels()
      ensures Valid() && Linked(contents) && unchanged(pool.Levels())
      ensures price !in old(contents) && level.queue == [] && Sheds(old(contents), contents - {price})
      ensures contents == old(Slid(isAsk, contents, price))[price := level]
    {
      hide Tiers, Owned, Structure, RingBuffer.Valid, PriceLevelPool.Valid, Framed, InFrame, Wrap, Beyond, NoneLive;
      hide Slid, PricesOf, FarEnd, FarSlots, EmptyPrices, Linked, Sheds;
      BetterIsNew(price);
      HotRanks(price);
      FlushAllToCold(price);
      FramedEmpty(isAsk, 0, price, hot.slots[..]);
      PoolConserved();
      level := CenterOn(0, price);
    }

    /** A shorter slide: the worst prices of the window are retired, the other slots stay as they are. */
    method SlideTo(price: int64, d: nat) returns (level: PriceLevel)
      requires Valid() && Linked(contents) && !NoneLive(hot.slots[..]) && Bounded(price)
      requires 0 < d < RING_SIZE && RankOf(isAsk, hot.bestPrice, price) + d == 0
      requires |Slid(isAsk, contents, price)| < |pool.slots|
      modifies this`cold, this`contents, hot, hot.slots, pool`freeHead, pool`free, pool.slots`next
      modifies pool.Levels()
      ensures Valid() && Linked(contents) && unchanged(pool.Levels())
      ensures price !in old(contents) && level.queue == [] && Sheds(old(contents), contents - {price})
      ensures contents == old(Slid(isAsk, contents, price))[price := level]
    {
      hide Tiers, Owned, Structure, RingBuffer.Valid, PriceLevelPool.Valid, Framed, InFrame, Wrap, Beyond, NoneLive;
      hide Slid, PricesOf, FarEnd, FarSlots, EmptyPrices, Linked, Sheds, Retired, Behind;
      BetterIsNew(price);
      HotRanks(price);
      var newAnchor := hot.IdxOf(hot.Rank(price));
      BehindValue(hot.anchor, d);
      assert newAnchor == Behind(hot.anchor, d);
      RetireFarEnd(d, price);
      PoolConserved();
      level := CenterOn(newAnchor, price);
    }

    lemma SlideAll(price: int)
      requires Valid() && !NoneLive(hot.slots[..]) && RankOf(isAsk, hot.bestPrice, price) + RING_SIZE <= 0
      ensures contents - (PricesOf(hot.slots[..], FirstSlots(RING_SIZE)) * EmptyPrices(contents))
           == Slid(isAsk, contents, price)
    {
      hide Tiers, Owned, Framed, Beyond, Slid, PricesOf, EmptyPrices, RingBuffer.Valid, PriceLevelPool.Valid;
      BestIsAtAnchor();
      AllLeave(isAsk, hot.anchor, hot.bestPrice, hot.slots[..], cold, contents, price, FirstSlots(RING_SIZE));
      LeavingIsSlid(isAsk, hot.bestPrice, price, hot.slots[..], FirstSlots(RING_SIZE), contents);
    }

    lemma SlideFarEnd(d: nat, price: int)
      requires Valid() && !NoneLive(hot.slots[..]) && 0 < d < RING_SIZE && RankOf(isAsk, hot.bestPrice, price) + d == 0
      ensures contents - (PricesOf(hot.slots[..], FarEnd(hot.anchor, d)) * EmptyPrices(contents))
           == Slid(isAsk, contents, price)
    {
      hide Tiers, Owned, Framed, Beyond, Slid, PricesOf, EmptyPrices, RingBuffer.Valid, PriceLevelPool.Valid;
      BestIsAtAnchor();
      FarEndLeaves(isAsk, hot.anchor, hot.bestPrice, hot.slots[..], cold, contents, price, d);
      LeavingIsSlid(isAsk, hot.bestPrice, price, hot.slots[..], FarEnd(hot.anchor, d), contents);
      assert Behind(hot.anchor, d) in FarEnd(hot.anchor, d);
    }

    /** The window stays where it is unless the price is better than the best. */
    lemma NoSlide(price: int)
      requires Valid()
      ensures NoneLive(hot.slots[..]) || RankOf(isAsk, hot.bestPrice, price) >= 0 ==>
        Slid(isAsk, contents, price) == contents && (|contents| < |pool.slots| ==> pool.free != [])
    {
      hide Structure, NoneLive, Framed, Beyond;
      PoolConserved();
      BestIsAtAnchor();
      if contents != map[] {
        OneBest(isAsk, hot.bestPrice, BestOf(isAsk, contents.Keys), contents.Keys);
      }
    }

    /** The level of a price, created empty if it has none; a better price moves the window. */
    method GetOrCreate(price: int64) returns (level: PriceLevel)
      requires Valid() && Linked(contents) && Bounded(price)
      requires price in contents || |Slid(isAsk, contents, price)| < |pool.slots|
      modifies this`cold, this`contents, hot, hot.slots, pool`freeHead, pool`free, pool.slots`next
      modifies pool.Levels()
      ensures Valid() && Linked(contents) && unchanged(pool.Levels())
      ensures price in contents && level == contents[price]
      ensures price in old(contents) ==> contents == old(contents)
      ensures price !in old(contents) ==> level.queue == [] && Sheds(old(contents), contents - {price})
      ensures price !in old(contents) ==> contents == old(Slid(isAsk, contents, price))[price := level]
      ensures (old(Parented(contents)) ==> Parented(contents))
      ensures Queues(contents) == Created(RingAndCold, isAsk, old(Queues(contents)), price)
      ensures Resting(contents) == old(Resting(contents))
    {
      hide Structure, Valid, Linked, Parented, Sheds, Slid, Queues, Kept, Shown, PriceLevel.Valid;
      hide PriceLevelPool.Levels, RankOf, Bounded;
      ghost var before, left := contents, Slid(isAsk, contents, price);
      ghost var queues, queuesLeft := Queues(before), Queues(left);
      QueuesKeys(contents);
      SlidQueues(isAsk, contents, price);
      CreatedUnseen(RingAndCold, isAsk, queues, price);
      level := Locate(price);
      assert Queues(before) == queues && Queues(left) == queuesLeft;
      QueuesGrow(left, price, level);
      if old(Parented(contents)) {
        OneLevelEach();
        CreationParented(before, contents, price);
      }
    }

    /** The three cases of a price: in an empty ring, in the window or better than it, or beyond it. */
    method Locate(price: int64) returns (level: PriceLevel)
      requires Valid() && Linked(contents) && Bounded(price)
      requires price in contents || |Slid(isAsk, contents, price)| < |pool.slots|
      modifies this`cold, this`contents, hot, hot.slots, pool`freeHead, pool`free, pool.slots`next
      modifies pool.Levels()
      ensures Valid() && Linked(contents) && unchanged(pool.Levels())
      ensures price in contents && level == contents[price]
      ensures price in old(contents) ==> contents == old(contents)
      ensures price !in old(contents) ==> level.queue == [] && Sheds(old(contents), contents - {price})
      ensures price !in old(contents) ==> contents == old(Slid(isAsk, contents, price))[price := level]
    {
      hide Tiers, Owned, Structure, RingBuffer.Valid, PriceLevelPool.Valid, Framed, InFrame, Wrap, Beyond, NoneLive;
      hide Slid, Linked, Sheds;
      ghost var before := contents;
      RingFacts();
      if hot.Empty() {
        NoSlide(price);
        StartsEmpty(price);
        level := CenterOn(0, price);
        AddedAlone(before, contents, price, level);
        return;
      }
      var r := hot.Rank(price);
      if InWindow(r) {
        NoSlide(price);
        level := HotGetOrCreate(price);
        AddedAlone(before, contents, price, level);
      } else if r < 0 {
        BetterIsNew(price);
        level := ReanchorTo(price);
      } else {
        NoSlide(price);
        level := ColdGetOrCreate(price);
        AddedAlone(before, contents, price, level);
      }
    }

    /** A price in the window: the level in its slot, or a new one in the vacant slot. */
    method HotGetOrCreate(price: int64) returns (level: PriceLevel)
      requires Valid() && Linked(contents) && !NoneLive(hot.slots[..]) && Bounded(price)
      requires 0 <= RankOf(isAsk, hot.bestPrice, price) < RING_SIZE && (price in contents || pool.free != [])
      modifies this`contents, hot`liveMask, hot.slots, pool`freeHead, pool`free
      ensures Valid() && Linked(contents) && price in contents && level == contents[price]
      ensures price in old(contents) ==> contents == old(contents)
      ensures price !in old(contents) ==> contents == old(contents)[price := level] && level.queue == []
    {
      hide Tiers, Owned, Structure, RingBuffer.Valid, PriceLevelPool.Valid;
      hide Framed, InFrame, Wrap, Beyond, NoneLive, Linked;
      RingFacts();
      SlotInWindow(price);
      var idx := hot.IdxOf(hot.Rank(price));
      if hot.slots[idx].price == price {
        level := hot.slots[idx].level;
      } else {
        level := MaterializeInWindow(idx, price);
      }
    }

    /** Moves the level of a cold price into a vacant slot. */
    method MoveFromCold(idx: nat, p: int64)
      requires Structure() && idx < RING_SIZE && hot.slots[idx].level == null && p in cold
      modifies this`cold, hot`liveMask, hot.slots
      ensures Structure() && cold == old(cold) - {p}
      ensures hot.slots[..] == old(hot.slots[..])[idx := Slot(p, old(cold)[p])]
    {
      hide Owned, RingBuffer.Valid;
      RingLength();
      TiersPromote(hot.slots[..], cold, contents, idx, p);
      hot.Insert(idx, p, cold[p]);
      cold := cold - {p};
    }

    /** Moves the most aggressive cold price, which fits the window, into its slot. */
    method PromoteCold(ghost p: int)
      requires Structure() && Linked(contents) && Anchored() && cold != map[]
      requires p == BestOf(isAsk, cold.Keys) && RankOf(isAsk, hot.bestPrice, p) < RING_SIZE
      modifies this`cold, hot`liveMask, hot.slots
      ensures Structure() && Linked(contents) && Anchored() && cold == old(cold) - {p}
    {
      hide Owned, Tiers, RingBuffer.Valid, Wrap;
      RingLength();
      ColdTarget(p);
      var price := BestOf(isAsk, cold.Keys);
      var idx := hot.IdxOf(hot.Rank(price));
      FrameInsert(isAsk, hot.anchor, hot.bestPrice, hot.slots[..], idx, price, cold[price]);
      MoveFromCold(idx, price);
    }

    /** The slot of a cold price that fits the window is vacant. */
    lemma ColdTarget(p: int)
      requires Structure() && p in cold
      requires Framed(isAsk, hot.anchor, hot.bestPrice, hot.slots[..])
      requires 0 <= RankOf(isAsk, hot.bestPrice, p) < RING_SIZE
      ensures Bounded(p) && hot.slots[Wrap(hot.anchor + RankOf(isAsk, hot.bestPrice, p))].level == null
      ensures InFrame(isAsk, hot.anchor, hot.bestPrice, p, Wrap(hot.anchor + RankOf(isAsk, hot.bestPrice, p)))
    {
      hide Wrap;
      var idx := Wrap(hot.anchor + RankOf(isAsk, hot.bestPrice, p));
      if hot.slots[idx].level != null {
        FrameVacancy(isAsk, hot.anchor, hot.bestPrice, hot.slots[..], p);
        SlotLevel(idx);
      }
    }

    /** Promotes every cold price that fits the moved window. */
    method PromoteAll()
      requires Structure() && Anchored() && Linked(contents)
      modifies this`cold, hot`liveMask, hot.slots
      ensures Valid() && Linked(contents)
    {
      hide Structure, Linked, Anchored;
      while cold != map[]
        invariant Structure() && Anchored() && Linked(contents)
        decreases |cold|
      {
        var p := BestOf(isAsk, cold.Keys);
        ColdIsWorse(p);
        if !InWindow(hot.Rank(p)) {
          break;
        }
        PromoteCold(p);
      }
      WindowClosed();
    }

    lemma ColdBounded(p: int)
      requires Structure() && p in cold
      ensures Bounded(p)
    {}

    lemma ColdIsWorse(p: int)
      requires Structure() && Anchored() && p in cold
      ensures Bounded(p) && Bounded(hot.bestPrice) && hot.isAsk == isAsk && RankOf(isAsk, hot.bestPrice, p) > 0
    {}

    lemma WindowClosed()
      requires Structure() && Anchored()
      requires cold == map[] || RankOf(isAsk, hot.bestPrice, BestOf(isAsk, cold.Keys)) >= RING_SIZE
      ensures Valid()
    {
      hide Tiers, Owned, RingBuffer.Valid, PriceLevelPool.Valid, Framed;
      RingLength();
    }

    /** Erases the drained best level and every empty level met before the next one with orders, or the cold tier. */
    method EraseBest()
      requires Valid() && Linked(contents) && !NoneLive(hot.slots[..]) && hot.slots[hot.anchor].level.queue == []
      modifies this`cold, this`contents, hot, hot.slots, pool`freeHead, pool`free, pool.slots`next
      modifies pool.Levels()
      ensures Valid() && Linked(contents) && Sheds(old(contents), contents) && unchanged(pool.Levels())
      ensures LeadingRemoved(isAsk, old(hot.bestPrice), old(contents), contents)
      ensures Queues(contents) == Erased(RingAndCold, isAsk, old(Queues(contents)))
      ensures Resting(contents) == old(Resting(contents)) && (old(Parented(contents)) ==> Parented(contents))
    {
      hide Structure, RingBuffer.Valid, Framed, LeadingRemoved, Anchored;
      hide Linked, Sheds, Parented, Queues, Shown, Erased;
      ghost var before, best := contents, hot.bestPrice;
      BestIsAtAnchor();
      var found := DropLeading();
      if found {
        PromoteAll();
      }
      LeadingQueues(isAsk, best, before, contents);
      ShedsKeepsResting(before, contents);
      if old(Parented(contents)) {
        ShedsKeepsParented(before, contents);
      }
    }

    /** Releases the drained best level and walks to the next best. */
    method DropLeading() returns (found: bool)
      requires Valid() && Linked(contents) && !NoneLive(hot.slots[..]) && hot.slots[hot.anchor].level.queue == []
      modifies this`cold, this`contents, hot, hot.slots, pool`freeHead, pool`free, pool.slots`next
      modifies pool.Levels()
      ensures Structure() && Linked(contents) && Sheds(old(contents), contents) && unchanged(pool.Levels())
      ensures LeadingRemoved(isAsk, old(hot.bestPrice), old(contents), contents)
      ensures if found then Anchored() else cold == map[] && NoneLive(hot.slots[..])
    {
      hide Owned, Tiers, RingBuffer.Valid, Wrap, Framed, LeadingRemoved, Anchored;
      RingFacts();
      BestIsAtAnchor();
      WalkStarts(hot.anchor, hot.bestPrice, hot.slots[..], cold, contents);
      ghost var walk := Walk(isAsk, hot.anchor, hot.bestPrice, contents);
      Drop(hot.anchor);
      found := Advance(walk);
    }

    lemma WalkStarts(anchor: nat, best: int, s: seq<Slot>, cold: LevelMap, contents: LevelMap)
      requires Framed(isAsk, anchor, best, s) && s[anchor].level != null
      requires Beyond(isAsk, best, cold) && Tiers(s, cold, contents)
      ensures Walked(Walk(isAsk, anchor, best, contents), s[anchor := VACANT], anchor, best, cold, contents - {best})
    {
      hide Wrap;
      FrameVacate(isAsk, anchor, best, s, anchor);
      forall p | p in contents && p != best
        ensures RankOf(isAsk, best, p) > 0
      {
        if p !in cold {
          var i :| 0 <= i < |s| && s[i].level != null && s[i].price == p;
          assert InFrame(isAsk, anchor, best, p, i);
        }
      }
    }

    lemma NextLiveFacts(off: int)
      requires hot.Valid() && off == hot.NextLive()
      ensures hot.slots.Length == RING_SIZE && hot.anchor < RING_SIZE
      ensures var s := hot.slots[..];
        if off < 0 then NoneLive(s) else
        && off < RING_SIZE && s[Wrap(hot.anchor + off)].level != null
        && forall i {:trigger s[i]} :: 0 <= i < RING_SIZE && s[i].level != null ==> off <= OffsetOf(hot.anchor, i)
    {
      hide Wrap, OffsetOf, RingBuffer.NextLive;
    }

    /** With an empty ring: the best cold level becomes the anchor, or the side is empty. */
    method PullFromCold() returns (found: bool)
      requires Structure() && NoneLive(hot.slots[..])
      modifies this`cold, hot, hot.slots
      ensures Structure() && found == (old(cold) != map[])
      ensures !found ==> cold == map[] && NoneLive(hot.slots[..])
      ensures found ==> Anchored()
    {
      hide Owned, Tiers, RingBuffer.Valid, Wrap, Framed;
      RingLength();
      if cold == map[] {
        hot.Reset();
        return false;
      }
      var p := BestOf(isAsk, cold.Keys);
      ColdBounded(p);
      FramedEmpty(isAsk, 0, p, hot.slots[..]);
      CenterFrame(0, p, hot.slots[..], cold[p]);
      hot.SetAnchor(0, p);
      MoveFromCold(0, p);
      return true;
    }

    /** The next live slot becomes the anchor; an empty level there is released and the walk goes on. */
    method AdvanceTo(off: nat, ghost w: Walk) returns (stop: bool)
      requires Structure() && Linked(contents) && Sheds(w.contents, contents) && w.isAsk == isAsk
      requires Walked(w, hot.slots[..], hot.anchor, hot.bestPrice, cold, contents) && off == hot.NextLive()
      modifies this`contents, hot`liveMask, hot`anchor, hot`bestPrice, hot.slots, pool`freeHead, pool`free
      modifies pool.slots`next
      modifies pool.Levels()
      ensures Structure() && Linked(contents) && Sheds(w.contents, contents) && unchanged(pool.Levels())
      ensures !stop ==> Walked(w, hot.slots[..], hot.anchor, hot.bestPrice, cold, contents)
      ensures !stop ==> |contents| < old(|contents|)
      ensures stop ==> LeadingRemoved(isAsk, w.best, w.contents, contents) && Anchored()
    {
      hide Structure, RingBuffer.Valid, RingBuffer.NextLive, PriceLevelPool.Valid, Wrap;
      hide Framed, Walked, LeadingRemoved, Sheds, Linked, PriceLevel.Valid;
      Arrival(off, w);
      var idx := WrapIndex(hot.anchor, off);
      ghost var s, price := hot.slots[..], hot.slots[idx].price;
      assert Walked(w, s[idx := VACANT], idx, price, cold, contents - {price});
      AnchorAt(idx, hot.slots[idx].price);
      stop := !hot.slots[idx].level.Empty();
      if !stop {
        ghost var before := contents;
        DropMore(idx, w.contents);
        assert hot.slots[..] == s[idx := VACANT] && contents == before - {price};
      }
    }

    /** Drops one more empty level of those an earlier side had. */
    method DropMore(idx: nat, ghost earlier: LevelMap)
      requires Structure() && Linked(contents) && idx < RING_SIZE && hot.slots[idx].level != null
      requires hot.slots[idx].level.queue == [] && Sheds(earlier, contents)
      modifies this`contents, hot`liveMask, hot.slots, pool`freeHead, pool`free, pool.slots`next
      modifies pool.Levels()
      ensures Structure() && Linked(contents) && Sheds(earlier, contents) && unchanged(pool.Levels())
      ensures contents == old(contents) - {old(hot.slots[idx].price)} && |contents| < old(|contents|)
      ensures hot.slots[..] == old(hot.slots[..])[idx := VACANT]
    {
      hide Structure, Linked, PriceLevel.Valid;
      ghost var before := contents;
      Drop(idx);
      ShedsChain(earlier, before, contents);
    }

    /** What is known of the next live slot before the anchor moves there. */
    lemma Arrival(off: nat, w: Walk)
      requires Structure() && Linked(contents) && Sheds(w.contents, contents) && w.isAsk == isAsk
      requires Walked(w, hot.slots[..], hot.anchor, hot.bestPrice, cold, contents) && off == hot.NextLive()
      ensures hot.slots.Length == RING_SIZE
      ensures var idx := Wrap(hot.anchor + off); var price, level := hot.slots[idx].price, hot.slots[idx].level;
        && level != null && level in pool.Levels() && level.Valid() && price in contents
        && Walked(w, hot.slots[..][idx := VACANT], idx, price, cold, contents - {price})
        && Framed(isAsk, idx, price, hot.slots[..]) && (forall p {:trigger p in cold} :: p in cold ==>
          RankOf(isAsk, price, p) > 0)
        && (level.queue != [] ==> LeadingRemoved(isAsk, w.best, w.contents, contents))
    {
      hide Owned, Tiers, RingBuffer.Valid, RingBuffer.NextLive, NoneLive;
      hide Wrap, Framed, Walked, LeadingRemoved, PriceLevel.Valid;
      NextLiveFacts(off);
      WalkStep(w, hot.slots[..], hot.anchor, hot.bestPrice, cold, contents, off);
      var idx := Wrap(hot.anchor + off);
      SlotLevel(idx);
      if hot.slots[idx].level.queue != [] {
        LeadingGone(w, contents, RankOf(isAsk, w.best, hot.slots[idx].price) - 1, hot.slots[idx].price);
      }
    }

    lemma RingParts()
      requires Structure()
      ensures hot.Valid()
    {}

    /** With no slot live, the walk has removed exactly the leading prices. */
    lemma RingDrained(off: int, w: Walk)
      requires Structure() && Sheds(w.contents, contents) && w.isAsk == isAsk
      requires Walked(w, hot.slots[..], hot.anchor, hot.bestPrice, cold, contents) && off == hot.NextLive() && off < 0
      ensures NoneLive(hot.slots[..]) && LeadingRemoved(isAsk, w.best, w.contents, contents)
    {
      hide Tiers, Owned, NoneLive, RingBuffer.Valid, Walked, LeadingRemoved;
      NextLiveFacts(off);
      WalkOver(w, hot.slots[..], hot.anchor, hot.bestPrice, cold, contents);
    }

    /** Walks toward worse prices, releasing empty levels, to one with orders or to the best cold level. */
    method Advance(ghost w: Walk) returns (found: bool)
      requires Structure() && Linked(contents) && Sheds(w.contents, contents) && w.isAsk == isAsk
      requires Walked(w, hot.slots[..], hot.anchor, hot.bestPrice, cold, contents)
      modifies this`cold, this`contents, hot, hot.slots, pool`freeHead, pool`free, pool.slots`next
      modifies pool.Levels()
      ensures Structure() && Linked(contents) && Sheds(w.contents, contents) && unchanged(pool.Levels())
      ensures LeadingRemoved(isAsk, w.best, w.contents, contents)
      ensures if found then Anchored() else cold == map[] && NoneLive(hot.slots[..])
    {
      hide Structure, RingBuffer.Valid, RingBuffer.NextLive, Wrap, Framed;
      hide Walked, LeadingRemoved, Anchored, Linked, Sheds;
      while true
        invariant Structure() && Linked(contents) && Sheds(w.contents, contents) && unchanged(pool.Levels())
        invariant Walked(w, hot.slots[..], hot.anchor, hot.bestPrice, cold, contents)
        decreases |contents|
      {
        RingParts();
        var off := hot.NextLive();
        if off < 0 {
          RingDrained(off, w);
          found := PullFromCold();
          return;
        }
        var stop := AdvanceTo(off, w);
        if stop {
          return true;
        }
      }
    }

    // ---------- the side as a map of queues ----------

    /** What the outer matching loop comes to while nothing rests at the best: the true best emerges. */
    method SkipGhosts()
      requires Valid() && Linked(contents) && Parented(contents)
      modifies this`cold, this`contents, hot, hot.slots, pool`freeHead, pool`free, pool.slots`next, pool.Levels()
      ensures Valid() && Linked(contents) && Parented(contents) && Resting(contents) == old(Resting(contents))
      ensures Queues(contents) == Skipped(RingAndCold, isAsk, old(Queues(contents)))
      ensures unchanged(pool.Levels()) && Sheds(old(contents), contents)
      ensures Resting(contents) == map[] <==> contents == map[]
      ensures contents != map[] ==> BestPrice() == BestOf(isAsk, Resting(contents).Keys)
    {
      hide Structure, Parented, Sheds, Queues, Shown, Skipped, NoneLive, PriceLevel.Valid;
      ghost var queues := Queues(contents);
      SkippedUnseen(RingAndCold, isAsk, queues);
      ShedsNothing(contents);
      while !Empty() && BestLevel().Empty()
        invariant Valid() && Linked(contents) && Parented(contents) && unchanged(pool.Levels())
        invariant Skipped(RingAndCold, isAsk, Queues(contents)) == Skipped(RingAndCold, isAsk, queues)
        invariant Sheds(old(contents), contents)
        decreases |contents|
      {
        ghost var before := contents;
        EraseGhost();
        ShedsChain(old(contents), before, contents);
      }
      GhostAtBest();
      BestRests(isAsk, contents);
    }

    /** Erasing a ghost best makes the side smaller and does not change where skipping ends. */
    method EraseGhost()
      requires Valid() && Linked(contents) && Parented(contents) && contents != map[] && BestLevel().queue == []
      modifies this`cold, this`contents, hot, hot.slots, pool`freeHead, pool`free, pool.slots`next, pool.Levels()
      ensures Valid() && Linked(contents) && Parented(contents) && unchanged(pool.Levels())
      ensures Sheds(old(contents), contents) && |contents| < old(|contents|)
      ensures Skipped(RingAndCold, isAsk, Queues(contents)) == Skipped(RingAndCold, isAsk, old(Queues(contents)))
    {
      hide Structure, Linked, Parented, LeadingRemoved, Sheds, Queues, Shown, Erased, Skipped, GhostBest, NoneLive;
      BestIsAtAnchor();
      GhostAtBest();
      ghost var best, before := hot.bestPrice, contents;
      EraseBest();
      BestIsShed(isAsk, best, before, contents);
    }

    /** Erasing once does not change where skipping ends. */
    ghost predicate EraseGoesOn(q: QueueMap<Order>) {
      Skipped(RingAndCold, isAsk, q) == Skipped(RingAndCold, isAsk, Erased(RingAndCold, isAsk, q))
    }

    /** Skipping goes on while the best level is empty. */
    lemma GhostAtBest()
      requires Valid()
      ensures contents == map[] || BestLevel().queue != [] ==>
        Skipped(RingAndCold, isAsk, Queues(contents)) == Queues(contents)
      ensures contents != map[] && BestLevel().queue == [] ==> EraseGoesOn(Queues(contents))
      ensures contents != map[] ==> BestPrice() == BestOf(isAsk, contents.Keys)
      ensures GhostBest(isAsk, Queues(contents)) <==> contents != map[] && BestLevel().queue == []
    {
      hide Structure, Queues, Erased, NoneLive;
      QueuesKeys(contents);
      SkippedUnfold(RingAndCold, isAsk, Queues(contents));
      if contents != map[] {
        OneBest(isAsk, BestPrice(), BestOf(isAsk, contents.Keys), contents.Keys);
      }
    }

    /** Rests an order: only the queue of its price changes, whichever tier the price is in. */
    method Rest(price: int64, o: Order) returns (level: PriceLevel)
      requires Valid() && Linked(contents) && Parented(contents) && Bounded(price)
      requires price in contents || |Slid(isAsk, contents, price)| < |pool.slots|
      requires Absent(o, contents)
      modifies this`cold, this`contents, hot, hot.slots, pool`freeHead, pool`free, pool.slots`next, pool.Levels()
      modifies o`prev, o`next, o`parentLevel, (if price in contents then contents[price].queue else [])`next
      ensures Valid() && Linked(contents) && Parented(contents)
      ensures price in contents && level == contents[price]
      ensures contents ==
        if price in old(contents) then old(contents) else old(Slid(isAsk, contents, price))[price := level]
      ensures Queues(contents) == Step(RingAndCold, isAsk, old(Queues(contents)), SideRequest.Rest(price, o))
      ensures Resting(contents) == WithQueue(old(Resting(contents)), price, At(old(Resting(contents)), price) + [o])
    {
      hide Structure, Valid, Linked, Parented, Absent, Sheds, Resting, Queues, Slid, Created;
      hide WithQueue, At, PriceLevel.Valid, PriceLevelPool.Levels, RankOf, Bounded;
      ghost var before := contents;
      level := GetOrCreate(price);
      LevelInUse(price);
      StillAbsent(before, contents, price, o);
      QueueOf(contents, price);
      Push(price, level, o);
    }

    /** Links an order into a level of this side from outside, as the order book does. */
    method Push(ghost price: int, level: PriceLevel, o: Order)
      requires Valid() && Linked(contents) && Parented(contents) && price in contents && contents[price] == level
      requires Absent(o, contents)
      modifies level, o`prev, o`next, o`parentLevel, level.queue`next
      ensures Valid() && Linked(contents) && Parented(contents)
      ensures Queues(contents) == old(Queues(contents))[price := old(level.queue) + [o]]
      ensures Resting(contents) == WithQueue(old(Resting(contents)), price, At(old(Resting(contents)), price) + [o])
    {
      hide Linked, Parented, Tiers, Owned, Framed, NoneLive, RingBuffer.Valid;
      LevelInUse(price);
      PushOn(contents, price, level, o);
    }

    /** Unlinks an order from a level of this side from outside. */
    method Unlink(ghost price: int, level: PriceLevel, o: Order, ghost k: nat)
      requires Valid() && Linked(contents) && Parented(contents) && price in contents && contents[price] == level
      requires k < |level.queue| && level.queue[k] == o
      modifies level, level.queue`prev, level.queue`next
      ensures Valid() && Linked(contents) && Parented(contents)
      ensures Queues(contents) == old(Queues(contents))[price := Without(old(level.queue), k)]
      ensures Resting(contents) == WithQueue(old(Resting(contents)), price, Without(old(Resting(contents))[price], k))
    {
      hide Linked, Parented, Tiers, Owned, Framed, NoneLive, RingBuffer.Valid;
      LevelInUse(price);
      EraseFrom(contents, price, level, o, k);
    }

    lemma LegitimatePrice(price: int)
      requires Valid() && price in contents
      ensures Bounded(price)
    {}

    lemma OneLevelEach()
      requires Valid()
      ensures forall p, q {:trigger contents[p], contents[q]} ::
        p in contents && q in contents && contents[p] == contents[q] ==> p == q
    {}

    /** The level of a price is no free one. */
    lemma LevelInUse(price: int)
      requires Valid() && price in contents
      ensures contents[price] in pool.Levels()
      ensures forall i {:trigger pool.free[i]} :: 0 <= i < |pool.free| ==> pool.free[i].level != contents[price]
    {
      assert forall i {:trigger pool.free[i]} :: 0 <= i < |pool.free| ==> pool.free[i] in pool.free;
    }

    constructor (isAsk: bool, capacity: nat)
      ensures Valid() && contents == map[] && this.isAsk == isAsk && |pool.slots| == capacity
      ensures Linked(contents) && Parented(contents)
      ensures fresh(hot) && fresh(hot.slots) && fresh(pool) && fresh(pool.slots) && fresh(pool.Levels())
    {
      this.isAsk := isAsk;
      hot := new RingBuffer(isAsk);
      pool := new PriceLevelPool(capacity);
      cold, contents := map[], map[];
    }
  }
}
