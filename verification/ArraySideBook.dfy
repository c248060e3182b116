/** One side of the book: a price level per index, the active indices, and the cached best one. */
module ArraySideBooks {
  import opened Sequences
  import opened Types
  import opened PriceLevels
  import opened OccupancyTrees

  class ArraySideBook {
    const isAsk: bool
    const basePrice: int64
    const levels: seq<PriceLevel>
    const tree: OccupancyTree

    var bestIdx: nat
    var hasBest: bool

    /** Sizes and price range, fixed at construction. */
    ghost predicate Sized() {
      |levels| == PRICE_COUNT && basePrice + PRICE_COUNT <= 0x7FFF_FFFF_FFFF_FFFF
    }

    /** The cached best is the most aggressive active index, ghosts included. */
    ghost predicate Valid()
      reads this, tree, tree.words
    {
      && Sized()
      && tree.Valid()
      && (forall i :: i in tree.members ==> i < PRICE_COUNT)
      && (hasBest <==> tree.members != {})
      && (hasBest ==> IsBest(isAsk, bestIdx, tree.members))
    }

    /** The indices whose levels hold orders. */
    ghost function Live(): (live: set<int>)
      reads levels
    {
      set i | 0 <= i < |levels| && levels[i].queue != []
    }

    /** Every level with resting orders is active; an active level without any is a ghost. */
    ghost predicate Covers()
      reads this, tree, levels
    {
      Live() <= tree.members
    }

    constructor (isAsk: bool, basePrice: int64)
      requires basePrice + PRICE_COUNT <= 0x7FFF_FFFF_FFFF_FFFF
      ensures Valid() && Sized() && Covers() && tree.members == {}
      ensures this.isAsk == isAsk && this.basePrice == basePrice
      ensures fresh(levels) && fresh(tree) && fresh(tree.words) && Distinct(levels)
      ensures forall i {:trigger levels[i]} :: 0 <= i < |levels| ==> levels[i].Valid() && levels[i].queue == []
    {
      var built: seq<PriceLevel> := [];
      while |built| < PRICE_COUNT
        invariant |built| <= PRICE_COUNT && fresh(built) && Distinct(built)
        invariant forall i {:trigger built[i]} :: 0 <= i < |built| ==> built[i].Valid() && built[i].queue == []
      {
        var level := new PriceLevel();
        built := built + [level];
      }
      this.isAsk := isAsk;
      this.basePrice := basePrice;
      levels := built;
      tree := new OccupancyTree();
      bestIdx := 0;
      hasBest := false;
    }

    function IdxOf(price: int64): (i: nat)
      requires Sized() && basePrice <= price < basePrice + PRICE_COUNT
      ensures i < PRICE_COUNT && basePrice + i == price
    {
      price - basePrice
    }

    function PriceOf(i: nat): (price: int64)
      requires Sized() && i < PRICE_COUNT
      ensures basePrice <= price < basePrice + PRICE_COUNT && IdxOf(price) == i
    {
      basePrice + i
    }

    predicate Empty()
      reads this
    {
      !hasBest
    }

    function BestPrice(): int64
      requires Valid() && hasBest
      reads this, tree, tree.words
    {
      PriceOf(bestIdx)
    }

    function BestLevel(): PriceLevel
      requires Valid() && hasBest
      reads this, tree, tree.words
    {
      levels[bestIdx]
    }

    /** Activates the level of a price and hands it out. */
    method GetOrCreate(price: int64) returns (level: PriceLevel)
      requires Valid() && basePrice <= price < basePrice + PRICE_COUNT
      modifies this, tree, tree.words
      ensures Valid() && level == levels[IdxOf(price)]
      ensures tree.members == old(tree.members) + {IdxOf(price)}
      ensures old(Covers()) ==> Covers()
    {
      hide Represents;
      var idx := IdxOf(price);
      tree.Set(idx);
      if !hasBest || Better(isAsk, idx, bestIdx) {
        bestIdx := idx;
        hasBest := true;
      }
      level := levels[idx];
    }

    /** The cached best is the best of the levels holding orders; there is none when no level holds any. */
    ghost predicate BestIsLive()
      reads this, levels
    {
      if hasBest then IsBest(isAsk, bestIdx, Live()) else Live() == {}
    }

    /**
     * Retires the drained best level and every ghost behind it, so that the new best level is the best
     * one holding orders. Only empty levels lose their bit, and exactly those better than the new best.
     */
    method EraseBest()
      requires Valid() && Covers() && hasBest && levels[bestIdx].queue == []
      requires forall i {:trigger levels[i]} :: 0 <= i < |levels| ==> levels[i].Valid()
      modifies this, tree, tree.words
      ensures Valid() && Covers() && BestIsLive() && Live() == old(Live())
      ensures tree.members < old(tree.members)
      ensures forall i {:trigger levels[i].queue} :: i in old(tree.members) && i !in tree.members ==>
        levels[i].queue == []
      ensures hasBest ==> forall i :: i in old(tree.members) && i !in tree.members ==> Better(isAsk, i, bestIdx)
    {
      hide OccupancyTree.NextBest, OccupancyTree.Empty, Represents;
      tree.Clear(bestIdx);
      if tree.Empty() {
        hasBest := false;
        return;
      }
      bestIdx := tree.NextBest(isAsk, bestIdx);
      ClearGhostBestLevel();
    }

    method ClearGhostBestLevel()
      requires Valid() && Covers() && hasBest
      requires forall i {:trigger levels[i]} :: 0 <= i < |levels| ==> levels[i].Valid()
      modifies this, tree, tree.words
      ensures Valid() && Covers() && BestIsLive() && Live() == old(Live())
      ensures tree.members <= old(tree.members)
      ensures forall i {:trigger levels[i].queue} :: i in old(tree.members) && i !in tree.members ==>
        levels[i].queue == []
      ensures hasBest ==> forall i :: i in old(tree.members) && i !in tree.members ==> Better(isAsk, i, bestIdx)
    {
      hide OccupancyTree.NextBest, OccupancyTree.Empty, Represents;
      while hasBest && levels[bestIdx].Empty()
        invariant Valid() && Covers() && Live() == old(Live())
        invariant tree.members <= old(tree.members)
        invariant forall i {:trigger levels[i].queue} :: i in old(tree.members) && i !in tree.members ==>
          levels[i].queue == []
        invariant hasBest ==> forall i :: i in old(tree.members) && i !in tree.members ==> Better(isAsk, i, bestIdx)
        decreases tree.members, hasBest
      {
        tree.Clear(bestIdx);
        if tree.Empty() {
          hasBest := false;
          return;
        }
        bestIdx := tree.NextBest(isAsk, bestIdx);
      }
    }
  }
}
