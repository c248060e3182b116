/** What every side book is a view of: one first-in first-out level a price; and the plain ordered map itself. */
module SideBooks {
  import opened PriceLevels
  import opened Sequences
  import opened SideModel
  import opened Types

  type LevelMap = map<int, PriceLevel>

  /** All levels of a map are well linked. */
  ghost predicate Linked(m: LevelMap)
    reads set p | p in m :: m[p]
    reads set p, k | p in m && 0 <= k < |m[p].queue| :: m[p].queue[k]
  {
    forall p {:trigger m[p]} :: p in m ==> m[p].Valid()
  }

  /** No two prices share a level, and every order knows the level it rests on. */
  ghost predicate Parented(m: LevelMap)
    reads set p | p in m :: m[p]
    reads set p, k | p in m && 0 <= k < |m[p].queue| :: m[p].queue[k]
  {
    && (forall p, q {:trigger m[p], m[q]} :: p in m && q in m && m[p] == m[q] ==> p == q)
    && (forall p, k {:trigger m[p].queue[k]} :: p in m && 0 <= k < |m[p].queue| ==> m[p].queue[k].parentLevel == m[p])
  }

  /** The queue of every price that has a level. */
  ghost function Queues(m: LevelMap): QueueMap<Order>
    reads m.Values
  {
    map p | p in m :: m[p].queue
  }

  /** The orders resting at each price; levels without orders do not show. */
  ghost function Resting(m: LevelMap): QueueMap<Order>
    reads m.Values
  {
    Shown(Queues(m))
  }

  lemma QueuesGrow(m: LevelMap, price: int, level: PriceLevel)
    ensures Queues(m[price := level]) == Queues(m)[price := level.queue]
  {}

  lemma QueuesShrink(m: LevelMap, price: int)
    ensures Queues(m - {price}) == Queues(m) - {price}
  {}

  lemma QueuesKeys(m: LevelMap)
    ensures Queues(m).Keys == m.Keys && forall p {:trigger m[p]} :: p in m ==> Queues(m)[p] == m[p].queue
  {}

  lemma QueueOf(m: LevelMap, price: int)
    requires price in m
    ensures price in Queues(m) && Queues(m)[price] == m[price].queue
  {}

  /** Going from one map to another loses only levels without orders, and changes no level. */
  ghost predicate Sheds(before: LevelMap, after: LevelMap)
    reads before.Values
  {
    && (forall p {:trigger p in after} :: p in after ==> p in before && after[p] == before[p])
    && (forall p {:trigger p in before} :: p in before && p !in after ==> before[p].queue == [])
  }

  lemma ShedsNothing(m: LevelMap)
    ensures Sheds(m, m)
  {}

  /** Dropping one empty level sheds it and makes the map smaller. */
  lemma ShedOne(m: LevelMap, price: int)
    requires price in m && m[price].queue == []
    ensures Sheds(m, m - {price}) && |m - {price}| < |m|
  {
    Smaller(m, m - {price}, price);
  }

  lemma LevelOf(m: LevelMap, price: int)
    requires Linked(m) && price in m
    ensures m[price].Valid()
  {}

  lemma LinkedFewer(m: LevelMap, price: int)
    requires Linked(m)
    ensures Linked(m - {price})
  {
    hide PriceLevel.Valid;
    assert forall p {:trigger (m - {price})[p]} :: p in m - {price} ==> (m - {price})[p] == m[p];
  }

  lemma ParentedFewer(m: LevelMap, price: int)
    requires Parented(m)
    ensures Parented(m - {price})
  {}

  lemma ShedsChain(a: LevelMap, b: LevelMap, c: LevelMap)
    requires Sheds(a, b) && Sheds(b, c)
    ensures Sheds(a, c)
  {}

  /** Shedding is not observable through the resting orders, and keeps the level of every price that has some. */
  lemma ShedsKeepsResting(before: LevelMap, after: LevelMap)
    requires Sheds(before, after)
    ensures Resting(after) == Resting(before)
    ensures forall p {:trigger p in Resting(before)} :: p in Resting(before) ==> p in after && after[p] == before[p]
  {
    forall p
      ensures p in Resting(after) <==> p in Resting(before)
      ensures p in Resting(after) ==> Resting(after)[p] == Resting(before)[p]
    {
      assert p in after ==> p in before;
      assert p in before ==> p in after || before[p].queue == [];
    }
  }

  /** An order that rests at no price. */
  ghost predicate Absent(o: Order, m: LevelMap)
    reads m.Values
  {
    forall p {:trigger m[p]} :: p in m ==> o !in m[p].queue
  }

  /** Parents survive the creation of a level that also sheds empty ones. */
  lemma CreationParented(before: LevelMap, after: LevelMap, price: int)
    requires price in after && Parented(before)
    requires after == before || (after[price].queue == [] && Sheds(before, after - {price}))
    requires forall p, q {:trigger after[p], after[q]} :: p in after && q in after && after[p] == after[q] ==> p == q
    ensures Parented(after)
  {
    if after != before {
      assert forall p {:trigger after[p]} :: p in after && p != price ==> p in after - {price};
    }
  }

  /** So does the absence of an order. */
  lemma StillAbsent(before: LevelMap, after: LevelMap, price: int, o: Order)
    requires Absent(o, before)
    requires after == before || (price in after && after[price].queue == [] && Sheds(before, after - {price}))
    ensures Absent(o, after)
  {
    if after != before {
      assert forall p {:trigger after[p]} :: p in after && p != price ==> p in after - {price};
    }
  }

  /** Where one price's queue changes and no other does, so do the queues and what rests. */
  lemma OneQueueChanged(m: LevelMap, price: int, queues: QueueMap<Order>)
    requires price in m && queues.Keys == m.Keys
    requires forall p {:trigger m[p]} :: p in m && p != price ==> m[p].queue == queues[p]
    ensures Queues(m) == queues[price := m[price].queue]
    ensures Resting(m) == WithQueue(Shown(queues), price, m[price].queue)
    ensures At(Shown(queues), price) == queues[price]
  {
    forall p | p in m
      ensures Queues(m)[p] == queues[price := m[price].queue][p]
    {
      assert p != price ==> m[p].queue == queues[p];
    }
    PutShown(queues, price, m[price].queue);
    ShownAt(queues, price);
  }

  /** A best price that holds orders is the best resting price. */
  lemma BestRests(isAsk: bool, m: LevelMap)
    requires m != map[] ==> m[BestOf(isAsk, m.Keys)].queue != []
    ensures Resting(m) == map[] <==> m == map[]
    ensures m != map[] ==> BestOf(isAsk, m.Keys) == BestOf(isAsk, Resting(m).Keys)
  {
    if m != map[] {
      assert BestOf(isAsk, m.Keys) in Resting(m);
      assert IsBest(isAsk, BestOf(isAsk, m.Keys), Resting(m).Keys);
    }
  }

  lemma ShedsKeepsParented(before: LevelMap, after: LevelMap)
    requires Sheds(before, after) && Parented(before)
    ensures Parented(after)
  {}

  /** Rests an order at the back of a level: the queue of that price alone grows. */
  method PushOn(ghost m: LevelMap, ghost price: int, level: PriceLevel, o: Order)
    requires Linked(m) && Parented(m) && price in m && m[price] == level
    requires Absent(o, m)
    modifies level, o`prev, o`next, o`parentLevel, level.queue`next
    ensures Linked(m) && Parented(m) && Queues(m) == old(Queues(m))[price := old(level.queue) + [o]]
    ensures Resting(m) == WithQueue(old(Resting(m)), price, At(old(Resting(m)), price) + [o])
  {
    hide PriceLevel.Valid, Queues, Shown, WithQueue, At;
    ghost var queues := Queues(m);
    QueuesKeys(m);
    LinkLast(level, o);
    OneQueueChanged(m, price, queues);
  }

  /** Unlinks an order from its level: the queue of that price alone shrinks. */
  method EraseFrom(ghost m: LevelMap, ghost price: int, level: PriceLevel, o: Order, ghost k: nat)
    requires Linked(m) && Parented(m) && price in m && m[price] == level
    requires k < |level.queue| && level.queue[k] == o
    modifies level, level.queue`prev, level.queue`next
    ensures Linked(m) && Parented(m) && Queues(m) == old(Queues(m))[price := Without(old(level.queue), k)]
    ensures Resting(m) == WithQueue(old(Resting(m)), price, Without(old(Resting(m))[price], k))
  {
    hide PriceLevel.Valid, Queues, Shown, WithQueue, Without;
    ghost var queues := Queues(m);
    WithoutElements(level.queue, k);
    QueuesKeys(m);
    level.Erase(o, k);
    OneQueueChanged(m, price, queues);
  }

  /** One side of a book as a map from price to level, ordered by aggressiveness. */
  class SideBook {
    const isAsk: bool
    var levels: LevelMap

    constructor (isAsk: bool)
      ensures levels == map[] && this.isAsk == isAsk
    {
      this.isAsk := isAsk;
      levels := map[];
    }

    predicate Empty()
      reads this
    {
      levels == map[]
    }

    function BestPrice(): (p: int)
      requires levels != map[]
      reads this
      ensures IsBest(isAsk, p, levels.Keys)
    {
      BestOf(isAsk, levels.Keys)
    }

    /** The level of a price, created empty if it has none. */
    method GetOrCreate(price: int64) returns (level: PriceLevel, inserted: bool)
      requires Linked(levels) && Parented(levels)
      modifies this
      ensures Linked(levels) && Parented(levels) && price in levels && level == levels[price]
      ensures inserted <==> price !in old(levels)
      ensures levels == if inserted then old(levels)[price := level] else old(levels)
      ensures inserted ==> fresh(level) && level.queue == []
      ensures Queues(levels) == Created(OneMap, isAsk, old(Queues(levels)), price)
      ensures Resting(levels) == old(Resting(levels))
    {
      hide PriceLevel.Valid, Queues, Shown, At, Kept;
      inserted := price !in levels;
      ghost var before, queues := levels, Queues(levels);
      CreatedUnseen(OneMap, isAsk, queues, price);
      QueuesKeys(levels);
      if inserted {
        level := new PriceLevel();
        levels := levels[price := level];
        QueuesGrow(before, price, level);
        MapKeepsAll(isAsk, queues, price);
      } else {
        level := levels[price];
      }
    }

    /** Erases the drained best level. */
    method EraseBest()
      requires levels != map[] && levels[BestOf(isAsk, levels.Keys)].queue == []
      requires Linked(levels) && Parented(levels)
      modifies this
      ensures Linked(levels) && Parented(levels) && levels == old(levels) - {old(BestPrice())}
      ensures Queues(levels) == Erased(OneMap, isAsk, old(Queues(levels)))
      ensures Resting(levels) == old(Resting(levels))
    {
      hide PriceLevel.Valid, Queues, Shown, Linked, Parented;
      ghost var queues := Queues(levels);
      QueuesKeys(levels);
      LossUnseen(queues, Erased(OneMap, isAsk, queues));
      QueuesShrink(levels, BestPrice());
      LinkedFewer(levels, BestPrice());
      ParentedFewer(levels, BestPrice());
      levels := levels - {BestPrice()};
    }

    /** What the outer matching loop comes to while nothing rests at the best: the true best emerges. */
    method SkipGhosts()
      requires Linked(levels) && Parented(levels)
      modifies this
      ensures Linked(levels) && Parented(levels) && Resting(levels) == old(Resting(levels))
      ensures Queues(levels) == Skipped(OneMap, isAsk, old(Queues(levels)))
      ensures levels.Values <= old(levels.Values)
      ensures Resting(levels) == map[] <==> levels == map[]
      ensures levels != map[] ==> BestPrice() == BestOf(isAsk, Resting(levels).Keys)
    {
      hide PriceLevel.Valid, Queues, Shown, Parented, Erased;
      ghost var queues := Queues(levels);
      SkippedUnseen(OneMap, isAsk, queues);
      QueuesKeys(levels);
      while !Empty() && levels[BestPrice()].Empty()
        invariant Linked(levels) && Parented(levels)
        invariant levels.Values <= old(levels.Values)
        invariant Skipped(OneMap, isAsk, Queues(levels)) == Skipped(OneMap, isAsk, queues)
        decreases |levels|
      {
        QueuesKeys(levels);
        EraseBest();
      }
      QueuesKeys(levels);
      BestRests(isAsk, levels);
    }
  }
}
