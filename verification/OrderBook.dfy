/** The matching engine: two array side books over one order pool. */
module OrderBooks {
  import opened ArraySideBooks
  import opened LedgerInvariants
  import opened Ledgers
  import opened OrderPools
  import opened PriceLevels
  import opened Sequences
  import opened Types

  /** A position in a queue of the book. */
  datatype Place = Place(isAsk: bool, price: int, pos: nat)

  datatype Reduction = Reduction(isAsk: bool, price: int, fill: uint64)

  /** What a resting order is posted with. */
  datatype Posting = Posting(isAsk: bool, price: int64, id: uint64, quantity: uint64, timestamp: uint64) {
    ghost function Applied(l: Ledger): Ledger
      requires l.free != []
    {
      RestAt(l, isAsk, price, id, quantity, timestamp)
    }
  }

  class OrderBook {
    const bids: ArraySideBook
    const asks: ArraySideBook
    const pool: OrderPool
    /** What the pointers, bitmaps and cached prices below mean. */
    ghost var state: Ledger

    function Book(isAsk: bool): ArraySideBook {
      if isAsk then asks else bids
    }

    ghost function Repr(): set<object> {
      {this, bids, asks, pool, bids.tree, asks.tree, bids.tree.words, asks.tree.words}
      + (set x | x in bids.levels) + (set x | x in asks.levels) + (set x | x in pool.slots)
    }

    /** The parts are pairwise different objects, fixed at construction. */
    ghost predicate Wired() {
      && !bids.isAsk && asks.isAsk && bids.basePrice == 0 == asks.basePrice
      && bids.Sized() && asks.Sized()
      && bids != asks && bids.tree != asks.tree && bids.tree.words != asks.tree.words
      && pool.Placed()
      && Distinct(bids.levels) && Distinct(asks.levels)
      && (forall x :: x in bids.levels ==> x !in asks.levels)
    }

    ghost predicate OrderHolds(o: Order, level: PriceLevel, r: Resting)
      reads o
    {
      && r.handle < |pool.slots| && o == pool.slots[r.handle]
      && o.id == r.id && o.price == r.price && o.quantity == r.quantity && o.timestamp == r.timestamp
      && o.parentLevel == level
    }

    /** The linked orders of a level are exactly the queue q of the ledger, and point back to it. */
    ghost predicate LevelHolds(level: PriceLevel, q: seq<Resting>)
      reads level, level.queue
    {
      && level.Valid()
      && |level.queue| == |q|
      && forall k {:trigger q[k]} {:trigger level.queue[k]} :: 0 <= k < |q| ==> OrderHolds(level.queue[k], level, q[k])
    }

    ghost predicate LinkedLevel(l: Ledger, a: bool, i: nat)
      requires Wired() && i < PRICE_COUNT
      reads bids.levels, asks.levels, pool.slots
    {
      var level := Book(a).levels[i];
      (forall j :: 0 <= j < |level.queue| ==> level.queue[j] in pool.slots) && LevelHolds(level, At(l.Side(a), i))
    }

    /** Pool and levels say exactly what ledger l says. */
    ghost predicate Spells(l: Ledger)
      reads pool, pool.slots, bids.levels, asks.levels
    {
      && Wired()
      && pool.Valid() && pool.free == l.free
      && forall a, i {:trigger Book(a).levels[i]} :: 0 <= i < PRICE_COUNT ==> LinkedLevel(l, a, i)
    }

    ghost predicate Linked()
      reads this, pool, pool.slots, bids.levels, asks.levels
    {
      Spells(state)
    }

    /** Every price of the ledger is active, and all active bids, ghosts included, are below all active asks. */
    ghost predicate Indexed()
      reads this, bids, asks, bids.tree, asks.tree, bids.tree.words, asks.tree.words
    {
      && bids.Valid() && asks.Valid()
      && (forall p :: p in state.bids ==> p in bids.tree.members)
      && (forall p :: p in state.asks ==> p in asks.tree.members)
      && (forall b, a :: b in bids.tree.members && a in asks.tree.members ==> b < a)
    }

    ghost predicate Valid()
      reads Repr()
    {
      Linked() && Indexed() && Sound(state, |pool.slots|)
    }

    /** Erases an order from its level and releases its slot. */
    method EraseAndRelease(o: Order, ghost isAsk: bool, ghost p: int, ghost k: nat)
      requires Linked() && Partition(state, |pool.slots|) && InRange(state)
      requires HasAt(state, isAsk, p, k) && state.Side(isAsk)[p][k].handle < |pool.slots|
      requires o == pool.slots[state.Side(isAsk)[p][k].handle]
      modifies this`state, pool`freeHead, pool`free, Book(isAsk).levels[p], pool.slots`prev, pool.slots`next
      ensures Linked() && state == RemoveAt(old(state), isAsk, p, k)
    {
      hide LevelHolds, OrderHolds, Partition, LiveAt, LinkedLevel;
      Resident(isAsk, p, k);
      o.parentLevel.Erase(o, k);
      assert pool.Valid();
      pool.Release(o);
      Erased(Place(isAsk, p, k));
      state := RemoveAt(state, isAsk, p, k);
    }

    /** Takes the top slot and fills in the order's data. */
    method TakeSlot(id: uint64, price: int64, quantity: uint64, timestamp: uint64) returns (h: OrderHandle, node: Order)
      requires pool.Valid() && pool.free != [] && pool.free[0] < |pool.slots|
      modifies pool`freeHead, pool`free, pool.slots[pool.free[0]]
      ensures pool.Valid() && pool.free == old(pool.free)[1..]
      ensures h == old(pool.free)[0] && h != INVALID_HANDLE && node == pool.slots[h] && node.slot !in pool.free
      ensures node.id == id && node.price == price && node.quantity == quantity && node.timestamp == timestamp
    {
      h := pool.Acquire();
      node := pool.Resolve(h);
      node.id := id;
      node.price := price;
      node.quantity := quantity;
      node.timestamp := timestamp;
      node.prev := null;
      node.next := null;
    }

    /** Linking an order that holds a slot leaves the pool intact. */
    method LinkSlot(level: PriceLevel, node: Order)
      requires level.Valid() && node !in level.queue && pool.Valid()
      requires node in pool.slots && node.slot !in pool.free
      requires forall i {:trigger pool.free[i]} :: 0 <= i < |pool.free| ==> pool.slots[pool.free[i]] !in level.queue
      modifies level, node`prev, node`next, node`parentLevel, level.queue`next
      ensures level.Valid() && level.queue == old(level.queue) + [node] && node.parentLevel == level && pool.Valid()
    {
      LinkLast(level, node);
    }

    /** Takes a slot for an order and activates the level of its price. */
    method Open(isAsk: bool, price: int64, id: uint64, quantity: uint64, timestamp: uint64)
      returns (h: OrderHandle, node: Order, level: PriceLevel)
      requires Wired() && pool.Valid() && pool.free != [] && pool.free[0] < |pool.slots|
      requires Book(isAsk).Valid() && 0 <= price < PRICE_COUNT
      modifies pool`freeHead, pool`free, pool.slots[pool.free[0]], Book(isAsk), Book(isAsk).tree, Book(isAsk).tree.words
      ensures pool.Valid() && pool.free == old(pool.free)[1..]
      ensures h == old(pool.free)[0] && h != INVALID_HANDLE && node == pool.slots[h] && node.slot !in pool.free
      ensures node.id == id && node.price == price && node.quantity == quantity && node.timestamp == timestamp
      ensures level == Book(isAsk).levels[price] && Book(isAsk).Valid()
      ensures Book(isAsk).tree.members == old(Book(isAsk).tree.members) + {price}
    {
      hide ArraySideBook.Valid, OrderPool.Valid;
      h, node := TakeSlot(id, price, quantity, timestamp);
      level := Book(isAsk).GetOrCreate(price);
    }

    /** Takes a slot for an order, activates the level of its price and links it behind the others there. */
    method Append(isAsk: bool, price: int64, id: uint64, quantity: uint64, timestamp: uint64) returns (h: OrderHandle)
      requires Wired() && pool.Valid() && pool.free != [] && pool.free[0] < |pool.slots|
      requires Book(isAsk).Valid() && 0 <= price < PRICE_COUNT && Book(isAsk).levels[price].Valid()
      requires forall i {:trigger pool.free[i]} :: 0 <= i < |pool.free| ==>
        pool.slots[pool.free[i]] !in Book(isAsk).levels[price].queue
      modifies pool`freeHead, pool`free, pool.slots[pool.free[0]], Book(isAsk), Book(isAsk).tree, Book(isAsk).tree.words
      modifies Book(isAsk).levels[price], Book(isAsk).levels[price].queue`next
      ensures pool.Valid() && pool.free == old(pool.free)[1..] && h == old(pool.free)[0] && h != INVALID_HANDLE
      ensures var node, level := pool.slots[h], Book(isAsk).levels[price];
        && node.id == id && node.price == price && node.quantity == quantity && node.timestamp == timestamp
        && level.Valid() && level.queue == old(level.queue) + [node] && node.parentLevel == level
      ensures Book(isAsk).Valid() && Book(isAsk).tree.members == old(Book(isAsk).tree.members) + {price}
    {
      hide ArraySideBook.Valid, OrderPool.Valid, PriceLevel.Valid;
      var node: Order, level: PriceLevel;
      h, node, level := Open(isAsk, price, id, quantity, timestamp);
      assert forall i {:trigger pool.free[i]} :: 0 <= i < |pool.free| ==> pool.free[i] == old(pool.free)[i + 1];
      LinkSlot(level, node);
    }

    /** Rests an order: takes a slot, fills it in, activates its level and links it behind the others. */
    method Rest(isAsk: bool, price: int64, id: uint64, quantity: uint64, timestamp: uint64) returns (h: OrderHandle)
      requires Linked() && Sound(state, |pool.slots|) && Book(isAsk).Valid()
      requires 0 <= price < PRICE_COUNT && state.free != []
      modifies this`state, pool`freeHead, pool`free, pool.slots, Book(isAsk).levels[price]
      modifies Book(isAsk), Book(isAsk).tree, Book(isAsk).tree.words
      ensures Linked() && state == RestAt(old(state), isAsk, price, id, quantity, timestamp)
      ensures h == old(state).free[0] && h != INVALID_HANDLE
      ensures Book(isAsk).Valid() && Book(isAsk).tree.members == old(Book(isAsk).tree.members) + {price}
    {
      hide Spells, LevelHolds, Sound, LinkedLevel, RestAt, ArraySideBook.Valid, OrderPool.Valid, PriceLevel.Valid;
      Room(isAsk, price);
      h := Append(isAsk, price, id, quantity, timestamp);
      Rested(Posting(isAsk, price, id, quantity, timestamp));
      state := RestAt(state, isAsk, price, id, quantity, timestamp);
    }

    /** No free slot is in the level about to receive an order, and the level to receive it is well linked. */
    lemma Room(isAsk: bool, price: int)
      requires Linked() && Sound(state, |pool.slots|) && 0 <= price < PRICE_COUNT && state.free != []
      ensures Wired() && pool.Valid() && pool.free == state.free
      ensures state.free[0] < |pool.slots| && pool.slots[state.free[0]] in pool.slots
      ensures var level := Book(isAsk).levels[price];
        && level.Valid()
        && (forall i {:trigger state.free[i]} :: 0 <= i < |state.free| ==> pool.slots[state.free[i]] !in level.queue)
        && (forall j {:trigger level.queue[j]} :: 0 <= j < |level.queue| ==>
          level.queue[j] in pool.slots && level.queue[j].parentLevel == level)
    {
      var level, q := Book(isAsk).levels[price], At(state.Side(isAsk), price);
      assert LinkedLevel(state, isAsk, price);
      FreeOutside(level, q, isAsk, price);
      assert forall j {:trigger level.queue[j]} :: 0 <= j < |q| ==> OrderHolds(level.queue[j], level, q[j]);
    }

    lemma LevelsDiffer(a: bool, i: nat, b: bool, j: nat)
      requires Wired() && i < PRICE_COUNT && j < PRICE_COUNT && (a != b || i != j)
      ensures Book(a).levels[i] != Book(b).levels[j]
    {
      assert Book(a).levels[i] in Book(a).levels && Book(b).levels[j] in Book(b).levels;
    }

    /** Takes a fill off the oldest order of a level. */
    method ReduceFront(maker: Order, fill: uint64, ghost isAsk: bool, ghost p: int)
      requires Linked() && Partition(state, |pool.slots|) && InRange(state)
      requires HasAt(state, isAsk, p, 0) && state.Side(isAsk)[p][0].handle < |pool.slots|
      requires maker == pool.slots[state.Side(isAsk)[p][0].handle]
      requires fill <= state.Side(isAsk)[p][0].quantity
      modifies this`state, maker`quantity
      ensures Linked() && state == ReduceAt(old(state), isAsk, p, fill)
      ensures maker.quantity == old(state).Side(isAsk)[p][0].quantity - fill
    {
      hide LevelHolds, Partition, LiveAt, LinkedLevel;
      Resident(isAsk, p, 0);
      maker.quantity := maker.quantity - fill;
      assert pool.Valid() && Book(isAsk).levels[p].Valid();
      Reduced(Reduction(isAsk, p, fill));
      state := ReduceAt(state, isAsk, p, fill);
    }

    /** The body of the inner matching loops: trades with the oldest order of a level. */
    method FillFront(level: PriceLevel, taker: uint64, quantity: uint64, ghost isAsk: bool, ghost p: int)
      returns (trade: Trade)
      requires Linked() && Sound(state, |pool.slots|) && quantity > 0
      requires p in state.Side(isAsk) && level == Book(isAsk).levels[p]
      modifies this`state, pool`freeHead, pool`free, level, pool.slots`prev, pool.slots`next, pool.slots`quantity
      ensures Linked() && Sound(state, |pool.slots|) && HasAt(old(state), isAsk, p, 0)
      ensures forall a, x :: x in state.Side(a) ==> x in old(state).Side(a)
      ensures var maker := old(state).Side(isAsk)[p][0];
        var fill := Min(quantity, maker.quantity);
        trade == Trade(taker, maker.id, maker.price, fill) && state == FillAt(old(state), isAsk, p, fill)
    {
      hide Linked, LevelHolds, RemoveAt, ReduceAt, Partition, GoodBook, Uncrossed, InRange;
      FrontResident(isAsk, p);
      var maker := level.Front();
      var fill := Min(quantity, maker.quantity);
      FillKeepsSound(state, isAsk, p, fill, |pool.slots|);
      trade := Trade(taker, maker.id, maker.price, fill);
      ReduceThenRemove(state, isAsk, p, fill);
      ReduceKeepsSlots(state, isAsk, p, fill, |pool.slots|);
      ReduceFront(maker, fill, isAsk, p);
      if maker.quantity == 0 {
        EraseAndRelease(maker, isAsk, p, 0);
      }
    }

    lemma FrontResident(isAsk: bool, p: int)
      requires Linked() && Sound(state, |pool.slots|) && p in state.Side(isAsk)
      ensures 0 <= p < PRICE_COUNT && HasAt(state, isAsk, p, 0) && Book(isAsk).Sized()
      ensures var level, r := Book(isAsk).levels[p], state.Side(isAsk)[p][0];
        && level.Valid() && level.queue != [] && r.handle < |pool.slots| && level.queue[0] == pool.slots[r.handle]
        && OrderHolds(level.queue[0], level, r) && level.queue[0] in pool.slots
    {
      assert GoodQueue(state.Side(isAsk)[p], p);
      Resident(isAsk, p, 0);
    }

    /** The side books' indices survive when the ledger only loses prices. */
    twostate lemma StillIndexed()
      requires old(Indexed()) && unchanged(bids) && unchanged(asks)
      requires unchanged(bids.tree) && unchanged(asks.tree) && unchanged(bids.tree.words) && unchanged(asks.tree.words)
      requires forall a, x :: x in state.Side(a) ==> x in old(state).Side(a)
      ensures Indexed()
    {
      assert forall x :: x in state.Side(true) ==> x in old(state).Side(true);
      assert forall x :: x in state.Side(false) ==> x in old(state).Side(false);
    }

    /** Ledger l' agrees with l except at one price, whose level already holds the new queue. */
    lemma Respell(l: Ledger, l': Ledger, isAsk: bool, p: int)
      requires Wired() && 0 <= p < PRICE_COUNT && pool.Valid() && pool.free == l'.free
      requires LinkedLevel(l', isAsk, p)
      requires forall a, i {:trigger Book(a).levels[i]} ::
        0 <= i < PRICE_COUNT && Book(a).levels[i] != Book(isAsk).levels[p] ==>
        LinkedLevel(l, a, i)
      requires forall a, i {:trigger At(l'.Side(a), i)} :: a != isAsk || i != p ==>
        At(l'.Side(a), i) == At(l.Side(a), i)
      ensures Spells(l')
    {
      hide LevelHolds;
      forall a, i | 0 <= i < PRICE_COUNT
        ensures LinkedLevel(l', a, i)
      {
        if a != isAsk || i != p {
          LevelsDiffer(a, i, isAsk, p);
          assert LinkedLevel(l, a, i);
        }
      }
    }

    /** Where the k-th order at a price of the ledger is found among the objects. */
    lemma Resident(isAsk: bool, p: int, k: nat)
      requires Linked() && Partition(state, |pool.slots|) && InRange(state) && HasAt(state, isAsk, p, k)
      ensures var level, q := Book(isAsk).levels[p], state.Side(isAsk)[p];
        && level.Valid() && |level.queue| == |q| && q[k].handle < |pool.slots|
        && level.queue[k] == pool.slots[q[k].handle] && OrderHolds(level.queue[k], level, q[k])
        && q[k].handle != INVALID_HANDLE && (level in bids.levels || level in asks.levels)
        && q[k].handle !in state.free && level.queue[k].parentLevel == level
        && (forall j {:trigger level.queue[j]} :: 0 <= j < |level.queue| ==>
          level.queue[j] in pool.slots && level.queue[j].parentLevel == level)
        && (forall i {:trigger state.free[i]} :: 0 <= i < |state.free| ==> pool.slots[state.free[i]] !in level.queue)
    {
      var level, q := Book(isAsk).levels[p], state.Side(isAsk)[p];
      assert LinkedLevel(state, isAsk, p);
      assert OrderHolds(level.queue[k], level, q[k]);
      assert LiveAt(state, isAsk, p, k, q[k].handle);
      FreeOutside(level, q, isAsk, p);
    }

    /** The erased level holds the shortened queue. */
    twostate lemma ErasedHolds(at: Place)
      requires old(Linked()) && InRange(old(state)) && HasAt(old(state), at.isAsk, at.price, at.pos)
      requires Book(at.isAsk).levels[at.price].Valid() && at.pos < |old(Book(at.isAsk).levels[at.price].queue)|
      requires Book(at.isAsk).levels[at.price].queue == Without(old(Book(at.isAsk).levels[at.price].queue), at.pos)
      requires forall o {:trigger SameData(o)} :: o in pool.slots ==> SameData(o)
      ensures LinkedLevel(RemoveAt(old(state), at.isAsk, at.price, at.pos), at.isAsk, at.price)
    {
      hide Without, PriceLevel.Valid, OrderPool.Valid;
      var Place(isAsk, p, k) := at;
      var level, q := Book(isAsk).levels[p], old(state).Side(isAsk)[p];
      assert old(LinkedLevel(state, isAsk, p));
      assert At(RemoveAt(old(state), isAsk, p, k).Side(isAsk), p) == Without(q, k);
      WithoutElements(q, k);
      WithoutElements(old(level.queue), k);
      forall j | 0 <= j < |q| - 1
        ensures level.queue[j] in pool.slots && OrderHolds(level.queue[j], level, Without(q, k)[j])
      {
        var j' := if j < k then j else j + 1;
        assert old(OrderHolds(level.queue[j'], level, q[j']));
        assert SameData(old(level.queue)[j']);
      }
    }

    /** After a level lost one order and its slot went to the free list, everything spells the shorter ledger. */
    twostate lemma Erased(at: Place)
      requires old(Linked()) && InRange(old(state)) && Partition(old(state), |pool.slots|)
      requires HasAt(old(state), at.isAsk, at.price, at.pos)
      requires Book(at.isAsk).levels[at.price].Valid() && at.pos < |old(Book(at.isAsk).levels[at.price].queue)|
      requires Book(at.isAsk).levels[at.price].queue == Without(old(Book(at.isAsk).levels[at.price].queue), at.pos)
      requires forall l {:trigger SameLevel(l)} ::
        l in bids.levels + asks.levels && l != Book(at.isAsk).levels[at.price] ==> SameLevel(l)
      requires forall o {:trigger SameData(o)} :: o in pool.slots ==> SameData(o)
      requires forall o {:trigger Same(o)} ::
        o in pool.slots && old(o.parentLevel) != Book(at.isAsk).levels[at.price] ==> Same(o)
      requires pool.Valid() && pool.free == RemoveAt(old(state), at.isAsk, at.price, at.pos).free
      ensures Spells(RemoveAt(old(state), at.isAsk, at.price, at.pos))
    {
      hide LevelHolds;
      var l := RemoveAt(old(state), at.isAsk, at.price, at.pos);
      OthersHold(Book(at.isAsk).levels[at.price]);
      ErasedHolds(at);
      Respell(old(state), l, at.isAsk, at.price);
    }

    /** The oldest order of a level lost a fill and nothing else. */
    twostate predicate Lowered(r: Reduction)
      requires HasAt(old(state), r.isAsk, r.price, 0) && old(state).Side(r.isAsk)[r.price][0].handle < |pool.slots|
      reads pool.slots
    {
      var o := pool.slots[old(state).Side(r.isAsk)[r.price][0].handle];
      && o.id == old(o.id) && o.price == old(o.price) && o.quantity == old(o.quantity) - r.fill
      && o.timestamp == old(o.timestamp) && o.parentLevel == old(o.parentLevel)
      && o.prev == old(o.prev) && o.next == old(o.next)
    }

    /** The reduced level holds the reduced queue. */
    twostate lemma ReducedHolds(r: Reduction)
      requires old(Linked()) && InRange(old(state))
      requires HasAt(old(state), r.isAsk, r.price, 0) && r.fill <= old(state).Side(r.isAsk)[r.price][0].quantity
      requires old(state).Side(r.isAsk)[r.price][0].handle < |pool.slots| && Lowered(r)
      requires Book(r.isAsk).levels[r.price].Valid() && SameLevel(Book(r.isAsk).levels[r.price])
      requires forall o {:trigger Same(o)} ::
        o in pool.slots && o.slot != old(state).Side(r.isAsk)[r.price][0].handle ==> Same(o)
      ensures LinkedLevel(ReduceAt(old(state), r.isAsk, r.price, r.fill), r.isAsk, r.price)
      ensures old(pool.slots[state.Side(r.isAsk)[r.price][0].handle].parentLevel) == Book(r.isAsk).levels[r.price]
    {
      var Reduction(isAsk, p, fill) := r;
      var level, q := Book(isAsk).levels[p], old(state).Side(isAsk)[p];
      var q' := At(ReduceAt(old(state), isAsk, p, fill).Side(isAsk), p);
      assert old(LinkedLevel(state, isAsk, p));
      assert old(OrderHolds(level.queue[0], level, q[0]));
      forall j | 0 <= j < |q|
        ensures level.queue[j] in pool.slots && OrderHolds(level.queue[j], level, q'[j])
      {
        assert old(OrderHolds(level.queue[j], level, q[j]));
        assert j > 0 ==> level.queue[j] != level.queue[0];
        assert j > 0 ==> Same(level.queue[j]);
      }
    }

    /** After the oldest order of a level lost some quantity, everything spells the reduced ledger. */
    twostate lemma Reduced(r: Reduction)
      requires old(Linked()) && InRange(old(state)) && Partition(old(state), |pool.slots|)
      requires HasAt(old(state), r.isAsk, r.price, 0) && r.fill <= old(state).Side(r.isAsk)[r.price][0].quantity
      requires forall l {:trigger SameLevel(l)} :: l in bids.levels + asks.levels ==> SameLevel(l)
      requires pool.Valid() && pool.free == old(pool.free) && Book(r.isAsk).levels[r.price].Valid()
      requires old(state).Side(r.isAsk)[r.price][0].handle < |pool.slots| && Lowered(r)
      requires forall o {:trigger Same(o)} ::
        o in pool.slots && o.slot != old(state).Side(r.isAsk)[r.price][0].handle ==> Same(o)
      ensures Spells(ReduceAt(old(state), r.isAsk, r.price, r.fill))
    {
      hide LevelHolds, OrderHolds, UniquePlaces;
      var l := ReduceAt(old(state), r.isAsk, r.price, r.fill);
      assert Book(r.isAsk).levels[r.price] in bids.levels + asks.levels;
      ReducedHolds(r);
      OthersHold(Book(r.isAsk).levels[r.price]);
      Respell(old(state), l, r.isAsk, r.price);
    }

    /** After a free slot was filled in and linked last into a level, everything spells the longer ledger. */
    twostate lemma Rested(r: Posting)
      requires old(Linked()) && Sound(old(state), |pool.slots|)
      requires 0 <= r.price < PRICE_COUNT && old(state).free != [] && pool.Valid() && pool.free == old(state).free[1..]
      requires var level, node := Book(r.isAsk).levels[r.price], pool.slots[old(state).free[0]];
        && level.Valid() && level.queue == old(level.queue) + [node]
        && node.id == r.id && node.price == r.price && node.quantity == r.quantity && node.timestamp == r.timestamp
        && node.parentLevel == level
      requires forall l {:trigger SameLevel(l)} ::
        l in bids.levels + asks.levels && l != Book(r.isAsk).levels[r.price] ==> SameLevel(l)
      requires forall o {:trigger SameData(o)} :: o in pool.slots && o.slot != old(state).free[0] ==> SameData(o)
      requires forall o {:trigger Same(o)} ::
        o in pool.slots && o.slot != old(state).free[0] && old(o.parentLevel) != Book(r.isAsk).levels[r.price] ==>
          Same(o)
      ensures Spells(r.Applied(old(state)))
    {
      hide Uncrossed, GoodBook;
      var level, q := Book(r.isAsk).levels[r.price], At(old(state).Side(r.isAsk), r.price);
      var l := r.Applied(old(state));
      assert old(LinkedLevel(state, r.isAsk, r.price));
      assert old(state).free[0] in old(pool.free);
      OthersHold(level);
      forall j | 0 <= j <= |q|
        ensures level.queue[j] in pool.slots && OrderHolds(level.queue[j], level, At(l.Side(r.isAsk), r.price)[j])
      {
        if j < |q| {
          assert old(OrderHolds(level.queue[j], level, q[j]));
          assert LiveAt(old(state), r.isAsk, r.price, j, q[j].handle);
          assert Live(old(state), q[j].handle);
          assert SameData(old(level.queue)[j]);
        }
      }
      assert LinkedLevel(l, r.isAsk, r.price);
      Respell(old(state), l, r.isAsk, r.price);
    }

    twostate predicate SameData(o: Order)
      reads o
    {
      && o.id == old(o.id) && o.price == old(o.price) && o.quantity == old(o.quantity)
      && o.timestamp == old(o.timestamp) && o.parentLevel == old(o.parentLevel)
    }

    twostate predicate SameLevel(level: PriceLevel)
      reads level
    {
      unchanged(level)
    }

    twostate predicate Same(o: Order)
      reads o
    {
      unchanged(o)
    }

    /** Levels keep their orders when only free orders and orders of one other level change. */
    twostate lemma OthersHold(touched: PriceLevel)
      requires old(Linked()) && FreeApart(old(state))
      requires forall l {:trigger SameLevel(l)} :: l in bids.levels + asks.levels && l != touched ==> SameLevel(l)
      requires forall o {:trigger Same(o)} ::
        o in pool.slots && old(o.parentLevel) != touched && o.slot !in old(pool.free) ==> Same(o)
      ensures forall a, i {:trigger Book(a).levels[i]} :: 0 <= i < PRICE_COUNT && Book(a).levels[i] != touched ==>
        LinkedLevel(old(state), a, i)
    {
      forall a, i | 0 <= i < PRICE_COUNT && Book(a).levels[i] != touched
        ensures LinkedLevel(old(state), a, i)
      {
        var l, q := Book(a).levels[i], At(old(state).Side(a), i);
        assert old(LevelHolds(l, q));
        assert l in bids.levels + asks.levels;
        assert SameLevel(l);
        forall j | 0 <= j < |q|
          ensures Same(l.queue[j])
        {
          assert old(OrderHolds(l.queue[j], l, q[j]));
          assert LiveAt(old(state), a, i, j, q[j].handle);
        }
      }
    }

    /** No free slot is linked into a level. */
    lemma FreeOutside(level: PriceLevel, q: seq<Resting>, isAsk: bool, p: int)
      requires Wired() && FreeApart(state) && LevelHolds(level, q) && At(state.Side(isAsk), p) == q
      requires forall i {:trigger state.free[i]} :: 0 <= i < |state.free| ==> state.free[i] < |pool.slots|
      ensures forall i {:trigger state.free[i]} :: 0 <= i < |state.free| ==> pool.slots[state.free[i]] !in level.queue
    {
      forall i | 0 <= i < |state.free|
        ensures pool.slots[state.free[i]] !in level.queue
      {
        if pool.slots[state.free[i]] in level.queue {
          var j :| 0 <= j < |level.queue| && level.queue[j] == pool.slots[state.free[i]];
          assert OrderHolds(level.queue[j], level, q[j]);
          assert LiveAt(state, isAsk, p, j, state.free[i]);
        }
      }
    }

    // ---------- matching ----------

    /** What the cached best index says about the best price of the ledger. */
    lemma CachedBest(isAsk: bool)
      requires Valid()
      ensures Book(isAsk).Valid() && Book(isAsk).basePrice == 0
      ensures !Book(isAsk).hasBest ==> state.Side(isAsk) == map[]
      ensures Book(isAsk).hasBest ==>
        var b := Book(isAsk).bestIdx;
        && b < PRICE_COUNT && Book(isAsk).levels[b].Valid()
        && (Book(isAsk).levels[b].queue != [] <==> b in state.Side(isAsk))
        && (b in state.Side(isAsk) ==> Best(isAsk, state.Side(isAsk)) == b)
        && (forall limit, q :: !Crosses(isAsk, limit, b) ==> Stops(state, isAsk, Some(limit), q))
    {
      var m, book := state.Side(isAsk), Book(isAsk);
      assert forall p :: p in m ==> p in book.tree.members;
      if book.hasBest {
        var b := book.bestIdx;
        assert LinkedLevel(state, isAsk, b);
        assert b in m ==> GoodQueue(m[b], b);
        if m != map[] {
          assert Best(isAsk, m) in book.tree.members;
        }
      } else {
        assert m.Keys == {};
      }
    }

    /**
     * Retires the drained best level and its ghosts: the ledger does not notice, and its best price is
     * now the cached one.
     */
    method Advance(isAsk: bool)
      requires Valid() && Book(isAsk).hasBest && Book(isAsk).levels[Book(isAsk).bestIdx].queue == []
      modifies Book(isAsk), Book(isAsk).tree, Book(isAsk).tree.words
      ensures Valid() && state == old(state)
      ensures Book(isAsk).tree.members < old(Book(isAsk).tree.members)
      ensures if Book(isAsk).hasBest then IsBest(isAsk, Book(isAsk).bestIdx, state.Side(isAsk).Keys)
        else state.Side(isAsk) == map[]
    {
      hide LevelHolds, Sound, LinkedLevel, ArraySideBook.Live, IsBest, Best;
      LiveLevels(isAsk);
      Book(isAsk).EraseBest();
    }

    /** Exactly the prices of the ledger have levels with orders, and all of those are active. */
    lemma LiveLevels(isAsk: bool)
      requires Valid()
      ensures Book(isAsk).Live() == state.Side(isAsk).Keys && Book(isAsk).Covers() && Book(isAsk).Sized()
      ensures forall i {:trigger Book(isAsk).levels[i]} :: 0 <= i < PRICE_COUNT ==> Book(isAsk).levels[i].Valid()
    {
      hide LevelHolds, LinkedLevel;
      forall i | 0 <= i < PRICE_COUNT
        ensures Book(isAsk).levels[i].Valid() && (Book(isAsk).levels[i].queue != [] <==> i in state.Side(isAsk).Keys)
      {
        AllLinked(isAsk, i);
      }
      assert forall p :: p in state.Side(isAsk) ==> 0 <= p < PRICE_COUNT;
    }

    lemma AllLinked(isAsk: bool, i: int)
      requires Linked() && 0 <= i < PRICE_COUNT
      ensures Book(isAsk).Sized() && Book(isAsk).levels[i].Valid()
      ensures Book(isAsk).levels[i].queue == [] <==> At(state.Side(isAsk), i) == []
      ensures Good(state.Side(isAsk)) ==> (Book(isAsk).levels[i].queue != [] <==> i in state.Side(isAsk))
    {
      assert LinkedLevel(state, isAsk, i);
    }

    /** One round of the inner loops: a trade at the best level is one step of the sweep. */
    method TradeOnce(level: PriceLevel, isAsk: bool, ghost limit: Option<int>, taker: uint64, quantity: uint64,
                     ghost start: Outcome, ghost trades: seq<Trade>)
      returns (trade: Trade)
      requires Valid() && quantity > 0
      requires Book(isAsk).hasBest && level == Book(isAsk).levels[Book(isAsk).bestIdx] && level.queue != []
      requires limit.Some? ==> Crosses(isAsk, limit.value, Book(isAsk).bestIdx)
      requires Continues(start, trades, Sweep(state, isAsk, limit, taker, quantity))
      modifies this`state, pool`freeHead, pool`free, level, pool.slots`prev, pool.slots`next, pool.slots`quantity
      ensures Valid() && level.Valid() && 0 < trade.quantity <= quantity
      ensures Continues(start, trades + [trade], Sweep(state, isAsk, limit, taker, quantity - trade.quantity))
    {
      hide LevelHolds, Linked, Indexed, LinkedLevel, Continues, Good, Partition, InRange, Uncrossed, Sweep;
      CachedBest(isAsk);
      ghost var p := Book(isAsk).bestIdx;
      SweepOne(start, trades, state, isAsk, limit, taker, quantity);
      trade := FillFront(level, taker, quantity, isAsk, p);
      StillIndexed();
      AllLinked(isAsk, p);
    }

    /** The inner matching loop: trades with the best level until it or the quantity is exhausted. */
    method DrainLevel(out: AddResult, level: PriceLevel, isAsk: bool, ghost limit: Option<int>, taker: uint64,
                      quantity: uint64)
      returns (result: AddResult, remaining: uint64, ghost trades: seq<Trade>)
      requires Valid() && Book(isAsk).hasBest && level == Book(isAsk).levels[Book(isAsk).bestIdx]
      requires limit.Some? ==> Crosses(isAsk, limit.value, Book(isAsk).bestIdx)
      requires out.filled + quantity < 0x1_0000_0000_0000_0000
      modifies this`state, pool`freeHead, pool`free, level, pool.slots`prev, pool.slots`next, pool.slots`quantity
      ensures Valid() && remaining <= quantity && level.Valid()
      ensures remaining == 0 || level.queue == []
      ensures Continues(Sweep(old(state), isAsk, limit, taker, quantity), trades,
                        Sweep(state, isAsk, limit, taker, remaining))
      ensures result == out.(trades := out.trades + trades, filled := out.filled + (quantity - remaining))
    {
      hide LevelHolds, Linked, Indexed, LinkedLevel, Continues, Good, Partition, InRange, Uncrossed, Sweep;
      hide ArraySideBook.Valid, Stops, Crosses, Best;
      result, remaining, trades := out, quantity, [];
      ghost var start := Sweep(state, isAsk, limit, taker, quantity);
      CachedBest(isAsk);
      ContinuesHere(start);
      while remaining > 0 && !level.Empty()
        invariant Valid() && remaining <= quantity && level.Valid()
        invariant unchanged(bids) && unchanged(asks)
        invariant unchanged(bids.tree) && unchanged(asks.tree)
        invariant unchanged(bids.tree.words) && unchanged(asks.tree.words)
        invariant Continues(start, trades, Sweep(state, isAsk, limit, taker, remaining))
        invariant result == out.(trades := out.trades + trades, filled := out.filled + (quantity - remaining))
        decreases remaining
      {
        var trade := TradeOnce(level, isAsk, limit, taker, remaining, start, trades);
        result := result.(trades := result.trades + [trade], filled := result.filled + trade.quantity);
        remaining := remaining - trade.quantity;
        trades := trades + [trade];
      }
    }

    /** The body of the outer loops: drains the best level and, if nothing is left in it, moves on. */
    method MatchBest(out: AddResult, isAsk: bool, ghost limit: Option<int>, taker: uint64, quantity: uint64,
                     ghost start: Outcome, ghost done: seq<Trade>)
      returns (result: AddResult, remaining: uint64, ghost trades: seq<Trade>)
      requires Valid() && quantity > 0 && Book(isAsk).hasBest
      requires limit.Some? ==> Crosses(isAsk, limit.value, Book(isAsk).bestIdx)
      requires out.filled + quantity < 0x1_0000_0000_0000_0000
      requires Continues(start, done, Sweep(state, isAsk, limit, taker, quantity))
      modifies Repr()
      ensures Valid() && remaining <= quantity
      ensures remaining < quantity || Book(isAsk).tree.members < old(Book(isAsk).tree.members)
      ensures Continues(start, done + trades, Sweep(state, isAsk, limit, taker, remaining))
      ensures result == out.(trades := out.trades + trades, filled := out.filled + (quantity - remaining))
    {
      hide LevelHolds, Linked, Indexed, LinkedLevel, Continues, Good, Partition, InRange, Uncrossed, Sweep;
      CachedBest(isAsk);
      var level := Book(isAsk).BestLevel();
      result, remaining, trades := DrainLevel(out, level, isAsk, limit, taker, quantity);
      ContinuesThrough(start, done, Sweep(old(state), isAsk, limit, taker, quantity), trades,
                       Sweep(state, isAsk, limit, taker, remaining));
      if level.Empty() {
        Advance(isAsk);
      }
    }

    /** Trades level by level against the other side, up to the limit. */
    method MatchLimit(out: AddResult, side: Side, id: uint64, price: int64, quantity: uint64)
      returns (result: AddResult, remaining: uint64)
      requires Valid() && out.filled + quantity < 0x1_0000_0000_0000_0000
      modifies Repr()
      ensures Valid()
      ensures var o := Sweep(old(state), Opposite(side), Some(price), id, quantity);
        && state == o.after && remaining == o.remaining
        && result == out.(trades := out.trades + o.trades, filled := out.filled + (quantity - o.remaining))
      ensures || remaining == 0 || !Book(Opposite(side)).hasBest
              || !Crosses(Opposite(side), price, Book(Opposite(side)).bestIdx)
    {
      hide LevelHolds, Linked, Indexed, LinkedLevel, Good, Partition, InRange, Uncrossed, Sweep, Continues, Stops;
      hide ArraySideBook.Valid, IsBest, Crosses, Best, Wired;
      var isAsk := Opposite(side);
      result, remaining := out, quantity;
      ghost var start := Sweep(state, isAsk, Some(price), id, quantity);
      ghost var trades: seq<Trade> := [];
      ContinuesHere(start);
      CachedBest(isAsk);
      while remaining > 0 && !Book(isAsk).Empty()
        invariant Valid() && remaining <= quantity
        invariant Continues(start, trades, Sweep(state, isAsk, Some(price), id, remaining))
        invariant result == out.(trades := out.trades + trades, filled := out.filled + (quantity - remaining))
        invariant !Book(isAsk).hasBest ==> state.Side(isAsk) == map[]
        decreases remaining, Book(isAsk).tree.members
      {
        CachedBest(isAsk);
        var bestPrice := Book(isAsk).BestPrice();
        if !Crosses(isAsk, price, bestPrice) {
          break;
        }
        ghost var ts;
        result, remaining, ts := MatchBest(result, isAsk, Some(price), id, remaining, start, trades);
        trades := trades + ts;
        CachedBest(isAsk);
      }
      SweepEnds(start, trades, state, isAsk, Some(price), id, remaining);
    }

    /** The same for a market order, which has no price to stop at. */
    method MatchMarket(out: AddResult, side: Side, id: uint64, quantity: uint64)
      returns (result: AddResult, remaining: uint64)
      requires Valid() && out.filled + quantity < 0x1_0000_0000_0000_0000
      modifies Repr()
      ensures Valid()
      ensures var o := Sweep(old(state), Opposite(side), None, id, quantity);
        && state == o.after && remaining == o.remaining
        && result == out.(trades := out.trades + o.trades, filled := out.filled + (quantity - o.remaining))
    {
      hide LevelHolds, Linked, Indexed, LinkedLevel, Good, Partition, InRange, Uncrossed, Sweep, Continues, Stops;
      var isAsk := Opposite(side);
      result, remaining := out, quantity;
      ghost var start := Sweep(state, isAsk, None, id, quantity);
      ghost var trades: seq<Trade> := [];
      ContinuesHere(start);
      CachedBest(isAsk);
      while remaining > 0 && !Book(isAsk).Empty()
        invariant Valid() && remaining <= quantity
        invariant Continues(start, trades, Sweep(state, isAsk, None, id, remaining))
        invariant result == out.(trades := out.trades + trades, filled := out.filled + (quantity - remaining))
        invariant !Book(isAsk).hasBest ==> state.Side(isAsk) == map[]
        decreases remaining, Book(isAsk).tree.members
      {
        ghost var ts;
        result, remaining, ts := MatchBest(result, isAsk, None, id, remaining, start, trades);
        trades := trades + ts;
        CachedBest(isAsk);
      }
      SweepEnds(start, trades, state, isAsk, None, id, remaining);
    }

    // ---------- the interface ----------

    constructor (capacity: nat)
      requires capacity <= INVALID_HANDLE
      ensures Valid()
      ensures fresh(bids) && fresh(bids.tree) && fresh(bids.tree.words) && fresh(bids.levels)
      ensures fresh(asks) && fresh(asks.tree) && fresh(asks.tree.words) && fresh(asks.levels)
      ensures fresh(pool) && fresh(pool.slots)
      ensures |pool.slots| == capacity
      ensures state == Initial(capacity)
    {
      hide ArraySideBook.Valid, ArraySideBook.Sized, Sound, Linked;
      hide OrderPool.Placed, LevelHolds, PriceLevel.Valid, OrderPool.Valid, ArraySideBook.Covers;
      bids := new ArraySideBook(false, 0);
      asks := new ArraySideBook(true, 0);
      pool := new OrderPool(capacity);
      new;
      state := Ledger(map[], map[], pool.free);
      InitialSound(capacity);
      AllEmpty();
      assert bids.Valid() && asks.Valid();
      assert Indexed();
    }

    /** Empty levels spell the empty book. */
    lemma AllEmpty()
      requires Wired() && pool.Valid() && state == Ledger(map[], map[], pool.free)
      requires forall i {:trigger bids.levels[i]} :: 0 <= i < PRICE_COUNT ==>
        bids.levels[i].Valid() && bids.levels[i].queue == []
      requires forall i {:trigger asks.levels[i]} :: 0 <= i < PRICE_COUNT ==>
        asks.levels[i].Valid() && asks.levels[i].queue == []
      ensures Linked()
    {
      forall a, i | 0 <= i < PRICE_COUNT
        ensures LinkedLevel(state, a, i)
      {
        assert Book(a).levels[i].Valid() && Book(a).levels[i].queue == [];
      }
    }

    /** Rests what is left of a limit order once no active index of the other side crosses it. */
    method RestRemainder(side: Side, price: int64, id: uint64, quantity: uint64, timestamp: uint64)
      returns (h: OrderHandle)
      requires Valid() && 0 <= price < PRICE_COUNT && state.free != []
      requires Sound(RestAt(state, !Opposite(side), price, id, quantity, timestamp), |pool.slots|)
      requires !Book(Opposite(side)).hasBest || !Crosses(Opposite(side), price, Book(Opposite(side)).bestIdx)
      modifies Repr()
      ensures Valid() && state == RestAt(old(state), !Opposite(side), price, id, quantity, timestamp)
      ensures h == old(state).free[0]
    {
      hide LevelHolds, Linked, Sound, RestAt, ArraySideBook.Valid, IsBest, Crosses;
      var opposite := Opposite(side);
      var own := !opposite;
      RestSides(state, own, price, id, quantity, timestamp);
      NoneCrosses(opposite, price);
      Apart();
      h := Rest(own, price, id, quantity, timestamp);
    }

    /** When the cached best index does not cross a price, no active index does, ghosts included. */
    lemma NoneCrosses(isAsk: bool, price: int64)
      requires Valid() && (!Book(isAsk).hasBest || !Crosses(isAsk, price, Book(isAsk).bestIdx))
      ensures isAsk ==> forall x {:trigger x in asks.tree.members} :: x in asks.tree.members ==> price < x
      ensures !isAsk ==> forall x {:trigger x in bids.tree.members} :: x in bids.tree.members ==> x < price
    {}

    lemma Apart()
      requires Linked()
      ensures bids != asks && bids.tree != asks.tree && bids.tree.words != asks.tree.words
      ensures bids.Sized() && asks.Sized()
    {}

    method AddLimitOrder(id: uint64, side: Side, price: int64, quantity: uint64, timestamp: uint64)
      returns (out: AddResult)
      requires Valid() && CanRest(state, id, side, price, quantity)
      modifies Repr()
      ensures Valid()
      ensures (state, out) == AddLimit(old(state), id, side, price, quantity, timestamp)
    {
      hide LevelHolds, Linked, Indexed, Good, Partition, InRange, Uncrossed, Sweep, RestAt;
      out := BLANK_RESULT.(initial := quantity);
      if quantity == 0 {
        return BLANK_RESULT.(code := InvalidQuantity);
      }
      AddLimitKeeps(state, id, side, price, quantity, timestamp, |pool.slots|);
      var remaining: uint64;
      ghost var o := Sweep(state, Opposite(side), Some(price), id, quantity);
      out, remaining := MatchLimit(out, side, id, price, quantity);
      assert [] + o.trades == o.trades;
      out := out.(remaining := remaining);
      if remaining == 0 {
        return out;
      }
      var h := RestRemainder(side, price, id, remaining, timestamp);
      out := out.(code := Success, handle := h);
    }

    method AddMarketOrder(id: uint64, side: Side, quantity: uint64, timestamp: uint64) returns (out: AddResult)
      requires Valid()
      modifies Repr()
      ensures Valid()
      ensures (state, out) == AddMarket(old(state), id, side, quantity)
    {
      hide LevelHolds, Linked, Indexed, Good, Partition, InRange, Uncrossed, Sweep;
      out := BLANK_RESULT.(initial := quantity);
      if quantity == 0 {
        return BLANK_RESULT.(code := InvalidQuantity);
      }
      var remaining: uint64;
      ghost var o := Sweep(state, Opposite(side), None, id, quantity);
      out, remaining := MatchMarket(out, side, id, quantity);
      assert [] + o.trades == o.trades;
      out := out.(remaining := remaining);
      if remaining == 0 {
        return out;
      }
      out := out.(code := MarketRemainderCancelled);
    }

    /** Erases a live order and releases its slot. */
    method Remove(h: OrderHandle) returns (o: Order)
      requires Valid() && Live(state, h)
      modifies this`state, pool`freeHead, pool`free, bids.levels, asks.levels, pool.slots`prev, pool.slots`next
      ensures Valid() && state == Cancel(old(state), h) && o.id == old(Denotes(state, h).id)
    {
      hide LevelHolds, Linked, Indexed, Good, Uncrossed, FreeApart, UniquePlaces, InRange, Cancel, Denotes, RemoveAt;
      CancelKeeps(state, h, |pool.slots|);
      ghost var isAsk, p, k := CancelPlace(state, h);
      Resident(isAsk, p, k);
      o := pool.Resolve(h);
      EraseAndRelease(o, isAsk, p, k);
      StillIndexed();
    }

    method CancelOrder(h: OrderHandle) returns (code: ErrorCode)
      requires Valid() && Live(state, h)
      modifies Repr()
      ensures Valid() && state == Cancel(old(state), h) && code == Success
    {
      var _ := Remove(h);
      code := Success;
    }

    method ModifyOrder(h: OrderHandle, side: Side, price: int64, quantity: uint64, timestamp: uint64)
      returns (out: AddResult)
      requires Valid() && CanModify(state, h, side, price, quantity)
      modifies Repr()
      ensures Valid()
      ensures (state, out) == Modify(old(state), h, side, price, quantity, timestamp)
    {
      var o := Remove(h);
      out := AddLimitOrder(o.id, side, price, quantity, timestamp);
    }
  }
}
