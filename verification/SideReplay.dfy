/** Streams of requests played on the ring side book and on the plain one, from empty sides. */
module SideReplay {
  import opened CachedSideBooks
  import opened PriceLevels
  import opened RingBuffers
  import opened Sequences
  import opened SideBooks
  import opened SideModel
  import opened Types

  // ---------- queues of orders and queues of their ids ----------

  ghost function OrdersOf(q: QueueMap<Order>): set<Order> {
    set p, k | p in q && 0 <= k < |q[p]| :: q[p][k]
  }

  /** w names the orders of q, queue by queue. */
  ghost predicate Spells(q: QueueMap<Order>, w: QueueMap<uint64>)
    reads OrdersOf(q)`id
  {
    && q.Keys == w.Keys
    && (forall p {:trigger q[p]} {:trigger w[p]} :: p in q ==> Names(q[p], w[p]))
  }

  ghost predicate Names(queue: seq<Order>, ids: seq<uint64>)
    reads queue`id
  {
    |queue| == |ids| && forall k {:trigger queue[k]} {:trigger ids[k]} :: 0 <= k < |queue| ==> queue[k].id == ids[k]
  }

  lemma NamesEnd(queue: seq<Order>, ids: seq<uint64>, o: Order)
    requires Names(queue, ids)
    ensures Names(queue + [o], ids + [o.id])
  {}

  lemma NamesWithout(queue: seq<Order>, ids: seq<uint64>, k: nat)
    requires Names(queue, ids) && k < |queue|
    ensures Names(Without(queue, k), Without(ids, k))
  {}

  lemma SpellsPut(q: QueueMap<Order>, w: QueueMap<uint64>, price: int, queue: seq<Order>, ids: seq<uint64>)
    requires Spells(q, w) && Names(queue, ids)
    ensures Spells(q[price := queue], w[price := ids])
  {
    hide Names;
  }

  /** Losing the same queues keeps the rest spelled. */
  lemma SpellsLess(q: QueueMap<Order>, w: QueueMap<uint64>, q': QueueMap<Order>, w': QueueMap<uint64>)
    requires Spells(q, w) && q'.Keys == w'.Keys
    requires forall p {:trigger q'[p]} {:trigger p in q'} :: p in q' ==> p in q && q'[p] == q[p]
    requires forall p {:trigger w'[p]} {:trigger p in w'} :: p in w' ==> p in w && w'[p] == w[p]
    ensures Spells(q', w')
  {
    hide Names;
  }

  lemma SameEmpties(q: QueueMap<Order>, w: QueueMap<uint64>)
    requires Spells(q, w)
    ensures q.Keys == w.Keys && (q == map[] <==> w == map[])
    ensures forall p {:trigger q[p]} {:trigger w[p]} :: p in q ==> |q[p]| == |w[p]| && (q[p] == [] <==> w[p] == [])
  {
    assert q == map[] <==> q.Keys == {};
  }

  lemma SpellsKept(storage: Storage, isAsk: bool, q: QueueMap<Order>, w: QueueMap<uint64>, price: int)
    requires Spells(q, w)
    ensures Spells(Kept(storage, isAsk, q, price), Kept(storage, isAsk, w, price))
    ensures |Kept(storage, isAsk, q, price)| == |Kept(storage, isAsk, w, price)|
  {
    hide Spells;
    var q', w' := Kept(storage, isAsk, q, price), Kept(storage, isAsk, w, price);
    SameEmpties(q, w);
    forall p
      ensures p in q' <==> p in w'
    {
      assert p in q ==> (q[p] == [] <==> w[p] == []);
    }
    assert q'.Keys == w'.Keys;
    SpellsLess(q, w, q', w');
    assert |q'| == |q'.Keys| == |w'|;
  }

  lemma SpellsCreated(storage: Storage, isAsk: bool, q: QueueMap<Order>, w: QueueMap<uint64>, price: int)
    requires Spells(q, w)
    ensures Spells(Created(storage, isAsk, q, price), Created(storage, isAsk, w, price))
  {
    hide Spells, Kept;
    SameEmpties(q, w);
    SpellsKept(storage, isAsk, q, w, price);
    SpellsPut(Kept(storage, isAsk, q, price), Kept(storage, isAsk, w, price), price, [], []);
  }

  lemma SpellsErased(storage: Storage, isAsk: bool, q: QueueMap<Order>, w: QueueMap<uint64>)
    requires Spells(q, w)
    ensures Spells(Erased(storage, isAsk, q), Erased(storage, isAsk, w))
    ensures GhostBest(isAsk, q) <==> GhostBest(isAsk, w)
  {
    hide Spells, Led;
    var q', w' := Erased(storage, isAsk, q), Erased(storage, isAsk, w);
    SameEmpties(q, w);
    if GhostBest(isAsk, q) {
      forall p
        ensures p in q' <==> p in w'
      {
        SameLed(isAsk, BestOf(isAsk, q.Keys), q, w, p);
      }
      assert q'.Keys == w'.Keys;
    }
    SpellsLess(q, w, q', w');
  }

  lemma SameLed(isAsk: bool, best: int, q: QueueMap<Order>, w: QueueMap<uint64>, p: int)
    requires Spells(q, w)
    ensures Led(isAsk, best, q, p) <==> Led(isAsk, best, w, p)
  {
    hide Spells;
    SameEmpties(q, w);
    assert forall r {:trigger q[r]} {:trigger w[r]} :: r in q ==> (q[r] == [] <==> w[r] == []);
  }

  lemma {:induction false} SpellsSkipped(storage: Storage, isAsk: bool, q: QueueMap<Order>, w: QueueMap<uint64>)
    requires Spells(q, w)
    ensures Spells(Skipped(storage, isAsk, q), Skipped(storage, isAsk, w))
    decreases |q|
  {
    hide Spells, Erased, GhostBest;
    SpellsErased(storage, isAsk, q, w);
    if GhostBest(isAsk, q) {
      GhostInside(isAsk, q);
      Smaller(q, Erased(storage, isAsk, q), BestOf(isAsk, q.Keys));
      SpellsSkipped(storage, isAsk, Erased(storage, isAsk, q), Erased(storage, isAsk, w));
    }
  }

  /** The request that names the order by its id. */
  ghost function Named(r: SideRequest<Order>): SideRequest<uint64>
    reads if r.Rest? then {r.order} else {}
  {
    match r
    case Create(price) => Create(price)
    case Rest(price, o) => SideRequest.Rest(price, o.id)
    case Unlink(price, k) => Unlink(price, k)
    case EraseBest => EraseBest
    case SkipGhosts => SkipGhosts
  }

  /** Steps on orders and steps on their ids stay in step. */
  lemma SpellsStep(storage: Storage, isAsk: bool, q: QueueMap<Order>, w: QueueMap<uint64>, r: SideRequest<Order>)
    requires Spells(q, w)
    ensures Spells(Step(storage, isAsk, q, r), Step(storage, isAsk, w, Named(r)))
  {
    hide Spells, Created, Erased, Skipped, Names, Without;
    match r {
      case Create(price) => SpellsCreated(storage, isAsk, q, w, price);
      case Rest(price, o) =>
        SpellsCreated(storage, isAsk, q, w, price);
        var c, d := Created(storage, isAsk, q, price), Created(storage, isAsk, w, price);
        SpelledAt(c, d, price);
        NamesEnd(c[price], d[price], o);
        SpellsPut(c, d, price, c[price] + [o], d[price] + [o.id]);
      case Unlink(price, k) =>
        SameEmpties(q, w);
        if price in q && k < |q[price]| {
          SpelledAt(q, w, price);
          NamesWithout(q[price], w[price], k);
          SpellsPut(q, w, price, Without(q[price], k), Without(w[price], k));
        }
      case EraseBest => SpellsErased(storage, isAsk, q, w);
      case SkipGhosts => SpellsSkipped(storage, isAsk, q, w);
    }
  }

  lemma SpelledAt(q: QueueMap<Order>, w: QueueMap<uint64>, price: int)
    requires Spells(q, w) && price in q
    ensures price in w && Names(q[price], w[price])
  {}

  lemma SpellsTop(isAsk: bool, q: QueueMap<Order>, w: QueueMap<uint64>)
    requires Spells(q, w) && q != map[] && !GhostBest(isAsk, q)
    ensures Top(isAsk, w) == Some((BestOf(isAsk, q.Keys), q[BestOf(isAsk, q.Keys)][0].id))
  {
    SpellsErased(OneMap, isAsk, q, w);
    SameEmpties(q, w);
    SpelledAt(q, w, BestOf(isAsk, q.Keys));
  }

  lemma SpellsShown(q: QueueMap<Order>, w: QueueMap<uint64>)
    requires Spells(q, w)
    ensures Spells(Shown(q), Shown(w))
  {
    SameEmpties(q, w);
    forall p
      ensures p in Shown(q) <==> p in Shown(w)
    {
      assert p in q ==> (q[p] == [] <==> w[p] == []);
    }
    SpellsLess(q, w, Shown(q), Shown(w));
  }

  // ---------- which orders rest ----------

  lemma OrdersLess(q: QueueMap<Order>, q': QueueMap<Order>)
    requires forall p {:trigger q'[p]} {:trigger p in q'} :: p in q' ==> p in q && q'[p] == q[p]
    ensures OrdersOf(q') <= OrdersOf(q)
  {}

  lemma OrdersPut(q: QueueMap<Order>, price: int, queue: seq<Order>, o: Order)
    requires forall x {:trigger x in queue} :: x in queue ==> x in At(q, price) || x == o
    ensures OrdersOf(q[price := queue]) <= OrdersOf(q) + {o}
    ensures o in At(q, price) ==> OrdersOf(q[price := queue]) <= OrdersOf(q)
  {
    forall x | x in OrdersOf(q[price := queue])
      ensures x in OrdersOf(q) || (x == o && o !in At(q, price))
    {
      var p, k :| p in q[price := queue] && 0 <= k < |q[price := queue][p]| && x == q[price := queue][p][k];
      if p == price {
        assert x in queue;
      }
    }
  }

  lemma CreatedOrders(storage: Storage, isAsk: bool, q: QueueMap<Order>, price: int)
    ensures OrdersOf(Created(storage, isAsk, q, price)) <= OrdersOf(q)
  {
    var kept := Kept(storage, isAsk, q, price);
    OrdersLess(q, kept);
    forall x | x in OrdersOf(kept[price := []])
      ensures x in OrdersOf(kept)
    {
    }
  }

  lemma {:induction false} SkippedOrders(storage: Storage, isAsk: bool, q: QueueMap<Order>)
    ensures OrdersOf(Skipped(storage, isAsk, q)) <= OrdersOf(q)
    decreases |q|
  {
    hide OrdersOf, GhostBest;
    if GhostBest(isAsk, q) {
      OrdersLess(q, Erased(storage, isAsk, q));
      GhostInside(isAsk, q);
      Smaller(q, Erased(storage, isAsk, q), BestOf(isAsk, q.Keys));
      SkippedOrders(storage, isAsk, Erased(storage, isAsk, q));
    }
  }

  /** Only what is rested is new among the resting orders. */
  lemma StepOrders(storage: Storage, isAsk: bool, q: QueueMap<Order>, r: SideRequest<Order>)
    ensures OrdersOf(Step(storage, isAsk, q, r)) <= OrdersOf(q) + if r.Rest? then {r.order} else {}
  {
    hide OrdersOf, Created, Erased, Skipped, Kept;
    match r {
      case Create(price) => CreatedOrders(storage, isAsk, q, price);
      case Rest(price, o) =>
        CreatedOrders(storage, isAsk, q, price);
        var c := Created(storage, isAsk, q, price);
        OrdersPut(c, price, c[price] + [o], o);
      case Unlink(price, k) =>
        if price in q && k < |q[price]| {
          OrdersPut(q, price, Without(q[price], k), q[price][k]);
        }
      case EraseBest => OrdersLess(q, Erased(storage, isAsk, q));
      case SkipGhosts => SkippedOrders(storage, isAsk, q);
    }
  }

  // ---------- the ring side book ----------

  /** The book is intact and its queues hold the orders with these ids. */
  ghost predicate RingHolds(book: CachedSideBook, w: QueueMap<uint64>)
    reads book, book.hot, book.hot.slots, book.pool, book.pool.slots, book.pool.Levels(), book.contents.Values
    reads OrdersOf(Queues(book.contents))
    reads set p, k | p in book.contents && 0 <= k < |book.contents[p].queue| :: book.contents[p].queue[k]
  {
    && book.Valid() && Linked(book.contents) && Parented(book.contents)
    && Spells(Queues(book.contents), w)
  }

  /** The k-th order of a level, found by following the links. */
  method OrderAt(level: PriceLevel, k: nat) returns (o: Order)
    requires level.Valid() && k < |level.queue|
    ensures o == level.queue[k]
  {
    o := level.head;
    for i := 0 to k
      invariant o == level.queue[i]
    {
      assert level.queue[i].next == level.queue[i + 1];
      o := o.next;
    }
  }

  /** The price has a level, or there is a free one for it. */
  ghost predicate RoomLeft(book: CachedSideBook, price: int)
    reads book, book.pool, book.contents.Values
  {
    price in book.contents || |Slid(book.isAsk, book.contents, price)| < |book.pool.slots|
  }

  lemma QueueOrders(m: LevelMap, price: int)
    ensures price in m ==> Queues(m)[price] == m[price].queue && At(Queues(m), price) == m[price].queue
    ensures price in m ==> forall k {:trigger m[price].queue[k]} :: 0 <= k < |m[price].queue| ==>
      m[price].queue[k] in OrdersOf(Queues(m))
    ensures price !in m ==> At(Queues(m), price) == []
  {
    if price in m {
      assert Queues(m)[price] == m[price].queue;
      forall k | 0 <= k < |m[price].queue|
        ensures m[price].queue[k] in OrdersOf(Queues(m))
      {
        assert Queues(m)[price][k] == m[price].queue[k];
      }
    }
  }

  lemma ServedHasRoom(book: CachedSideBook, w: QueueMap<uint64>, price: int)
    requires Spells(Queues(book.contents), w)
    requires price in w || |Kept(RingAndCold, book.isAsk, w, price)| < |book.pool.slots|
    ensures RoomLeft(book, price)
  {
    hide Spells, Slid, Kept;
    SameEmpties(Queues(book.contents), w);
    QueuesKeys(book.contents);
    SlidQueues(book.isAsk, book.contents, price);
    QueuesKeys(Slid(book.isAsk, book.contents, price));
    SpellsKept(RingAndCold, book.isAsk, Queues(book.contents), w, price);
    assert |Slid(book.isAsk, book.contents, price)| == |Slid(book.isAsk, book.contents, price).Keys|;
    assert |Queues(Slid(book.isAsk, book.contents, price))| == |Queues(Slid(book.isAsk, book.contents, price)).Keys|;
  }

  method RingCreate(book: CachedSideBook, price: int64)
    requires book.Valid() && Linked(book.contents) && Parented(book.contents) && Bounded(price) && RoomLeft(book, price)
    modifies book`cold, book`contents, book.hot, book.hot.slots
    modifies book.pool`freeHead, book.pool`free, book.pool.slots`next, book.pool.Levels()
    ensures book.Valid() && Linked(book.contents) && Parented(book.contents)
    ensures Queues(book.contents) == Step(RingAndCold, book.isAsk, old(Queues(book.contents)), Create(price))
  {
    hide CachedSideBook.Valid, Linked, Parented, Queues, Created, Slid;
    var level := book.GetOrCreate(price);
  }

  method RingRest(book: CachedSideBook, price: int64, id: uint64) returns (o: Order)
    requires book.Valid() && Linked(book.contents) && Parented(book.contents) && Bounded(price) && RoomLeft(book, price)
    modifies book`cold, book`contents, book.hot, book.hot.slots
    modifies book.pool`freeHead, book.pool`free, book.pool.slots`next, book.pool.Levels()
    modifies OrdersOf(Queues(book.contents))`next
    ensures book.Valid() && Linked(book.contents) && Parented(book.contents)
    ensures fresh(o) && o.id == id
    ensures Queues(book.contents)
         == Step(RingAndCold, book.isAsk, old(Queues(book.contents)), SideRequest.Rest(price, o))
  {
    hide CachedSideBook.Valid, Linked, Parented, Queues, Created, Slid, OrdersOf;
    QueueOrders(book.contents, price);
    o := new Order(0);
    o.id := id;
    var level := book.Rest(price, o);
  }

  method RingUnlink(book: CachedSideBook, price: int64, k: nat)
    requires book.Valid() && Linked(book.contents) && Parented(book.contents) && k < |At(Queues(book.contents), price)|
    modifies book`cold, book`contents, book.hot, book.hot.slots
    modifies book.pool`freeHead, book.pool`free, book.pool.slots`next, book.pool.Levels()
    modifies OrdersOf(Queues(book.contents))`next, OrdersOf(Queues(book.contents))`prev
    ensures book.Valid() && Linked(book.contents) && Parented(book.contents)
    ensures Queues(book.contents) == Step(RingAndCold, book.isAsk, old(Queues(book.contents)), Unlink(price, k))
  {
    hide CachedSideBook.Valid, Linked, Parented, Queues, Slid, OrdersOf, PriceLevel.Valid;
    QueueOrders(book.contents, price);
    book.LegitimatePrice(price);
    var level := book.GetOrCreate(price);
    LevelOf(book.contents, price);
    book.LevelInUse(price);
    var o := OrderAt(level, k);
    book.Unlink(price, level, o, k);
  }

  method RingErase(book: CachedSideBook)
    requires book.Valid() && Linked(book.contents) && Parented(book.contents)
    modifies book`cold, book`contents, book.hot, book.hot.slots
    modifies book.pool`freeHead, book.pool`free, book.pool.slots`next, book.pool.Levels()
    ensures book.Valid() && Linked(book.contents) && Parented(book.contents)
    ensures Queues(book.contents) == Step(RingAndCold, book.isAsk, old(Queues(book.contents)), EraseBest)
  {
    hide CachedSideBook.Structure, Linked, Parented, Queues, Erased, NoneLive, PriceLevel.Valid;
    book.GhostAtBest();
    if !book.Empty() {
      LevelOf(book.contents, book.BestPrice());
      book.BestIsAtAnchor();
      if book.BestLevel().Empty() {
        book.EraseBest();
        return;
      }
    }
    ErasedOnly(RingAndCold, book.isAsk, Queues(book.contents));
  }

  lemma ErasedOnly<T>(storage: Storage, isAsk: bool, q: QueueMap<T>)
    requires !GhostBest(isAsk, q)
    ensures Erased(storage, isAsk, q) == q
  {}

  /** The best price and the id of the order to trade next. */
  method RingTop(book: CachedSideBook, ghost w: QueueMap<uint64>) returns (seen: Option<(int, uint64)>)
    requires RingHolds(book, w) && !GhostBest(book.isAsk, w)
    ensures seen == Top(book.isAsk, w)
  {
    hide CachedSideBook.Structure, Linked, Parented, Queues, GhostBest, Spells, NoneLive, PriceLevel.Valid;
    QueuesKeys(book.contents);
    SameEmpties(Queues(book.contents), w);
    SpellsErased(RingAndCold, book.isAsk, Queues(book.contents), w);
    book.GhostAtBest();
    if book.Empty() {
      return None;
    }
    LevelOf(book.contents, book.BestPrice());
    SpellsTop(book.isAsk, Queues(book.contents), w);
    return Some((book.BestPrice(), book.BestLevel().Front().id));
  }

  /** Skips the ghosts and looks at the top. */
  method RingSkip(book: CachedSideBook, ghost q: QueueMap<Order>, ghost w: QueueMap<uint64>)
    returns (seen: Option<(int, uint64)>)
    requires RingHolds(book, w) && q == Queues(book.contents)
    modifies book`cold, book`contents, book.hot, book.hot.slots
    modifies book.pool`freeHead, book.pool`free, book.pool.slots`next, book.pool.Levels()
    ensures book.Valid() && Linked(book.contents) && Parented(book.contents)
    ensures Queues(book.contents) == Step(RingAndCold, book.isAsk, old(Queues(book.contents)), SkipGhosts)
    ensures seen == Top(book.isAsk, Skipped(RingAndCold, book.isAsk, w))
  {
    hide CachedSideBook.Valid, Linked, Parented, Queues, Skipped, GhostBest, Top, PriceLevel.Valid;
    book.SkipGhosts();
    assert Spells(q, w);
    SpellsSkipped(RingAndCold, book.isAsk, q, w);
    SkippedUnseen(RingAndCold, book.isAsk, w);
    seen := RingTop(book, Skipped(RingAndCold, book.isAsk, w));
  }

  /** Plays one request on the ring side book. */
  method PlayRing(book: CachedSideBook, ghost q: QueueMap<Order>, ghost w: QueueMap<uint64>, r: SideRequest<uint64>)
    returns (seen: Option<(int, uint64)>)
    requires RingHolds(book, w) && q == Queues(book.contents) && Served(book.isAsk, |book.pool.slots|, w, r)
    modifies book`cold, book`contents, book.hot, book.hot.slots
    modifies book.pool`freeHead, book.pool`free, book.pool.slots`next, book.pool.Levels()
    modifies OrdersOf(Queues(book.contents))`next, OrdersOf(Queues(book.contents))`prev
    ensures RingHolds(book, Step(RingAndCold, book.isAsk, w, r))
    ensures seen == Seen(RingAndCold, book.isAsk, w, r)
    ensures fresh(OrdersOf(Queues(book.contents)) - old(OrdersOf(Queues(book.contents))))
  {
    hide CachedSideBook.Valid, Linked, Parented, Queues, OrdersOf, RoomLeft, Step, Skipped, Kept;
    ghost var named := SideRequest<Order>.EraseBest;
    seen := None;
    match r {
      case Create(price) =>
        ServedHasRoom(book, w, price);
        RingCreate(book, price);
        named := Create(price);
      case Rest(price, id) =>
        ServedHasRoom(book, w, price);
        var o := RingRest(book, price, id);
        named := SideRequest.Rest(price, o);
      case Unlink(price, k) =>
        SpellsAt(q, w, price);
        RingUnlink(book, price, k);
        named := Unlink(price, k);
      case EraseBest =>
        RingErase(book);
      case SkipGhosts =>
        seen := RingSkip(book, q, w);
        named := SkipGhosts;
    }
    assert Spells(q, w);
    SpellsStep(RingAndCold, book.isAsk, q, w, named);
    StepOrders(RingAndCold, book.isAsk, q, named);
  }

  lemma SpellsAt(q: QueueMap<Order>, w: QueueMap<uint64>, price: int)
    requires Spells(q, w)
    ensures |At(q, price)| == |At(w, price)|
  {
    SameEmpties(q, w);
  }

  // ---------- the plain side book ----------

  ghost predicate PlainHolds(side: SideBook, w: QueueMap<uint64>)
    reads side, side.levels.Values, OrdersOf(Queues(side.levels))
    reads set p, k | p in side.levels && 0 <= k < |side.levels[p].queue| :: side.levels[p].queue[k]
  {
    Linked(side.levels) && Parented(side.levels) && Spells(Queues(side.levels), w)
  }

  method PlainRest(side: SideBook, price: int64, id: uint64) returns (o: Order)
    requires Linked(side.levels) && Parented(side.levels)
    modifies side, side.levels.Values, OrdersOf(Queues(side.levels))`next
    ensures Linked(side.levels) && Parented(side.levels) && fresh(side.levels.Values - old(side.levels.Values))
    ensures fresh(o) && o.id == id
    ensures Queues(side.levels) == Step(OneMap, side.isAsk, old(Queues(side.levels)), SideRequest.Rest(price, o))
  {
    hide Linked, Parented, Queues, Created, OrdersOf, PriceLevel.Valid;
    QueueOrders(side.levels, price);
    o := new Order(0);
    o.id := id;
    ghost var before := side.levels;
    assert Absent(o, before);
    var level, inserted := side.GetOrCreate(price);
    StillAbsent(before, side.levels, price, o) by { AddedAlone(before, side.levels, price, level); }
    QueueOf(side.levels, price);
    PushOn(side.levels, price, level, o);
  }

  method PlainUnlink(side: SideBook, price: int64, k: nat)
    requires Linked(side.levels) && Parented(side.levels) && k < |At(Queues(side.levels), price)|
    modifies side, side.levels.Values, OrdersOf(Queues(side.levels))`next, OrdersOf(Queues(side.levels))`prev
    ensures Linked(side.levels) && Parented(side.levels) && side.levels == old(side.levels)
    ensures Queues(side.levels) == Step(OneMap, side.isAsk, old(Queues(side.levels)), Unlink(price, k))
  {
    hide Linked, Parented, Queues, OrdersOf, PriceLevel.Valid;
    QueueOrders(side.levels, price);
    var level, inserted := side.GetOrCreate(price);
    LevelOf(side.levels, price);
    var o := OrderAt(level, k);
    EraseFrom(side.levels, price, level, o, k);
  }

  method PlainErase(side: SideBook)
    requires Linked(side.levels) && Parented(side.levels)
    modifies side
    ensures Linked(side.levels) && Parented(side.levels) && side.levels.Values <= old(side.levels.Values)
    ensures Queues(side.levels) == Step(OneMap, side.isAsk, old(Queues(side.levels)), EraseBest)
  {
    hide Linked, Parented, Queues, Erased, PriceLevel.Valid;
    QueuesKeys(side.levels);
    if !side.Empty() {
      LevelOf(side.levels, side.BestPrice());
      if side.levels[side.BestPrice()].Empty() {
        side.EraseBest();
        return;
      }
    }
    ErasedOnly(OneMap, side.isAsk, Queues(side.levels));
  }

  method PlainSkip(side: SideBook, ghost q: QueueMap<Order>, ghost w: QueueMap<uint64>)
    returns (seen: Option<(int, uint64)>)
    requires PlainHolds(side, w) && q == Queues(side.levels)
    modifies side
    ensures Linked(side.levels) && Parented(side.levels) && side.levels.Values <= old(side.levels.Values)
    ensures Queues(side.levels) == Step(OneMap, side.isAsk, old(Queues(side.levels)), SkipGhosts)
    ensures seen == Top(side.isAsk, Skipped(OneMap, side.isAsk, w))
  {
    hide Linked, Parented, Queues, Skipped, PriceLevel.Valid;
    side.SkipGhosts();
    assert Spells(q, w);
    SkippedUnseen(OneMap, side.isAsk, q);
    SpellsSkipped(OneMap, side.isAsk, q, w);
    QueuesKeys(side.levels);
    SameEmpties(Queues(side.levels), Skipped(OneMap, side.isAsk, w));
    if side.Empty() {
      return None;
    }
    LevelOf(side.levels, side.BestPrice());
    SpellsTop(side.isAsk, Queues(side.levels), Skipped(OneMap, side.isAsk, w));
    return Some((side.BestPrice(), side.levels[side.BestPrice()].Front().id));
  }

  /** Plays one request on the plain side book. */
  method PlayPlain(side: SideBook, ghost q: QueueMap<Order>, ghost w: QueueMap<uint64>, r: SideRequest<uint64>)
    returns (seen: Option<(int, uint64)>)
    requires PlainHolds(side, w) && q == Queues(side.levels) && (r.Unlink? ==> r.k < |At(w, r.price)|)
    modifies side, side.levels.Values, OrdersOf(Queues(side.levels))`next, OrdersOf(Queues(side.levels))`prev
    ensures PlainHolds(side, Step(OneMap, side.isAsk, w, r))
    ensures seen == Seen(OneMap, side.isAsk, w, r)
    ensures fresh(side.levels.Values - old(side.levels.Values))
    ensures fresh(OrdersOf(Queues(side.levels)) - old(OrdersOf(Queues(side.levels))))
  {
    hide Linked, Parented, Queues, OrdersOf, Step, Skipped, Kept;
    ghost var named := SideRequest<Order>.EraseBest;
    seen := None;
    match r {
      case Create(price) =>
        var level, inserted := side.GetOrCreate(price);
        named := Create(price);
        assert Queues(side.levels) == Step(OneMap, side.isAsk, q, named) by {
          StepCreate(OneMap, side.isAsk, q, price);
        }
      case Rest(price, id) =>
        var o := PlainRest(side, price, id);
        named := SideRequest.Rest(price, o);
      case Unlink(price, k) =>
        SpellsAt(q, w, price);
        PlainUnlink(side, price, k);
        named := Unlink(price, k);
      case EraseBest =>
        PlainErase(side);
      case SkipGhosts =>
        seen := PlainSkip(side, q, w);
        named := SkipGhosts;
    }
    assert Spells(q, w);
    SpellsStep(OneMap, side.isAsk, q, w, named);
    StepOrders(OneMap, side.isAsk, q, named);
  }

  lemma StepCreate<T>(storage: Storage, isAsk: bool, q: QueueMap<T>, price: int64)
    ensures Step(storage, isAsk, q, Create(price)) == Created(storage, isAsk, q, price)
  {}

  // ---------- whole streams ----------

  /** Before request i of a stream: what is still to come leads to where the whole stream leads. */
  ghost predicate Midway(storage: Storage, isAsk: bool, rs: seq<SideRequest<uint64>>, i: nat,
                         w: QueueMap<uint64>, seen: seq<Option<(int, uint64)>>)
    requires i <= |rs|
  {
    && Run(storage, isAsk, w, rs[i..]) == Run(storage, isAsk, map[], rs)
    && seen + AllSeen(storage, isAsk, w, rs[i..]) == AllSeen(storage, isAsk, map[], rs)
  }

  lemma MidwayStart(storage: Storage, isAsk: bool, rs: seq<SideRequest<uint64>>)
    ensures Midway(storage, isAsk, rs, 0, map[], [])
  {
    assert rs[0..] == rs;
  }

  lemma MidwayNext(storage: Storage, isAsk: bool, rs: seq<SideRequest<uint64>>, i: nat,
                   w: QueueMap<uint64>, seen: seq<Option<(int, uint64)>>)
    requires i < |rs| && Midway(storage, isAsk, rs, i, w, seen)
    ensures Midway(storage, isAsk, rs, i + 1, Step(storage, isAsk, w, rs[i]), seen + [Seen(storage, isAsk, w, rs[i])])
  {
    hide Step, Seen;
    assert rs[i..][0] == rs[i] && rs[i..][1..] == rs[i + 1..];
  }

  lemma MidwayEnd(storage: Storage, isAsk: bool, rs: seq<SideRequest<uint64>>,
                  w: QueueMap<uint64>, seen: seq<Option<(int, uint64)>>)
    requires Midway(storage, isAsk, rs, |rs|, w, seen)
    ensures w == Run(storage, isAsk, map[], rs) && seen == AllSeen(storage, isAsk, map[], rs)
  {
    assert rs[|rs|..] == [];
  }

  lemma NextServed(isAsk: bool, capacity: nat, w: QueueMap<uint64>, rs: seq<SideRequest<uint64>>, i: nat)
    requires i < |rs| && AllServed(isAsk, capacity, w, rs[i..])
    ensures Served(isAsk, capacity, w, rs[i])
    ensures AllServed(isAsk, capacity, Step(RingAndCold, isAsk, w, rs[i]), rs[i + 1..])
  {
    hide Step, Served;
    assert rs[i..][0] == rs[i] && rs[i..][1..] == rs[i + 1..];
  }

  /** Plays a stream on a ring side book that starts empty. */
  method RunRing(isAsk: bool, capacity: nat, rs: seq<SideRequest<uint64>>)
    returns (book: CachedSideBook, seen: seq<Option<(int, uint64)>>)
    requires AllServed(isAsk, capacity, map[], rs)
    ensures fresh(book) && RingHolds(book, Run(RingAndCold, isAsk, map[], rs))
    ensures seen == AllSeen(RingAndCold, isAsk, map[], rs)
  {
    hide AllServed, Served, Step, Midway, Seen, Run, AllSeen, RingHolds, CachedSideBook.Valid, Linked, Parented, Queues;
    book := new CachedSideBook(isAsk, capacity);
    ghost var w: QueueMap<uint64> := map[];
    seen := [];
    EmptyRing(book);
    MidwayStart(RingAndCold, isAsk, rs);
    assert rs[0..] == rs;
    for i := 0 to |rs|
      invariant book.isAsk == isAsk && |book.pool.slots| == capacity && RingHolds(book, w)
      invariant fresh(book) && fresh(book.hot) && fresh(book.hot.slots)
      invariant fresh(book.pool) && fresh(book.pool.slots) && fresh(book.pool.Levels())
      invariant fresh(OrdersOf(Queues(book.contents)))
      invariant AllServed(isAsk, capacity, w, rs[i..]) && Midway(RingAndCold, isAsk, rs, i, w, seen)
    {
      NextServed(isAsk, capacity, w, rs, i);
      MidwayNext(RingAndCold, isAsk, rs, i, w, seen);
      ghost var before := OrdersOf(Queues(book.contents));
      var s := PlayRing(book, Queues(book.contents), w, rs[i]);
      ghost var after := OrdersOf(Queues(book.contents));
      assert forall o: Order {:trigger o in after} :: o in after ==> o in before || o in after - before;
      w := Step(RingAndCold, isAsk, w, rs[i]);
      seen := seen + [s];
    }
    MidwayEnd(RingAndCold, isAsk, rs, w, seen);
  }

  lemma EmptyRing(book: CachedSideBook)
    requires book.Valid() && Linked(book.contents) && Parented(book.contents) && book.contents == map[]
    ensures RingHolds(book, map[]) && OrdersOf(Queues(book.contents)) == {}
  {
    hide CachedSideBook.Valid, Linked, Parented;
  }

  /** Plays a stream on a plain side book that starts empty. */
  method RunPlain(isAsk: bool, capacity: nat, rs: seq<SideRequest<uint64>>)
    returns (side: SideBook, seen: seq<Option<(int, uint64)>>)
    requires AllServed(isAsk, capacity, map[], rs)
    ensures fresh(side) && PlainHolds(side, Run(OneMap, isAsk, map[], rs))
    ensures seen == AllSeen(OneMap, isAsk, map[], rs)
  {
    hide AllServed, Served, Step, Midway, Seen, Run, AllSeen, PlainHolds, Linked, Parented, Queues, Shown;
    side := new SideBook(isAsk);
    ghost var w, ring: QueueMap<uint64> := map[], map[];
    seen := [];
    EmptyPlain(side);
    MidwayStart(OneMap, isAsk, rs);
    assert rs[0..] == rs;
    for i := 0 to |rs|
      invariant side.isAsk == isAsk && PlainHolds(side, w)
      invariant fresh(side) && fresh(side.levels.Values) && fresh(OrdersOf(Queues(side.levels)))
      invariant AllServed(isAsk, capacity, ring, rs[i..])
      invariant Shown(w) == Shown(ring) && Midway(OneMap, isAsk, rs, i, w, seen)
    {
      NextServed(isAsk, capacity, ring, rs, i);
      MidwayNext(OneMap, isAsk, rs, i, w, seen);
      SameDemand(isAsk, capacity, w, ring, rs[i]);
      StepShown(OneMap, isAsk, w, rs[i]);
      StepShown(RingAndCold, isAsk, ring, rs[i]);
      ghost var before := OrdersOf(Queues(side.levels));
      var s := PlayPlain(side, Queues(side.levels), w, rs[i]);
      ghost var after := OrdersOf(Queues(side.levels));
      assert forall o: Order {:trigger o in after} :: o in after ==> o in before || o in after - before;
      w, ring := Step(OneMap, isAsk, w, rs[i]), Step(RingAndCold, isAsk, ring, rs[i]);
      seen := seen + [s];
    }
    MidwayEnd(OneMap, isAsk, rs, w, seen);
  }

  lemma EmptyPlain(side: SideBook)
    requires side.levels == map[]
    ensures PlainHolds(side, map[]) && OrdersOf(Queues(side.levels)) == {}
  {}

  /** What may be unlinked depends on what shows. */
  lemma SameDemand(isAsk: bool, capacity: nat, w: QueueMap<uint64>, ring: QueueMap<uint64>, r: SideRequest<uint64>)
    requires Shown(w) == Shown(ring) && Served(isAsk, capacity, ring, r)
    ensures r.Unlink? ==> r.k < |At(w, r.price)|
  {
    if r.Unlink? {
      ShownAt(w, r.price);
      ShownAt(ring, r.price);
    }
  }

  /**
   * The ring side book and the plain one are interchangeable: every stream of requests that its caller may
   * make of an empty side shows the same on both, and ends with the same orders resting at the same prices
   * in the same order. Both are what the stream does to bare queues.
   */
  method ReplaySides(isAsk: bool, capacity: nat, rs: seq<SideRequest<uint64>>)
    returns (ring: CachedSideBook, plain: SideBook,
             ringSeen: seq<Option<(int, uint64)>>, plainSeen: seq<Option<(int, uint64)>>)
    requires AllServed(isAsk, capacity, map[], rs)
    ensures ringSeen == plainSeen == BareSeen(isAsk, map[], rs)
    ensures Spells(Resting(ring.contents), BareRun(map[], rs))
    ensures Spells(Resting(plain.levels), BareRun(map[], rs))
  {
    hide AllServed, AllSeen, BareSeen, Run, BareRun, CachedSideBook.Valid, Linked, Parented;
    ring, ringSeen := RunRing(isAsk, capacity, rs);
    plain, plainSeen := RunPlain(isAsk, capacity, rs);
    ghost var none: QueueMap<uint64> := map[];
    assert Shown(none) == none;
    RunShown(RingAndCold, isAsk, none, rs);
    RunShown(OneMap, isAsk, none, rs);
    SpellsShown(Queues(ring.contents), Run(RingAndCold, isAsk, none, rs));
    SpellsShown(Queues(plain.levels), Run(OneMap, isAsk, none, rs));
  }

  // ---------- an empty best level after an erase ----------

  /** Two asks further apart than the window is wide; both go, and the better level is erased. */
  const PULLED_IN: seq<SideRequest<uint64>> :=
    [SideRequest.Rest(100, 1), SideRequest.Rest(200, 2), Unlink(100, 0), Unlink(200, 0), EraseBest]

  lemma PulledInSteps()
    ensures AllServed(true, 2, map[], PULLED_IN)
    ensures Run(RingAndCold, true, map[], PULLED_IN) == map[200 := []]
  {
    var rs := PULLED_IN;
    var none, one, two := map[], map[100 := [1 as uint64]], map[100 := [1 as uint64], 200 := [2 as uint64]];
    var left, drained := map[100 := [], 200 := [2 as uint64]], map[100 := [], 200 := []];
    RestAlone(none, 100, 1);
    RestAlone(one, 200, 2);
    assert Step(RingAndCold, true, none, rs[0]) == one;
    assert Step(RingAndCold, true, one, rs[1]) == two;
    assert Step(RingAndCold, true, two, rs[2]) == left;
    assert Step(RingAndCold, true, left, rs[3]) == drained;
    assert Step(RingAndCold, true, drained, rs[4]) == map[200 := []];
  }

  lemma RestAlone(q: QueueMap<uint64>, price: int64, id: uint64)
    requires price !in q && (q == map[] || !Better(true, price, BestOf(true, q.Keys)))
    ensures Step(RingAndCold, true, q, SideRequest.Rest(price, id)) == q[price := [id]]
    ensures |Kept(RingAndCold, true, q, price)| == |q|
  {
    var ids: seq<uint64> := [];
    assert ids + [id] == [id];
    assert q[price := ids][price := [id]] == q[price := [id]];
  }

  /** A side that its caller can reach, and whose best level is empty right after an erase. */
  method EmptyBestAfterErase() returns (book: CachedSideBook)
    ensures fresh(book) && book.Valid() && book.contents.Keys == {200}
    ensures book.BestPrice() == 200 && book.BestLevel().queue == []
  {
    hide CachedSideBook.Structure, NoneLive, Linked, Parented, AllServed, Run, PriceLevel.Valid;
    PulledInSteps();
    var seen;
    book, seen := RunRing(true, 2, PULLED_IN);
    SameEmpties(Queues(book.contents), map[200 := []]);
    QueuesKeys(book.contents);
    assert 200 in book.contents && book.contents[200].queue == [];
  }
}
