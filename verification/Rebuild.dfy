/** Rebuilding a book from the tracking tables, orders in order of id; the same tables give the same book. */
module Rebuilds {
  import opened LedgerInvariants
  import opened Ledgers
  import opened OrderBooks
  import opened Trackers
  import opened Tracking
  import opened Types

  /** Tables that can be a book: positive quantities, prices in range, every bid below every ask. */
  ghost predicate Tradable(resting: RestingMap) {
    && (forall id {:trigger resting[id]} :: id in resting ==>
      resting[id].qty > 0 && 0 <= resting[id].price < PRICE_COUNT)
    && (forall b, a {:trigger resting[b], resting[a]} ::
      b in resting && a in resting && resting[b].side == Buy && resting[a].side == Sell ==>
        resting[b].price < resting[a].price)
  }

  /** Tables that mirror a sound ledger can. */
  lemma MirrorIsTradable(resting: RestingMap, handles: map<uint64, HandleMeta>, l: Ledger, cap: nat)
    requires Sound(l, cap) && resting.Keys == handles.Keys && Mirrors(Joined(resting, handles), l)
    ensures Tradable(resting)
  {
    var t := Joined(resting, handles);
    forall id | id in resting
      ensures resting[id].price in l.Side(!Opposite(resting[id].side)) && resting[id].qty > 0
    {
      var k: nat :| RestsAt(l, id, t[id], k);
      assert GoodQueue(l.Side(t[id].isAsk)[t[id].price], t[id].price);
    }
  }

  /** The ledger after resting the given ids, smallest first. */
  ghost function Rebuilt(l: Ledger, resting: RestingMap, ids: set<uint64>): Ledger
    requires ids <= resting.Keys && |l.free| >= |ids|
    decreases |ids|
  {
    if ids == {} then l
    else
      var id: uint64 := BestOf(true, ids);
      var m := resting[id];
      Rebuilt(RestAt(l, !Opposite(m.side), m.price, id, m.qty, id), resting, ids - {id})
  }

  /** Every queue is in order of id, oldest id first, and an order has its id for a timestamp. */
  ghost predicate InIdOrder(l: Ledger) {
    forall a, p, k: nat {:trigger HasAt(l, a, p, k)} :: HasAt(l, a, p, k) ==>
      && l.Side(a)[p][k].timestamp == l.Side(a)[p][k].id
      && forall j: nat :: j < k ==> l.Side(a)[p][j].id < l.Side(a)[p][k].id
  }

  ghost predicate IdsBelow(l: Ledger, bound: int) {
    forall a, p, k: nat {:trigger HasAt(l, a, p, k)} :: HasAt(l, a, p, k) ==> l.Side(a)[p][k].id < bound
  }

  lemma RestKeepsIdOrder(l: Ledger, isAsk: bool, price: int64, id: uint64, quantity: uint64)
    requires l.free != [] && InIdOrder(l) && IdsBelow(l, id)
    ensures InIdOrder(RestAt(l, isAsk, price, id, quantity, id))
    ensures IdsBelow(RestAt(l, isAsk, price, id, quantity, id), id + 1)
  {
    var l' := RestAt(l, isAsk, price, id, quantity, id);
    var q := At(l.Side(isAsk), price);
    forall a, p, k: nat | HasAt(l', a, p, k)
      ensures l'.Side(a)[p][k].timestamp == l'.Side(a)[p][k].id < id + 1
      ensures forall j: nat :: j < k ==> l'.Side(a)[p][j].id < l'.Side(a)[p][k].id
    {
      assert a != isAsk || p != price ==> HasAt(l, a, p, k);
      assert a == isAsk && p == price && k < |q| ==> HasAt(l, a, p, k);
      if a == isAsk && p == price && k == |q| {
        forall j: nat | j < k
          ensures l'.Side(a)[p][j].id < id
        {
          assert HasAt(l, a, p, j);
        }
      }
    }
  }

  /** A rebuilt book has its orders in order of id at every price: whoever came first still comes first. */
  lemma {:induction false} RebuiltInIdOrder(l: Ledger, resting: RestingMap, ids: set<uint64>)
    requires ids <= resting.Keys && |l.free| >= |ids| && InIdOrder(l) && forall id :: id in ids ==> IdsBelow(l, id)
    ensures InIdOrder(Rebuilt(l, resting, ids))
    decreases |ids|
  {
    hide InIdOrder, IdsBelow, RestAt, Rebuilt;
    RebuiltUnfolds(l, resting, ids);
    if ids != {} {
      var id: uint64 := BestOf(true, ids);
      var m := resting[id];
      var next := RestAt(l, !Opposite(m.side), m.price, id, m.qty, id);
      RestKeepsIdOrder(l, !Opposite(m.side), m.price, id, m.qty);
      forall x | x in ids - {id}
        ensures IdsBelow(next, x)
      {
        BelowMore(next, id + 1, x);
      }
      RebuiltInIdOrder(next, resting, ids - {id});
    }
  }

  lemma BelowMore(l: Ledger, bound: int, more: int)
    requires IdsBelow(l, bound) && bound <= more
    ensures IdsBelow(l, more)
  {}

  lemma RebuiltUnfolds(l: Ledger, resting: RestingMap, ids: set<uint64>)
    requires ids <= resting.Keys && |l.free| >= |ids|
    ensures ids == {} ==> Rebuilt(l, resting, ids) == l
    ensures ids != {} ==>
      var id := BestOf(true, ids);
      id in resting && |l.free| > 0 &&
      var l' := RestAt(l, !Opposite(resting[id].side), resting[id].price, id, resting[id].qty, id);
      |l'.free| >= |ids - {id}| && Rebuilt(l, resting, ids) == Rebuilt(l', resting, ids - {id})
  {}

  /** An order that crosses nothing rests whole, in the slot on top of the free stack. */
  lemma RestsWhole(l: Ledger, id: uint64, side: Side, price: int64, quantity: uint64, timestamp: uint64)
    requires GoodBook(l) && l.free != [] && quantity > 0 && 0 <= price < PRICE_COUNT
    requires forall p {:trigger p in l.Side(Opposite(side))} :: p in l.Side(Opposite(side)) ==>
      !Crosses(Opposite(side), price, p)
    ensures CanRest(l, id, side, price, quantity)
    ensures AddLimit(l, id, side, price, quantity, timestamp)
      == (RestAt(l, !Opposite(side), price, id, quantity, timestamp),
          AddResult(Success, quantity, 0, quantity, l.free[0], []))
  {
    SweepAtStop(l, Opposite(side), Some(price), id, quantity);
  }

  /** What has been rebuilt so far mirrors the tables restricted to the ids done. */
  ghost predicate Half(resting: RestingMap, rest: set<uint64>, handles: map<uint64, HandleMeta>, l: Ledger) {
    && handles.Keys == resting.Keys - rest
    && (forall id {:trigger handles[id]} :: id in handles ==> resting[id].qty == handles[id].qty)
    && Mirrors(Joined(resting - rest, handles), l)
  }

  lemma NextRests(resting: RestingMap, rest: set<uint64>, handles: map<uint64, HandleMeta>, l: Ledger, id: uint64,
                  cap: nat)
    requires Tradable(resting) && id in rest && rest <= resting.Keys && Half(resting, rest, handles, l)
    requires Sound(l, cap) && l.free != []
    ensures var m := resting[id];
      && m.qty > 0 && CanRest(l, id, m.side, m.price, m.qty)
      && AddLimit(l, id, m.side, m.price, m.qty, id)
        == (RestAt(l, !Opposite(m.side), m.price, id, m.qty, id), AddResult(Success, m.qty, 0, m.qty, l.free[0], []))
      && Half(resting, rest - {id}, handles[id := HandleMeta(l.free[0], m.qty)],
              RestAt(l, !Opposite(m.side), m.price, id, m.qty, id))
      && RestAt(l, !Opposite(m.side), m.price, id, m.qty, id).free == l.free[1..]
  {
    var m, t := resting[id], Joined(resting - rest, handles);
    forall p | p in l.Side(Opposite(m.side))
      ensures !Crosses(Opposite(m.side), m.price, p)
    {
      assert GoodQueue(l.Side(Opposite(m.side))[p], p);
      assert HasAt(l, Opposite(m.side), p, 0);
      var other := l.Side(Opposite(m.side))[p][0].id;
      assert t[other] == EntryAt(l, Opposite(m.side), p, 0);
      assert (resting - rest)[other] == resting[other];
    }
    RestsWhole(l, id, m.side, m.price, m.qty, id);
    MirrorRest(t, l, !Opposite(m.side), m.price, id, m.qty, id);
    assert resting - (rest - {id}) == (resting - rest)[id := m];
    JoinedPut(resting - rest, handles, id, m, HandleMeta(l.free[0], m.qty));
  }

  lemma HalfEnds(resting: RestingMap, handles: map<uint64, HandleMeta>, l: Ledger, cap: nat)
    requires cap <= INVALID_HANDLE
    ensures Half(resting, resting.Keys, map[], Initial(cap)) && Sound(Initial(cap), cap)
    ensures Half(resting, {}, handles, l) ==>
      && handles.Keys == resting.Keys && Mirrors(Joined(resting, handles), l)
      && forall id :: id in resting ==> resting[id].qty == handles[id].qty
  {
    InitialSound(cap);
    assert resting - {} == resting;
  }

  lemma BookSound(book: OrderBook)
    requires book.Valid()
    ensures Sound(book.state, |book.pool.slots|) && GoodBook(book.state) && UniquePlaces(book.state)
  {}

  /** Rests the order with the smallest id still to do; it meets nothing, and its handle is noted. */
  method RestNext(book: OrderBook, resting: RestingMap, rest: set<uint64>, handles: map<uint64, HandleMeta>)
    returns (id: uint64, handles': map<uint64, HandleMeta>)
    requires book.Valid() && Tradable(resting) && rest != {} && rest <= resting.Keys
    requires Half(resting, rest, handles, book.state) && |book.state.free| >= |rest|
    modifies book.Repr()
    ensures book.Valid() && id in rest && |book.state.free| == old(|book.state.free|) - 1 && |rest - {id}| == |rest| - 1
    ensures Half(resting, rest - {id}, handles', book.state)
    ensures Rebuilt(book.state, resting, rest - {id}) == Rebuilt(old(book.state), resting, rest)
  {
    hide Mirrors, Sound, OrderBook.Valid, Half, AddLimit, Tradable, GoodBook, UniquePlaces, RestAt, Rebuilt;
    id := BestOf(true, rest);
    var meta := resting[id];
    BookSound(book);
    RebuiltUnfolds(book.state, resting, rest);
    NextRests(resting, rest, handles, book.state, id, |book.pool.slots|);
    var res := book.AddLimitOrder(id, meta.side, meta.price, meta.qty, id);
    handles' := handles;
    if res.code == Success && res.remaining > 0 {
      handles' := handles[id := HandleMeta(res.handle, res.remaining)];
    }
  }

  /** A fresh book holding exactly the tracked orders, and the handles they got. */
  method BuildBook(capacity: nat, resting: RestingMap) returns (book: OrderBook, handles: map<uint64, HandleMeta>)
    requires Tradable(resting) && |resting| <= capacity <= INVALID_HANDLE
    ensures fresh(book.Repr()) && book.Valid() && |book.pool.slots| == capacity
    ensures |Initial(capacity).free| == capacity && |resting.Keys| == |resting|
    ensures book.state == Rebuilt(Initial(capacity), resting, resting.Keys)
    ensures |book.state.free| == capacity - |resting|
    ensures handles.Keys == resting.Keys && forall id :: id in resting ==> resting[id].qty == handles[id].qty
    ensures Mirrors(Joined(resting, handles), book.state)
  {
    hide Mirrors, Sound, OrderBook.Valid, Half, AddLimit, Tradable, GoodBook, UniquePlaces, RestAt, Rebuilt;
    book := new OrderBook(capacity);
    handles := map[];
    var rest := resting.Keys;
    HalfEnds(resting, handles, book.state, capacity);
    while rest != {}
      invariant rest <= resting.Keys && book.Valid() && fresh(book.Repr()) && |book.pool.slots| == capacity
      invariant |book.state.free| == capacity - |resting| + |rest|
      invariant Half(resting, rest, handles, book.state)
      invariant Rebuilt(book.state, resting, rest) == Rebuilt(Initial(capacity), resting, resting.Keys)
      decreases |rest|
    {
      var id: uint64;
      id, handles := RestNext(book, resting, rest, handles);
      rest := rest - {id};
    }
    HalfEnds(resting, handles, book.state, capacity);
    RebuiltUnfolds(book.state, resting, rest);
  }
}
