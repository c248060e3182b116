/**
 * What the state of the matching engine means: per side a queue of resting orders for every price
 * that has any, and the stack of free pool slots. Every engine operation is a function on ledgers.
 */
module Ledgers {
  import opened Sequences
  import opened Types

  datatype Resting = Resting(handle: OrderHandle, id: uint64, price: int64, quantity: uint64, timestamp: uint64)

  type Queues = map<int, seq<Resting>>

  datatype Ledger = Ledger(bids: Queues, asks: Queues, free: seq<OrderHandle>) {
    function Side(isAsk: bool): Queues {
      if isAsk then asks else bids
    }

    function With(isAsk: bool, m: Queues): Ledger {
      if isAsk then this.(asks := m) else this.(bids := m)
    }
  }

  // ---------- one side ----------

  function At(m: Queues, p: int): seq<Resting> {
    if p in m then m[p] else []
  }

  /** m with queue q at price p; an empty queue leaves no trace. */
  function Put(m: Queues, p: int, q: seq<Resting>): Queues {
    if q == [] then m - {p} else m[p := q]
  }

  ghost predicate Good(m: Queues) {
    forall p :: p in m ==> GoodQueue(m[p], p)
  }

  ghost predicate GoodQueue(q: seq<Resting>, p: int) {
    q != [] && forall k {:trigger q[k]} :: 0 <= k < |q| ==> q[k].price == p && q[k].quantity > 0
  }

  /** The most aggressive price of a side. */
  ghost function Best(isAsk: bool, m: Queues): (b: int)
    requires m != map[]
    ensures IsBest(isAsk, b, m.Keys)
  {
    BestOf(isAsk, m.Keys)
  }

  // ---------- elementary transitions ----------

  ghost predicate HasAt(l: Ledger, isAsk: bool, p: int, k: nat) {
    p in l.Side(isAsk) && k < |l.Side(isAsk)[p]|
  }

  /** Handle h denotes the k-th order at price p of a side. */
  ghost predicate LiveAt(l: Ledger, isAsk: bool, p: int, k: nat, h: OrderHandle) {
    HasAt(l, isAsk, p, k) && l.Side(isAsk)[p][k].handle == h
  }

  ghost predicate Live(l: Ledger, h: OrderHandle) {
    exists isAsk: bool, p: int, k: nat :: LiveAt(l, isAsk, p, k, h)
  }

  /** Takes an order out of its queue and pushes its slot onto the free stack. */
  ghost function RemoveAt(l: Ledger, isAsk: bool, p: int, k: nat): Ledger
    requires HasAt(l, isAsk, p, k)
  {
    var q := l.Side(isAsk)[p];
    l.With(isAsk, Put(l.Side(isAsk), p, Without(q, k))).(free := [q[k].handle] + l.free)
  }

  /** Takes some quantity off the oldest order at a price. */
  ghost function ReduceAt(l: Ledger, isAsk: bool, p: int, fill: uint64): Ledger
    requires HasAt(l, isAsk, p, 0) && fill <= l.Side(isAsk)[p][0].quantity
  {
    var q := l.Side(isAsk)[p];
    l.With(isAsk, l.Side(isAsk)[p := [q[0].(quantity := q[0].quantity - fill)] + q[1..]])
  }

  /** Fills the oldest order at a price; a fully filled order leaves the book. */
  ghost function FillAt(l: Ledger, isAsk: bool, p: int, fill: uint64): Ledger
    requires HasAt(l, isAsk, p, 0) && fill <= l.Side(isAsk)[p][0].quantity
  {
    if fill == l.Side(isAsk)[p][0].quantity then RemoveAt(l, isAsk, p, 0) else ReduceAt(l, isAsk, p, fill)
  }

  /** Rests an order in the slot on top of the free stack, youngest at its price. */
  ghost function RestAt(l: Ledger, isAsk: bool, price: int64, id: uint64, quantity: uint64, timestamp: uint64): Ledger
    requires l.free != []
  {
    var r := Resting(l.free[0], id, price, quantity, timestamp);
    l.With(isAsk, Put(l.Side(isAsk), price, At(l.Side(isAsk), price) + [r])).(free := l.free[1..])
  }

  // ---------- matching ----------

  /** Trades in order, the unfilled quantity, and the ledger left behind. */
  datatype Outcome = Outcome(trades: seq<Trade>, remaining: uint64, after: Ledger)

  ghost predicate Stops(l: Ledger, isAsk: bool, limit: Option<int>, quantity: uint64) {
    || quantity == 0
    || l.Side(isAsk) == map[]
    || (limit.Some? && !Crosses(isAsk, limit.value, Best(isAsk, l.Side(isAsk))))
  }

  lemma FillKeepsGood(l: Ledger, isAsk: bool, p: int, fill: uint64)
    requires Good(l.Side(isAsk)) && HasAt(l, isAsk, p, 0) && fill <= l.Side(isAsk)[p][0].quantity
    ensures Good(FillAt(l, isAsk, p, fill).Side(isAsk))
    ensures FillAt(l, isAsk, p, fill).Side(!isAsk) == l.Side(!isAsk)
  {
    var m := l.Side(isAsk);
    assert GoodQueue(m[p], p);
    var m' := FillAt(l, isAsk, p, fill).Side(isAsk);
    forall x | x in m'
      ensures GoodQueue(m'[x], x)
    {
      if x != p {
        assert m'[x] == m[x];
      } else if fill == m[p][0].quantity {
        assert m'[p] == m[p][1..];
      } else {
        assert m'[p][1..] == m[p][1..];
      }
    }
  }

  /**
   * Sweeps the side isAsk on behalf of an incoming order: one maker at a time, oldest order of the
   * most aggressive price first, until the quantity, the side or the limit is exhausted.
   */
  ghost function Sweep(l: Ledger, isAsk: bool, limit: Option<int>, taker: uint64, quantity: uint64): (o: Outcome)
    requires Good(l.Side(isAsk))
    ensures o.remaining <= quantity && Good(o.after.Side(isAsk))
    ensures o.after.Side(!isAsk) == l.Side(!isAsk)
    decreases quantity
  {
    if Stops(l, isAsk, limit, quantity) then
      Outcome([], quantity, l)
    else
      var p := Best(isAsk, l.Side(isAsk));
      assert GoodQueue(l.Side(isAsk)[p], p);
      var maker := l.Side(isAsk)[p][0];
      var fill := Min(quantity, maker.quantity);
      FillKeepsGood(l, isAsk, p, fill);
      var rest := Sweep(FillAt(l, isAsk, p, fill), isAsk, limit, taker, quantity - fill);
      rest.(trades := [Trade(taker, maker.id, maker.price, fill)] + rest.trades)
  }

  /** Sweeping from one state comes to the given trades followed by sweeping from a later state. */
  ghost predicate Continues(start: Outcome, trades: seq<Trade>, now: Outcome) {
    start == Outcome(trades + now.trades, now.remaining, now.after)
  }

  lemma ContinuesThrough(start: Outcome, first: seq<Trade>, middle: Outcome, second: seq<Trade>, now: Outcome)
    requires Continues(start, first, middle) && Continues(middle, second, now)
    ensures Continues(start, first + second, now)
  {
    assert first + second + now.trades == first + (second + now.trades);
  }

  lemma ContinuesHere(start: Outcome)
    ensures Continues(start, [], start)
  {
    assert [] + start.trades == start.trades;
  }

  /** One trade with the oldest order at the best price is one step of a sweep. */
  lemma SweepOne(start: Outcome, trades: seq<Trade>, l: Ledger, isAsk: bool, limit: Option<int>, taker: uint64,
                 quantity: uint64)
    requires Good(l.Side(isAsk)) && !Stops(l, isAsk, limit, quantity)
    requires Continues(start, trades, Sweep(l, isAsk, limit, taker, quantity))
    ensures var p := Best(isAsk, l.Side(isAsk));
            HasAt(l, isAsk, p, 0) &&
            var maker := l.Side(isAsk)[p][0];
            var fill := Min(quantity, maker.quantity);
            && fill > 0 && Good(FillAt(l, isAsk, p, fill).Side(isAsk))
            && Continues(start, trades + [Trade(taker, maker.id, maker.price, fill)],
                         Sweep(FillAt(l, isAsk, p, fill), isAsk, limit, taker, quantity - fill))
  {
    var p := Best(isAsk, l.Side(isAsk));
    assert GoodQueue(l.Side(isAsk)[p], p);
    var maker := l.Side(isAsk)[p][0];
    var fill := Min(quantity, maker.quantity);
    FillKeepsGood(l, isAsk, p, fill);
    var rest := Sweep(FillAt(l, isAsk, p, fill), isAsk, limit, taker, quantity - fill);
    assert trades + ([Trade(taker, maker.id, maker.price, fill)] + rest.trades)
        == trades + [Trade(taker, maker.id, maker.price, fill)] + rest.trades;
  }

  /** Where a sweep stops, it is complete. */
  lemma SweepEnds(start: Outcome, trades: seq<Trade>, l: Ledger, isAsk: bool, limit: Option<int>, taker: uint64,
                  quantity: uint64)
    requires Good(l.Side(isAsk)) && Continues(start, trades, Sweep(l, isAsk, limit, taker, quantity))
    requires quantity == 0 || l.Side(isAsk) == map[] || Stops(l, isAsk, limit, quantity)
    ensures start == Outcome(trades, quantity, l)
  {
    assert trades + [] == trades;
  }

  lemma SweepAtStop(l: Ledger, isAsk: bool, limit: Option<int>, taker: uint64, quantity: uint64)
    requires Good(l.Side(isAsk)) && Stops(l, isAsk, limit, quantity)
    ensures Sweep(l, isAsk, limit, taker, quantity) == Outcome([], quantity, l)
  {}

  /** A sweep that does not stop trades once and goes on. */
  lemma SweepUnfold(l: Ledger, isAsk: bool, limit: Option<int>, taker: uint64, quantity: uint64)
    requires Good(l.Side(isAsk)) && !Stops(l, isAsk, limit, quantity)
    ensures l.Side(isAsk) != map[]
    ensures var p := Best(isAsk, l.Side(isAsk));
            && HasAt(l, isAsk, p, 0) && GoodQueue(l.Side(isAsk)[p], p)
            && var maker := l.Side(isAsk)[p][0];
            var fill := Min(quantity, maker.quantity);
            && 0 < fill && Good(FillAt(l, isAsk, p, fill).Side(isAsk))
            && FillAt(l, isAsk, p, fill).Side(!isAsk) == l.Side(!isAsk)
            && var rest := Sweep(FillAt(l, isAsk, p, fill), isAsk, limit, taker, quantity - fill);
            Sweep(l, isAsk, limit, taker, quantity)
              == rest.(trades := [Trade(taker, maker.id, maker.price, fill)] + rest.trades)
  {
    var p := Best(isAsk, l.Side(isAsk));
    assert GoodQueue(l.Side(isAsk)[p], p);
    FillKeepsGood(l, isAsk, p, Min(quantity, l.Side(isAsk)[p][0].quantity));
  }

  // ---------- the four operations ----------

  /** The side an incoming order trades against is the ask side for a buyer. */
  function Opposite(side: Side): bool {
    side == Buy
  }

  ghost predicate GoodBook(l: Ledger) {
    Good(l.bids) && Good(l.asks)
  }

  /** What a limit order asks of its caller: if part of it rests, its price is in range and a slot is free. */
  ghost predicate CanRest(l: Ledger, id: uint64, side: Side, price: int64, quantity: uint64)
    requires GoodBook(l)
  {
    var o := Sweep(l, Opposite(side), Some(price), id, quantity);
    o.remaining > 0 ==> 0 <= price < PRICE_COUNT && o.after.free != []
  }

  ghost function AddLimit(l: Ledger, id: uint64, side: Side, price: int64, quantity: uint64,
                          timestamp: uint64): (Ledger, AddResult)
    requires GoodBook(l) && CanRest(l, id, side, price, quantity)
  {
    if quantity == 0 then
      (l, BLANK_RESULT.(code := InvalidQuantity))
    else
      var o := Sweep(l, Opposite(side), Some(price), id, quantity);
      var result := AddResult(Success, quantity, quantity - o.remaining, o.remaining, INVALID_HANDLE, o.trades);
      if o.remaining == 0 then
        (o.after, result)
      else
        (RestAt(o.after, !Opposite(side), price, id, o.remaining, timestamp), result.(handle := o.after.free[0]))
  }

  ghost function AddMarket(l: Ledger, id: uint64, side: Side, quantity: uint64): (Ledger, AddResult)
    requires GoodBook(l)
  {
    if quantity == 0 then
      (l, BLANK_RESULT.(code := InvalidQuantity))
    else
      var o := Sweep(l, Opposite(side), None, id, quantity);
      (o.after, AddResult(if o.remaining == 0 then Success else MarketRemainderCancelled,
                          quantity, quantity - o.remaining, o.remaining, INVALID_HANDLE, o.trades))
  }

  ghost function Cancel(l: Ledger, h: OrderHandle): Ledger
    requires Live(l, h)
  {
    var isAsk: bool, p: int, k: nat :| LiveAt(l, isAsk, p, k, h);
    RemoveAt(l, isAsk, p, k)
  }

  /** The order a live handle denotes. */
  ghost function Denotes(l: Ledger, h: OrderHandle): Resting
    requires Live(l, h)
  {
    var isAsk: bool, p: int, k: nat :| LiveAt(l, isAsk, p, k, h);
    l.Side(isAsk)[p][k]
  }

  lemma RemoveKeepsGood(l: Ledger, isAsk: bool, p: int, k: nat)
    requires GoodBook(l) && HasAt(l, isAsk, p, k)
    ensures GoodBook(RemoveAt(l, isAsk, p, k))
  {
    var m, m' := l.Side(isAsk), RemoveAt(l, isAsk, p, k).Side(isAsk);
    assert GoodQueue(m[p], p);
    forall x | x in m'
      ensures GoodQueue(m'[x], x)
    {
      if x != p {
        assert m'[x] == m[x];
      }
    }
  }

  lemma CancelKeepsGood(l: Ledger, h: OrderHandle)
    requires GoodBook(l) && Live(l, h)
    ensures GoodBook(Cancel(l, h))
  {
    var isAsk: bool, p: int, k: nat :| LiveAt(l, isAsk, p, k, h) && Cancel(l, h) == RemoveAt(l, isAsk, p, k);
    RemoveKeepsGood(l, isAsk, p, k);
  }

  ghost predicate CanModify(l: Ledger, h: OrderHandle, side: Side, price: int64, quantity: uint64) {
    GoodBook(l) && Live(l, h) &&
    GoodBook(Cancel(l, h)) && CanRest(Cancel(l, h), Denotes(l, h).id, side, price, quantity)
  }

  /** Replaces an order: the new one keeps the id but not the queue position. */
  ghost function Modify(l: Ledger, h: OrderHandle, side: Side, price: int64, quantity: uint64,
                        timestamp: uint64): (Ledger, AddResult)
    requires CanModify(l, h, side, price, quantity)
  {
    AddLimit(Cancel(l, h), Denotes(l, h).id, side, price, quantity, timestamp)
  }
}
