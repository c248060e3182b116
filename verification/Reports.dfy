/** What the results of the operations tell the caller. */
module Reports {
  import opened LedgerInvariants
  import opened Ledgers
  import opened Plans
  import opened PriceTime
  import opened Reference
  import opened Runs
  import opened Types

  /** The report on an order of no quantity: nothing was asked for, nothing happened, there is no handle. */
  const NOTHING_ASKED := AddResult(InvalidQuantity, 0, 0, 0, INVALID_HANDLE, [])

  /** What a command comes to. */
  ghost function ResultOf(l: Ledger, c: Command): AddResult
    requires Allowed(l, c)
  {
    Step(l, c).1
  }

  /**
   * A result carries a valid handle exactly when part of the order came to rest; an order of no quantity is
   * refused, no other is, and the refusal reports nothing else.
   */
  lemma ReportedHandle(l: Ledger, c: Command, cap: nat)
    requires Sound(l, cap) && cap <= INVALID_HANDLE && Allowed(l, c) && !c.CancelOrder?
    ensures var r := ResultOf(l, c);
      && (r.handle != INVALID_HANDLE <==> r.code == Success && r.remaining > 0 && !c.MarketOrder?)
      && (r.code == InvalidQuantity <==> c.quantity == 0)
      && (c.quantity == 0 ==> r == NOTHING_ASKED)
      && (r.code == MarketRemainderCancelled <==> c.MarketOrder? && r.remaining > 0)
      && r.code in {Success, InvalidQuantity, MarketRemainderCancelled}
  {
    hide Sweep, Partition, Good;
    match c
    case LimitOrder(id, side, price, quantity, timestamp) =>
      SlotIsValid(l, id, side, price, quantity, cap);
    case MarketOrder(id, side, quantity) =>
    case ModifyOrder(h, side, price, quantity, timestamp) =>
      CancelKeeps(l, h, cap);
      SlotIsValid(Cancel(l, h), Denotes(l, h).id, side, price, quantity, cap);
  }

  lemma SlotIsValid(l: Ledger, id: uint64, side: Side, price: int64, quantity: uint64, cap: nat)
    requires Sound(l, cap) && cap <= INVALID_HANDLE
    ensures var o := Sweep(l, Opposite(side), Some(price), id, quantity);
      o.after.free != [] ==> o.after.free[0] != INVALID_HANDLE
  {
    hide Sweep;
    var o := Sweep(l, Opposite(side), Some(price), id, quantity);
    SweepKeeps(l, Opposite(side), Some(price), id, quantity, cap);
    assert o.after.free != [] ==> o.after.free[0] in o.after.free;
  }

  /** The naive book refuses the same orders in the same way, and no others. */
  lemma NaiveRefuses(b: RefBook, id: uint64, side: Side, price: int64, quantity: uint64)
    requires b.Good()
    ensures RefLimit(b, id, side, price, quantity).1.code == InvalidQuantity <==> quantity == 0
    ensures RefMarket(b, id, side, quantity).1.code == InvalidQuantity <==> quantity == 0
    ensures quantity == 0 ==>
      RefLimit(b, id, side, price, quantity) == RefMarket(b, id, side, quantity) == (b, NOTHING_ASKED)
  {
    hide RefSweep;
  }

  /** The order that rests, when part of a limit order or of a replacement does. */
  ghost function Posted(l: Ledger, c: Command): Resting
    requires Allowed(l, c) && (c.LimitOrder? || c.ModifyOrder?)
  {
    var r := ResultOf(l, c);
    Resting(r.handle, if c.LimitOrder? then c.id else Denotes(l, c.handle).id, c.price, r.remaining, c.timestamp)
  }

  /**
   * What rests is the youngest order at the limit price, under the id of the order (a replacement keeps the
   * old one), with the quantity left over, the timestamp given and the handle reported; without a rest,
   * nothing is added to that side.
   */
  lemma RestsAsReported(l: Ledger, c: Command, cap: nat)
    requires Sound(l, cap) && Allowed(l, c) && (c.LimitOrder? || c.ModifyOrder?) && c.quantity > 0
    ensures var (after, r) := Step(l, c);
      var before := if c.LimitOrder? then l else Cancel(l, c.handle);
      var isAsk := c.side == Sell;
      after.Side(isAsk) ==
        if r.remaining > 0 then Put(before.Side(isAsk), c.price, At(before.Side(isAsk), c.price) + [Posted(l, c)])
        else before.Side(isAsk)
  {
    hide Sweep, Partition, Good;
    if c.ModifyOrder? {
      CancelKeeps(l, c.handle, cap);
    }
  }

  lemma TradesReduce(l: Ledger, isAsk: bool, limit: Option<int>, taker: uint64, quantity: uint64)
    requires Good(l.Side(isAsk))
    ensures var o := Sweep(l, isAsk, limit, taker, quantity); o.trades == [] <==> o.remaining == quantity
  {
    hide Sweep, Good, Flat, Leaves, Volume;
    PriceTimePriority(l, isAsk, limit, taker, quantity);
  }

  /**
   * A limit order tagged as joining a level rested whole behind at least one other order at its price; one
   * tagged as opening a level rested whole and alone; the others traded.
   */
  lemma TagMeans(l: Ledger, op: PendingOp, cap: nat)
    requires Sound(l, cap) && op.LimitAdd? && op.qty > 0 && Allowed(l, CommandOf(op)) && Tagged(l, op)
    ensures var (after, r) := Step(l, CommandOf(op));
      var queue := At(after.Side(op.side == Sell), op.price);
      && (op.scenario == AddRestExistingLevel <==> r.remaining == op.qty && |queue| > 1)
      && (op.scenario == AddRestNewLevel <==> r.remaining == op.qty && |queue| == 1)
      && (op.scenario == Unmeasured <==> r.remaining < op.qty)
      && (r.remaining == op.qty ==> queue[|queue| - 1] == Posted(l, CommandOf(op)))
  {
    hide Sweep, Partition;
    RestsAsReported(l, CommandOf(op), cap);
    TradesReduce(l, Opposite(op.side), Some(op.price), op.oid, op.qty);
    var own := l.Side(op.side == Sell);
    assert op.price in own ==> GoodQueue(own[op.price], op.price);
  }
}
