/** The planner's own view of the book: which orders rest, by which handle, and how many at each price. */
module Trackers {
  import opened Handles
  import opened Ledgers
  import opened Tracking
  import opened Types

  datatype RestingMeta = RestingMeta(side: Side, price: int64, qty: uint64)
  datatype HandleMeta = HandleMeta(handle: OrderHandle, qty: uint64)

  type RestingMap = map<uint64, RestingMeta>
  type Counts = map<int, nat>

  ghost function Ids(resting: RestingMap, side: Side, price: int): set<uint64> {
    set id | id in resting && resting[id].side == side && resting[id].price == price
  }

  /** The count of a price says how many tracked orders it has; prices without any are absent. */
  ghost predicate CountedAt(resting: RestingMap, side: Side, counts: Counts, p: int) {
    if p in counts then counts[p] == |Ids(resting, side, p)| > 0 else Ids(resting, side, p) == {}
  }

  ghost predicate Counted(resting: RestingMap, side: Side, counts: Counts) {
    forall p :: CountedAt(resting, side, counts, p)
  }

  /** Both tables together, as one entry an order. */
  ghost function Joined(resting: RestingMap, handles: map<uint64, HandleMeta>): Table
    requires resting.Keys == handles.Keys
  {
    map id | id in resting :: Entry(!Opposite(resting[id].side), resting[id].price, resting[id].qty, handles[id].handle)
  }

  lemma JoinedPut(resting: RestingMap, handles: map<uint64, HandleMeta>, id: uint64, m: RestingMeta, h: HandleMeta)
    requires resting.Keys == handles.Keys
    ensures resting[id := m].Keys == handles[id := h].Keys
    ensures Joined(resting[id := m], handles[id := h])
         == Joined(resting, handles)[id := Entry(!Opposite(m.side), m.price, m.qty, h.handle)]
  {}

  function One(counts: Counts, price: int): Counts {
    counts[price := if price in counts then counts[price] + 1 else 1]
  }

  function Less(counts: Counts, price: int): Counts {
    if price !in counts then counts
    else if counts[price] <= 1 then counts - {price}
    else counts[price := counts[price] - 1]
  }

  lemma CountOne(resting: RestingMap, id: uint64, m: RestingMeta, side: Side, counts: Counts)
    requires Counted(resting, side, counts) && id !in resting
    ensures Counted(resting[id := m], side, if m.side == side then One(counts, m.price) else counts)
  {
    var resting', counts' := resting[id := m], if m.side == side then One(counts, m.price) else counts;
    forall p
      ensures CountedAt(resting', side, counts', p)
    {
      assert CountedAt(resting, side, counts, p);
      var added := if m.side == side && m.price == p then {id} else {};
      assert Ids(resting', side, p) == Ids(resting, side, p) + added;
    }
  }

  lemma CountLess(resting: RestingMap, id: uint64, side: Side, counts: Counts)
    requires Counted(resting, side, counts) && id in resting
    ensures Counted(resting - {id}, side, if resting[id].side == side then Less(counts, resting[id].price) else counts)
  {
    var m := resting[id];
    var counts' := if m.side == side then Less(counts, m.price) else counts;
    forall p
      ensures CountedAt(resting - {id}, side, counts', p)
    {
      assert CountedAt(resting, side, counts, p);
      var gone := if m.side == side && m.price == p then {id} else {};
      assert gone <= Ids(resting, side, p);
      assert Ids(resting - {id}, side, p) == Ids(resting, side, p) - gone;
    }
  }

  lemma CountSame(resting: RestingMap, id: uint64, m: RestingMeta, side: Side, counts: Counts)
    requires Counted(resting, side, counts) && id in resting
    requires resting[id].side == m.side && resting[id].price == m.price
    ensures Counted(resting[id := m], side, counts)
  {
    var resting' := resting[id := m];
    forall p
      ensures CountedAt(resting', side, counts, p)
    {
      assert CountedAt(resting, side, counts, p);
      assert Ids(resting', side, p) == Ids(resting, side, p);
    }
  }

  class Tracker {
    var resting: RestingMap
    var handles: map<uint64, HandleMeta>
    var bidCounts: Counts
    var askCounts: Counts

    /** The two tables hold the same orders with the same quantities, and the counts agree with them. */
    ghost predicate Valid()
      reads this
    {
      && resting.Keys == handles.Keys
      && (forall id {:trigger resting[id]} {:trigger handles[id]} :: id in resting ==>
        resting[id].qty == handles[id].qty)
      && Counted(resting, Buy, bidCounts) && Counted(resting, Sell, askCounts)
    }

    ghost function Table(): (t: Table)
      requires Valid()
      reads this
      ensures t.Keys == resting.Keys
    {
      Joined(resting, handles)
    }

    constructor (resting: RestingMap, handles: map<uint64, HandleMeta>, bidCounts: Counts, askCounts: Counts)
      requires resting.Keys == handles.Keys && forall id :: id in resting ==> resting[id].qty == handles[id].qty
      requires Counted(resting, Buy, bidCounts) && Counted(resting, Sell, askCounts)
      ensures Valid() && Table() == Joined(resting, handles) && this.resting == resting
    {
      this.resting, this.handles, this.bidCounts, this.askCounts := resting, handles, bidCounts, askCounts;
    }

    predicate HasPriceLevel(side: Side, price: int64)
      reads this
    {
      price in (if side == Buy then bidCounts else askCounts)
    }

    function HandleOf(id: uint64): (h: OrderHandle)
      requires Valid() && id in resting
      reads this
      ensures h == Table()[id].handle
    {
      handles[id].handle
    }

    /** Forgets an order here and in the counts; the caller drops its handle. */
    method TrackRemove(id: uint64)
      modifies `resting, `bidCounts, `askCounts
      ensures resting == old(resting) - {id}
      ensures old(Counted(resting, Buy, bidCounts)) ==> Counted(resting, Buy, bidCounts)
      ensures old(Counted(resting, Sell, askCounts)) ==> Counted(resting, Sell, askCounts)
    {
      hide Counted;
      if id !in resting {
        assert resting - {id} == resting;
        return;
      }
      var meta := resting[id];
      if Counted(resting, Buy, bidCounts) { CountLess(resting, id, Buy, bidCounts); }
      if Counted(resting, Sell, askCounts) { CountLess(resting, id, Sell, askCounts); }
      if meta.side == Buy {
        bidCounts := Less(bidCounts, meta.price);
      } else {
        askCounts := Less(askCounts, meta.price);
      }
      resting := resting - {id};
    }

    /** Follows an order that came to rest. */
    method TrackAdd(id: uint64, side: Side, price: int64, qty: uint64, handle: OrderHandle)
      requires Valid()
      modifies this
      ensures Valid() && Table() == old(Table())[id := Entry(!Opposite(side), price, qty, handle)]
    {
      hide Counted, One, Joined;
      ghost var resting0, handles0 := resting, handles;
      TrackRemove(id);
      CountOne(resting, id, RestingMeta(side, price, qty), Buy, bidCounts);
      CountOne(resting, id, RestingMeta(side, price, qty), Sell, askCounts);
      resting := resting[id := RestingMeta(side, price, qty)];
      if side == Buy {
        bidCounts := One(bidCounts, price);
      } else {
        askCounts := One(askCounts, price);
      }
      handles := handles[id := HandleMeta(handle, qty)];
      assert resting == resting0[id := RestingMeta(side, price, qty)];
      JoinedPut(resting0, handles0, id, RestingMeta(side, price, qty), HandleMeta(handle, qty));
    }

    /** Drops a live order. */
    method Forget(id: uint64)
      requires Valid()
      modifies this
      ensures Valid() && Table() == old(Table()) - {id}
    {
      hide Counted;
      handles := handles - {id};
      TrackRemove(id);
    }

    /** A fill lowers the quantity of its maker, or takes it out of all tables. */
    method ApplyTradeFill(trade: Trade)
      requires Valid()
      modifies this
      ensures Valid() && Table() == ApplyTrade(old(Table()), trade)
    {
      hide Counted;
      var id := trade.makerId;
      if id !in resting {
        return;
      }
      if trade.quantity >= resting[id].qty {
        Forget(id);
        return;
      }
      var m := resting[id].(qty := resting[id].qty - trade.quantity);
      CountSame(resting, id, m, Buy, bidCounts);
      CountSame(resting, id, m, Sell, askCounts);
      resting := resting[id := m];
      if id in handles {
        handles := handles[id := handles[id].(qty := handles[id].qty - Min(handles[id].qty, trade.quantity))];
      }
    }

    method ApplyTradeFills(trades: seq<Trade>)
      requires Valid()
      modifies this
      ensures Valid() && Table() == ApplyTrades(old(Table()), trades) && resting.Keys <= old(resting.Keys)
    {
      hide Valid, Joined;
      FillsShrink(Table(), trades);
      for i := 0 to |trades|
        invariant Valid() && ApplyTrades(Table(), trades[i..]) == ApplyTrades(old(Table()), trades)
      {
        assert trades[i..][0] == trades[i] && trades[i..][1..] == trades[i + 1..];
        ApplyTradeFill(trades[i]);
      }
    }

    /** Follows the result of a limit order: its fills, and the order itself if some of it rested. */
    method FollowResult(id: uint64, side: Side, price: int64, res: AddResult)
      requires Valid()
      modifies this
      ensures Valid() && Table() == WithRested(ApplyTrades(old(Table()), res.trades), id, side, price, res)
      ensures resting.Keys <= old(resting.Keys) + {id}
    {
      hide Valid, Joined;
      ApplyTradeFills(res.trades);
      if res.code == Success && res.remaining > 0 {
        TrackAdd(id, side, price, res.remaining, res.handle);
      }
    }

    /** Follows the result of replacing an order: the old one is gone, the new one has its id. */
    method FollowReplacement(id: uint64, side: Side, price: int64, res: AddResult)
      requires Valid()
      modifies this
      ensures Valid() && Table() == WithRested(ApplyTrades(old(Table()) - {id}, res.trades), id, side, price, res)
      ensures resting.Keys <= old(resting.Keys) + {id}
    {
      hide Valid, Joined;
      Forget(id);
      FollowResult(id, side, price, res);
    }

    static lemma FillsShrink(t: Table, trades: seq<Trade>)
      ensures ApplyTrades(t, trades).Keys <= t.Keys
    {
      forall id | id !in t
        ensures id !in ApplyTrades(t, trades)
      {
        ApplyKeepsAbsent(t, trades, id);
      }
    }
  }
}
