/** The naive book the engine is compared with: per side a map from price to a queue of plain orders. */
module Reference {
  import opened Sequences
  import opened Types

  datatype RefOrder = RefOrder(id: uint64, price: int64, quantity: uint64)

  type RefSide = map<int, seq<RefOrder>>

  /** m with queue q at price p; an emptied level is erased. */
  function RefPut(m: RefSide, p: int, q: seq<RefOrder>): RefSide {
    if q == [] then m - {p} else m[p := q]
  }

  /** m with one more order, youngest at its price. */
  function RefRested(m: RefSide, id: uint64, price: int64, quantity: uint64): RefSide {
    m[price := (if price in m then m[price] else []) + [RefOrder(id, price, quantity)]]
  }

  ghost predicate RefGood(m: RefSide) {
    forall p :: p in m ==> RefGoodQueue(m[p])
  }

  ghost predicate RefGoodQueue(q: seq<RefOrder>) {
    q != [] && forall k {:trigger q[k]} :: 0 <= k < |q| ==> q[k].quantity > 0
  }

  // ---------- matching ----------

  /** The progress of an incoming order: its trades so far, its open quantity, and the side it trades against. */
  datatype Progress = Progress(trades: seq<Trade>, remaining: uint64, side: RefSide)

  /** The queue after its front was filled. */
  function RefFillFirst(q: seq<RefOrder>, fill: uint64): seq<RefOrder>
    requires q != [] && fill <= q[0].quantity
  {
    if fill == q[0].quantity then q[1..] else [q[0].(quantity := q[0].quantity - fill)] + q[1..]
  }

  ghost predicate RefStops(isAsk: bool, limit: Option<int>, s: Progress) {
    || s.remaining == 0 || s.side == map[]
    || (limit.Some? && !Crosses(isAsk, limit.value, BestOf(isAsk, s.side.Keys)))
  }

  /** One trade with the oldest order of level p. */
  ghost function RefTrade(taker: uint64, p: int, s: Progress): Progress
    requires p in s.side && s.side[p] != []
  {
    var maker := s.side[p][0];
    var fill := Min(s.remaining, maker.quantity);
    Progress(s.trades + [Trade(taker, maker.id, maker.price, fill)], s.remaining - fill,
             RefPut(s.side, p, RefFillFirst(s.side[p], fill)))
  }

  lemma RefTradeGood(isAsk: bool, taker: uint64, s: Progress)
    requires RefGood(s.side) && s.side != map[] && s.remaining > 0
    ensures var p := BestOf(isAsk, s.side.Keys);
            s.side[p] != [] && RefGood(RefTrade(taker, p, s).side) && RefTrade(taker, p, s).remaining < s.remaining
  {
    var p := BestOf(isAsk, s.side.Keys);
    assert RefGoodQueue(s.side[p]);
    var m' := RefTrade(taker, p, s).side;
    forall x | x in m'
      ensures RefGoodQueue(m'[x])
    {
      assert x != p ==> m'[x] == s.side[x];
    }
  }

  /** Trades with the oldest order of the best level until the quantity, the side or the limit is exhausted. */
  ghost function RefSweep(isAsk: bool, limit: Option<int>, taker: uint64, s: Progress): (r: Progress)
    requires RefGood(s.side)
    ensures RefGood(r.side) && r.remaining <= s.remaining
    decreases s.remaining
  {
    if RefStops(isAsk, limit, s) then s
    else
      RefTradeGood(isAsk, taker, s);
      RefSweep(isAsk, limit, taker, RefTrade(taker, BestOf(isAsk, s.side.Keys), s))
  }

  /** A sweep that does not stop at a level goes on after trading there. */
  lemma RefSweepStep(isAsk: bool, limit: Option<int>, taker: uint64, book: RefSide, p: int, queue: seq<RefOrder>,
                     trades: seq<Trade>, remaining: uint64)
    requires book != map[] && p == BestOf(isAsk, book.Keys) && (limit.Some? ==> Crosses(isAsk, limit.value, p))
    requires queue != [] && RefGood(RefPut(book, p, queue)) && remaining > 0
    ensures var fill := Min(remaining, queue[0].quantity);
            var rest := RefPut(book, p, RefFillFirst(queue, fill));
            && fill > 0 && RefGood(rest)
            && RefSweep(isAsk, limit, taker, Progress(trades, remaining, RefPut(book, p, queue)))
            == RefSweep(isAsk, limit, taker,
                        Progress(trades + [Trade(taker, queue[0].id, queue[0].price, fill)], remaining - fill, rest))
  {
    var m := RefPut(book, p, queue);
    assert m.Keys == book.Keys && m[p] == queue;
    assert RefGoodQueue(m[p]);
    var fill := Min(remaining, queue[0].quantity);
    assert RefPut(m, p, RefFillFirst(queue, fill)) == RefPut(book, p, RefFillFirst(queue, fill));
    RefTradeGood(isAsk, taker, Progress(trades, remaining, m));
  }

  // ---------- cancelling ----------

  /** Order id is first found at position k of level p: no better level has it, nor an earlier position. */
  ghost predicate FirstAt(isAsk: bool, m: RefSide, id: uint64, p: int, k: nat) {
    && p in m && k < |m[p]| && m[p][k].id == id
    && (forall j :: 0 <= j < k ==> m[p][j].id != id)
    && (forall x, j :: x in m && Better(isAsk, x, p) && 0 <= j < |m[x]| ==> m[x][j].id != id)
  }

  ghost predicate Nowhere(m: RefSide, id: uint64) {
    forall p, k :: p in m && 0 <= k < |m[p]| ==> m[p][k].id != id
  }

  /** m without the first order that has the id. */
  ghost predicate Cancelled(isAsk: bool, m: RefSide, id: uint64, found: bool, m': RefSide) {
    if found then exists p, k: nat :: FirstAt(isAsk, m, id, p, k) && m' == RefPut(m, p, Without(m[p], k))
    else Nowhere(m, id) && m' == m
  }

  // ---------- the naive operations ----------

  datatype RefBook = RefBook(bids: RefSide, asks: RefSide) {
    function Side(isAsk: bool): RefSide {
      if isAsk then asks else bids
    }

    function With(isAsk: bool, m: RefSide): RefBook {
      if isAsk then this.(asks := m) else this.(bids := m)
    }

    ghost predicate Good() {
      RefGood(bids) && RefGood(asks)
    }
  }

  ghost function RefLimit(b: RefBook, id: uint64, side: Side, price: int64, quantity: uint64): (RefBook, AddResult)
    requires b.Good()
  {
    var isAsk := side == Buy;
    if quantity == 0 then
      (b, BLANK_RESULT.(code := InvalidQuantity))
    else
      var r := RefSweep(isAsk, Some(price), id, Progress([], quantity, b.Side(isAsk)));
      var matched := b.With(isAsk, r.side);
      // the handle of a resting order is any valid one: only its validity is compared
      (if r.remaining == 0 then matched else matched.With(!isAsk, RefRested(b.Side(!isAsk), id, price, r.remaining)),
       AddResult(Success, quantity, quantity - r.remaining, r.remaining,
                 if r.remaining > 0 then 0 else INVALID_HANDLE, r.trades))
  }

  ghost function RefMarket(b: RefBook, id: uint64, side: Side, quantity: uint64): (RefBook, AddResult)
    requires b.Good()
  {
    var isAsk := side == Buy;
    if quantity == 0 then
      (b, BLANK_RESULT.(code := InvalidQuantity))
    else
      var r := RefSweep(isAsk, None, id, Progress([], quantity, b.Side(isAsk)));
      (b.With(isAsk, r.side),
       AddResult(if r.remaining == 0 then Success else MarketRemainderCancelled,
                 quantity, quantity - r.remaining, r.remaining, INVALID_HANDLE, r.trades))
  }

  /** Bids are searched before asks. */
  ghost predicate RefCancelled(b: RefBook, id: uint64, b': RefBook) {
    || (Cancelled(false, b.bids, id, true, b'.bids) && b'.asks == b.asks)
    || (Cancelled(false, b.bids, id, false, b'.bids)
        && (Cancelled(true, b.asks, id, true, b'.asks) || Cancelled(true, b.asks, id, false, b'.asks)))
  }

  class ReferenceOrderBook {
    var bids: RefSide
    var asks: RefSide

    ghost predicate Valid()
      reads this
    {
      RefGood(bids) && RefGood(asks)
    }

    ghost function Book(): RefBook
      reads this
    {
      RefBook(bids, asks)
    }

    constructor ()
      ensures Valid() && bids == map[] && asks == map[]
    {
      bids, asks := map[], map[];
    }

    /** Trades with the best level until it or the quantity is exhausted; an emptied level is erased. */
    static method MatchLevel(id: uint64, isAsk: bool, ghost limit: Option<int>, remaining: uint64, book: RefSide,
                             out: AddResult)
      returns (remaining': uint64, book': RefSide, out': AddResult)
      requires RefGood(book) && !RefStops(isAsk, limit, Progress(out.trades, remaining, book))
      requires out.filled + remaining < 0x1_0000_0000_0000_0000
      ensures RefGood(book') && remaining' < remaining && out'.filled == out.filled + (remaining - remaining')
      ensures out' == out.(trades := out'.trades, filled := out'.filled)
      ensures RefSweep(isAsk, limit, id, Progress(out.trades, remaining, book))
           == RefSweep(isAsk, limit, id, Progress(out'.trades, remaining', book'))
    {
      hide RefSweep, RefGood;
      var p := BestOf(isAsk, book.Keys);
      GoodLevel(book, p);
      var queue := book[p];
      remaining', out' := remaining, out;
      while remaining' > 0 && queue != []
        invariant remaining' <= remaining && (remaining' == remaining ==> queue == book[p])
        invariant RefGood(RefPut(book, p, queue))
        invariant out' == out.(trades := out'.trades, filled := out.filled + (remaining - remaining'))
        invariant RefSweep(isAsk, limit, id, Progress(out.trades, remaining, book))
               == RefSweep(isAsk, limit, id, Progress(out'.trades, remaining', RefPut(book, p, queue)))
        decreases remaining'
      {
        RefSweepStep(isAsk, limit, id, book, p, queue, out'.trades, remaining');
        var maker := queue[0];
        var fill := Min(remaining', maker.quantity);
        out' := out'.(trades := out'.trades + [Trade(id, maker.id, maker.price, fill)], filled := out'.filled + fill);
        remaining' := remaining' - fill;
        queue := RefFillFirst(queue, fill);
      }
      book' := RefPut(book, p, queue);
    }

    static lemma GoodLevel(book: RefSide, p: int)
      requires RefGood(book) && p in book
      ensures book[p] != [] && RefPut(book, p, book[p]) == book
    {
      assert RefGoodQueue(book[p]);
    }

    static method MatchLimit(id: uint64, side: Side, limitPrice: int64, remaining: uint64, opposite: RefSide,
                             out: AddResult)
      returns (remaining': uint64, opposite': RefSide, out': AddResult)
      requires RefGood(opposite) && out.filled + remaining < 0x1_0000_0000_0000_0000
      ensures var r := RefSweep(side == Buy, Some(limitPrice), id, Progress(out.trades, remaining, opposite));
        && remaining' == r.remaining <= remaining && opposite' == r.side
        && out' == out.(trades := r.trades, filled := out.filled + (remaining - r.remaining))
    {
      remaining', opposite', out' := remaining, opposite, out;
      while remaining' > 0 && opposite' != map[]
        invariant RefGood(opposite') && remaining' <= remaining
        invariant out' == out.(trades := out'.trades, filled := out.filled + (remaining - remaining'))
        invariant RefSweep(side == Buy, Some(limitPrice), id, Progress(out.trades, remaining, opposite))
               == RefSweep(side == Buy, Some(limitPrice), id, Progress(out'.trades, remaining', opposite'))
        decreases remaining'
      {
        var bestPrice := BestOf(side == Buy, opposite'.Keys);
        var crosses := if side == Buy then limitPrice >= bestPrice else limitPrice <= bestPrice;
        if !crosses {
          break;
        }
        remaining', opposite', out' := MatchLevel(id, side == Buy, Some(limitPrice), remaining', opposite', out');
      }
    }

    static method MatchMarket(id: uint64, side: Side, remaining: uint64, opposite: RefSide, out: AddResult)
      returns (remaining': uint64, opposite': RefSide, out': AddResult)
      requires RefGood(opposite) && out.filled + remaining < 0x1_0000_0000_0000_0000
      ensures var r := RefSweep(side == Buy, None, id, Progress(out.trades, remaining, opposite));
        && remaining' == r.remaining <= remaining && opposite' == r.side
        && out' == out.(trades := r.trades, filled := out.filled + (remaining - r.remaining))
    {
      remaining', opposite', out' := remaining, opposite, out;
      while remaining' > 0 && opposite' != map[]
        invariant RefGood(opposite') && remaining' <= remaining
        invariant out' == out.(trades := out'.trades, filled := out.filled + (remaining - remaining'))
        invariant RefSweep(side == Buy, None, id, Progress(out.trades, remaining, opposite))
               == RefSweep(side == Buy, None, id, Progress(out'.trades, remaining', opposite'))
        decreases remaining'
      {
        remaining', opposite', out' := MatchLevel(id, side == Buy, None, remaining', opposite', out');
      }
    }

    method AddLimitOrder(id: uint64, side: Side, price: int64, quantity: uint64, timestamp: uint64)
      returns (out: AddResult)
      requires Valid()
      modifies this
      ensures Valid() && (Book(), out) == RefLimit(old(Book()), id, side, price, quantity)
    {
      out := BLANK_RESULT.(initial := quantity);
      if quantity == 0 {
        return out.(code := InvalidQuantity);
      }
      var remaining := quantity;
      if side == Buy {
        remaining, asks, out := MatchLimit(id, side, price, remaining, asks, out);
      } else {
        remaining, bids, out := MatchLimit(id, side, price, remaining, bids, out);
      }
      out := out.(remaining := remaining);
      if remaining == 0 {
        return out;
      }
      RestOrder(id, side, price, remaining);
      out := out.(handle := 0);  // any valid handle: only its validity is compared
    }

    method AddMarketOrder(id: uint64, side: Side, quantity: uint64, timestamp: uint64) returns (out: AddResult)
      requires Valid()
      modifies this
      ensures Valid() && (Book(), out) == RefMarket(old(Book()), id, side, quantity)
    {
      out := BLANK_RESULT.(initial := quantity);
      if quantity == 0 {
        return out.(code := InvalidQuantity);
      }
      var remaining := quantity;
      if side == Buy {
        remaining, asks, out := MatchMarket(id, side, remaining, asks, out);
      } else {
        remaining, bids, out := MatchMarket(id, side, remaining, bids, out);
      }
      out := out.(remaining := remaining, code := if remaining == 0 then Success else MarketRemainderCancelled);
    }

    /** Appends an order to the queue of its price, which begins with it if there was none. */
    method RestOrder(id: uint64, side: Side, price: int64, quantity: uint64)
      requires Valid() && quantity > 0
      modifies this
      ensures Valid()
      ensures bids == if side == Buy then RefRested(old(bids), id, price, quantity) else old(bids)
      ensures asks == if side == Buy then old(asks) else RefRested(old(asks), id, price, quantity)
    {
      if side == Buy {
        RestedGood(bids, id, price, quantity);
        bids := RefRested(bids, id, price, quantity);
      } else {
        RestedGood(asks, id, price, quantity);
        asks := RefRested(asks, id, price, quantity);
      }
    }

    static lemma RestedGood(m: RefSide, id: uint64, price: int64, quantity: uint64)
      requires RefGood(m) && quantity > 0
      ensures RefGood(RefRested(m, id, price, quantity))
    {
      var m' := RefRested(m, id, price, quantity);
      forall x | x in m'
        ensures RefGoodQueue(m'[x])
      {
        assert x != price ==> m'[x] == m[x];
        assert price in m ==> RefGoodQueue(m[price]);
      }
    }

    /** Removes the first order with the id, searching the levels from the best one on. */
    static method CancelFromBook(id: uint64, isAsk: bool, book: RefSide) returns (found: bool, book': RefSide)
      ensures Cancelled(isAsk, book, id, found, book')
    {
      var rest := book;
      while rest != map[]
        invariant forall x :: x in rest ==> x in book && rest[x] == book[x]
        invariant forall x, j :: x in book && x !in rest && 0 <= j < |book[x]| ==> book[x][j].id != id
        decreases |rest|
      {
        var p := BestOf(isAsk, rest.Keys);
        var k := 0;
        while k < |book[p]| && book[p][k].id != id
          invariant k <= |book[p]| && forall j :: 0 <= j < k ==> book[p][j].id != id
        {
          k := k + 1;
        }
        if k < |book[p]| {
          assert FirstAt(isAsk, book, id, p, k);
          return true, RefPut(book, p, Without(book[p], k));
        }
        rest := rest - {p};
      }
      return false, book;
    }

    static lemma CancelledGood(isAsk: bool, m: RefSide, id: uint64, found: bool, m': RefSide)
      requires RefGood(m) && Cancelled(isAsk, m, id, found, m')
      ensures RefGood(m')
    {
      forall x | x in m'
        ensures RefGoodQueue(m'[x])
      {
        assert RefGoodQueue(m[x]);
      }
    }

    method CancelOrder(id: uint64) returns (found: bool)
      requires Valid()
      modifies this
      ensures Valid() && RefCancelled(old(Book()), id, Book())
      ensures found <==> !(Nowhere(old(bids), id) && Nowhere(old(asks), id))
    {
      var bids';
      found, bids' := CancelFromBook(id, false, bids);
      CancelledGood(false, bids, id, found, bids');
      bids := bids';
      if !found {
        var asks';
        found, asks' := CancelFromBook(id, true, asks);
        CancelledGood(true, asks, id, found, asks');
        asks := asks';
      }
    }

    method ModifyOrder(id: uint64, side: Side, price: int64, quantity: uint64, timestamp: uint64)
      returns (out: AddResult)
      requires Valid()
      modifies this
      ensures Valid()
      ensures exists b: RefBook ::
        RefCancelled(old(Book()), id, b) && b.Good() && (Book(), out) == RefLimit(b, id, side, price, quantity)
    {
      var _ := CancelOrder(id);
      ghost var b := Book();
      out := AddLimitOrder(id, side, price, quantity, timestamp);
      assert RefCancelled(old(Book()), id, b);
    }
  }
}
