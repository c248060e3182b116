/** The engine's ledger, with handles, timestamps and free slots forgotten, is the naive book. */
module Refinement {
  import opened LedgerInvariants
  import opened Ledgers
  import opened PriceTime
  import opened Reference
  import opened Sequences
  import opened Tracking
  import opened Types

  function Forget(r: Resting): RefOrder {
    RefOrder(r.id, r.price, r.quantity)
  }

  function ForgetQueue(q: seq<Resting>): (f: seq<RefOrder>)
    ensures |f| == |q| && forall k :: 0 <= k < |q| ==> f[k] == Forget(q[k])
  {
    seq(|q|, k requires 0 <= k < |q| => Forget(q[k]))
  }

  function ForgetSide(m: Queues): (f: RefSide)
    ensures f.Keys == m.Keys && forall p :: p in m ==> f[p] == ForgetQueue(m[p])
  {
    map p | p in m :: ForgetQueue(m[p])
  }

  function ForgetBook(l: Ledger): RefBook {
    RefBook(ForgetSide(l.bids), ForgetSide(l.asks))
  }

  lemma ForgetGood(m: Queues)
    requires Good(m)
    ensures RefGood(ForgetSide(m))
  {
    forall p | p in ForgetSide(m)
      ensures RefGoodQueue(ForgetSide(m)[p])
    {
      assert GoodQueue(m[p], p);
    }
  }

  lemma ForgetPut(m: Queues, p: int, q: seq<Resting>)
    ensures ForgetSide(Put(m, p, q)) == RefPut(ForgetSide(m), p, ForgetQueue(q))
  {}

  lemma ForgetWithout(q: seq<Resting>, k: nat)
    requires k < |q|
    ensures ForgetQueue(Without(q, k)) == Without(ForgetQueue(q), k)
  {}

  lemma ForgetFirst(q: seq<Resting>, fill: uint64)
    requires q != [] && fill <= q[0].quantity
    ensures ForgetQueue(FillFirst(q, fill)) == RefFillFirst(ForgetQueue(q), fill)
  {}

  lemma ForgetFill(l: Ledger, isAsk: bool, p: int, fill: uint64)
    requires HasAt(l, isAsk, p, 0) && fill <= l.Side(isAsk)[p][0].quantity
    ensures var m := ForgetSide(l.Side(isAsk));
            ForgetSide(FillAt(l, isAsk, p, fill).Side(isAsk)) == RefPut(m, p, RefFillFirst(m[p], fill))
  {
    hide FillAt, FillFirst, Put, RefPut, RefFillFirst, ForgetSide, ForgetQueue;
    var q := l.Side(isAsk)[p];
    FillSide(l, isAsk, p, fill);
    ForgetFirst(q, fill);
    ForgetPut(l.Side(isAsk), p, FillFirst(q, fill));
  }

  /** The two sweeps make the same trades and leave the same side. */
  lemma {:induction false} SweepsAgree(l: Ledger, isAsk: bool, limit: Option<int>, taker: uint64, quantity: uint64,
                                       trades: seq<Trade>)
    requires Good(l.Side(isAsk)) && RefGood(ForgetSide(l.Side(isAsk)))
    ensures var o := Sweep(l, isAsk, limit, taker, quantity);
            RefSweep(isAsk, limit, taker, Progress(trades, quantity, ForgetSide(l.Side(isAsk))))
            == Progress(trades + o.trades, o.remaining, ForgetSide(o.after.Side(isAsk)))
    decreases quantity
  {
    hide Good, Sweep, FillAt, RefGood, Stops, RefStops, RefSweep, RefTrade, Best;
    StopsAgree(l, isAsk, limit, quantity, trades);
    var s := Progress(trades, quantity, ForgetSide(l.Side(isAsk)));
    if Stops(l, isAsk, limit, quantity) {
      SweepAtStop(l, isAsk, limit, taker, quantity);
      RefSweepAtStop(isAsk, limit, taker, s);
      assert trades + [] == trades;
    } else {
      SweepUnfold(l, isAsk, limit, taker, quantity);
      var p := Best(isAsk, l.Side(isAsk));
      var fill := Min(quantity, l.Side(isAsk)[p][0].quantity);
      var next := FillAt(l, isAsk, p, fill);
      var trade := Trade(taker, l.Side(isAsk)[p][0].id, l.Side(isAsk)[p][0].price, fill);
      var rest := Sweep(next, isAsk, limit, taker, quantity - fill);
      ForgetGood(next.Side(isAsk));
      TradesAgree(l, isAsk, taker, quantity, trades);
      RefSweepUnfold(isAsk, limit, taker, s);
      SweepsAgree(next, isAsk, limit, taker, quantity - fill, trades + [trade]);
      assert trades + [trade] + rest.trades == trades + ([trade] + rest.trades);
    }
  }

  /** One trade of the engine is one trade of the naive book. */
  lemma TradesAgree(l: Ledger, isAsk: bool, taker: uint64, quantity: uint64, trades: seq<Trade>)
    requires l.Side(isAsk) != map[] && HasAt(l, isAsk, Best(isAsk, l.Side(isAsk)), 0)
    ensures var p := Best(isAsk, l.Side(isAsk));
            var maker := l.Side(isAsk)[p][0];
            var fill := Min(quantity, maker.quantity);
            var s := Progress(trades, quantity, ForgetSide(l.Side(isAsk)));
            && s.side != map[] && p == BestOf(isAsk, s.side.Keys) && s.side[p] != []
            && RefTrade(taker, p, s) == Progress(trades + [Trade(taker, maker.id, maker.price, fill)], quantity - fill,
                                                 ForgetSide(FillAt(l, isAsk, p, fill).Side(isAsk)))
  {
    var p := Best(isAsk, l.Side(isAsk));
    ForgetFill(l, isAsk, p, Min(quantity, l.Side(isAsk)[p][0].quantity));
    assert p in ForgetSide(l.Side(isAsk));
  }

  lemma RefSweepAtStop(isAsk: bool, limit: Option<int>, taker: uint64, s: Progress)
    requires RefGood(s.side) && RefStops(isAsk, limit, s)
    ensures RefSweep(isAsk, limit, taker, s) == s
  {}

  lemma RefSweepUnfold(isAsk: bool, limit: Option<int>, taker: uint64, s: Progress)
    requires RefGood(s.side) && !RefStops(isAsk, limit, s)
    ensures var p := BestOf(isAsk, s.side.Keys);
            && s.side[p] != [] && RefGood(RefTrade(taker, p, s).side)
            && RefSweep(isAsk, limit, taker, s) == RefSweep(isAsk, limit, taker, RefTrade(taker, p, s))
  {
    RefTradeGood(isAsk, taker, s);
  }

  lemma StopsAgree(l: Ledger, isAsk: bool, limit: Option<int>, quantity: uint64, trades: seq<Trade>)
    ensures var s := Progress(trades, quantity, ForgetSide(l.Side(isAsk)));
            RefStops(isAsk, limit, s) <==> Stops(l, isAsk, limit, quantity)
    ensures !Stops(l, isAsk, limit, quantity) ==> ForgetSide(l.Side(isAsk)) != map[]
  {
    assert ForgetSide(l.Side(isAsk)) == map[] <==> l.Side(isAsk) == map[];
  }

  /** Same code, quantities and trades in order, and a valid handle exactly when the other has one. */
  predicate SameResult(actual: AddResult, expected: AddResult) {
    && actual.code == expected.code
    && actual.initial == expected.initial && actual.filled == expected.filled && actual.remaining == expected.remaining
    && actual.trades == expected.trades
    && (actual.handle != INVALID_HANDLE <==> expected.handle != INVALID_HANDLE)
  }

  lemma LimitAgrees(l: Ledger, id: uint64, side: Side, price: int64, quantity: uint64, timestamp: uint64, cap: nat)
    requires Sound(l, cap) && cap <= INVALID_HANDLE && CanRest(l, id, side, price, quantity) && ForgetBook(l).Good()
    ensures var (after, actual) := AddLimit(l, id, side, price, quantity, timestamp);
            var (book, expected) := RefLimit(ForgetBook(l), id, side, price, quantity);
            ForgetBook(after) == book && SameResult(actual, expected)
  {
    hide Sweep, RefSweep, Good, Uncrossed;
    if quantity > 0 {
      var isAsk := Opposite(side);
      var o := Sweep(l, isAsk, Some(price), id, quantity);
      SweepsAgree(l, isAsk, Some(price), id, quantity, []);
      SweepKeeps(l, isAsk, Some(price), id, quantity, cap);
      assert [] + o.trades == o.trades;
      if o.remaining > 0 {
        ForgetRest(o.after, !isAsk, price, id, o.remaining, timestamp);
        assert o.after.free[0] in o.after.free;
      }
    }
  }

  lemma ForgetRest(l: Ledger, isAsk: bool, price: int64, id: uint64, quantity: uint64, timestamp: uint64)
    requires l.free != []
    ensures var l' := RestAt(l, isAsk, price, id, quantity, timestamp);
            && ForgetSide(l'.Side(isAsk)) == RefRested(ForgetSide(l.Side(isAsk)), id, price, quantity)
            && l'.Side(!isAsk) == l.Side(!isAsk)
  {
    var q := At(l.Side(isAsk), price);
    var r := Resting(l.free[0], id, price, quantity, timestamp);
    ForgetPut(l.Side(isAsk), price, q + [r]);
    assert ForgetQueue(q + [r]) == ForgetQueue(q) + [Forget(r)];
    assert price !in l.Side(isAsk) ==> ForgetQueue(q) == [];
  }

  lemma MarketAgrees(l: Ledger, id: uint64, side: Side, quantity: uint64)
    requires GoodBook(l) && ForgetBook(l).Good()
    ensures var (after, actual) := AddMarket(l, id, side, quantity);
            var (book, expected) := RefMarket(ForgetBook(l), id, side, quantity);
            ForgetBook(after) == book && SameResult(actual, expected)
  {
    hide Sweep, RefSweep, Good;
    if quantity > 0 {
      var o := Sweep(l, Opposite(side), None, id, quantity);
      SweepsAgree(l, Opposite(side), None, id, quantity, []);
      assert [] + o.trades == o.trades;
    }
  }

  /** When ids are unique, removing by handle and removing by id is the same. */
  lemma CancelAgrees(t: Table, l: Ledger, h: OrderHandle, b: RefBook)
    requires UniquePlaces(l) && Mirrors(t, l) && Live(l, h) && RefCancelled(ForgetBook(l), Denotes(l, h).id, b)
    ensures b == ForgetBook(Cancel(l, h))
  {
    var a, p, k := CancelPlace(l, h);
    if a {
      if Cancelled(false, ForgetSide(l.bids), l.Side(a)[p][k].id, true, b.bids) {
        ElsewhereFails(t, l, a, p, k, false, true, b.bids);
      } else {
        ElsewhereFails(t, l, a, p, k, false, false, b.bids);
        var found := Cancelled(true, ForgetSide(l.asks), l.Side(a)[p][k].id, true, b.asks);
        ForgetRemoved(t, l, a, p, k, found, b.asks);
      }
    } else {
      var found := Cancelled(false, ForgetSide(l.bids), l.Side(a)[p][k].id, true, b.bids);
      ForgetRemoved(t, l, a, p, k, found, b.bids);
    }
  }

  lemma ModifyAgrees(t: Table, l: Ledger, h: OrderHandle, side: Side, price: int64, quantity: uint64,
                     timestamp: uint64, cap: nat, b: RefBook)
    requires Sound(l, cap) && cap <= INVALID_HANDLE && Mirrors(t, l) && CanModify(l, h, side, price, quantity)
    requires RefCancelled(ForgetBook(l), Denotes(l, h).id, b) && b.Good()
    ensures var (after, actual) := Modify(l, h, side, price, quantity, timestamp);
            var (book, expected) := RefLimit(b, Denotes(l, h).id, side, price, quantity);
            ForgetBook(after) == book && SameResult(actual, expected)
  {
    hide Mirrors, ForgetBook, RefCancelled, RefLimit, AddLimit, Cancel, Uncrossed, InRange;
    PartitionUnique(l, cap);
    CancelAgrees(t, l, h, b);
    CancelKeeps(l, h, cap);
    LimitAgrees(Cancel(l, h), Denotes(l, h).id, side, price, quantity, timestamp, cap);
  }

  /** No other place has the id. */
  lemma OnlyHere(t: Table, l: Ledger, a: bool, p: int, k: nat)
    requires UniquePlaces(l) && Mirrors(t, l) && HasAt(l, a, p, k)
    ensures forall b, x, j: nat :: HasAt(l, b, x, j) && l.Side(b)[x][j].id == l.Side(a)[p][k].id ==>
      b == a && x == p && j == k
  {
    forall b, x, j: nat | HasAt(l, b, x, j) && l.Side(b)[x][j].id == l.Side(a)[p][k].id
      ensures b == a && x == p && j == k
    {
      assert EntryAt(l, b, x, j) == EntryAt(l, a, p, k);
      assert LiveAt(l, a, p, k, l.Side(a)[p][k].handle) && LiveAt(l, b, x, j, l.Side(a)[p][k].handle);
    }
  }

  lemma ElsewhereFails(t: Table, l: Ledger, a: bool, p: int, k: nat, other: bool, found: bool, m: RefSide)
    requires UniquePlaces(l) && Mirrors(t, l) && HasAt(l, a, p, k) && other != a
    requires Cancelled(other, ForgetSide(l.Side(other)), l.Side(a)[p][k].id, found, m)
    ensures !found && m == ForgetSide(l.Side(other))
  {
    OnlyHere(t, l, a, p, k);
    assert forall x, j: nat :: FirstAt(other, ForgetSide(l.Side(other)), l.Side(a)[p][k].id, x, j) ==>
      HasAt(l, other, x, j);
  }

  lemma ForgetRemoved(t: Table, l: Ledger, a: bool, p: int, k: nat, found: bool, m: RefSide)
    requires UniquePlaces(l) && Mirrors(t, l) && HasAt(l, a, p, k)
    requires Cancelled(a, ForgetSide(l.Side(a)), l.Side(a)[p][k].id, found, m)
    ensures found && m == ForgetSide(RemoveAt(l, a, p, k).Side(a))
  {
    var f: RefSide := ForgetSide(l.Side(a));
    var id := l.Side(a)[p][k].id;
    assert f[p][k].id == id;
    OnlyHere(t, l, a, p, k);
    var x: int, j: nat :| FirstAt(a, f, id, x, j) && m == RefPut(f, x, Without(f[x], j));
    assert HasAt(l, a, x, j);
    ForgetWithout(l.Side(a)[p], k);
    ForgetPut(l.Side(a), p, Without(l.Side(a)[p], k));
  }
}
