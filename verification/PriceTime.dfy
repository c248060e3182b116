/** Matching is exactly price-time priority: it consumes a prefix of the opposite side in priority order. */
module PriceTime {
  import opened LedgerInvariants
  import opened Ledgers
  import opened Sequences
  import opened Types

  // ---------- priority order ----------

  /** A side as one list: most aggressive price first, oldest first within a price. */
  ghost function Flat(isAsk: bool, m: Queues): seq<Resting>
    decreases |m|
  {
    if m == map[] then [] else m[Best(isAsk, m)] + Flat(isAsk, m - {Best(isAsk, m)})
  }

  /** The list starts with the queue of the best price. */
  lemma FlatUnfolds(isAsk: bool, m: Queues)
    ensures m == map[] ==> Flat(isAsk, m) == []
    ensures m != map[] ==>
      Best(isAsk, m) in m && Flat(isAsk, m) == m[Best(isAsk, m)] + Flat(isAsk, m - {Best(isAsk, m)})
  {}

  lemma QueueUnfolds(m: Queues, b: int)
    requires Good(m) && b in m
    ensures GoodQueue(m[b], b) && Good(m - {b})
  {
    assert forall p {:trigger (m - {b})[p]} :: p in m - {b} ==> (m - {b})[p] == m[p];
  }

  /** The orders of s at price p, in the order in which s has them. */
  ghost function Only(s: seq<Resting>, p: int): seq<Resting> {
    if s == [] then [] else (if s[0].price == p then [s[0]] else []) + Only(s[1..], p)
  }

  lemma {:induction false} OnlyConcat(s: seq<Resting>, t: seq<Resting>, p: int)
    ensures Only(s + t, p) == Only(s, p) + Only(t, p)
  {
    if s == [] {
      assert s + t == t;
    } else {
      assert (s + t)[0] == s[0] && (s + t)[1..] == s[1..] + t;
      OnlyConcat(s[1..], t, p);
      var first := if s[0].price == p then [s[0]] else [];
      assert first + (Only(s[1..], p) + Only(t, p)) == first + Only(s[1..], p) + Only(t, p);
    }
  }

  lemma {:induction false} OnlyOwn(s: seq<Resting>, x: int, p: int)
    requires forall k :: 0 <= k < |s| ==> s[k].price == x
    ensures Only(s, p) == if x == p then s else []
  {
    if s != [] {
      OnlyOwn(s[1..], x, p);
    }
  }

  /** The list holds, for every price, exactly the queue of that price in its order of arrival. */
  lemma {:induction false} FlatHoldsQueues(isAsk: bool, m: Queues, p: int)
    requires Good(m)
    ensures Only(Flat(isAsk, m), p) == At(m, p)
    decreases |m|
  {
    hide Flat, Only, Good, Best;
    FlatUnfolds(isAsk, m);
    if m == map[] {
      assert Only([], p) == [] by { OnlyOwn([], p, p); }
    } else {
      var b := Best(isAsk, m);
      QueueUnfolds(m, b);
      OnlyConcat(m[b], Flat(isAsk, m - {b}), p);
      OnlyOwn(m[b], b, p);
      FlatHoldsQueues(isAsk, m - {b}, p);
    }
  }

  /** The list only has prices of the side. */
  lemma {:induction false} FlatPrices(isAsk: bool, m: Queues)
    requires Good(m)
    ensures forall i :: 0 <= i < |Flat(isAsk, m)| ==> Flat(isAsk, m)[i].price in m && Flat(isAsk, m)[i].quantity > 0
    decreases |m|
  {
    hide Flat, Good, Best;
    FlatUnfolds(isAsk, m);
    if m != map[] {
      var b := Best(isAsk, m);
      QueueUnfolds(m, b);
      FlatPrices(isAsk, m - {b});
    }
  }

  /** No order is ahead of one at a strictly better price. */
  lemma {:induction false} FlatSorted(isAsk: bool, m: Queues)
    requires Good(m)
    ensures var f := Flat(isAsk, m);
            forall i, j :: 0 <= i < j < |f| ==> !Better(isAsk, f[j].price, f[i].price)
    decreases |m|
  {
    if m != map[] {
      var b := Best(isAsk, m);
      var rest := m - {b};
      QueueUnfolds(m, b);
      FlatPrices(isAsk, rest);
      FlatSorted(isAsk, rest);
      var f := Flat(isAsk, m);
      forall i, j | 0 <= i < j < |f|
        ensures !Better(isAsk, f[j].price, f[i].price)
      {
        if j >= |m[b]| {
          assert f[j] == Flat(isAsk, rest)[j - |m[b]|];
          assert f[j].price in rest && f[j].price in m;
          assert i >= |m[b]| ==> f[i] == Flat(isAsk, rest)[i - |m[b]|];
        }
      }
    }
  }

  // ---------- filling a list from the front ----------

  datatype Filling = Filling(trades: seq<Trade>, remaining: uint64, left: seq<Resting>, freed: seq<OrderHandle>)

  /**
   * The textbook rule on the priority list: take the first order while it crosses. Freed are the
   * handles of the fully filled orders, last one first.
   */
  ghost function FillList(isAsk: bool, limit: Option<int>, taker: uint64, quantity: uint64, s: seq<Resting>): Filling {
    if quantity == 0 || s == [] || (limit.Some? && !Crosses(isAsk, limit.value, s[0].price)) then
      Filling([], quantity, s, [])
    else if quantity < s[0].quantity then
      Filling(
        [Trade(taker, s[0].id, s[0].price, quantity)], 0, [s[0].(quantity := s[0].quantity - quantity)] + s[1..], [])
    else
      var rest := FillList(isAsk, limit, taker, quantity - s[0].quantity, s[1..]);
      rest.(trades := [Trade(taker, s[0].id, s[0].price, s[0].quantity)] + rest.trades,
            freed := rest.freed + [s[0].handle])
  }

  /** A list without its first order, or with that order reduced. */
  ghost function FillFirst(s: seq<Resting>, fill: uint64): seq<Resting>
    requires s != [] && fill <= s[0].quantity
  {
    if fill == s[0].quantity then s[1..] else [s[0].(quantity := s[0].quantity - fill)] + s[1..]
  }

  lemma FillListCases(isAsk: bool, limit: Option<int>, taker: uint64, quantity: uint64, s: seq<Resting>)
    ensures quantity == 0 || s == [] || (limit.Some? && !Crosses(isAsk, limit.value, s[0].price)) ==>
      FillList(isAsk, limit, taker, quantity, s) == Filling([], quantity, s, [])
    ensures quantity > 0 && s != [] && (limit.Some? ==> Crosses(isAsk, limit.value, s[0].price)) ==>
      if quantity < s[0].quantity then
        FillList(isAsk, limit, taker, quantity, s) ==
        Filling([Trade(taker, s[0].id, s[0].price, quantity)], 0, FillFirst(s, quantity), [])
      else
        var rest := FillList(isAsk, limit, taker, quantity - s[0].quantity, s[1..]);
        FillList(isAsk, limit, taker, quantity, s) ==
        rest.(trades := [Trade(taker, s[0].id, s[0].price, s[0].quantity)] + rest.trades,
              freed := rest.freed + [s[0].handle])
  {}

  /** One step of the rule, in full or in part. */
  lemma FillListStep(isAsk: bool, limit: Option<int>, taker: uint64, quantity: uint64, s: seq<Resting>)
    requires quantity > 0 && s != [] && (limit.Some? ==> Crosses(isAsk, limit.value, s[0].price))
    ensures var fill := Min(quantity, s[0].quantity);
            var rest := FillList(isAsk, limit, taker, quantity - fill, FillFirst(s, fill));
            FillList(isAsk, limit, taker, quantity, s) ==
            rest.(trades := [Trade(taker, s[0].id, s[0].price, fill)] + rest.trades,
                  freed := rest.freed + (if fill == s[0].quantity then [s[0].handle] else []))
  {}

  /** Replacing the queue at the best price replaces the head of the list. */
  lemma FlatPut(isAsk: bool, m: Queues, q: seq<Resting>)
    requires m != map[]
    ensures var b := Best(isAsk, m);
            Flat(isAsk, m) == m[b] + Flat(isAsk, m - {b}) && Flat(isAsk, Put(m, b, q)) == q + Flat(isAsk, m - {b})
  {
    var b := Best(isAsk, m);
    var m' := Put(m, b, q);
    if q != [] {
      assert m'.Keys == m.Keys;
      assert IsBest(isAsk, Best(isAsk, m'), m.Keys);
      assert Best(isAsk, m') == b;
      assert m' - {b} == m - {b};
    } else {
      assert q + Flat(isAsk, m - {b}) == Flat(isAsk, m - {b});
    }
  }

  lemma FillFirstConcat(s: seq<Resting>, t: seq<Resting>, fill: uint64)
    requires s != [] && fill <= s[0].quantity
    ensures FillFirst(s + t, fill) == FillFirst(s, fill) + t
  {
    assert (s + t)[1..] == s[1..] + t;
  }

  lemma FillSide(l: Ledger, isAsk: bool, p: int, fill: uint64)
    requires HasAt(l, isAsk, p, 0) && fill <= l.Side(isAsk)[p][0].quantity
    ensures FillAt(l, isAsk, p, fill).Side(isAsk) == Put(l.Side(isAsk), p, FillFirst(l.Side(isAsk)[p], fill))
  {
    assert Without(l.Side(isAsk)[p], 0) == l.Side(isAsk)[p][1..];
  }

  /** Filling the best order of a side fills the first order of its list. */
  lemma FlatFill(l: Ledger, isAsk: bool, fill: uint64)
    requires Good(l.Side(isAsk)) && l.Side(isAsk) != map[]
    ensures var m, p := l.Side(isAsk), Best(isAsk, l.Side(isAsk));
            var s := Flat(isAsk, m);
            && HasAt(l, isAsk, p, 0) && s != [] && s[0] == m[p][0]
            && (fill <= m[p][0].quantity ==> Flat(isAsk, FillAt(l, isAsk, p, fill).Side(isAsk)) == FillFirst(s, fill))
  {
    var m, p := l.Side(isAsk), Best(isAsk, l.Side(isAsk));
    assert GoodQueue(m[p], p);
    hide Flat, FillAt, Put, Good, FillFirst;
    FlatPut(isAsk, m, m[p]);
    if fill <= m[p][0].quantity {
      FillSide(l, isAsk, p, fill);
      FlatPut(isAsk, m, FillFirst(m[p], fill));
      FillFirstConcat(m[p], Flat(isAsk, m - {p}), fill);
    }
  }

  /** The engine's sweep over price queues comes to the same as the textbook rule on the priority list. */
  ghost predicate Agrees(l: Ledger, isAsk: bool, limit: Option<int>, taker: uint64, quantity: uint64)
    requires Good(l.Side(isAsk))
  {
    var o := Sweep(l, isAsk, limit, taker, quantity);
    var f := FillList(isAsk, limit, taker, quantity, Flat(isAsk, l.Side(isAsk)));
    && o.trades == f.trades && o.remaining == f.remaining
    && Flat(isAsk, o.after.Side(isAsk)) == f.left
    && o.after.free == f.freed + l.free
  }

  lemma AgreesAtStop(l: Ledger, isAsk: bool, limit: Option<int>, taker: uint64, quantity: uint64)
    requires Good(l.Side(isAsk)) && Stops(l, isAsk, limit, quantity)
    ensures Agrees(l, isAsk, limit, taker, quantity)
  {
    if l.Side(isAsk) != map[] {
      FlatFill(l, isAsk, 0);
    }
    assert [] + l.free == l.free;
  }

  lemma AgreesStep(l: Ledger, isAsk: bool, limit: Option<int>, taker: uint64, quantity: uint64, p: int, fill: uint64)
    requires Good(l.Side(isAsk)) && !Stops(l, isAsk, limit, quantity)
    requires p == Best(isAsk, l.Side(isAsk)) && HasAt(l, isAsk, p, 0)
    requires fill == Min(quantity, l.Side(isAsk)[p][0].quantity)
    requires Good(FillAt(l, isAsk, p, fill).Side(isAsk))
    requires Agrees(FillAt(l, isAsk, p, fill), isAsk, limit, taker, quantity - fill)
    ensures Agrees(l, isAsk, limit, taker, quantity)
  {
    hide Flat, Good, Sweep, FillList, FillFirst, FillAt, Best, Crosses;
    var maker := l.Side(isAsk)[p][0];
    var s := Flat(isAsk, l.Side(isAsk));
    SweepUnfold(l, isAsk, limit, taker, quantity);
    FlatFill(l, isAsk, fill);
    FillFree(l, isAsk, p, fill);
    CrossesFirst(l, isAsk, limit, quantity);
    FillListStep(isAsk, limit, taker, quantity, s);
    var rest := FillList(isAsk, limit, taker, quantity - fill, FillFirst(s, fill));
    var freed := if fill == maker.quantity then [maker.handle] else [];
    assert rest.freed + (freed + l.free) == rest.freed + freed + l.free;
  }

  lemma CrossesFirst(l: Ledger, isAsk: bool, limit: Option<int>, quantity: uint64)
    requires Good(l.Side(isAsk)) && !Stops(l, isAsk, limit, quantity)
    ensures var s := Flat(isAsk, l.Side(isAsk)); s != [] && (limit.Some? ==> Crosses(isAsk, limit.value, s[0].price))
  {
    FlatFill(l, isAsk, 0);
    assert GoodQueue(l.Side(isAsk)[Best(isAsk, l.Side(isAsk))], Best(isAsk, l.Side(isAsk)));
  }

  lemma {:induction false} SweepIsFillList(l: Ledger, isAsk: bool, limit: Option<int>, taker: uint64, quantity: uint64)
    requires Good(l.Side(isAsk))
    ensures Agrees(l, isAsk, limit, taker, quantity)
    decreases quantity
  {
    hide Agrees, Good, GoodQueue, Sweep, FillAt, Stops, Best;
    if Stops(l, isAsk, limit, quantity) {
      AgreesAtStop(l, isAsk, limit, taker, quantity);
    } else {
      SweepUnfold(l, isAsk, limit, taker, quantity);
      var p := Best(isAsk, l.Side(isAsk));
      var fill := Min(quantity, l.Side(isAsk)[p][0].quantity);
      SweepIsFillList(FillAt(l, isAsk, p, fill), isAsk, limit, taker, quantity - fill);
      AgreesStep(l, isAsk, limit, taker, quantity, p, fill);
    }
  }

  lemma FillFree(l: Ledger, isAsk: bool, p: int, fill: uint64)
    requires HasAt(l, isAsk, p, 0) && fill <= l.Side(isAsk)[p][0].quantity
    ensures var maker := l.Side(isAsk)[p][0];
            FillAt(l, isAsk, p, fill).free == (if fill == maker.quantity then [maker.handle] else []) + l.free
  {
    assert [] + l.free == l.free;
  }

  // ---------- what the rule means ----------

  ghost function Total(trades: seq<Trade>): nat {
    if trades == [] then 0 else trades[0].quantity + Total(trades[1..])
  }

  ghost function Volume(s: seq<Resting>): nat {
    if s == [] then 0 else s[0].quantity + Volume(s[1..])
  }

  /** Trades with the first orders of a list, all in full but possibly the last, at their own prices. */
  ghost predicate FromFront(isAsk: bool, limit: Option<int>, taker: uint64, s: seq<Resting>, trades: seq<Trade>,
                            remaining: uint64) {
    |trades| <= |s| &&
    forall i {:trigger trades[i]} {:trigger s[i]} :: 0 <= i < |trades| ==>
      && trades[i].takerId == taker && trades[i].makerId == s[i].id && trades[i].price == s[i].price
      && 0 < trades[i].quantity <= s[i].quantity
      && (trades[i].quantity == s[i].quantity || (i == |trades| - 1 && remaining == 0))
      && (limit.Some? ==> Crosses(isAsk, limit.value, s[i].price))
  }

  /** The list without what was traded. */
  ghost predicate Leaves(s: seq<Resting>, trades: seq<Trade>, left: seq<Resting>)
    requires |trades| <= |s|
  {
    var n := |trades|;
    || left == s[n..]
    || (n > 0 && trades[n - 1].quantity < s[n - 1].quantity
        && left == [s[n - 1].(quantity := s[n - 1].quantity - trades[n - 1].quantity)] + s[n..])
  }

  lemma {:induction false} FillListFromFront(isAsk: bool, limit: Option<int>, taker: uint64, quantity: uint64,
                                             s: seq<Resting>)
    requires forall i :: 0 <= i < |s| ==> s[i].quantity > 0
    ensures var f := FillList(isAsk, limit, taker, quantity, s);
            FromFront(isAsk, limit, taker, s, f.trades, f.remaining) && Leaves(s, f.trades, f.left)
    ensures var f := FillList(isAsk, limit, taker, quantity, s);
            f.remaining > 0 && |f.trades| < |s| ==> limit.Some? && !Crosses(isAsk, limit.value, s[|f.trades|].price)
  {
    hide FillList, Crosses;
    FillListCases(isAsk, limit, taker, quantity, s);
    var over := quantity == 0 || s == [] || (limit.Some? && !Crosses(isAsk, limit.value, s[0].price));
    if !over && quantity >= s[0].quantity {
      var g := FillList(isAsk, limit, taker, quantity - s[0].quantity, s[1..]);
      FillListFromFront(isAsk, limit, taker, quantity - s[0].quantity, s[1..]);
      OneMoreInFront(isAsk, limit, taker, s, g.trades, g.remaining, g.left);
    }
  }

  /** A full trade with the first order goes in front of trades with the rest. */
  lemma OneMoreInFront(isAsk: bool, limit: Option<int>, taker: uint64, s: seq<Resting>,
                       trades: seq<Trade>, remaining: uint64, left: seq<Resting>)
    requires s != [] && s[0].quantity > 0 && (limit.Some? ==> Crosses(isAsk, limit.value, s[0].price))
    requires FromFront(isAsk, limit, taker, s[1..], trades, remaining) && Leaves(s[1..], trades, left)
    ensures var all := [Trade(taker, s[0].id, s[0].price, s[0].quantity)] + trades;
            FromFront(isAsk, limit, taker, s, all, remaining) && Leaves(s, all, left)
  {
    var all := [Trade(taker, s[0].id, s[0].price, s[0].quantity)] + trades;
    forall i | 0 < i < |all|
      ensures all[i] == trades[i - 1] && s[i] == s[1..][i - 1]
    {}
    assert s[1..][|trades|..] == s[|all|..];
  }

  lemma TotalFirst(t: Trade, trades: seq<Trade>)
    ensures Total([]) == 0 && Total([t] + trades) == t.quantity + Total(trades)
  {
    assert ([t] + trades)[1..] == trades;
  }

  lemma VolumePrefix(s: seq<Resting>, n: nat)
    requires n < |s|
    ensures Volume(s[..0]) == 0 && Volume(s[..n + 1]) == s[0].quantity + Volume(s[1..][..n])
  {
    assert s[..n + 1][1..] == s[1..][..n];
  }

  /** The trades cover what was filled, and no shorter prefix of the list would have. */
  lemma {:induction false} FillListCovers(isAsk: bool, limit: Option<int>, taker: uint64, quantity: uint64,
                                          s: seq<Resting>)
    ensures var f := FillList(isAsk, limit, taker, quantity, s);
            && f.remaining <= quantity && Total(f.trades) == quantity - f.remaining && |f.trades| <= |s|
            && (f.trades != [] ==> Volume(s[..|f.trades| - 1]) < quantity)
  {
    hide FillList, Total, Volume, Crosses;
    FillListCases(isAsk, limit, taker, quantity, s);
    if quantity == 0 || s == [] || (limit.Some? && !Crosses(isAsk, limit.value, s[0].price)) {
      TotalFirst(Trade(taker, 0, 0, 0), []);
    } else if quantity < s[0].quantity {
      TotalFirst(Trade(taker, s[0].id, s[0].price, quantity), []);
      VolumePrefix(s, 0);
      assert [Trade(taker, s[0].id, s[0].price, quantity)] + [] == [Trade(taker, s[0].id, s[0].price, quantity)];
    } else {
      var g := FillList(isAsk, limit, taker, quantity - s[0].quantity, s[1..]);
      FillListCovers(isAsk, limit, taker, quantity - s[0].quantity, s[1..]);
      TotalFirst(Trade(taker, s[0].id, s[0].price, s[0].quantity), g.trades);
      VolumePrefix(s, if g.trades == [] then 0 else |g.trades| - 1);
    }
  }

  /**
   * Price-time priority on the ledger: the trades are the shortest prefix of the opposite side's
   * priority list that covers the quantity, cut off at the limit; if quantity remains, no resting
   * order of the opposite side crosses the limit any more.
   */
  lemma PriceTimePriority(l: Ledger, isAsk: bool, limit: Option<int>, taker: uint64, quantity: uint64)
    requires Good(l.Side(isAsk))
    ensures var s := Flat(isAsk, l.Side(isAsk));
            var o := Sweep(l, isAsk, limit, taker, quantity);
            && FromFront(isAsk, limit, taker, s, o.trades, o.remaining)
            && Leaves(s, o.trades, Flat(isAsk, o.after.Side(isAsk)))
            && Total(o.trades) == quantity - o.remaining
            && (o.trades != [] ==> Volume(s[..|o.trades| - 1]) < quantity)
            && (forall i, j :: 0 <= i < j < |s| ==> !Better(isAsk, s[j].price, s[i].price))
    ensures var o := Sweep(l, isAsk, limit, taker, quantity);
            o.remaining > 0 ==> forall p :: p in o.after.Side(isAsk) ==> limit.Some? && !Crosses(isAsk, limit.value, p)
  {
    hide Flat, FillList, Sweep, FromFront, Leaves, Total, Volume, Good, Best;
    SweepIsFillList(l, isAsk, limit, taker, quantity);
    FlatPrices(isAsk, l.Side(isAsk));
    FlatSorted(isAsk, l.Side(isAsk));
    FillListFromFront(isAsk, limit, taker, quantity, Flat(isAsk, l.Side(isAsk)));
    FillListCovers(isAsk, limit, taker, quantity, Flat(isAsk, l.Side(isAsk)));
    SweepStops(l, isAsk, limit, taker, quantity);
    var o := Sweep(l, isAsk, limit, taker, quantity);
    if o.remaining > 0 && limit.Some? {
      NothingCrosses(o.after, isAsk, limit.value, o.remaining);
    }
  }

  lemma {:induction false} SweepStops(l: Ledger, isAsk: bool, limit: Option<int>, taker: uint64, quantity: uint64)
    requires Good(l.Side(isAsk))
    ensures var o := Sweep(l, isAsk, limit, taker, quantity);
            Stops(o.after, isAsk, limit, o.remaining)
    decreases quantity
  {
    if !Stops(l, isAsk, limit, quantity) {
      SweepUnfold(l, isAsk, limit, taker, quantity);
      var p := Best(isAsk, l.Side(isAsk));
      var fill := Min(quantity, l.Side(isAsk)[p][0].quantity);
      SweepStops(FillAt(l, isAsk, p, fill), isAsk, limit, taker, quantity - fill);
    }
  }

  // ---------- market orders ----------

  /** A limit that every price of the side crosses does not limit anything. */
  lemma {:induction false} NoLimit(l: Ledger, isAsk: bool, limit: int, taker: uint64, quantity: uint64)
    requires Good(l.Side(isAsk)) && forall p :: p in l.Side(isAsk) ==> Crosses(isAsk, limit, p)
    ensures Sweep(l, isAsk, Some(limit), taker, quantity) == Sweep(l, isAsk, None, taker, quantity)
    decreases quantity
  {
    if !Stops(l, isAsk, None, quantity) {
      var p := Best(isAsk, l.Side(isAsk));
      assert GoodQueue(l.Side(isAsk)[p], p);
      var fill := Min(quantity, l.Side(isAsk)[p][0].quantity);
      FillKeepsGood(l, isAsk, p, fill);
      NoLimit(FillAt(l, isAsk, p, fill), isAsk, limit, taker, quantity - fill);
    }
  }

  /** The price that crosses every price of the opposite side. */
  function Extreme(side: Side): int64 {
    if side == Buy then PRICE_COUNT - 1 else 0
  }

  /**
   * A market order trades exactly like a limit order at the extreme price; the two differ only in
   * the remainder, which the limit order rests in the ledger the market order leaves behind.
   */
  lemma MarketIsLimitWithoutRest(l: Ledger, id: uint64, side: Side, quantity: uint64, timestamp: uint64, cap: nat)
    requires Sound(l, cap) && CanRest(l, id, side, Extreme(side), quantity)
    ensures var (after, market) := AddMarket(l, id, side, quantity);
            var (after', limit) := AddLimit(l, id, side, Extreme(side), quantity, timestamp);
            && market.trades == limit.trades && market.filled == limit.filled && market.remaining == limit.remaining
            && (market.remaining == 0 ==> after' == after)
            && (market.remaining > 0 ==>
              && after.free != []
              && after' == RestAt(after, !Opposite(side), Extreme(side), id, market.remaining, timestamp))
  {
    NoLimit(l, Opposite(side), Extreme(side), id, quantity);
    SweepKeeps(l, Opposite(side), None, id, quantity, cap);
  }
}
