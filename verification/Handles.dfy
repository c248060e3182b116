/** A handle keeps denoting its order until that order is cancelled, modified or fully filled. */
module Handles {
  import opened LedgerInvariants
  import opened Ledgers
  import opened PriceTime
  import opened Runs
  import opened Tracking
  import opened Types

  // ---------- following a run ----------

  /** The table after an order rested; an order that did not rest leaves no entry. */
  function WithRested(t: Table, id: uint64, side: Side, price: int, r: AddResult): Table {
    if r.code.Success? && r.remaining > 0 then t[id := Entry(!Opposite(side), price, r.remaining, r.handle)] else t
  }

  /** The table after an operation, from the operation and its result alone. */
  ghost function Follow(t: Table, l: Ledger, c: Command): Table
    requires Allowed(l, c)
  {
    var r := Step(l, c).1;
    match c
    case LimitOrder(id, side, price, quantity, timestamp) =>
      WithRested(ApplyTrades(t, r.trades), id, side, price, r)
    case MarketOrder(id, side, quantity) =>
      ApplyTrades(t, r.trades)
    case CancelOrder(h) =>
      t - {Denotes(l, h).id}
    case ModifyOrder(h, side, price, quantity, timestamp) =>
      WithRested(ApplyTrades(t - {Denotes(l, h).id}, r.trades), Denotes(l, h).id, side, price, r)
  }

  lemma {:induction false} ApplyKeepsAbsent(t: Table, trades: seq<Trade>, id: uint64)
    requires id !in t
    ensures id !in ApplyTrades(t, trades)
  {
    if trades != [] {
      ApplyKeepsAbsent(ApplyTrade(t, trades[0]), trades[1..], id);
    }
  }

  lemma FollowLimit(t: Table, l: Ledger, id: uint64, side: Side, price: int64, quantity: uint64, timestamp: uint64,
                    cap: nat)
    requires Sound(l, cap) && Mirrors(t, l) && id !in t && CanRest(l, id, side, price, quantity)
    ensures var (after, r) := AddLimit(l, id, side, price, quantity, timestamp);
            Known(t, r.trades) && Mirrors(WithRested(ApplyTrades(t, r.trades), id, side, price, r), after)
  {
    hide Mirrors, Sweep, RestAt;
    if quantity > 0 {
      var o := Sweep(l, Opposite(side), Some(price), id, quantity);
      MirrorSweep(t, l, Opposite(side), Some(price), id, quantity, cap);
      if o.remaining > 0 {
        ApplyKeepsAbsent(t, o.trades, id);
        MirrorRest(ApplyTrades(t, o.trades), o.after, !Opposite(side), price, id, o.remaining, timestamp);
      }
    }
  }

  lemma FollowCancel(t: Table, l: Ledger, h: OrderHandle)
    requires UniquePlaces(l) && Mirrors(t, l) && Live(l, h)
    ensures Denotes(l, h).id in t && t[Denotes(l, h).id].handle == h
    ensures Mirrors(t - {Denotes(l, h).id}, Cancel(l, h))
  {
    var a, p, k := CancelPlace(l, h);
    assert HasAt(l, a, p, k);
    MirrorRemove(t, l, a, p, k);
  }

  /** Fresh ids are all it takes for the table to keep mirroring the ledger. */
  lemma FollowMirrors(t: Table, l: Ledger, c: Command, cap: nat)
    requires Sound(l, cap) && Mirrors(t, l) && Allowed(l, c) && (c.LimitOrder? ==> c.id !in t)
    ensures Mirrors(Follow(t, l, c), Step(l, c).0)
    ensures Known(if c.ModifyOrder? then t - {Denotes(l, c.handle).id} else t, Step(l, c).1.trades)
  {
    hide Mirrors, Sound, GoodBook;
    match c
    case LimitOrder(id, side, price, quantity, timestamp) =>
      FollowLimit(t, l, id, side, price, quantity, timestamp, cap);
    case MarketOrder(id, side, quantity) =>
      FollowMarket(t, l, id, side, quantity, cap);
    case CancelOrder(h) =>
      SoundUnique(l, cap);
      FollowCancel(t, l, h);
    case ModifyOrder(h, side, price, quantity, timestamp) =>
      SoundUnique(l, cap);
      FollowCancel(t, l, h);
      CancelKeeps(l, h, cap);
      FollowLimit(t - {Denotes(l, h).id}, Cancel(l, h), Denotes(l, h).id, side, price, quantity, timestamp, cap);
  }

  lemma SoundUnique(l: Ledger, cap: nat)
    requires Sound(l, cap)
    ensures UniquePlaces(l)
  {}

  lemma FollowMarket(t: Table, l: Ledger, id: uint64, side: Side, quantity: uint64, cap: nat)
    requires Sound(l, cap) && Mirrors(t, l)
    ensures var (after, r) := AddMarket(l, id, side, quantity);
            Known(t, r.trades) && Mirrors(ApplyTrades(t, r.trades), after)
  {
    hide Mirrors, Sweep;
    MirrorSweep(t, l, Opposite(side), None, id, quantity, cap);
  }

  /** Every limit order of the run has an id that is not live when it arrives. */
  ghost predicate FreshRun(t: Table, l: Ledger, cs: seq<Command>)
    requires AllowedRun(l, cs)
    decreases |cs|
  {
    cs == [] || ((cs[0].LimitOrder? ==> cs[0].id !in t) && FreshRun(Follow(t, l, cs[0]), Step(l, cs[0]).0, cs[1..]))
  }

  ghost function FollowRun(t: Table, l: Ledger, cs: seq<Command>): Table
    requires AllowedRun(l, cs)
    decreases |cs|
  {
    if cs == [] then t else FollowRun(Follow(t, l, cs[0]), Step(l, cs[0]).0, cs[1..])
  }

  /** Over whole runs the table lists exactly the live orders, each under the handle that denotes it. */
  lemma {:induction false} RunMirrors(t: Table, l: Ledger, cs: seq<Command>, cap: nat)
    requires Sound(l, cap) && Mirrors(t, l) && AllowedRun(l, cs) && FreshRun(t, l, cs)
    ensures Mirrors(FollowRun(t, l, cs), Run(l, cs))
    decreases |cs|
  {
    hide Mirrors, Sound, Follow, Step, Allowed;
    if cs != [] {
      FollowMirrors(t, l, cs[0], cap);
      StepKeepsSound(l, cs[0], cap);
      RunMirrors(Follow(t, l, cs[0]), Step(l, cs[0]).0, cs[1..], cap);
    }
  }

  // ---------- one handle ----------

  /** Quantity traded by the maker with this id. */
  ghost function FilledOf(trades: seq<Trade>, id: uint64): nat {
    if trades == [] then 0
    else (if trades[0].makerId == id then trades[0].quantity else 0) + FilledOf(trades[1..], id)
  }

  lemma {:induction false} FilledOfAbsent(t: Table, trades: seq<Trade>, id: uint64)
    requires Known(t, trades) && id !in t
    ensures FilledOf(trades, id) == 0 && id !in ApplyTrades(t, trades)
  {
    if trades != [] {
      FilledOfAbsent(ApplyTrade(t, trades[0]), trades[1..], id);
    }
  }

  /** An entry only ever loses the quantity the trades report, and disappears when all of it is gone. */
  lemma {:induction false} EntryKept(t: Table, trades: seq<Trade>, id: uint64)
    requires Known(t, trades) && id in t && t[id].quantity > 0
    ensures FilledOf(trades, id) <= t[id].quantity
    ensures if FilledOf(trades, id) < t[id].quantity
            then id in ApplyTrades(t, trades)
              && ApplyTrades(t, trades)[id] == t[id].(quantity := t[id].quantity - FilledOf(trades, id))
            else id !in ApplyTrades(t, trades)
  {
    if trades != [] {
      var t' := ApplyTrade(t, trades[0]);
      if id in t' {
        EntryKept(t', trades[1..], id);
      } else {
        FilledOfAbsent(t', trades[1..], id);
      }
    }
  }

  lemma EntryPositive(t: Table, l: Ledger, id: uint64)
    requires GoodBook(l) && Mirrors(t, l) && id in t
    ensures t[id].quantity > 0 && Live(l, t[id].handle)
  {
    var e := t[id];
    var k: nat :| RestsAt(l, id, e, k);
    assert GoodQueue(l.Side(e.isAsk)[e.price], e.price);
    assert LiveAt(l, e.isAsk, e.price, k, e.handle);
  }

  /**
   * An operation on anything else leaves an order its handle, side and price. Its quantity falls by
   * exactly what the trades report for it, and it leaves the book exactly when that is all of it.
   */
  lemma HandleKept(t: Table, l: Ledger, c: Command, id: uint64, cap: nat)
    requires Sound(l, cap) && Mirrors(t, l) && Allowed(l, c) && (c.LimitOrder? ==> c.id !in t)
    requires id in t && (c.CancelOrder? || c.ModifyOrder? ==> c.handle != t[id].handle)
    ensures var (after, r) := Step(l, c);
            var filled := FilledOf(r.trades, id);
            && filled <= t[id].quantity
            && (filled < t[id].quantity ==> Rests(after, id, t[id].(quantity := t[id].quantity - filled)))
            && (filled == t[id].quantity ==> forall e :: !Rests(after, id, e))
  {
    hide Mirrors, Known, Rests, Live, Cancel, Sweep, AddMarket, AddLimit;
    EntryPositive(t, l, id);
    FollowMirrors(t, l, c, cap);
    var (after, r) := Step(l, c);
    var t' := Follow(t, l, c);
    match c {
      case LimitOrder(other, side, price, quantity, timestamp) =>
        EntryKept(t, r.trades, id);
      case MarketOrder(other, side, quantity) =>
        EntryKept(t, r.trades, id);
      case CancelOrder(h) =>
        FollowCancel(t, l, h);
      case ModifyOrder(h, side, price, quantity, timestamp) =>
        FollowCancel(t, l, h);
        CancelKeeps(l, h, cap);
        FollowLimit(t - {Denotes(l, h).id}, Cancel(l, h), Denotes(l, h).id, side, price, quantity, timestamp, cap);
        EntryKept(t - {Denotes(l, h).id}, r.trades, id);
    }
    MirrorListed(t', after, id);
    if id in t' {
      MirrorPresent(t', after, id);
    }
  }

  lemma MirrorPresent(t: Table, l: Ledger, id: uint64)
    requires Mirrors(t, l) && id in t
    ensures Rests(l, id, t[id])
  {}

  lemma MirrorListed(t: Table, l: Ledger, id: uint64)
    requires Mirrors(t, l)
    ensures forall e :: Rests(l, id, e) ==> id in t
  {
    forall e | Rests(l, id, e)
      ensures id in t
    {
      var k: nat :| RestsAt(l, id, e, k);
      assert HasAt(l, e.isAsk, e.price, k);
    }
  }

  // ---------- queue positions ----------

  /** Two orders that stay at their price stay in the same order. */
  ghost predicate KeepsOrder(l: Ledger, l': Ledger) {
    forall a, p, i: nat, j: nat, i': nat, j': nat, g, h
      {:trigger LiveAt(l, a, p, i, g), LiveAt(l, a, p, j, h), LiveAt(l', a, p, i', g), LiveAt(l', a, p, j', h)} ::
      LiveAt(l, a, p, i, g) && LiveAt(l, a, p, j, h) && i < j && LiveAt(l', a, p, i', g) && LiveAt(l', a, p, j', h) ==>
        i' < j'
  }

  lemma RemoveKeepsOrder(l: Ledger, isAsk: bool, p: int, k: nat)
    requires UniquePlaces(l) && HasAt(l, isAsk, p, k)
    ensures KeepsOrder(l, RemoveAt(l, isAsk, p, k))
  {
    var l' := RemoveAt(l, isAsk, p, k);
    forall a, x, i: nat, j: nat, i': nat, j': nat, g, h |
      LiveAt(l, a, x, i, g) && LiveAt(l, a, x, j, h) && i < j && LiveAt(l', a, x, i', g) && LiveAt(l', a, x, j', h)
      ensures i' < j'
    {
      PlaceBeforeRemove(l, isAsk, p, k, a, x, i', g);
      PlaceBeforeRemove(l, isAsk, p, k, a, x, j', h);
      assert i == (if a == isAsk && x == p && i' >= k then i' + 1 else i');
    }
  }

  lemma FillKeepsOrder(l: Ledger, isAsk: bool, p: int, fill: uint64)
    requires UniquePlaces(l) && HasAt(l, isAsk, p, 0) && fill <= l.Side(isAsk)[p][0].quantity
    ensures KeepsOrder(l, FillAt(l, isAsk, p, fill))
  {
    if fill == l.Side(isAsk)[p][0].quantity {
      RemoveKeepsOrder(l, isAsk, p, 0);
    } else {
      ReduceLive(l, isAsk, p, fill);
      var l' := ReduceAt(l, isAsk, p, fill);
      forall a, x, i: nat, j: nat, i': nat, j': nat, g, h |
        LiveAt(l, a, x, i, g) && LiveAt(l, a, x, j, h) && i < j && LiveAt(l', a, x, i', g) && LiveAt(l', a, x, j', h)
        ensures i' < j'
      {
        assert LiveAt(l, a, x, i', g) && LiveAt(l, a, x, j', h);
      }
    }
  }

  /** What is live at a price after a removal or fill was live there before. */
  ghost predicate OnlyLoses(l: Ledger, l': Ledger) {
    forall a, p, k: nat, h {:trigger LiveAt(l', a, p, k, h)} :: LiveAt(l', a, p, k, h) ==>
      exists j: nat :: LiveAt(l, a, p, j, h)
  }

  lemma RemoveOnlyLoses(l: Ledger, isAsk: bool, p: int, k: nat)
    requires HasAt(l, isAsk, p, k)
    ensures OnlyLoses(l, RemoveAt(l, isAsk, p, k))
  {
    var l' := RemoveAt(l, isAsk, p, k);
    forall a, x, i: nat, h | LiveAt(l', a, x, i, h)
      ensures exists j: nat :: LiveAt(l, a, x, j, h)
    {
      PlaceBeforeRemove(l, isAsk, p, k, a, x, i, h);
      assert LiveAt(l, a, x, if a == isAsk && x == p && i >= k then i + 1 else i, h);
    }
  }

  lemma FillOnlyLoses(l: Ledger, isAsk: bool, p: int, fill: uint64)
    requires HasAt(l, isAsk, p, 0) && fill <= l.Side(isAsk)[p][0].quantity
    ensures OnlyLoses(l, FillAt(l, isAsk, p, fill))
  {
    if fill == l.Side(isAsk)[p][0].quantity {
      RemoveOnlyLoses(l, isAsk, p, 0);
    } else {
      ReduceLive(l, isAsk, p, fill);
      forall a, x, i: nat, h | LiveAt(ReduceAt(l, isAsk, p, fill), a, x, i, h)
        ensures exists j: nat :: LiveAt(l, a, x, j, h)
      {
        assert LiveAt(l, a, x, i, h);
      }
    }
  }

  lemma OrderThroughLoss(l: Ledger, m: Ledger, n: Ledger)
    requires KeepsOrder(l, m) && KeepsOrder(m, n) && OnlyLoses(l, m) && OnlyLoses(m, n)
    ensures KeepsOrder(l, n) && OnlyLoses(l, n)
  {
    forall a, x, i: nat, j: nat, i': nat, j': nat, g, h |
      LiveAt(l, a, x, i, g) && LiveAt(l, a, x, j, h) && i < j && LiveAt(n, a, x, i', g) && LiveAt(n, a, x, j', h)
      ensures i' < j'
    {
      var u: nat :| LiveAt(m, a, x, u, g);
      var v: nat :| LiveAt(m, a, x, v, h);
      assert u < v;
    }
    forall a, x, i: nat, h | LiveAt(n, a, x, i, h)
      ensures exists j: nat :: LiveAt(l, a, x, j, h)
    {
      var u: nat :| LiveAt(m, a, x, u, h);
    }
  }

  lemma {:induction false} SweepKeepsOrder(l: Ledger, isAsk: bool, limit: Option<int>, taker: uint64, quantity: uint64,
                                           cap: nat)
    requires Partition(l, cap) && Good(l.Side(isAsk))
    ensures KeepsOrder(l, Sweep(l, isAsk, limit, taker, quantity).after)
    ensures OnlyLoses(l, Sweep(l, isAsk, limit, taker, quantity).after)
    decreases quantity
  {
    hide Good, Partition, Sweep, FillAt, Stops, Best, KeepsOrder, OnlyLoses;
    PartitionUnique(l, cap);
    if Stops(l, isAsk, limit, quantity) {
      SweepAtStop(l, isAsk, limit, taker, quantity);
      SameKeepsOrder(l);
    } else {
      SweepUnfold(l, isAsk, limit, taker, quantity);
      var p := Best(isAsk, l.Side(isAsk));
      var fill := Min(quantity, l.Side(isAsk)[p][0].quantity);
      var next := FillAt(l, isAsk, p, fill);
      FillKeepsOrder(l, isAsk, p, fill);
      FillOnlyLoses(l, isAsk, p, fill);
      FillKeepsPartition(l, isAsk, p, fill, cap);
      SweepKeepsOrder(next, isAsk, limit, taker, quantity - fill, cap);
      OrderThroughLoss(l, next, Sweep(next, isAsk, limit, taker, quantity - fill).after);
    }
  }

  lemma SameKeepsOrder(l: Ledger)
    requires UniquePlaces(l)
    ensures KeepsOrder(l, l) && OnlyLoses(l, l)
  {}

  /** The youngest order goes behind all others; l is an earlier state of the same queues. */
  lemma RestKeepsOrder(l: Ledger, m: Ledger, isAsk: bool, price: int64, id: uint64, quantity: uint64, timestamp: uint64)
    requires KeepsOrder(l, m) && UniquePlaces(l) && FreeApart(l) && FreeApart(m) && m.free != []
    requires m.Side(isAsk) == l.Side(isAsk)
    ensures KeepsOrder(l, RestAt(m, isAsk, price, id, quantity, timestamp))
  {
    var n := RestAt(m, isAsk, price, id, quantity, timestamp);
    forall a, x, i: nat, j: nat, i': nat, j': nat, g, h |
      LiveAt(l, a, x, i, g) && LiveAt(l, a, x, j, h) && i < j && LiveAt(n, a, x, i', g) && LiveAt(n, a, x, j', h)
      ensures i' < j'
    {
      if a == isAsk {
        assert LiveAt(m, a, x, i, g) && LiveAt(m, a, x, j, h);
        assert Live(m, g) && Live(m, h);
        assert m.free[0] != g && m.free[0] != h;
      }
      PlaceBeforeRest(m, isAsk, price, id, quantity, timestamp, a, x, i', g);
      PlaceBeforeRest(m, isAsk, price, id, quantity, timestamp, a, x, j', h);
      assert LiveAt(m, a, x, i', g) && LiveAt(m, a, x, j', h);
    }
  }

  lemma LimitKeepsOrder(l: Ledger, id: uint64, side: Side, price: int64, quantity: uint64, timestamp: uint64, cap: nat)
    requires Sound(l, cap) && CanRest(l, id, side, price, quantity)
    ensures KeepsOrder(l, AddLimit(l, id, side, price, quantity, timestamp).0)
  {
    hide KeepsOrder, Sweep, RestAt, Uncrossed, InRange;
    SameKeepsOrder(l);
    SweepKeepsOrder(l, Opposite(side), Some(price), id, quantity, cap);
    SweepKeeps(l, Opposite(side), Some(price), id, quantity, cap);
    var o := Sweep(l, Opposite(side), Some(price), id, quantity);
    if quantity > 0 && o.remaining > 0 {
      RestKeepsOrder(l, o.after, !Opposite(side), price, id, o.remaining, timestamp);
    }
  }

  /** No operation reorders two orders that stay; a modified order itself may move. */
  lemma QueueOrderKept(l: Ledger, c: Command, cap: nat, a: bool, p: int, i: nat, j: nat, g: OrderHandle, h: OrderHandle)
    requires Sound(l, cap) && Allowed(l, c)
    requires LiveAt(l, a, p, i, g) && LiveAt(l, a, p, j, h) && i < j
    requires c.ModifyOrder? ==> c.handle != g && c.handle != h
    ensures forall i': nat, j': nat :: LiveAt(Step(l, c).0, a, p, i', g) && LiveAt(Step(l, c).0, a, p, j', h) ==>
      i' < j'
  {
    match c
    case LimitOrder(id, side, price, quantity, timestamp) =>
      LimitKeepsOrder(l, id, side, price, quantity, timestamp, cap);
    case MarketOrder(id, side, quantity) =>
      SameKeepsOrder(l);
      SweepKeepsOrder(l, Opposite(side), None, id, quantity, cap);
    case CancelOrder(x) =>
      var b, r, k := CancelPlace(l, x);
      RemoveKeepsOrder(l, b, r, k);
    case ModifyOrder(x, side, price, quantity, timestamp) =>
      var b, r, k := CancelPlace(l, x);
      RemoveKeepsOrder(l, b, r, k);
      CancelKeeps(l, x, cap);
      LimitKeepsOrder(Cancel(l, x), Denotes(l, x).id, side, price, quantity, timestamp, cap);
      PlaceAfterRemove(l, b, r, k, a, p, i, g);
      PlaceAfterRemove(l, b, r, k, a, p, j, h);
  }

  // ---------- over whole runs ----------

  /** As long as the order with this id is live, no command cancels or modifies it. */
  ghost predicate Untouched(t: Table, l: Ledger, cs: seq<Command>, id: uint64)
    requires AllowedRun(l, cs)
    decreases |cs|
  {
    cs == [] || id !in t ||
    ((cs[0].CancelOrder? || cs[0].ModifyOrder? ==> cs[0].handle != t[id].handle)
     && Untouched(Follow(t, l, cs[0]), Step(l, cs[0]).0, cs[1..], id))
  }

  /** Quantity traded by the order with this id until it leaves the table. */
  ghost function FilledUntil(t: Table, l: Ledger, cs: seq<Command>, id: uint64): nat
    requires AllowedRun(l, cs)
    decreases |cs|
  {
    if cs == [] || id !in t then 0
    else FilledOf(Step(l, cs[0]).1.trades, id) + FilledUntil(Follow(t, l, cs[0]), Step(l, cs[0]).0, cs[1..], id)
  }

  /** At some point of the run the id is not in the table. */
  ghost predicate Leaves(t: Table, l: Ledger, cs: seq<Command>, id: uint64)
    requires AllowedRun(l, cs)
    decreases |cs|
  {
    id !in t || (cs != [] && Leaves(Follow(t, l, cs[0]), Step(l, cs[0]).0, cs[1..], id))
  }

  lemma MirrorEntry(t: Table, l: Ledger, id: uint64, e: Entry)
    requires Mirrors(t, l) && Rests(l, id, e)
    ensures id in t && t[id] == e
  {
    var k: nat :| RestsAt(l, id, e, k);
  }

  /** One command on other orders, seen from the table. */
  lemma EntryFollows(t: Table, l: Ledger, c: Command, id: uint64, cap: nat)
    requires Sound(l, cap) && Mirrors(t, l) && Allowed(l, c) && (c.LimitOrder? ==> c.id !in t)
    requires id in t && (c.CancelOrder? || c.ModifyOrder? ==> c.handle != t[id].handle)
    ensures var filled, t' := FilledOf(Step(l, c).1.trades, id), Follow(t, l, c);
            && filled <= t[id].quantity && (id !in t' <==> filled == t[id].quantity)
            && (id in t' ==> t'[id] == t[id].(quantity := t[id].quantity - filled))
  {
    hide Mirrors, Rests, Follow, Step, Allowed, Sound;
    HandleKept(t, l, c, id, cap);
    FollowMirrors(t, l, c, cap);
    var filled, t', after := FilledOf(Step(l, c).1.trades, id), Follow(t, l, c), Step(l, c).0;
    if filled < t[id].quantity {
      MirrorEntry(t', after, id, t[id].(quantity := t[id].quantity - filled));
    } else if id in t' {
      MirrorPresent(t', after, id);
    }
  }

  /**
   * Through any run that does not cancel or modify it, an order keeps its handle, side and price. Its
   * quantity falls by exactly the fills reported for it, and it leaves exactly when they use it up.
   */
  lemma {:induction false} KeptUntilUsedUp(t: Table, l: Ledger, cs: seq<Command>, id: uint64, cap: nat)
    requires Sound(l, cap) && Mirrors(t, l) && AllowedRun(l, cs) && FreshRun(t, l, cs)
    requires id in t && Untouched(t, l, cs, id)
    ensures FilledUntil(t, l, cs, id) <= t[id].quantity
    ensures FilledUntil(t, l, cs, id) == t[id].quantity <==> Leaves(t, l, cs, id)
    ensures !Leaves(t, l, cs, id) ==>
      Rests(Run(l, cs), id, t[id].(quantity := t[id].quantity - FilledUntil(t, l, cs, id)))
    decreases |cs|
  {
    hide Mirrors, Sound, Follow, Step, Allowed, Rests;
    if cs == [] {
      MirrorPresent(t, l, id);
      SoundPositive(t, l, id, cap);
    } else {
      var t', l' := Follow(t, l, cs[0]), Step(l, cs[0]).0;
      EntryFollows(t, l, cs[0], id, cap);
      FollowMirrors(t, l, cs[0], cap);
      StepKeepsSound(l, cs[0], cap);
      if id in t' {
        KeptUntilUsedUp(t', l', cs[1..], id, cap);
      }
    }
  }

  lemma SoundPositive(t: Table, l: Ledger, id: uint64, cap: nat)
    requires Sound(l, cap) && Mirrors(t, l) && id in t
    ensures t[id].quantity > 0
  {
    EntryPositive(t, l, id);
  }

  ghost predicate QueuedAt(l: Ledger, a: bool, p: int, h: OrderHandle) {
    exists i: nat :: LiveAt(l, a, p, i, h)
  }

  /** Two handles stay in one queue throughout a run, which modifies neither. */
  ghost predicate BothStay(l: Ledger, cs: seq<Command>, a: bool, p: int, g: OrderHandle, h: OrderHandle)
    requires AllowedRun(l, cs)
    decreases |cs|
  {
    QueuedAt(l, a, p, g) && QueuedAt(l, a, p, h) &&
    (cs == [] ||
     ((cs[0].ModifyOrder? ==> cs[0].handle != g && cs[0].handle != h)
      && BothStay(Step(l, cs[0]).0, cs[1..], a, p, g, h)))
  }

  /** Two orders that stay in one queue through a run never change places. */
  lemma {:induction false} RunKeepsQueueOrder(l: Ledger, cs: seq<Command>, cap: nat,
                                              a: bool, p: int, i: nat, j: nat, g: OrderHandle, h: OrderHandle)
    requires Sound(l, cap) && AllowedRun(l, cs) && BothStay(l, cs, a, p, g, h)
    requires LiveAt(l, a, p, i, g) && LiveAt(l, a, p, j, h) && i < j
    ensures forall i': nat, j': nat :: LiveAt(Run(l, cs), a, p, i', g) && LiveAt(Run(l, cs), a, p, j', h) ==> i' < j'
    decreases |cs|
  {
    hide Sound, Step, Allowed, LiveAt, UniquePlaces;
    SoundUnique(l, cap);
    if cs == [] {
      OnePlace(l, a, p, g, i);
      OnePlace(l, a, p, h, j);
    } else {
      var l' := Step(l, cs[0]).0;
      QueueOrderKept(l, cs[0], cap, a, p, i, j, g, h);
      StepKeepsSound(l, cs[0], cap);
      assert QueuedAt(l', a, p, g) && QueuedAt(l', a, p, h);
      var i': nat :| LiveAt(l', a, p, i', g);
      var j': nat :| LiveAt(l', a, p, j', h);
      RunKeepsQueueOrder(l', cs[1..], cap, a, p, i', j', g, h);
    }
  }

  lemma OnePlace(l: Ledger, a: bool, p: int, h: OrderHandle, i: nat)
    requires UniquePlaces(l) && LiveAt(l, a, p, i, h)
    ensures forall j: nat :: LiveAt(l, a, p, j, h) ==> j == i
  {}

  // ---------- modifying ----------

  /** A modify always has room: cancelling frees a slot first, and matching frees more. */
  lemma ModifyNeedsNoSlot(l: Ledger, h: OrderHandle, side: Side, price: int64, quantity: uint64, timestamp: uint64,
                          cap: nat)
    requires Sound(l, cap)
    ensures var c := Command.ModifyOrder(h, side, price, quantity, timestamp); Asked(l, c) <==> Allowed(l, c)
    ensures Live(l, h) && 0 <= price < PRICE_COUNT ==> CanModify(l, h, side, price, quantity)
  {
    if Live(l, h) {
      CancelKeepsGood(l, h);
      var a, p, k := CancelPlace(l, h);
      SweepIsFillList(Cancel(l, h), Opposite(side), Some(price), Denotes(l, h).id, quantity);
    }
  }

  /**
   * A modified order that rests gets its old handle back exactly when matching it filled no maker
   * completely, because the slot released first is then still on top of the stack.
   */
  lemma ModifyKeepsHandle(l: Ledger, h: OrderHandle, side: Side, price: int64, quantity: uint64, timestamp: uint64,
                          cap: nat)
    requires Sound(l, cap) && CanModify(l, h, side, price, quantity)
    ensures var (after, r) := Modify(l, h, side, price, quantity, timestamp);
            var o := Sweep(Cancel(l, h), Opposite(side), Some(price), Denotes(l, h).id, quantity);
            r.code.Success? && r.remaining > 0 ==>
              (r.handle == h <==> forall g :: Live(Cancel(l, h), g) ==> Live(o.after, g))
  {
    hide Partition, Sweep, FillList, UniquePlaces, Live, Denotes;
    var m := Cancel(l, h);
    var o := Sweep(m, Opposite(side), Some(price), Denotes(l, h).id, quantity);
    var flat := Flat(Opposite(side), m.Side(Opposite(side)));
    var f := FillList(Opposite(side), Some(price), Denotes(l, h).id, quantity, flat);
    SoundUnique(l, cap);
    var a, p, k := CancelPlace(l, h);
    CancelKeeps(l, h, cap);
    SweepIsFillList(m, Opposite(side), Some(price), Denotes(l, h).id, quantity);
    SweepKeeps(m, Opposite(side), Some(price), Denotes(l, h).id, quantity, cap);
    TopSlot(m, o.after, f.freed, cap);
  }

  /** The top of the free stack is still the old one exactly when nothing was pushed since. */
  lemma TopSlot(m: Ledger, after: Ledger, freed: seq<OrderHandle>, cap: nat)
    requires Partition(m, cap) && Partition(after, cap) && m.free != [] && after.free == freed + m.free
    ensures after.free[0] == m.free[0] <==> forall g :: Live(m, g) ==> Live(after, g)
  {
    if freed == [] {
      assert after.free == m.free;
      forall g | Live(m, g)
        ensures Live(after, g)
      {
        FreeIsNotLive(m, g);
      }
    } else {
      var g := freed[0];
      assert after.free[0] == g && !Live(after, g);
      forall i | 0 <= i < |m.free|
        ensures m.free[i] != g
      {
        assert after.free[|freed| + i] == m.free[i];
      }
      assert g in after.free;
      assert Live(m, g);
    }
  }

  lemma FreeIsNotLive(l: Ledger, g: OrderHandle)
    requires FreeApart(l) && Live(l, g)
    ensures g !in l.free
  {}
}
