/** Quantity is neither made nor lost: every unit that rests was posted, and leaves by a fill or a removal. */
module Conservation {
  import opened LedgerInvariants
  import opened Ledgers
  import opened PriceTime
  import opened Runs
  import opened Sequences
  import opened Types

  ghost function SideVolume(m: Queues): nat
    decreases |m|
  {
    if m == map[] then 0 else Volume(m[Best(true, m)]) + SideVolume(m - {Best(true, m)})
  }

  ghost function BookVolume(l: Ledger): nat {
    SideVolume(l.bids) + SideVolume(l.asks)
  }

  /** The volume of a side splits off the queue of any price. */
  lemma {:induction false} VolumeSplits(m: Queues, p: int)
    requires p in m
    ensures SideVolume(m) == Volume(m[p]) + SideVolume(m - {p})
    decreases |m|
  {
    var b := Best(true, m);
    if p != b {
      VolumeSplits(m - {b}, p);
      assert b in m - {p};
      assert IsBest(true, Best(true, m - {p}), (m - {p}).Keys);
      assert Best(true, m - {p}) == b;
      assert m - {b} - {p} == m - {p} - {b};
    }
  }

  lemma VolumePut(m: Queues, p: int, q: seq<Resting>)
    ensures SideVolume(Put(m, p, q)) == SideVolume(m) - Volume(At(m, p)) + Volume(q)
  {
    if p in m {
      VolumeSplits(m, p);
    } else {
      assert m - {p} == m;
    }
    if q != [] {
      VolumeSplits(Put(m, p, q), p);
      assert Put(m, p, q) - {p} == m - {p};
    }
  }

  lemma {:induction false} VolumeConcat(s: seq<Resting>, t: seq<Resting>)
    ensures Volume(s + t) == Volume(s) + Volume(t)
  {
    if s == [] {
      assert s + t == t;
    } else {
      assert (s + t)[1..] == s[1..] + t;
      VolumeConcat(s[1..], t);
    }
  }

  lemma VolumeWithout(s: seq<Resting>, k: nat)
    requires k < |s|
    ensures Volume(Without(s, k)) == Volume(s) - s[k].quantity
  {
    assert s == s[..k] + s[k..];
    VolumeConcat(s[..k], s[k..]);
    VolumeConcat(s[..k], s[k + 1..]);
    assert s[k..][1..] == s[k + 1..];
  }

  lemma RemoveVolume(l: Ledger, isAsk: bool, p: int, k: nat)
    requires HasAt(l, isAsk, p, k)
    ensures BookVolume(RemoveAt(l, isAsk, p, k)) == BookVolume(l) - l.Side(isAsk)[p][k].quantity
  {
    VolumeWithout(l.Side(isAsk)[p], k);
    VolumePut(l.Side(isAsk), p, Without(l.Side(isAsk)[p], k));
  }

  lemma FillVolume(l: Ledger, isAsk: bool, p: int, fill: uint64)
    requires HasAt(l, isAsk, p, 0) && fill <= l.Side(isAsk)[p][0].quantity
    ensures BookVolume(FillAt(l, isAsk, p, fill)) == BookVolume(l) - fill
  {
    var q := l.Side(isAsk)[p];
    if fill == q[0].quantity {
      RemoveVolume(l, isAsk, p, 0);
    } else {
      VolumePut(l.Side(isAsk), p, [q[0].(quantity := q[0].quantity - fill)] + q[1..]);
    }
  }

  lemma RestVolume(l: Ledger, isAsk: bool, price: int64, id: uint64, quantity: uint64, timestamp: uint64)
    requires l.free != []
    ensures BookVolume(RestAt(l, isAsk, price, id, quantity, timestamp)) == BookVolume(l) + quantity
  {
    var q := At(l.Side(isAsk), price);
    var r := Resting(l.free[0], id, price, quantity, timestamp);
    VolumeConcat(q, [r]);
    VolumePut(l.Side(isAsk), price, q + [r]);
    assert [r][1..] == [];
  }

  lemma {:induction false} SweepVolume(l: Ledger, isAsk: bool, limit: Option<int>, taker: uint64, quantity: uint64)
    requires Good(l.Side(isAsk))
    ensures var o := Sweep(l, isAsk, limit, taker, quantity);
            BookVolume(o.after) == BookVolume(l) - (quantity - o.remaining) && Total(o.trades) == quantity - o.remaining
    ensures var o := Sweep(l, isAsk, limit, taker, quantity);
            SideVolume(o.after.Side(isAsk)) == SideVolume(l.Side(isAsk)) - Total(o.trades)
    decreases quantity
  {
    hide Good, Sweep, FillAt, Stops, Best, SideVolume;
    if Stops(l, isAsk, limit, quantity) {
      SweepAtStop(l, isAsk, limit, taker, quantity);
    } else {
      SweepUnfold(l, isAsk, limit, taker, quantity);
      var p := Best(isAsk, l.Side(isAsk));
      var maker := l.Side(isAsk)[p][0];
      var fill := Min(quantity, maker.quantity);
      FillVolume(l, isAsk, p, fill);
      SweepVolume(FillAt(l, isAsk, p, fill), isAsk, limit, taker, quantity - fill);
      var o := Sweep(l, isAsk, limit, taker, quantity);
      assert o.trades[1..] == Sweep(FillAt(l, isAsk, p, fill), isAsk, limit, taker, quantity - fill).trades;
    }
  }

  // ---------- operations and runs ----------

  /** Quantity an operation puts to rest, and quantity it takes out other than by trading. */
  ghost function Posted(l: Ledger, c: Command): nat
    requires Allowed(l, c)
  {
    if c.LimitOrder? || c.ModifyOrder? then Step(l, c).1.remaining else 0
  }

  ghost function Removed(l: Ledger, c: Command): nat
    requires Allowed(l, c)
  {
    if c.CancelOrder? || c.ModifyOrder? then Denotes(l, c.handle).quantity else 0
  }

  lemma LimitVolume(l: Ledger, id: uint64, side: Side, price: int64, quantity: uint64, timestamp: uint64)
    requires GoodBook(l) && CanRest(l, id, side, price, quantity)
    ensures var (after, r) := AddLimit(l, id, side, price, quantity, timestamp);
            && BookVolume(after) == BookVolume(l) + r.remaining - r.filled && Total(r.trades) == r.filled
            && (quantity > 0 ==> r.filled + r.remaining == r.initial == quantity)
  {
    SweepVolume(l, Opposite(side), Some(price), id, quantity);
    var o := Sweep(l, Opposite(side), Some(price), id, quantity);
    if o.remaining > 0 {
      RestVolume(o.after, !Opposite(side), price, id, o.remaining, timestamp);
    }
  }

  lemma CancelVolume(l: Ledger, h: OrderHandle)
    requires UniquePlaces(l) && Live(l, h)
    ensures BookVolume(Cancel(l, h)) == BookVolume(l) - Denotes(l, h).quantity
  {
    var a, p, k := CancelPlace(l, h);
    RemoveVolume(l, a, p, k);
  }

  /** The balance of one operation. */
  lemma StepVolume(l: Ledger, c: Command, cap: nat)
    requires Sound(l, cap) && Allowed(l, c)
    ensures var (after, r) := Step(l, c);
            && BookVolume(after) == BookVolume(l) + Posted(l, c) - r.filled - Removed(l, c)
            && Total(r.trades) == r.filled
            && (r.code.InvalidQuantity? || r.filled + r.remaining == r.initial)
  {
    match c
    case LimitOrder(id, side, price, quantity, timestamp) =>
      LimitVolume(l, id, side, price, quantity, timestamp);
    case MarketOrder(id, side, quantity) =>
      SweepVolume(l, Opposite(side), None, id, quantity);
    case CancelOrder(h) =>
      CancelVolume(l, h);
    case ModifyOrder(h, side, price, quantity, timestamp) =>
      CancelVolume(l, h);
      LimitVolume(Cancel(l, h), Denotes(l, h).id, side, price, quantity, timestamp);
  }

  ghost function PostedBy(l: Ledger, cs: seq<Command>): nat
    requires AllowedRun(l, cs)
    decreases |cs|
  {
    if cs == [] then 0 else Posted(l, cs[0]) + PostedBy(Step(l, cs[0]).0, cs[1..])
  }

  ghost function RemovedBy(l: Ledger, cs: seq<Command>): nat
    requires AllowedRun(l, cs)
    decreases |cs|
  {
    if cs == [] then 0 else Removed(l, cs[0]) + RemovedBy(Step(l, cs[0]).0, cs[1..])
  }

  ghost function TradedBy(l: Ledger, cs: seq<Command>): nat
    requires AllowedRun(l, cs)
    decreases |cs|
  {
    if cs == [] then 0 else Total(Step(l, cs[0]).1.trades) + TradedBy(Step(l, cs[0]).0, cs[1..])
  }

  /** Over a whole run, resting volume is what was posted, less what was traded and what was removed. */
  lemma {:induction false} RunVolume(l: Ledger, cs: seq<Command>, cap: nat)
    requires Sound(l, cap) && AllowedRun(l, cs)
    ensures BookVolume(Run(l, cs)) == BookVolume(l) + PostedBy(l, cs) - TradedBy(l, cs) - RemovedBy(l, cs)
    decreases |cs|
  {
    if cs != [] {
      StepVolume(l, cs[0], cap);
      StepKeepsSound(l, cs[0], cap);
      RunVolume(Step(l, cs[0]).0, cs[1..], cap);
    }
  }
}
