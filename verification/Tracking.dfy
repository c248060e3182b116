/**
 * Following orders from outside: a table from order id to side, price, open quantity and handle,
 * kept up to date from the results alone, mirrors the ledger exactly. Both the replay harness and
 * the benchmark planner follow the engine this way.
 */
module Tracking {
  import opened LedgerInvariants
  import opened Ledgers
  import opened Types

  datatype Entry = Entry(isAsk: bool, price: int, quantity: uint64, handle: OrderHandle)

  type Table = map<uint64, Entry>

  /** The entry an order of the book should have. */
  ghost function EntryAt(l: Ledger, isAsk: bool, p: int, k: nat): Entry
    requires HasAt(l, isAsk, p, k)
  {
    var r := l.Side(isAsk)[p][k];
    Entry(isAsk, p, r.quantity, r.handle)
  }

  /** Some order of the book has this id and entry. */
  ghost predicate Rests(l: Ledger, id: uint64, e: Entry) {
    exists k: nat :: RestsAt(l, id, e, k)
  }

  ghost predicate RestsAt(l: Ledger, id: uint64, e: Entry, k: nat) {
    HasAt(l, e.isAsk, e.price, k) && l.Side(e.isAsk)[e.price][k].id == id && EntryAt(l, e.isAsk, e.price, k) == e
  }

  /** The table lists exactly the orders of the book; in particular live orders have different ids. */
  ghost predicate Mirrors(t: Table, l: Ledger) {
    && (forall a, p, k: nat {:trigger HasAt(l, a, p, k)} :: HasAt(l, a, p, k) ==>
      l.Side(a)[p][k].id in t && t[l.Side(a)[p][k].id] == EntryAt(l, a, p, k))
    && (forall id {:trigger t[id]} :: id in t ==> Rests(l, id, t[id]))
  }

  /** Only one table does. */
  lemma OneMirror(t: Table, u: Table, l: Ledger)
    requires Mirrors(t, l) && Mirrors(u, l)
    ensures t == u
  {
    forall id
      ensures id in t ==> id in u && u[id] == t[id]
      ensures id in u ==> id in t && t[id] == u[id]
    {
      if id in t {
        var k: nat :| RestsAt(l, id, t[id], k);
        assert HasAt(l, t[id].isAsk, t[id].price, k);
      }
      if id in u {
        var k: nat :| RestsAt(l, id, u[id], k);
        assert HasAt(l, u[id].isAsk, u[id].price, k);
      }
    }
  }

  lemma MirrorRemove(t: Table, l: Ledger, isAsk: bool, p: int, k: nat)
    requires Mirrors(t, l) && UniquePlaces(l) && HasAt(l, isAsk, p, k)
    ensures Mirrors(t - {l.Side(isAsk)[p][k].id}, RemoveAt(l, isAsk, p, k))
  {
    var r := l.Side(isAsk)[p][k];
    var l', t' := RemoveAt(l, isAsk, p, k), t - {r.id};
    assert LiveAt(l, isAsk, p, k, r.handle);
    forall a, x, j: nat | HasAt(l', a, x, j)
      ensures l'.Side(a)[x][j].id in t' && t'[l'.Side(a)[x][j].id] == EntryAt(l', a, x, j)
    {
      var h := l'.Side(a)[x][j].handle;
      PlaceBeforeRemove(l, isAsk, p, k, a, x, j, h);
      var j' := if a == isAsk && x == p && j >= k then j + 1 else j;
      assert HasAt(l, a, x, j');
      assert LiveAt(l, a, x, j', h);
    }
    forall id | id in t'
      ensures Rests(l', id, t'[id])
    {
      var e := t[id];
      var j: nat :| RestsAt(l, id, e, j);
      PlaceAfterRemove(l, isAsk, p, k, e.isAsk, e.price, j, e.handle);
      assert RestsAt(l', id, e, if e.isAsk == isAsk && e.price == p && j > k then j - 1 else j);
    }
  }

  lemma MirrorReduce(t: Table, l: Ledger, isAsk: bool, p: int, fill: uint64)
    requires Mirrors(t, l) && UniquePlaces(l) && HasAt(l, isAsk, p, 0) && fill <= l.Side(isAsk)[p][0].quantity
    ensures var r := l.Side(isAsk)[p][0];
            r.id in t && t[r.id] == EntryAt(l, isAsk, p, 0)
            && Mirrors(t[r.id := t[r.id].(quantity := r.quantity - fill)], ReduceAt(l, isAsk, p, fill))
  {
    var r := l.Side(isAsk)[p][0];
    var l', t' := ReduceAt(l, isAsk, p, fill), t[r.id := t[r.id].(quantity := r.quantity - fill)];
    assert LiveAt(l, isAsk, p, 0, r.handle);
    forall a, x, j: nat | HasAt(l', a, x, j)
      ensures l'.Side(a)[x][j].id in t' && t'[l'.Side(a)[x][j].id] == EntryAt(l', a, x, j)
    {
      assert HasAt(l, a, x, j);
      assert LiveAt(l, a, x, j, l.Side(a)[x][j].handle);
    }
    forall id | id in t'
      ensures Rests(l', id, t'[id])
    {
      if id == r.id {
        assert RestsAt(l', id, t'[id], 0);
      } else {
        var j: nat :| RestsAt(l, id, t[id], j);
        assert RestsAt(l', id, t[id], j);
      }
    }
  }

  lemma MirrorRest(t: Table, l: Ledger, isAsk: bool, price: int64, id: uint64, quantity: uint64, timestamp: uint64)
    requires Mirrors(t, l) && l.free != [] && id !in t
    ensures Mirrors(t[id := Entry(isAsk, price, quantity, l.free[0])], RestAt(l, isAsk, price, id, quantity, timestamp))
  {
    var l' := RestAt(l, isAsk, price, id, quantity, timestamp);
    var e := Entry(isAsk, price, quantity, l.free[0]);
    var t' := t[id := e];
    forall a, x, j: nat | HasAt(l', a, x, j)
      ensures l'.Side(a)[x][j].id in t' && t'[l'.Side(a)[x][j].id] == EntryAt(l', a, x, j)
    {
      PlaceBeforeRest(l, isAsk, price, id, quantity, timestamp, a, x, j, l'.Side(a)[x][j].handle);
      if a != isAsk || x != price || j != |At(l.Side(a), x)| {
        assert HasAt(l, a, x, j);
      }
    }
    forall i | i in t'
      ensures Rests(l', i, t'[i])
    {
      if i == id {
        assert RestsAt(l', id, e, |At(l.Side(isAsk), price)|);
      } else {
        var j: nat :| RestsAt(l, i, t[i], j);
        PlaceAfterRest(l, isAsk, price, id, quantity, timestamp, t[i].isAsk, t[i].price, j, t[i].handle);
        assert RestsAt(l', i, t[i], j);
      }
    }
  }

  // ---------- following the results ----------

  /** A fill takes the maker out of the table, or lowers its quantity; unknown makers are passed over. */
  function ApplyTrade(t: Table, trade: Trade): Table {
    if trade.makerId !in t then t
    else if trade.quantity >= t[trade.makerId].quantity then t - {trade.makerId}
    else t[trade.makerId := t[trade.makerId].(quantity := t[trade.makerId].quantity - trade.quantity)]
  }

  function ApplyTrades(t: Table, trades: seq<Trade>): Table {
    if trades == [] then t else ApplyTrades(ApplyTrade(t, trades[0]), trades[1..])
  }

  /** Every trade names a maker in the table, with at least the traded quantity open. */
  ghost predicate Known(t: Table, trades: seq<Trade>) {
    trades == [] || (trades[0].makerId in t && trades[0].quantity <= t[trades[0].makerId].quantity
                     && Known(ApplyTrade(t, trades[0]), trades[1..]))
  }

  lemma MirrorFill(t: Table, l: Ledger, isAsk: bool, p: int, taker: uint64, fill: uint64)
    requires Mirrors(t, l) && UniquePlaces(l) && HasAt(l, isAsk, p, 0) && fill <= l.Side(isAsk)[p][0].quantity
    ensures var maker := l.Side(isAsk)[p][0];
            var trade := Trade(taker, maker.id, maker.price, fill);
            && maker.id in t && fill <= t[maker.id].quantity
            && Mirrors(ApplyTrade(t, trade), FillAt(l, isAsk, p, fill))
  {
    if fill == l.Side(isAsk)[p][0].quantity {
      MirrorRemove(t, l, isAsk, p, 0);
    } else {
      MirrorReduce(t, l, isAsk, p, fill);
    }
  }

  /** Applying the trades of a sweep to the table follows the sweep. */
  lemma {:induction false} MirrorSweep(t: Table, l: Ledger, isAsk: bool, limit: Option<int>, taker: uint64,
                                       quantity: uint64, cap: nat)
    requires Mirrors(t, l) && Partition(l, cap) && Good(l.Side(isAsk))
    ensures var o := Sweep(l, isAsk, limit, taker, quantity);
            Known(t, o.trades) && Mirrors(ApplyTrades(t, o.trades), o.after)
    decreases quantity
  {
    hide Mirrors, Good, Partition, Sweep, FillAt, Stops, Best;
    if Stops(l, isAsk, limit, quantity) {
      SweepAtStop(l, isAsk, limit, taker, quantity);
    } else {
      SweepUnfold(l, isAsk, limit, taker, quantity);
      var p := Best(isAsk, l.Side(isAsk));
      var maker := l.Side(isAsk)[p][0];
      var fill := Min(quantity, maker.quantity);
      var trade := Trade(taker, maker.id, maker.price, fill);
      var o := Sweep(l, isAsk, limit, taker, quantity);
      PartitionUnique(l, cap);
      MirrorFill(t, l, isAsk, p, taker, fill);
      FillKeepsPartition(l, isAsk, p, fill, cap);
      MirrorSweep(ApplyTrade(t, trade), FillAt(l, isAsk, p, fill), isAsk, limit, taker, quantity - fill, cap);
      assert o.trades[0] == trade;
      assert o.trades[1..] == Sweep(FillAt(l, isAsk, p, fill), isAsk, limit, taker, quantity - fill).trades;
    }
  }
}
