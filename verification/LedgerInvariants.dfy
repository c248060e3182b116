/** What every operation keeps: pool slots partitioned into free and live, prices in range, the book uncrossed. */
module LedgerInvariants {
  import opened Ledgers
  import opened Sequences
  import opened Types

  /** A handle denotes at most one order. */
  ghost predicate UniquePlaces(l: Ledger) {
    forall h, a, p, k, b, r, j {:trigger LiveAt(l, a, p, k, h), LiveAt(l, b, r, j, h)} ::
      LiveAt(l, a, p, k, h) && LiveAt(l, b, r, j, h) ==> a == b && p == r && k == j
  }

  ghost predicate FreeApart(l: Ledger) {
    Distinct(l.free) && forall i {:trigger l.free[i]} :: 0 <= i < |l.free| ==> !Live(l, l.free[i])
  }

  /** Each of the cap pool slots is in exactly one place: the free stack, or one position of one queue. */
  ghost predicate Partition(l: Ledger, cap: nat) {
    && UniquePlaces(l)
    && FreeApart(l)
    && (forall h: OrderHandle {:trigger Live(l, h)} :: Live(l, h) ==> h < cap)
    && (forall h: OrderHandle {:trigger h in l.free} :: h in l.free ==> h < cap)
    && (forall h: OrderHandle {:trigger Live(l, h)} {:trigger h in l.free} :: h < cap ==> h in l.free || Live(l, h))
  }

  lemma PartitionUnique(l: Ledger, cap: nat)
    requires Partition(l, cap)
    ensures UniquePlaces(l) && FreeApart(l)
  {}

  ghost predicate InRange(l: Ledger) {
    forall a, p {:trigger p in l.Side(a)} :: p in l.Side(a) ==> 0 <= p < PRICE_COUNT
  }

  /** Every bid is below every ask. */
  ghost predicate Uncrossed(l: Ledger) {
    forall b, a :: b in l.bids && a in l.asks ==> b < a
  }

  ghost predicate Sound(l: Ledger, cap: nat) {
    GoodBook(l) && Partition(l, cap) && InRange(l) && Uncrossed(l)
  }

  /** An empty book over a pool whose last slot is on top. */
  function Initial(cap: nat): Ledger
    requires cap <= INVALID_HANDLE
  {
    Ledger(map[], map[], seq(cap, i requires 0 <= i < cap => cap - 1 - i))
  }

  lemma InitialSound(cap: nat)
    requires cap <= INVALID_HANDLE
    ensures Sound(Initial(cap), cap)
  {
    var l := Initial(cap);
    forall h: OrderHandle | h < cap
      ensures h in l.free
    {
      assert l.free[cap - 1 - h] == h;
    }
  }

  // ---------- removing ----------

  /** Every order left after a removal was there before, one further back behind the gap. */
  lemma PlaceBeforeRemove(l: Ledger, isAsk: bool, p: int, k: nat, a: bool, r: int, j: nat, h: OrderHandle)
    requires HasAt(l, isAsk, p, k)
    requires LiveAt(RemoveAt(l, isAsk, p, k), a, r, j, h)
    ensures var j' := if a == isAsk && r == p && j >= k then j + 1 else j;
            LiveAt(l, a, r, j', h) && (a != isAsk || r != p || j' != k)
            && RemoveAt(l, isAsk, p, k).Side(a)[r][j] == l.Side(a)[r][j']
  {}

  /** And every other order is still there. */
  lemma PlaceAfterRemove(l: Ledger, isAsk: bool, p: int, k: nat, a: bool, r: int, j: nat, h: OrderHandle)
    requires HasAt(l, isAsk, p, k) && LiveAt(l, a, r, j, h)
    requires a != isAsk || r != p || j != k
    ensures var j' := if a == isAsk && r == p && j > k then j - 1 else j;
            LiveAt(RemoveAt(l, isAsk, p, k), a, r, j', h)
            && RemoveAt(l, isAsk, p, k).Side(a)[r][j'] == l.Side(a)[r][j]
  {}

  lemma RemoveLive(l: Ledger, isAsk: bool, p: int, k: nat, h: OrderHandle)
    requires UniquePlaces(l) && HasAt(l, isAsk, p, k)
    ensures Live(RemoveAt(l, isAsk, p, k), h) <==> Live(l, h) && h != l.Side(isAsk)[p][k].handle
  {
    var l' := RemoveAt(l, isAsk, p, k);
    var g := l.Side(isAsk)[p][k].handle;
    assert LiveAt(l, isAsk, p, k, g);
    if Live(l', h) {
      var a: bool, r: int, j: nat :| LiveAt(l', a, r, j, h);
      PlaceBeforeRemove(l, isAsk, p, k, a, r, j, h);
      var j' := if a == isAsk && r == p && j >= k then j + 1 else j;
      assert LiveAt(l, a, r, j', h);
      assert h != g;
    }
    if Live(l, h) && h != g {
      var a: bool, r: int, j: nat :| LiveAt(l, a, r, j, h);
      PlaceAfterRemove(l, isAsk, p, k, a, r, j, h);
    }
  }

  lemma RemoveUnique(l: Ledger, isAsk: bool, p: int, k: nat)
    requires UniquePlaces(l) && HasAt(l, isAsk, p, k)
    ensures UniquePlaces(RemoveAt(l, isAsk, p, k))
  {
    var l' := RemoveAt(l, isAsk, p, k);
    forall h, a, r, j, b, s, i | LiveAt(l', a, r, j, h) && LiveAt(l', b, s, i, h)
      ensures a == b && r == s && j == i
    {
      PlaceBeforeRemove(l, isAsk, p, k, a, r, j, h);
      PlaceBeforeRemove(l, isAsk, p, k, b, s, i, h);
    }
  }

  lemma RemoveKeepsPartition(l: Ledger, isAsk: bool, p: int, k: nat, cap: nat)
    requires Partition(l, cap) && HasAt(l, isAsk, p, k)
    ensures Partition(RemoveAt(l, isAsk, p, k), cap)
  {
    var l' := RemoveAt(l, isAsk, p, k);
    var g := l.Side(isAsk)[p][k].handle;
    assert LiveAt(l, isAsk, p, k, g);
    RemoveUnique(l, isAsk, p, k);
    forall h: OrderHandle
      ensures Live(l', h) <==> Live(l, h) && h != g
    {
      RemoveLive(l, isAsk, p, k, h);
    }
    assert l'.free == [g] + l.free;
    forall i | 0 <= i < |l'.free|
      ensures !Live(l', l'.free[i]) && (i > 0 ==> l'.free[i] != g)
    {
      assert i > 0 ==> l'.free[i] == l.free[i - 1];
    }
    assert Live(l, g);
    forall h: OrderHandle
      ensures h in l'.free <==> h == g || h in l.free
    {
      if h in l.free {
        var i :| 0 <= i < |l.free| && l.free[i] == h;
        assert l'.free[i + 1] == h;
      }
      assert l'.free[0] == g;
    }
  }

  /** Cancelling removes the order the handle denotes, wherever it rests. */
  lemma CancelAt(l: Ledger, isAsk: bool, p: int, k: nat, h: OrderHandle)
    requires UniquePlaces(l) && LiveAt(l, isAsk, p, k, h)
    ensures Cancel(l, h) == RemoveAt(l, isAsk, p, k) && Denotes(l, h) == l.Side(isAsk)[p][k]
  {
    var a: bool, r: int, j: nat :| LiveAt(l, a, r, j, h) && Cancel(l, h) == RemoveAt(l, a, r, j);
    var b: bool, s: int, i: nat :| LiveAt(l, b, s, i, h) && Denotes(l, h) == l.Side(b)[s][i];
    assert a == isAsk && r == p && j == k;
    assert b == isAsk && s == p && i == k;
  }

  lemma CancelPlace(l: Ledger, h: OrderHandle) returns (isAsk: bool, p: int, k: nat)
    requires UniquePlaces(l) && Live(l, h)
    ensures LiveAt(l, isAsk, p, k, h) && Cancel(l, h) == RemoveAt(l, isAsk, p, k)
    ensures Denotes(l, h) == l.Side(isAsk)[p][k]
    ensures forall a, x :: x in Cancel(l, h).Side(a) ==> x in l.Side(a)
  {
    isAsk, p, k :| LiveAt(l, isAsk, p, k, h);
    CancelAt(l, isAsk, p, k, h);
  }

  // ---------- reducing ----------

  lemma ReduceLive(l: Ledger, isAsk: bool, p: int, fill: uint64)
    requires HasAt(l, isAsk, p, 0) && fill <= l.Side(isAsk)[p][0].quantity
    ensures forall a, r, j, h :: LiveAt(ReduceAt(l, isAsk, p, fill), a, r, j, h) == LiveAt(l, a, r, j, h)
    ensures forall h :: Live(ReduceAt(l, isAsk, p, fill), h) == Live(l, h)
  {
    var l' := ReduceAt(l, isAsk, p, fill);
    forall h
      ensures Live(l', h) == Live(l, h)
    {
      if Live(l, h) {
        var a: bool, r: int, j: nat :| LiveAt(l, a, r, j, h);
        assert LiveAt(l', a, r, j, h);
      }
      if Live(l', h) {
        var a: bool, r: int, j: nat :| LiveAt(l', a, r, j, h);
        assert LiveAt(l, a, r, j, h);
      }
    }
  }

  lemma FillKeepsPartition(l: Ledger, isAsk: bool, p: int, fill: uint64, cap: nat)
    requires Partition(l, cap) && HasAt(l, isAsk, p, 0) && fill <= l.Side(isAsk)[p][0].quantity
    ensures Partition(FillAt(l, isAsk, p, fill), cap)
  {
    if fill == l.Side(isAsk)[p][0].quantity {
      RemoveKeepsPartition(l, isAsk, p, 0, cap);
    } else {
      ReduceLive(l, isAsk, p, fill);
    }
  }

  lemma FillKeepsSound(l: Ledger, isAsk: bool, p: int, fill: uint64, cap: nat)
    requires Sound(l, cap) && HasAt(l, isAsk, p, 0) && fill <= l.Side(isAsk)[p][0].quantity
    ensures Sound(FillAt(l, isAsk, p, fill), cap)
    ensures forall a, x :: x in FillAt(l, isAsk, p, fill).Side(a) ==> x in l.Side(a)
  {
    FillKeepsGood(l, isAsk, p, fill);
    FillKeepsPartition(l, isAsk, p, fill, cap);
  }

  lemma ReduceKeepsSlots(l: Ledger, isAsk: bool, p: int, fill: uint64, cap: nat)
    requires Partition(l, cap) && InRange(l) && HasAt(l, isAsk, p, 0) && fill <= l.Side(isAsk)[p][0].quantity
    ensures var l' := ReduceAt(l, isAsk, p, fill);
            Partition(l', cap) && InRange(l') && HasAt(l', isAsk, p, 0)
            && l'.Side(isAsk)[p][0].handle == l.Side(isAsk)[p][0].handle
  {
    ReduceLive(l, isAsk, p, fill);
    assert forall a, x :: x in ReduceAt(l, isAsk, p, fill).Side(a) ==> x in l.Side(a);
  }

  /** Taking the whole quantity off first does not matter to removing the order. */
  lemma ReduceThenRemove(l: Ledger, isAsk: bool, p: int, fill: uint64)
    requires HasAt(l, isAsk, p, 0) && fill <= l.Side(isAsk)[p][0].quantity
    ensures RemoveAt(ReduceAt(l, isAsk, p, fill), isAsk, p, 0) == RemoveAt(l, isAsk, p, 0)
  {
    var q := l.Side(isAsk)[p];
    var q' := ReduceAt(l, isAsk, p, fill).Side(isAsk)[p];
    assert Without(q, 0) == Without(q', 0);
    assert Put(ReduceAt(l, isAsk, p, fill).Side(isAsk), p, Without(q, 0)) == Put(l.Side(isAsk), p, Without(q, 0));
  }

  // ---------- resting ----------

  lemma PlaceBeforeRest(l: Ledger, isAsk: bool, price: int64, id: uint64, quantity: uint64, timestamp: uint64,
                        a: bool, r: int, j: nat, h: OrderHandle)
    requires l.free != []
    requires LiveAt(RestAt(l, isAsk, price, id, quantity, timestamp), a, r, j, h)
    ensures if a == isAsk && r == price && j == |At(l.Side(a), r)| then h == l.free[0]
            else
              && LiveAt(l, a, r, j, h)
              && RestAt(l, isAsk, price, id, quantity, timestamp).Side(a)[r][j] == l.Side(a)[r][j]
  {}

  lemma PlaceAfterRest(l: Ledger, isAsk: bool, price: int64, id: uint64, quantity: uint64, timestamp: uint64,
                       a: bool, r: int, j: nat, h: OrderHandle)
    requires l.free != [] && LiveAt(l, a, r, j, h)
    ensures var l' := RestAt(l, isAsk, price, id, quantity, timestamp);
            LiveAt(l', a, r, j, h) && l'.Side(a)[r][j] == l.Side(a)[r][j]
  {}

  lemma RestLive(l: Ledger, isAsk: bool, price: int64, id: uint64, quantity: uint64, timestamp: uint64, h: OrderHandle)
    requires l.free != []
    ensures Live(RestAt(l, isAsk, price, id, quantity, timestamp), h) <==> Live(l, h) || h == l.free[0]
  {
    var l' := RestAt(l, isAsk, price, id, quantity, timestamp);
    assert LiveAt(l', isAsk, price, |At(l.Side(isAsk), price)|, l.free[0]);
    if Live(l', h) {
      var a: bool, r: int, j: nat :| LiveAt(l', a, r, j, h);
      PlaceBeforeRest(l, isAsk, price, id, quantity, timestamp, a, r, j, h);
    }
    if Live(l, h) {
      var a: bool, r: int, j: nat :| LiveAt(l, a, r, j, h);
      PlaceAfterRest(l, isAsk, price, id, quantity, timestamp, a, r, j, h);
    }
  }

  lemma RestUnique(l: Ledger, isAsk: bool, price: int64, id: uint64, quantity: uint64, timestamp: uint64)
    requires UniquePlaces(l) && l.free != [] && !Live(l, l.free[0])
    ensures UniquePlaces(RestAt(l, isAsk, price, id, quantity, timestamp))
  {
    var l' := RestAt(l, isAsk, price, id, quantity, timestamp);
    forall h, a, r, j, b, s, i | LiveAt(l', a, r, j, h) && LiveAt(l', b, s, i, h)
      ensures a == b && r == s && j == i
    {
      PlaceBeforeRest(l, isAsk, price, id, quantity, timestamp, a, r, j, h);
      PlaceBeforeRest(l, isAsk, price, id, quantity, timestamp, b, s, i, h);
    }
  }

  lemma RestKeepsPartition(l: Ledger, isAsk: bool, price: int64, id: uint64, quantity: uint64, timestamp: uint64,
                           cap: nat)
    requires Partition(l, cap) && l.free != []
    ensures Partition(RestAt(l, isAsk, price, id, quantity, timestamp), cap)
  {
    var l' := RestAt(l, isAsk, price, id, quantity, timestamp);
    assert !Live(l, l.free[0]);
    RestUnique(l, isAsk, price, id, quantity, timestamp);
    forall h: OrderHandle
      ensures Live(l', h) <==> Live(l, h) || h == l.free[0]
    {
      RestLive(l, isAsk, price, id, quantity, timestamp, h);
    }
    forall i | 0 <= i < |l'.free|
      ensures !Live(l', l'.free[i])
    {
      assert l'.free[i] == l.free[i + 1];
    }
    assert l.free[0] in l.free;
    forall h: OrderHandle
      ensures h in l.free <==> h == l.free[0] || h in l'.free
    {
      if h in l.free && h != l.free[0] {
        var i :| 0 <= i < |l.free| && l.free[i] == h;
        assert l'.free[i - 1] == h;
      }
      if h in l'.free {
        var i :| 0 <= i < |l'.free| && l'.free[i] == h;
        assert l.free[i + 1] == h;
      }
    }
  }

  lemma RestSides(l: Ledger, isAsk: bool, price: int64, id: uint64, quantity: uint64, timestamp: uint64)
    requires l.free != []
    ensures var l' := RestAt(l, isAsk, price, id, quantity, timestamp);
            && (forall p :: p in l'.bids ==> p in l.bids || (!isAsk && p == price))
            && (forall p :: p in l'.asks ==> p in l.asks || (isAsk && p == price))
  {}

  lemma RestKeepsGood(l: Ledger, isAsk: bool, price: int64, id: uint64, quantity: uint64, timestamp: uint64)
    requires GoodBook(l) && l.free != [] && quantity > 0
    ensures GoodBook(RestAt(l, isAsk, price, id, quantity, timestamp))
  {
    var m, m' := l.Side(isAsk), RestAt(l, isAsk, price, id, quantity, timestamp).Side(isAsk);
    forall x | x in m'
      ensures GoodQueue(m'[x], x)
    {
      assert x != price ==> m'[x] == m[x];
      assert price in m ==> GoodQueue(m[price], price);
    }
  }

  // ---------- matching ----------

  lemma FillAddsNoPrice(l: Ledger, isAsk: bool, p: int, fill: uint64)
    requires HasAt(l, isAsk, p, 0) && fill <= l.Side(isAsk)[p][0].quantity
    ensures FillAt(l, isAsk, p, fill).Side(isAsk).Keys <= l.Side(isAsk).Keys
  {}

  /** Matching keeps the partition, never makes a price appear, and stops only for a reason. */
  lemma {:induction false} SweepKeeps(l: Ledger, isAsk: bool, limit: Option<int>, taker: uint64, quantity: uint64,
                                      cap: nat)
    requires Good(l.Side(isAsk)) && Partition(l, cap)
    ensures var o := Sweep(l, isAsk, limit, taker, quantity);
            && Partition(o.after, cap)
            && o.after.Side(isAsk).Keys <= l.Side(isAsk).Keys
            && Stops(o.after, isAsk, limit, o.remaining)
    decreases quantity
  {
    hide Good, GoodQueue, Partition, Sweep, Stops, Best, FillAt;
    if Stops(l, isAsk, limit, quantity) {
      SweepAtStop(l, isAsk, limit, taker, quantity);
    } else {
      SweepUnfold(l, isAsk, limit, taker, quantity);
      var p := Best(isAsk, l.Side(isAsk));
      var fill := Min(quantity, l.Side(isAsk)[p][0].quantity);
      FillKeepsPartition(l, isAsk, p, fill, cap);
      FillAddsNoPrice(l, isAsk, p, fill);
      SweepKeeps(FillAt(l, isAsk, p, fill), isAsk, limit, taker, quantity - fill, cap);
    }
  }

  /** If an order still has quantity after matching at its limit, no price of the other side crosses it. */
  lemma NothingCrosses(l: Ledger, isAsk: bool, limit: int, quantity: uint64)
    requires Stops(l, isAsk, Some(limit), quantity) && quantity > 0
    ensures forall p :: p in l.Side(isAsk) ==> !Crosses(isAsk, limit, p)
  {
    if l.Side(isAsk) != map[] {
      var b := Best(isAsk, l.Side(isAsk));
      assert forall p :: p in l.Side(isAsk) && p != b ==> Better(isAsk, b, p);
    }
  }

  // ---------- the operations ----------

  lemma AddLimitKeeps(l: Ledger, id: uint64, side: Side, price: int64, quantity: uint64, timestamp: uint64, cap: nat)
    requires Sound(l, cap) && CanRest(l, id, side, price, quantity)
    ensures Sound(AddLimit(l, id, side, price, quantity, timestamp).0, cap)
  {
    if quantity > 0 {
      var isAsk := Opposite(side);
      var o := Sweep(l, isAsk, Some(price), id, quantity);
      SweepKeeps(l, isAsk, Some(price), id, quantity, cap);
      assert o.after.Side(!isAsk) == l.Side(!isAsk);
      assert InRange(o.after) by {
        assert forall a, p :: p in o.after.Side(a) ==> p in l.Side(a);
      }
      assert Uncrossed(o.after);
      if o.remaining > 0 {
        NothingCrosses(o.after, isAsk, price, o.remaining);
        RestKeepsGood(o.after, !isAsk, price, id, o.remaining, timestamp);
        RestKeepsPartition(o.after, !isAsk, price, id, o.remaining, timestamp, cap);
      }
    }
  }

  lemma AddMarketKeeps(l: Ledger, id: uint64, side: Side, quantity: uint64, cap: nat)
    requires Sound(l, cap)
    ensures Sound(AddMarket(l, id, side, quantity).0, cap)
  {
    var isAsk := Opposite(side);
    var o := Sweep(l, isAsk, None, id, quantity);
    SweepKeeps(l, isAsk, None, id, quantity, cap);
    assert forall a, p :: p in o.after.Side(a) ==> p in l.Side(a) by {
      assert o.after.Side(!isAsk) == l.Side(!isAsk);
    }
  }

  lemma CancelKeeps(l: Ledger, h: OrderHandle, cap: nat)
    requires Sound(l, cap) && Live(l, h)
    ensures Sound(Cancel(l, h), cap)
  {
    CancelKeepsGood(l, h);
    var isAsk: bool, p: int, k: nat :| LiveAt(l, isAsk, p, k, h) && Cancel(l, h) == RemoveAt(l, isAsk, p, k);
    RemoveKeepsPartition(l, isAsk, p, k, cap);
    assert forall a, x :: x in RemoveAt(l, isAsk, p, k).Side(a) ==> x in l.Side(a);
  }

  lemma ModifyKeeps(l: Ledger, h: OrderHandle, side: Side, price: int64, quantity: uint64, timestamp: uint64, cap: nat)
    requires Sound(l, cap) && CanModify(l, h, side, price, quantity)
    ensures Sound(Modify(l, h, side, price, quantity, timestamp).0, cap)
  {
    CancelKeeps(l, h, cap);
    AddLimitKeeps(Cancel(l, h), Denotes(l, h).id, side, price, quantity, timestamp, cap);
  }
}
