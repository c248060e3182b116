/**
 * The planner of the replay benchmark: it runs every operation on a dry-run book when it plans it,
 * so that a rebuilt book can later replay the plan by pool slots alone.
 */
module Planners {
  import opened Handles
  import opened LedgerInvariants
  import opened Ledgers
  import opened OrderBooks
  import opened Plans
  import opened Rebuilds
  import opened Runs
  import opened Sequences
  import opened Trackers
  import opened Tracking
  import opened Types
  import opened Workloads

  predicate AllCancels(ops: seq<PendingOp>) {
    forall i {:trigger ops[i]} :: 0 <= i < |ops| ==> ops[i].CancelTarget?
  }

  predicate Grows(before: seq<PendingOp>, after: seq<PendingOp>) {
    |after| == |before| + 1 && after[..|before|] == before
  }

  function Last(ops: seq<PendingOp>): PendingOp
    requires ops != []
  {
    ops[|ops| - 1]
  }

  predicate Adds(op: PendingOp, draw: AddDraw) {
    op.LimitAdd? && op.side == draw.side && op.price == draw.price && op.qty == draw.qty
  }

  predicate Replaces(op: PendingOp, target: uint64, draw: AddDraw) {
    op.ModifyTarget? && op.targetId == target && op.side == draw.side && op.price == draw.price && op.qty == draw.qty
  }

  /** The operations run on the dry-run book, in order: the queue is drained from its end. */
  function Planned(pending: seq<PendingOp>, queue: seq<PendingOp>): seq<PendingOp> {
    pending + Reverse(queue)
  }

  /** Tracked ids at a price are the ids of the orders queued there. */
  lemma TrackedAreQueued(resting: RestingMap, handles: map<uint64, HandleMeta>, l: Ledger, side: Side, p: int)
    requires resting.Keys == handles.Keys && Mirrors(Joined(resting, handles), l) && UniquePlaces(l)
    ensures |Ids(resting, side, p)| == |At(l.Side(!Opposite(side)), p)|
  {
    var t, isAsk := Joined(resting, handles), !Opposite(side);
    var q := At(l.Side(isAsk), p);
    forall id
      ensures id in Ids(resting, side, p) <==> id in QueueIds(q)
    {
      if id in Ids(resting, side, p) {
        var k: nat :| RestsAt(l, id, t[id], k);
        assert q[k].id == id;
      }
      if id in QueueIds(q) {
        var k :| 0 <= k < |q| && q[k].id == id;
        assert HasAt(l, isAsk, p, k);
      }
    }
    assert Ids(resting, side, p) == QueueIds(q);
    forall i, j | 0 <= i < j < |q|
      ensures q[i].id != q[j].id
    {
      assert LiveAt(l, isAsk, p, i, q[i].handle) && LiveAt(l, isAsk, p, j, q[j].handle);
      assert HasAt(l, isAsk, p, i) && HasAt(l, isAsk, p, j);
    }
    QueueIdsCount(q);
  }

  ghost function QueueIds(q: seq<Resting>): set<uint64> {
    set k | 0 <= k < |q| :: q[k].id
  }

  lemma {:induction false} QueueIdsCount(q: seq<Resting>)
    requires forall i, j :: 0 <= i < j < |q| ==> q[i].id != q[j].id
    ensures |QueueIds(q)| == |q|
  {
    if q != [] {
      var n := |q| - 1;
      QueueIdsCount(q[..n]);
      assert forall k :: 0 <= k < n ==> q[..n][k] == q[k];
      assert QueueIds(q) == QueueIds(q[..n]) + {q[n].id};
    }
  }

  class Planner {
    const tracker: Tracker
    const book: OrderBook
    var pending: seq<PendingOp>
    var pregenQueue: seq<PendingOp>
    /** Ids the warm-up is to cancel next, if they are still live then. */
    var clusterQueue: seq<uint64>
    var idCounter: nat
    /** The book the plan starts from. */
    ghost const base: Ledger

    /** The tables list exactly the orders of the dry-run book, under ids already given out. */
    ghost predicate Following()
      reads this`idCounter, tracker, book.Repr()
    {
      && this !in book.Repr() && tracker !in book.Repr()
      && book.Valid() && |book.pool.slots| <= INVALID_HANDLE
      && tracker.Valid() && Mirrors(tracker.Table(), book.state)
      && forall id {:trigger id in tracker.resting} :: id in tracker.resting ==> id < idCounter
    }

    /** Book, tables and next id, as a value. */
    ghost function Now(): Desk
      requires Following()
      reads this`idCounter, tracker, book.Repr()
      ensures Now().live.Keys == tracker.resting.Keys && Now().nextId == idCounter && Now().book == book.state
    {
      Desk(book.state, tracker.Table(), idCounter)
    }

    /** The same with the cancels planned but not handed out yet. */
    ghost function Outlook(): Planning
      requires Following()
      reads this`idCounter, this`pregenQueue, tracker, book.Repr()
    {
      Planning(Now(), pregenQueue)
    }

    /** The same with the ids that the warm-up is to cancel next. */
    ghost function Warm(): Warming
      requires Following()
      reads this`idCounter, this`clusterQueue, tracker, book.Repr()
    {
      Warming(Now(), clusterQueue)
    }

    /** The dry-run book is the base after the plan, queued operations included; each took at most one slot. */
    ghost predicate Valid()
      reads this, tracker, book.Repr()
    {
      && Following()
      && Faithful(base, Planned(pending, pregenQueue), book.state)
      && |book.state.free| + |pending| >= |base.free|
    }

    /** A planner whose dry-run book was just rebuilt from the tables. */
    constructor (book: OrderBook, resting: RestingMap, handles: map<uint64, HandleMeta>,
                 bidCounts: Counts, askCounts: Counts, idCounter: nat)
      requires book.Valid() && |book.pool.slots| <= INVALID_HANDLE
      requires resting.Keys == handles.Keys && forall id :: id in resting ==>
        resting[id].qty == handles[id].qty && id < idCounter
      requires Counted(resting, Buy, bidCounts) && Counted(resting, Sell, askCounts)
      requires Mirrors(Joined(resting, handles), book.state)
      ensures Valid() && base == book.state && pending == pregenQueue == [] && clusterQueue == []
      ensures this.idCounter == idCounter && tracker.resting == resting
      ensures this.book == book && fresh(tracker) && Now() == Desk(book.state, Joined(resting, handles), idCounter)
    {
      hide OrderBook.Valid, Mirrors;
      this.book, this.idCounter := book, idCounter;
      tracker := new Tracker(resting, handles, bidCounts, askCounts);
      pending, pregenQueue, clusterQueue, base := [], [], [], book.state;
    }

    /** Runs a limit order on the dry-run book and follows its result. */
    method LimitLive(draw: AddDraw) returns (op: PendingOp)
      requires Following() && draw.Fair() && book.state.free != [] && idCounter < 0xFFFF_FFFF_FFFF_FFFF
      modifies this`idCounter, tracker, book.Repr()
      ensures Following() && Fits(old(book.state), op) && book.state == Step(old(book.state), CommandOf(op)).0
      ensures idCounter == old(idCounter) + 1 && Adds(op, draw)
      ensures tracker.resting.Keys <= old(tracker.resting.Keys) + {old(idCounter)}
      ensures op == AddOp(old(Now()), draw) && Now() == After(old(Now()), op)
    {
      hide Mirrors, OrderBook.Valid, Tracker.Valid, Tracker.Table, Fits;
      hide Step, WithRested, ApplyTrades, Allowed, CommandOf, Follow, After, AddOp;
      ghost var before := Now();
      var oid := idCounter;
      idCounter := idCounter + 1;
      var res;
      op, res := LimitBook(oid, draw);
      tracker.FollowResult(oid, draw.side, draw.price, res);
      FollowIs(before.live, before.book, op, res);
      AddOpIs(before, draw, op);
      AfterIs(before, op, Now());
    }

    /** The scenario tag says whether the order rested untouched, and whether its price was already in use. */
    method LimitBook(oid: uint64, draw: AddDraw) returns (op: PendingOp, res: AddResult)
      requires Following() && draw.Fair() && book.state.free != [] && oid !in tracker.resting
      modifies book.Repr()
      ensures book.Valid() && Fits(old(book.state), op) && (book.state, res) == Step(old(book.state), CommandOf(op))
      ensures tracker.Valid() && Adds(op, draw) && op.oid == oid
      ensures Mirrors(WithRested(ApplyTrades(tracker.Table(), res.trades), oid, draw.side, draw.price, res), book.state)
    {
      hide Mirrors, Sound, OrderBook.Valid, Ledgers.AddLimit, Sweep;
      hide Tracker.Valid, Tracker.Table, GoodBook, WithRested, UniquePlaces;
      LimitFits(oid, draw);
      var existed := tracker.HasPriceLevel(draw.side, draw.price);
      res := book.AddLimitOrder(oid, draw.side, draw.price, draw.qty, oid);
      op := LimitAdd(oid, draw.side, draw.price, draw.qty,
        if res.code == Success && res.trades == [] && res.remaining > 0
        then (if existed then AddRestExistingLevel else AddRestNewLevel)
        else Unmeasured);
    }

    lemma LimitFits(oid: uint64, draw: AddDraw)
      requires Following() && draw.Fair() && book.state.free != [] && oid !in tracker.resting
      ensures var l, c := book.state, Command.LimitOrder(oid, draw.side, draw.price, draw.qty, oid);
        && Allowed(l, c) && Mirrors(Follow(tracker.Table(), l, c), Step(l, c).0)
        && Step(l, c).1.code == Success
      ensures tracker.HasPriceLevel(draw.side, draw.price) <==> draw.price in book.state.Side(!Opposite(draw.side))
    {
      hide Mirrors, Sound, OrderBook.Valid, Follow, Sweep, GoodBook, UniquePlaces, RestAt;
      BookSound(book);
      SweepFreesSlots(book.state, Opposite(draw.side), Some(draw.price), oid, draw.qty);
      var c := Command.LimitOrder(oid, draw.side, draw.price, draw.qty, oid);
      FollowMirrors(tracker.Table(), book.state, c, |book.pool.slots|);
      LevelTracked(draw.side, draw.price);
    }

    /** The counts know a price exactly when the book has orders there, and how many. */
    lemma LevelTracked(side: Side, price: int64)
      requires Following()
      ensures var counts := if side == Buy then tracker.bidCounts else tracker.askCounts;
        && (price in counts <==> price in book.state.Side(!Opposite(side)))
        && (price in counts ==> counts[price] == |book.state.Side(!Opposite(side))[price]|)
    {
      hide Mirrors, Sound, OrderBook.Valid, UniquePlaces;
      BookSound(book);
      TrackedAreQueued(tracker.resting, tracker.handles, book.state, side, price);
      assert CountedAt(tracker.resting, Buy, tracker.bidCounts, price);
      assert CountedAt(tracker.resting, Sell, tracker.askCounts, price);
      assert price in book.state.Side(!Opposite(side)) ==> GoodQueue(book.state.Side(!Opposite(side))[price], price);
    }

    /** Cancels a live order on the dry-run book; its handle is found and the cancel succeeds. */
    method CancelLive(target: uint64) returns (op: PendingOp)
      requires Following() && target in tracker.resting
      modifies tracker, book.Repr()
      ensures Following() && Fits(old(book.state), op) && book.state == Step(old(book.state), CommandOf(op)).0
      ensures op == CancelTarget(target, old(tracker.Table())[target].handle)
      ensures tracker.resting.Keys == old(tracker.resting.Keys) - {target}
      ensures op == CancelOp(old(Now()).live, target) && Now() == After(old(Now()), op)
    {
      hide Mirrors, Sound, OrderBook.Valid, Tracker.Valid, Tracker.Table, GoodBook, Cancel, Denotes, Live;
      hide Follow, After;
      ghost var before := Now();
      HandleFits(target);
      var h := tracker.HandleOf(target);
      var code := book.CancelOrder(h);
      op := CancelTarget(target, h);
      tracker.Forget(target);
      FollowIs(before.live, before.book, op, BLANK_RESULT);
      AfterIs(before, op, Now());
    }

    /** The handle tracked for a live id denotes the order with that id. */
    lemma HandleFits(target: uint64)
      requires Following() && target in tracker.resting
      ensures var l, h := book.state, tracker.Table()[target].handle;
        && GoodBook(l) && Live(l, h) && Denotes(l, h).id == target
        && Mirrors(tracker.Table() - {target}, Cancel(l, h))
    {
      hide Mirrors, Sound, OrderBook.Valid, Tracker.Valid, GoodBook, Cancel, Denotes;
      BookSound(book);
      TrackedIsLive(tracker.Table(), book.state, target);
      FollowCancel(tracker.Table(), book.state, tracker.Table()[target].handle);
    }

    static lemma TrackedIsLive(t: Table, l: Ledger, id: uint64)
      requires Mirrors(t, l) && UniquePlaces(l) && id in t
      ensures Live(l, t[id].handle) && Denotes(l, t[id].handle).id == id
    {
      var k: nat :| RestsAt(l, id, t[id], k);
      assert LiveAt(l, t[id].isAsk, t[id].price, k, t[id].handle);
      CancelAt(l, t[id].isAsk, t[id].price, k, t[id].handle);
    }

    /** Replaces a live order on the dry-run book and follows the result. */
    method ModifyLive(target: uint64, draw: AddDraw) returns (op: PendingOp)
      requires Following() && target in tracker.resting && draw.Fair() && idCounter < 0xFFFF_FFFF_FFFF_FFFF
      modifies this`idCounter, tracker, book.Repr()
      ensures Following() && Fits(old(book.state), op) && book.state == Step(old(book.state), CommandOf(op)).0
      ensures idCounter == old(idCounter) + 1 && Replaces(op, target, draw)
      ensures tracker.resting.Keys <= old(tracker.resting.Keys)
      ensures op == ReplaceOp(old(Now()).live, target, draw, old(idCounter)) && Now() == After(old(Now()), op)
    {
      hide Mirrors, OrderBook.Valid, Tracker.Valid, Tracker.Table, Fits;
      hide Step, WithRested, ApplyTrades, Allowed, CommandOf, Follow, After;
      ghost var before := Now();
      var oid := idCounter;
      idCounter := idCounter + 1;
      var res;
      op, res := ModifyBook(target, draw, oid);
      tracker.FollowReplacement(target, draw.side, draw.price, res);
      FollowIs(before.live, before.book, op, res);
      AfterIs(before, op, Now());
    }

    method ModifyBook(target: uint64, draw: AddDraw, oid: uint64) returns (op: PendingOp, res: AddResult)
      requires Following() && target in tracker.resting && draw.Fair()
      modifies book.Repr()
      ensures book.Valid() && Fits(old(book.state), op) && (book.state, res) == Step(old(book.state), CommandOf(op))
      ensures tracker.Valid() && Replaces(op, target, draw)
      ensures op == ReplaceOp(tracker.Table(), target, draw, oid)
      ensures
        var traded := ApplyTrades(tracker.Table() - {target}, res.trades);
        Mirrors(WithRested(traded, target, draw.side, draw.price, res), book.state)
    {
      hide UniquePlaces, ApplyTrades, Opposite, Mirrors, Sound, OrderBook.Valid, Tracker.Valid;
      hide GoodBook, Cancel, Denotes, Live, Ledgers.Modify, WithRested, CanModify;
      HandleFits(target);
      ModifyFits(target, draw, oid);
      var h := tracker.HandleOf(target);
      op := ModifyTarget(target, h, draw.side, draw.price, draw.qty, oid);
      res := book.ModifyOrder(h, draw.side, draw.price, draw.qty, oid);
    }

    lemma ModifyFits(target: uint64, draw: AddDraw, oid: uint64)
      requires Following() && target in tracker.resting && draw.Fair()
      ensures var l, h := book.state, tracker.Table()[target].handle;
        var c := Command.ModifyOrder(h, draw.side, draw.price, draw.qty, oid);
        && Allowed(l, c) && CanModify(l, h, draw.side, draw.price, draw.qty)
        && Mirrors(Follow(tracker.Table(), l, c), Step(l, c).0)
    {
      hide Mirrors, Sound, OrderBook.Valid, Tracker.Valid, Cancel, Denotes;
      hide Live, GoodBook, UniquePlaces, Sweep, Follow, Step;
      HandleFits(target);
      BookSound(book);
      var h := tracker.Table()[target].handle;
      CancelKeepsGood(book.state, h);
      CancelFreesSlot(book.state, h);
      SweepFreesSlots(Cancel(book.state, h), Opposite(draw.side), Some(draw.price), target, draw.qty);
      var c := Command.ModifyOrder(h, draw.side, draw.price, draw.qty, oid);
      FollowMirrors(tracker.Table(), book.state, c, |book.pool.slots|);
    }

    /** Runs a market order on the dry-run book and follows its fills. */
    method MarketLive(side: Side, qty: uint64) returns (op: PendingOp)
      requires Following() && qty > 0 && idCounter < 0xFFFF_FFFF_FFFF_FFFF
      modifies this`idCounter, tracker, book.Repr()
      ensures Following() && Fits(old(book.state), op) && book.state == Step(old(book.state), CommandOf(op)).0
      ensures idCounter == old(idCounter) + 1 && op == Market(old(idCounter), side, qty)
      ensures tracker.resting.Keys <= old(tracker.resting.Keys)
      ensures Now() == After(old(Now()), op)
    {
      hide Mirrors, Sound, OrderBook.Valid, Ledgers.AddMarket, Tracker.Valid, Tracker.Table, GoodBook, UniquePlaces;
      hide Follow, After;
      ghost var before := Now();
      var oid := idCounter;
      idCounter := idCounter + 1;
      BookSound(book);
      FollowMirrors(tracker.Table(), book.state, Command.MarketOrder(oid, side, qty), |book.pool.slots|);
      op := Market(oid, side, qty);
      var res := book.AddMarketOrder(oid, side, qty, oid);
      tracker.ApplyTradeFills(res.trades);
      FollowIs(before.live, before.book, op, res);
      AfterIs(before, op, Now());
    }

    // ---------- warming up ----------

    /** One operation was carried out: it gave out at most one id and added at most one order to the tables. */
    twostate predicate Ran(op: PendingOp)
      reads this`idCounter, tracker, book
    {
      && Fits(old(book.state), op) && book.state == Step(old(book.state), CommandOf(op)).0
      && idCounter <= old(idCounter) + 1
      && |tracker.resting| <= old(|tracker.resting|) + 1
    }

    static lemma OneMore(before: RestingMap, after: RestingMap, id: nat)
      requires after.Keys <= before.Keys + {id}
      ensures |after| <= |before| + 1
    {
      NoMore(after.Keys, before.Keys + {id});
      assert |after.Keys| == |after| && |before.Keys| == |before|;
    }

    lemma Apart()
      requires Following()
      ensures this !in book.Repr() && tracker !in book.Repr()
    {}

    method DoLimitAdd(draw: AddDraw) returns (ghost op: PendingOp)
      requires Following() && draw.Fair() && book.state.free != [] && idCounter < 0xFFFF_FFFF_FFFF_FFFF
      modifies this`idCounter, tracker, book.Repr()
      ensures Following() && Ran(op) && op == AddOp(old(Now()), draw) && Now() == After(old(Now()), op)
    {
      hide Following, Fits, Step, AddOp, After, Now;
      ghost var before, id := tracker.resting, idCounter;
      op := LimitLive(draw);
      OneMore(before, tracker.resting, id);
    }

    /** Cancels an order if it is still live, and queues the ids of some others that then are. */
    method DoCancel(target: uint64, cluster: seq<uint64>) returns (done: bool, ghost op: PendingOp)
      requires Following()
      modifies this`clusterQueue, tracker, book.Repr()
      ensures Following() && done == (target in old(tracker.resting))
      ensures done ==> Ran(op) && op == CancelOp(old(Now()).live, target) && Now() == After(old(Now()), op)
      ensures done ==> clusterQueue == old(clusterQueue) + LiveAmong(cluster, Now().live.Keys)
      ensures !done ==> unchanged(tracker) && unchanged(book) && Now() == old(Now())
      ensures !done ==> clusterQueue == old(clusterQueue)
    {
      Apart();
      hide Following, Fits, Step, CancelOp, After, Now, LiveAmong;
      done, op := target in tracker.resting, CancelTarget(target, INVALID_HANDLE);
      if done {
        op := CancelOne(target);
        EnqueueCluster(cluster);
      }
    }

    method CancelOne(target: uint64) returns (ghost op: PendingOp)
      requires Following() && target in tracker.resting
      modifies tracker, book.Repr()
      ensures Following() && Ran(op) && op == CancelOp(old(Now()).live, target) && Now() == After(old(Now()), op)
    {
      Apart();
      hide Following, Fits, Step, CommandOf, Allowed, Tracker.Valid, Tracker.Table, CancelOp, After, Now;
      ghost var before := tracker.resting;
      op := CancelLive(target);
      assert tracker.resting.Keys <= before.Keys + {0};
      OneMore(before, tracker.resting, 0);
    }

    /** Queues the live ones among some picks. */
    method EnqueueCluster(picks: seq<uint64>)
      requires Following()
      modifies this`clusterQueue
      ensures Following() && unchanged(tracker) && unchanged(book) && Now() == old(Now())
      ensures clusterQueue == old(clusterQueue) + LiveAmong(picks, tracker.resting.Keys)
    {
      Apart();
      hide Following, LiveAmong;
      var ids := LiveOnes(picks);
      clusterQueue := clusterQueue + ids;
    }

    /** Of some picks those that are live, in the order they were drawn. */
    method LiveOnes(picks: seq<uint64>) returns (ids: seq<uint64>)
      ensures ids == LiveAmong(picks, tracker.resting.Keys)
    {
      hide LiveAmong;
      ids := [];
      assert picks[0..] == picks;
      for i := 0 to |picks|
        invariant ids + LiveAmong(picks[i..], tracker.resting.Keys) == LiveAmong(picks, tracker.resting.Keys)
      {
        assert picks[i..][0] == picks[i] && picks[i..][1..] == picks[i + 1..];
        LiveAmongUnfold(picks[i..], tracker.resting.Keys);
        if picks[i] in tracker.resting {
          ids := ids + [picks[i]];
        }
      }
      LiveAmongUnfold([], tracker.resting.Keys);
      assert picks[|picks|..] == [];
    }

    method DoCancelRandom(picks: seq<uint64>, cluster: seq<uint64>, draw: AddDraw) returns (ghost op: PendingOp)
      requires Following() && draw.Fair() && book.state.free != [] && idCounter < MAX_ID
      modifies this`clusterQueue, this`idCounter, tracker, book.Repr()
      ensures Following() && Ran(op) && Now() == After(old(Now()), op)
      ensures op == if old(tracker.resting) == map[] then AddOp(old(Now()), draw)
        else CancelOp(old(Now()).live, Target(picks, old(tracker.resting.Keys)))
      ensures clusterQueue ==
        old(clusterQueue) + if op.CancelTarget? then LiveAmong(cluster, Now().live.Keys) else []
    {
      hide Target, Following, Fits, Step, AddOp, CancelOp, After, Now, LiveAmong;
      if tracker.resting == map[] {
        op := DoLimitAdd(draw);
      } else {
        op := CancelPicked(picks, cluster);
      }
    }

    method CancelPicked(picks: seq<uint64>, cluster: seq<uint64>) returns (ghost op: PendingOp)
      requires Following() && tracker.resting != map[]
      modifies this`clusterQueue, tracker, book.Repr()
      ensures Following() && Ran(op) && Now() == After(old(Now()), op)
      ensures op == CancelOp(old(Now()).live, Target(picks, old(tracker.resting.Keys)))
      ensures clusterQueue == old(clusterQueue) + LiveAmong(cluster, Now().live.Keys)
    {
      hide Target, Following, Fits, Step, CancelOp, After, Now, LiveAmong;
      var target := SelectCancelTarget(picks);
      var done;
      done, op := DoCancel(target, cluster);
    }


    method DoModify(picks: seq<uint64>, replacement: AddDraw, draw: AddDraw) returns (ghost op: PendingOp)
      requires Following() && replacement.Fair() && draw.Fair()
      requires book.state.free != [] && idCounter < MAX_ID
      modifies this`idCounter, tracker, book.Repr()
      ensures Following() && Ran(op) && Now() == After(old(Now()), op)
      ensures op == if old(tracker.resting) == map[] then AddOp(old(Now()), draw)
        else ReplaceOp(old(Now()).live, Target(picks, old(tracker.resting.Keys)), replacement, old(idCounter))
    {
      hide Target, Following, Fits, Step, AddOp, ReplaceOp, After, Now;
      if tracker.resting == map[] {
        op := DoLimitAdd(draw);
      } else {
        op := ModifyPicked(picks, replacement);
      }
    }

    method ModifyPicked(picks: seq<uint64>, replacement: AddDraw) returns (ghost op: PendingOp)
      requires Following() && tracker.resting != map[] && replacement.Fair() && idCounter < MAX_ID
      modifies this`idCounter, tracker, book.Repr()
      ensures Following() && Ran(op) && Now() == After(old(Now()), op)
      ensures op == ReplaceOp(old(Now()).live, Target(picks, old(tracker.resting.Keys)), replacement, old(idCounter))
    {
      hide Target, Following, Fits, Step, ReplaceOp, After, Now;
      ghost var before := tracker.resting;
      var target := SelectCancelTarget(picks);
      op := ModifyLive(target, replacement);
      OneMore(before, tracker.resting, 0);
    }


    method DoMarket(side: Side, qty: uint64, draw: AddDraw) returns (ghost op: PendingOp)
      requires Following() && qty > 0 && draw.Fair() && book.state.free != [] && idCounter < MAX_ID
      modifies this`idCounter, tracker, book.Repr()
      ensures Following() && Ran(op) && Now() == After(old(Now()), op)
      ensures op == if old(tracker.resting) == map[] then AddOp(old(Now()), draw) else Market(old(idCounter), side, qty)
    {
      hide Following, Fits, Step, AddOp, After, Now;
      if tracker.resting == map[] {
        op := DoLimitAdd(draw);
        return;
      }
      ghost var before := tracker.resting;
      op := MarketLive(side, qty);
      OneMore(before, tracker.resting, 0);
    }

    /** One event of the warm-up: a queued cancel if its order is still live, else one by the roll of a die. */
    method GenerateAndExecuteOne(d: Draw) returns (ghost op: PendingOp)
      requires Following() && d.Fair() && book.state.free != [] && idCounter < MAX_ID
      modifies this`clusterQueue, this`idCounter, tracker, book.Repr()
      ensures Following() && Ran(op) && op == WarmOp(old(Warm()), d) && Warm() == NextWarm(old(Warm()), d)
    {
      hide Following, Fits, Step, After, Rolled, CancelOp, Now, LiveAmong;
      var done;
      done, op := CancelQueued(d.cluster);
      if !done {
        op := ExecuteRolled(d);
      }
    }

    /** Carries out an operation of the kind rolled. */
    method ExecuteRolled(d: Draw) returns (ghost op: PendingOp)
      requires Following() && d.Fair() && book.state.free != [] && idCounter < MAX_ID
      modifies this`clusterQueue, this`idCounter, tracker, book.Repr()
      ensures Following() && Ran(op) && op == Rolled(old(Now()), d) && Now() == After(old(Now()), op)
      ensures clusterQueue ==
        old(clusterQueue) + if op.CancelTarget? then LiveAmong(d.cluster, Now().live.Keys) else []
    {
      hide Target, Following, Fits, Step, AddOp, ReplaceOp, CancelOp, After, Now, LiveAmong;
      EmptyLive();
      if d.roll < 45 {
        op := DoLimitAdd(d.add);
      } else if d.roll < 93 {
        op := DoCancelRandom(d.picks, d.cluster, d.add);
      } else if d.roll < 98 {
        op := DoModify(d.picks, d.replacement, d.add);
      } else {
        op := DoMarket(d.add.side, d.marketQty, d.add);
      }
    }

    /** Takes the last id off the cluster queue and cancels its order if that is still live. */
    method CancelQueued(cluster: seq<uint64>) returns (done: bool, ghost op: PendingOp)
      requires Following()
      modifies this`clusterQueue, tracker, book.Repr()
      ensures Following() && done == old(Warm()).QueuedLive()
      ensures done ==> Ran(op) && op == QueuedCancel(old(Warm()))
      ensures done ==> Now() == After(old(Now()), op)
      ensures !done ==> unchanged(tracker) && unchanged(book) && Now() == old(Now())
      ensures clusterQueue == old(Warm()).Popped() + if done then LiveAmong(cluster, Now().live.Keys) else []
    {
      Apart();
      hide Following, Fits, Step, CancelOp, After, Now, LiveAmong;
      done, op := false, CancelTarget(0, INVALID_HANDLE);
      if clusterQueue != [] {
        var n := |clusterQueue| - 1;
        var target := clusterQueue[n];
        clusterQueue := clusterQueue[..n];
        done, op := DoCancel(target, cluster);
      }
    }

    /**
     * Adds for depth, then mixed events: with a slot for each of them the pool is never exhausted, and the
     * book goes through exactly the operations that the draws come to.
     */
    method WarmUp(seeds: seq<AddDraw>, events: seq<Draw>) returns (ghost ops: seq<PendingOp>)
      requires Following() && clusterQueue == []
      requires forall i :: 0 <= i < |seeds| ==> seeds[i].Fair()
      requires forall i :: 0 <= i < |events| ==> events[i].Fair()
      requires |seeds| + |events| <= |book.state.free|
      requires idCounter + |seeds| + |events| <= MAX_ID
      modifies this`clusterQueue, this`idCounter, tracker, book.Repr()
      ensures Following() && idCounter <= old(idCounter) + |seeds| + |events|
      ensures |ops| == |seeds| + |events| && Faithful(old(book.state), ops, book.state)
      ensures |book.state.free| + |seeds| + |events| >= old(|book.state.free|)
      ensures |tracker.resting| <= old(|tracker.resting|) + |seeds| + |events|
      ensures ops == WarmUpOps(old(Now()), seeds, events) && Warm() == WarmedUp(old(Now()), seeds, events)
    {
      Apart();
      hide Following, Now, Faithful, Fits, Step, SeedOps, Seeded, WarmOps, Warmed, AddOp, After, WarmOp, NextWarm;
      ghost var first := Seed(seeds);
      ghost var second := RunEvents(events);
      ops := first + second;
      FaithfulJoins(old(book.state), first, Seeded(old(Now()), seeds).book, second, book.state);
    }

    /** Adds for depth. */
    method Seed(seeds: seq<AddDraw>) returns (ghost ops: seq<PendingOp>)
      requires Following() && forall i :: 0 <= i < |seeds| ==> seeds[i].Fair()
      requires |seeds| <= |book.state.free| && idCounter + |seeds| <= MAX_ID
      modifies this`idCounter, tracker, book.Repr()
      ensures Following() && OneSlotEach(old(book.state), ops, |seeds|) && idCounter <= old(idCounter) + |seeds|
      ensures |tracker.resting| <= old(|tracker.resting|) + |seeds|
      ensures ops == SeedOps(old(Now()), seeds) && Now() == Seeded(old(Now()), seeds)
    {
      hide Following, Now, Faithful, Fits, Step, SeedOps, Seeded, AddOp, After, SeedsSoFar;
      ghost var start := Now();
      ops := [];
      NothingFaithful(book.state);
      SeedsStart(start, seeds);
      for i := 0 to |seeds|
        invariant Following() && OneSlotEach(old(book.state), ops, i) && idCounter <= old(idCounter) + i
        invariant |tracker.resting| <= old(|tracker.resting|) + i
        invariant SeedsSoFar(start, seeds, i, ops, Now())
      {
        ghost var before := book.state;
        SeedsGoOn(start, seeds, i, ops, Now());
        ghost var op := DoLimitAdd(seeds[i]);
        WarmedOne(old(book.state), ops, before, op);
        ops := ops + [op];
      }
      SeedsEnd(start, seeds, ops, Now());
    }

    /** Mixed events. */
    method RunEvents(events: seq<Draw>) returns (ghost ops: seq<PendingOp>)
      requires Following() && forall i :: 0 <= i < |events| ==> events[i].Fair()
      requires |events| <= |book.state.free| && idCounter + |events| <= MAX_ID
      modifies this`clusterQueue, this`idCounter, tracker, book.Repr()
      ensures Following() && OneSlotEach(old(book.state), ops, |events|) && idCounter <= old(idCounter) + |events|
      ensures |tracker.resting| <= old(|tracker.resting|) + |events|
      ensures ops == WarmOps(old(Warm()), events) && Warm() == Warmed(old(Warm()), events)
    {
      hide Following, Now, Faithful, Fits, Step, WarmOps, Warmed, WarmOp, NextWarm, WarmSoFar;
      ghost var start := Warm();
      ops := [];
      NothingFaithful(book.state);
      WarmStarts(start, events);
      for i := 0 to |events|
        invariant Following() && OneSlotEach(old(book.state), ops, i) && idCounter <= old(idCounter) + i
        invariant |tracker.resting| <= old(|tracker.resting|) + i
        invariant WarmSoFar(start, events, i, ops, Warm())
      {
        ghost var before := book.state;
        WarmGoesOn(start, events, i, ops, Warm());
        ghost var op := GenerateAndExecuteOne(events[i]);
        WarmedOne(old(book.state), ops, before, op);
        ops := ops + [op];
      }
      WarmEnds(start, events, ops, Warm());
    }

    /** Some operations fitted one after the other from a book to the present one, each taking at most one slot. */
    ghost predicate OneSlotEach(start: Ledger, ops: seq<PendingOp>, i: nat)
      reads book
    {
      |ops| == i && Faithful(start, ops, book.state) && |book.state.free| + i >= |start.free|
    }

    lemma WarmedOne(start: Ledger, ops: seq<PendingOp>, before: Ledger, op: PendingOp)
      requires Faithful(start, ops, before) && |before.free| + |ops| >= |start.free|
      requires Fits(before, op) && book.state == Step(before, CommandOf(op)).0
      ensures OneSlotEach(start, ops + [op], |ops| + 1)
    {
      FitsIsAllowed(before, op);
      hide Faithful, Fits, Step, Allowed, CommandOf;
      FaithfulExtends(start, ops, before, op);
      StepTakesOneSlot(before, CommandOf(op));
    }

    /** The tables can be rebuilt, and every id in them was given out. */
    lemma TablesAreTradable()
      requires Following()
      ensures Tradable(tracker.resting) && |tracker.resting.Keys| == |tracker.resting|
      ensures tracker.resting.Keys == tracker.handles.Keys && Now().live == Joined(tracker.resting, tracker.handles)
      ensures Counted(tracker.resting, Buy, tracker.bidCounts) && Counted(tracker.resting, Sell, tracker.askCounts)
      ensures forall id {:trigger id in tracker.resting} :: id in tracker.resting ==> id < idCounter
    {
      hide Mirrors, Sound, OrderBook.Valid, Counted;
      BookSound(book);
      MirrorIsTradable(tracker.resting, tracker.handles, book.state, |book.pool.slots|);
    }

    /** Puts an operation just run on the dry-run book at the end of the plan. */
    method Record(op: PendingOp, ghost before: Ledger)
      requires Following() && pregenQueue == [] && Faithful(base, Planned(pending, []), before)
      requires Fits(before, op) && book.state == Step(before, CommandOf(op)).0
      requires |before.free| + |pending| >= |base.free|
      modifies this`pending
      ensures Valid() && pending == old(pending) + [op] && Now() == old(Now())
    {
      hide Following, Fits, Step, Faithful, Now;
      NothingQueued(pending);
      PlanGrows(base, pending, before, op);
      PutLast(op);
    }

    static lemma NothingQueued(ops: seq<PendingOp>)
      ensures Planned(ops, []) == ops
    {}

    static lemma PlanGrows(base: Ledger, pending: seq<PendingOp>, before: Ledger, op: PendingOp)
      requires Faithful(base, pending, before) && Fits(before, op)
      ensures var after := Step(before, CommandOf(op)).0;
        && Faithful(base, pending + [op], after)
        && |after.free| >= |before.free| - 1 && (op.CancelTarget? ==> |after.free| > |before.free|)
    {
      hide Step, Faithful;
      FaithfulExtends(base, pending, before, op);
      StepTakesOneSlot(before, CommandOf(op));
    }

    method PendingLimitAdd(draw: AddDraw)
      requires Valid() && pregenQueue == [] && draw.Fair()
      requires |pending| < |base.free| && idCounter < 0xFFFF_FFFF_FFFF_FFFF
      modifies this`pending, this`idCounter, tracker, book.Repr()
      ensures Valid() && idCounter <= old(idCounter) + 1
      ensures Grows(old(pending), pending)
      ensures Last(pending) == AddOp(old(Now()), draw) && Now() == After(old(Now()), Last(pending))
    {
      hide Following, Fits, Step, Faithful, After, AddOp, Now;
      var op := LimitLive(draw);
      Record(op, old(book.state));
    }

    /** The first live one among some random picks, or failing that some other; 0 when none is live. */
    method SelectCancelTarget(picks: seq<uint64>) returns (target: uint64)
      ensures target == if tracker.resting == map[] then 0 else Target(picks, tracker.resting.Keys)
    {
      if tracker.resting == map[] {
        return 0;
      }
      for i := 0 to |picks|
        invariant Target(picks, tracker.resting.Keys) == Target(picks[i..], tracker.resting.Keys)
      {
        assert picks[i..][0] == picks[i] && picks[i..][1..] == picks[i + 1..];
        if picks[i] in tracker.resting {
          return picks[i];
        }
      }
      target := BestOf(true, tracker.resting.Keys);
    }

    /** Cancels a live order as the next operation after some others. */
    method CancelPlanned(target: uint64, ghost ops: seq<PendingOp>) returns (op: PendingOp)
      requires Following() && target in tracker.resting && Faithful(base, ops, book.state)
      modifies tracker, book.Repr()
      ensures Following() && Faithful(base, ops + [op], book.state)
      ensures |book.state.free| > old(|book.state.free|) && op.CancelTarget? && op.targetId == target
      ensures tracker.resting.Keys == old(tracker.resting.Keys) - {target}
      ensures op == CancelOp(old(Now()).live, target) && Now() == After(old(Now()), op)
      ensures Now().live == old(Now()).live - {target}
    {
      hide Following, Fits, Step, Faithful;
      ghost var before := Now();
      op := CancelLive(target);
      AfterCancel(before, op);
      PlanGrows(base, ops, old(book.state), op);
    }

    method PendingCancel(picks: seq<uint64>, cluster: seq<uint64>, draw: AddDraw)
      requires Valid() && pregenQueue == [] && draw.Fair()
      requires |pending| < |base.free| && idCounter < 0xFFFF_FFFF_FFFF_FFFF
      modifies this`pending, this`pregenQueue, this`idCounter, tracker, book.Repr()
      ensures Valid() && idCounter <= old(idCounter) + 1 && Grows(old(pending), pending)
      ensures Outlook() == PlanningAfter(old(Now()), Last(pending), cluster)
      ensures Last(pending) == if old(tracker.resting) == map[] then AddOp(old(Now()), draw)
        else CancelOp(old(Now()).live, Target(picks, old(tracker.resting.Keys)))
    {
      hide Target, Following, Faithful, After, AddOp, Now, AfterAll, CancelOp, ClusterOps, Reverse;
      if tracker.resting == map[] {
        PendingLimitAdd(draw);
      } else {
        PlanCancel(picks, cluster);
      }
    }

    method PlanCancel(picks: seq<uint64>, cluster: seq<uint64>)
      requires Valid() && pregenQueue == [] && tracker.resting != map[]
      modifies this`pending, this`pregenQueue, tracker, book.Repr()
      ensures Valid() && idCounter == old(idCounter) && Grows(old(pending), pending)
      ensures Last(pending) == CancelOp(old(Now()).live, Target(picks, old(tracker.resting.Keys)))
      ensures Outlook() == PlanningAfter(old(Now()), Last(pending), cluster)
    {
      hide Target, Following, Faithful, After, Now, AfterAll, CancelOp, ClusterOps, Reverse, PlanningAfter, AllCancels;
      ghost var before := Now();
      var target := SelectCancelTarget(picks);
      CancelFirst(target);
      CancelPlanning(before, CancelOp(before.live, target), cluster);
      EnqueueClusterPending(cluster);
    }

    /** Cancels a live order and puts the cancel at the end of the plan. */
    method CancelFirst(target: uint64)
      requires Valid() && pregenQueue == [] && target in tracker.resting
      modifies this`pending, tracker, book.Repr()
      ensures Valid() && idCounter == old(idCounter) && pending == old(pending) + [CancelOp(old(Now()).live, target)]
      ensures Now() == After(old(Now()), CancelOp(old(Now()).live, target)) && pregenQueue == []
    {
      hide Following, Faithful, After, Now, CancelOp, Planned;
      NothingQueued(pending);
      var op := CancelPlanned(target, pending);
      PutLast(op);
    }

    /** Puts an operation just carried out at the end of the plan. */
    method PutLast(op: PendingOp)
      requires Following() && pregenQueue == [] && Faithful(base, pending + [op], book.state)
      requires |book.state.free| + |pending| + 1 >= |base.free|
      modifies this`pending
      ensures Valid() && pending == old(pending) + [op] && Now() == old(Now())
    {
      Apart();
      hide Following, Faithful, Now, Planned;
      NothingQueued(pending + [op]);
      pending := pending + [op];
    }

    /**
     * Cancels a cluster of live orders on the dry-run book at once and queues the operations back to
     * front, so that draining the queue from its end plans them in the order they were run.
     */
    method EnqueueClusterPending(picks: seq<uint64>)
      requires Valid() && pregenQueue == []
      modifies this`pregenQueue, tracker, book.Repr()
      ensures Valid() && AllCancels(pregenQueue) && pending == old(pending) && idCounter == old(idCounter)
      ensures tracker.resting.Keys == old(tracker.resting.Keys) - Elements(picks)
      ensures var ops := ClusterOps(old(Now()).live, picks);
        pregenQueue == Reverse(ops) && Now() == AfterAll(old(Now()), ops)
    {
      hide Following, Faithful, AllCancels, Elements, After, AfterAll, ClusterOps, Now, Reverse;
      NothingQueued(pending);
      var clusterOps := CancelCluster(picks);
      QueueBackToFront(clusterOps);
    }

    method QueueBackToFront(ops: seq<PendingOp>)
      requires Following() && pregenQueue == [] && Faithful(base, pending + ops, book.state) && AllCancels(ops)
      requires |book.state.free| + |pending| >= |base.free|
      modifies this`pregenQueue
      ensures Valid() && AllCancels(pregenQueue) && unchanged(tracker)
      ensures pregenQueue == Reverse(ops) && Now() == old(Now())
    {
      Apart();
      hide Following, Faithful, Planned, Reverse, AllCancels;
      QueuedBackToFront(pending, ops);
      pregenQueue := pregenQueue + Reverse(ops);
      assert pregenQueue == Reverse(ops);
    }

    static lemma QueuedBackToFront(pending: seq<PendingOp>, ops: seq<PendingOp>)
      ensures Planned(pending, Reverse(ops)) == pending + ops
      ensures AllCancels(ops) ==> AllCancels(Reverse(ops))
    {
      ReverseTwice(ops);
    }

    /** Cancels the live ones among some picks after what was planned. */
    method CancelCluster(picks: seq<uint64>) returns (ops: seq<PendingOp>)
      requires Following() && Faithful(base, pending, book.state)
      modifies tracker, book.Repr()
      ensures Following() && Faithful(base, pending + ops, book.state) && AllCancels(ops)
      ensures |book.state.free| >= old(|book.state.free|)
      ensures tracker.resting.Keys == old(tracker.resting.Keys) - Elements(picks)
      ensures ops == ClusterOps(old(Now()).live, picks) && Now() == AfterAll(old(Now()), ops)
    {
      hide Following, Faithful, After, AfterAll, Now, CancelOp, ClusterOps, ClusterSoFar, Elements;
      ghost var before := Now();
      ops := [];
      assert pending + [] == pending;
      NothingAfter(before);
      ClusterStarts(before.live, picks);
      for i := 0 to |picks|
        invariant Following() && Faithful(base, pending + ops, book.state)
        invariant |book.state.free| >= old(|book.state.free|)
        invariant Now() == AfterAll(before, ops) && Within(Now().live, before.live)
        invariant ClusterSoFar(before.live, picks, i, ops, tracker.resting.Keys)
      {
        ClusterGoesOn(before.live, picks, i, ops, tracker.resting.Keys);
        var more := CancelPick(picks[i], ops, before);
        assert pending + ops + more == pending + (ops + more);
        ops := ops + more;
      }
      ClusterEnds(before.live, picks, ops, tracker.resting.Keys);
    }

    /** Cancels one pick if it is live, after some cancels that left part of the table of before. */
    method CancelPick(id: uint64, ghost ops: seq<PendingOp>, ghost before: Desk) returns (more: seq<PendingOp>)
      requires Following() && Faithful(base, pending + ops, book.state)
      requires Now() == AfterAll(before, ops) && Within(Now().live, before.live)
      modifies tracker, book.Repr()
      ensures Following() && Faithful(base, pending + ops + more, book.state)
      ensures more == if id in old(tracker.resting) then [CancelOp(before.live, id)] else []
      ensures |book.state.free| >= old(|book.state.free|)
      ensures tracker.resting.Keys == old(tracker.resting.Keys) - {id}
      ensures Now() == AfterAll(before, ops + more) && Within(Now().live, before.live)
    {
      hide Following, Faithful, After, AfterAll, Now;
      more := [];
      assert pending + ops + [] == pending + ops && ops + [] == ops;
      if id in tracker.resting {
        var op := CancelPlanned(id, pending + ops);
        AfterOneMore(before, ops, op);
        more := [op];
      }
    }

    /** One table has entries of another and no others. */
    static ghost predicate Within(t: Table, u: Table) {
      t.Keys <= u.Keys && forall id :: id in t ==> t[id] == u[id]
    }

    static lemma NothingAfter(d: Desk)
      ensures AfterAll(d, []) == d
    {}

    method PendingModify(picks: seq<uint64>, replacement: AddDraw, draw: AddDraw)
      requires Valid() && pregenQueue == [] && replacement.Fair() && draw.Fair()
      requires |pending| < |base.free| && idCounter < 0xFFFF_FFFF_FFFF_FFFF
      modifies this`pending, this`idCounter, tracker, book.Repr()
      ensures Valid() && idCounter <= old(idCounter) + 1 && Grows(old(pending), pending)
      ensures Last(pending) == if old(tracker.resting) == map[] then AddOp(old(Now()), draw)
        else ReplaceOp(old(Now()).live, Target(picks, old(tracker.resting.Keys)), replacement, old(idCounter))
      ensures Now() == After(old(Now()), Last(pending))
    {
      hide Target, Following, Faithful, After, AddOp, Now, ReplaceOp;
      if tracker.resting == map[] {
        PendingLimitAdd(draw);
      } else {
        PlanModify(picks, replacement);
      }
    }

    method PlanModify(picks: seq<uint64>, replacement: AddDraw)
      requires Valid() && pregenQueue == [] && tracker.resting != map[] && replacement.Fair() && idCounter < MAX_ID
      requires |pending| < |base.free|
      modifies this`pending, this`idCounter, tracker, book.Repr()
      ensures Valid() && idCounter <= old(idCounter) + 1 && Grows(old(pending), pending)
      ensures Last(pending) ==
        ReplaceOp(old(Now()).live, Target(picks, old(tracker.resting.Keys)), replacement, old(idCounter))
      ensures Now() == After(old(Now()), Last(pending))
    {
      hide Target, Following, Fits, Step, Faithful, After, Now, ReplaceOp;
      var target := SelectCancelTarget(picks);
      var op := ModifyLive(target, replacement);
      Record(op, old(book.state));
    }


    method PendingMarket(side: Side, qty: uint64, draw: AddDraw)
      requires Valid() && pregenQueue == [] && qty > 0 && draw.Fair()
      requires |pending| < |base.free| && idCounter < 0xFFFF_FFFF_FFFF_FFFF
      modifies this`pending, this`idCounter, tracker, book.Repr()
      ensures Valid() && idCounter <= old(idCounter) + 1 && Grows(old(pending), pending)
      ensures Last(pending) == if old(tracker.resting) == map[] then AddOp(old(Now()), draw)
        else Market(old(idCounter), side, qty)
      ensures Now() == After(old(Now()), Last(pending))
    {
      hide Following, Fits, Step, Faithful, After, AddOp, Now;
      if tracker.resting == map[] {
        PendingLimitAdd(draw);
        return;
      }
      var op := MarketLive(side, qty);
      Record(op, old(book.state));
    }

    /** Plans one operation: a queued one if there is any, else a new one by the roll of a die. */
    method GeneratePendingOne(d: Draw)
      requires Valid() && d.Fair()
      requires |pending| < |base.free| && idCounter < 0xFFFF_FFFF_FFFF_FFFF
      modifies this`pending, this`pregenQueue, this`idCounter, tracker, book.Repr()
      ensures Valid() && idCounter <= old(idCounter) + 1 && Grows(old(pending), pending)
      ensures Last(pending) == NextOp(old(Outlook()), d) && Outlook() == NextPlanning(old(Outlook()), d)
    {
      hide Following, Faithful, Rolled, PlanningAfter, Now;
      if pregenQueue != [] {
        HandOut();
      } else {
        PlanRolled(d);
      }
    }

    /** Plans a new operation of the kind rolled, and with a cancel its cluster. */
    method PlanRolled(d: Draw)
      requires Valid() && d.Fair() && pregenQueue == []
      requires |pending| < |base.free| && idCounter < 0xFFFF_FFFF_FFFF_FFFF
      modifies this`pending, this`pregenQueue, this`idCounter, tracker, book.Repr()
      ensures Valid() && idCounter <= old(idCounter) + 1 && Grows(old(pending), pending)
      ensures Last(pending) == Rolled(old(Now()), d)
      ensures Outlook() == PlanningAfter(old(Now()), Last(pending), d.cluster)
    {
      hide Target, Following, Fits, Step, Faithful, Now;
      hide After, AddOp, AfterAll, CancelOp, ReplaceOp, ClusterOps, Reverse;
      EmptyLive();
      if d.roll < 45 {
        PendingLimitAdd(d.add);
      } else if d.roll < 93 {
        PendingCancel(d.picks, d.cluster, d.add);
      } else if d.roll < 98 {
        PendingModify(d.picks, d.replacement, d.add);
      } else {
        PendingMarket(d.add.side, d.marketQty, d.add);
      }
    }

    /** Moves the last queued operation to the end of the plan. */
    method HandOut()
      requires Valid() && pregenQueue != []
      modifies this`pending, this`pregenQueue
      ensures Valid() && Now() == old(Now()) && Grows(old(pending), pending)
      ensures old(pregenQueue) == pregenQueue + [Last(pending)]
    {
      Apart();
      hide Following, Faithful, Now, Reverse, Planned;
      HandedOut(pending, pregenQueue);
      var n := |pregenQueue| - 1;
      pending := pending + [pregenQueue[n]];
      pregenQueue := pregenQueue[..n];
    }

    static lemma HandedOut(pending: seq<PendingOp>, queue: seq<PendingOp>)
      requires queue != []
      ensures Planned(pending + [queue[|queue| - 1]], queue[..|queue| - 1]) == Planned(pending, queue)
    {
      ReverseLast(queue);
    }

    lemma EmptyLive()
      requires Following()
      ensures Now().live == map[] <==> tracker.resting == map[]
    {
      assert Now().live == map[] <==> Now().live.Keys == {};
    }

    /** With the queued operations left out, the plan is faithful too. */
    lemma PlanIsFaithful() returns (last: Ledger)
      requires Valid()
      ensures Faithful(base, pending, last)
    {
      hide Faithful;
      last := FaithfulSplits(base, Planned(pending, pregenQueue), book.state, |pending|);
      assert Planned(pending, pregenQueue)[..|pending|] == pending;
    }

    /** Plans a batch: exactly the operations that the draws come to, all of them faithful to the base book. */
    method Plan(draws: seq<Draw>)
      requires Valid() && pending == [] && forall i :: 0 <= i < |draws| ==> draws[i].Fair()
      requires |draws| <= |base.free| && idCounter + |draws| <= MAX_ID
      modifies this`pending, this`pregenQueue, this`idCounter, tracker, book.Repr()
      ensures Valid() && |pending| == |draws|
      ensures pending == PlanOps(old(Outlook()), draws) && Outlook() == PlanEnd(old(Outlook()), draws)
    {
      hide Following, Now, Fits, Step, Faithful, PlanOps, PlanEnd, NextOp, NextPlanning, PlanSoFar;
      ghost var start := Outlook();
      PlanStarts(start, draws);
      for i := 0 to |draws|
        invariant Valid() && |pending| == i && idCounter <= old(idCounter) + i
        invariant PlanSoFar(start, draws, i, pending, Outlook())
      {
        PlanGoesOn(start, draws, i, pending, Outlook());
        ghost var planned := pending;
        GeneratePendingOne(draws[i]);
        assert pending == planned + [Last(pending)];
      }
      PlanEnds(start, draws, pending, Outlook());
    }
  }

  // ---------- the timed run ----------

  /** Carries out one planned operation, as the timed run does, and says whether it counts as a success. */
  method ExecutePending(book: OrderBook, op: PendingOp) returns (ok: bool)
    requires book.Valid() && Fits(book.state, op)
    modifies book.Repr()
    ensures book.Valid() && book.state == Step(old(book.state), CommandOf(op)).0 && ok
  {
    hide Sound, OrderBook.Valid, GoodBook, Sweep, RestAt, CanRest, Cancel, Denotes, Live;
    match op {
      case LimitAdd(oid, side, price, qty, scenario) =>
        var res := book.AddLimitOrder(oid, side, price, qty, oid);
        ok := res.code == Success;
      case CancelTarget(id, h) =>
        var code := book.CancelOrder(h);
        ok := code == Success;
      case ModifyTarget(id, h, side, price, qty, oid) =>
        var res := book.ModifyOrder(h, side, price, qty, oid);
        ok := res.code == Success;
      case Market(oid, side, qty) =>
        var res := book.AddMarketOrder(oid, side, qty, oid);
        ok := res.code == Success || res.code == MarketRemainderCancelled;
    }
  }

  /** A faithful plan succeeds operation by operation and ends in the book it was planned to end in. */
  method ExecuteAll(book: OrderBook, ops: seq<PendingOp>, ghost last: Ledger) returns (ok: nat)
    requires book.Valid() && Faithful(book.state, ops, last)
    modifies book.Repr()
    ensures book.Valid() && book.state == last && ok == |ops|
  {
    hide OrderBook.Valid, Fits, Step, Faithful;
    ok := 0;
    for i := 0 to |ops|
      invariant book.Valid() && Faithful(book.state, ops[i..], last) && ok == i
    {
      FaithfulUnfolds(book.state, ops[i..], last);
      assert ops[i..][0] == ops[i] && ops[i..][1..] == ops[i + 1..];
      var succeeded := ExecutePending(book, ops[i]);
      if succeeded {
        ok := ok + 1;
      }
    }
    FaithfulUnfolds(book.state, [], last);
  }

  /** What a batch of planned operations needs of the tracking tables and of the random choices. */
  ghost predicate Plannable(capacity: nat, resting: RestingMap, bidCounts: Counts, askCounts: Counts, idCounter: nat,
                            draws: seq<Draw>) {
    && Tradable(resting) && |resting| + |draws| <= capacity <= INVALID_HANDLE && |resting.Keys| == |resting|
    && Counted(resting, Buy, bidCounts) && Counted(resting, Sell, askCounts)
    && (forall id {:trigger id in resting} :: id in resting ==> id < idCounter)
    && idCounter + |draws| <= 0xFFFF_FFFF_FFFF_FFFF
    && (forall i {:trigger draws[i]} :: 0 <= i < |draws| ==> draws[i].Fair())
  }

  /** The rebuilt book, its tables and the next id: where planning a batch starts. */
  ghost predicate StartsFrom(start: Desk, capacity: nat, resting: RestingMap, idCounter: nat)
    requires |resting.Keys| <= capacity <= INVALID_HANDLE
  {
    && start.book == Rebuilt(Initial(capacity), resting, resting.Keys)
    && Mirrors(start.live, start.book) && start.nextId == idCounter
  }

  /** Plans a batch on a rebuilt book; operations still queued at the end are discarded. */
  method PlanBatch(capacity: nat, resting: RestingMap, bidCounts: Counts, askCounts: Counts, idCounter: nat,
                   draws: seq<Draw>)
    returns (pending: seq<PendingOp>, ghost last: Ledger, ghost start: Desk)
    requires Plannable(capacity, resting, bidCounts, askCounts, idCounter, draws)
    ensures |pending| == |draws| && StartsFrom(start, capacity, resting, idCounter)
    ensures pending == PlanOps(Planning(start, []), draws) && Faithful(start.book, pending, last)
  {
    hide Tradable, OrderBook.Valid, Mirrors, Faithful, Rebuilt, Planner.Following, Counted, PlanOps, PlanEnd;
    var dryRun, handles := BuildBook(capacity, resting);
    var planner := new Planner(dryRun, resting, handles, bidCounts, askCounts, idCounter);
    start := planner.Now();
    planner.Plan(draws);
    pending := planner.pending;
    last := planner.PlanIsFaithful();
  }

  /**
   * Plans a batch on one rebuilt book and replays it on another rebuilt from the same tables: the batch is the
   * one that the random choices come to, every operation of it succeeds, and the replay leaves its book.
   */
  method SetupAndReplay(capacity: nat, resting: RestingMap, bidCounts: Counts, askCounts: Counts, idCounter: nat,
                        draws: seq<Draw>)
    returns (book: OrderBook, pending: seq<PendingOp>, ok: nat, ghost start: Desk)
    requires Plannable(capacity, resting, bidCounts, askCounts, idCounter, draws)
    ensures ok == |pending| == |draws| && StartsFrom(start, capacity, resting, idCounter)
    ensures pending == PlanOps(Planning(start, []), draws)
    ensures book.Valid() && Faithful(start.book, pending, book.state)
  {
    hide Tradable, OrderBook.Valid, Mirrors, Faithful, Rebuilt, Counted, PlanOps;
    ghost var last;
    pending, last, start := PlanBatch(capacity, resting, bidCounts, askCounts, idCounter, draws);
    var handles;
    book, handles := BuildBook(capacity, resting);
    ok := ExecuteAll(book, pending, last);
  }

  /** The first id given out. */
  const FIRST_ID: nat := 1000000

  lemma EmptyTables(capacity: nat)
    requires capacity <= INVALID_HANDLE
    ensures Mirrors(Joined(map[], map[]), Initial(capacity)) && |Initial(capacity).free| == capacity
    ensures Counted(map[], Buy, map[]) && Counted(map[], Sell, map[])
  {
    var none: RestingMap, counts: Counts := map[], map[];
    forall side: Side, p
      ensures CountedAt(none, side, counts, p)
    {
      assert Ids(none, side, p) == {};
    }
    assert forall a, p, k: nat :: !HasAt(Initial(capacity), a, p, k);
  }

  /**
   * The tables of any warm-up on a book of the chosen size can be rebuilt, with a slot to spare for every
   * operation of the batch; the warm-up itself never lacks one.
   */
  lemma WarmUpIsTradable(batch: nat, cs: seq<Command>, resting: RestingMap, handles: map<uint64, HandleMeta>)
    requires ChosenPool(batch) <= INVALID_HANDLE && |cs| <= SEED_ADDS + WARMUP_EVENTS
    requires AskedRun(Initial(ChosenPool(batch)), cs) && resting.Keys == handles.Keys
    requires AllowedRun(Initial(ChosenPool(batch)), cs) ==>
      && FreshRun(map[], Initial(ChosenPool(batch)), cs)
      && Joined(resting, handles) == FollowRun(map[], Initial(ChosenPool(batch)), cs)
    ensures AllowedRun(Initial(ChosenPool(batch)), cs)
    ensures Tradable(resting) && |resting| + batch < ChosenPool(batch)
  {
    hide Mirrors, Sound, AskedRun, AllowedRun, FreshRun, FollowRun, Run, Tradable;
    var empty := Initial(ChosenPool(batch));
    ChosenPoolLasts(batch, cs);
    EmptyTables(ChosenPool(batch));
    InitialSound(ChosenPool(batch));
    assert Joined(map[], map[]) == map[];
    RunMirrors(map[], empty, cs, ChosenPool(batch));
    RunKeepsSound(empty, cs, ChosenPool(batch));
    MirrorIsTradable(resting, handles, Run(empty, cs), ChosenPool(batch));
    assert Joined(resting, handles).Keys == resting.Keys;
    assert |Joined(resting, handles).Keys| == |Joined(resting, handles)| && |resting.Keys| == |resting|;
  }

  /** The desk before anything happened. */
  ghost function EmptyDesk(capacity: nat): Desk
    requires capacity <= INVALID_HANDLE
  {
    Desk(Initial(capacity), map[], FIRST_ID)
  }

  /** Warms a book of some size up and keeps the tables: they are those the random choices come to. */
  method WarmUpTables(capacity: nat, seeds: seq<AddDraw>, events: seq<Draw>)
    returns (resting: RestingMap, bidCounts: Counts, askCounts: Counts, idCounter: nat,
             ghost handles: map<uint64, HandleMeta>)
    requires |seeds| + |events| <= capacity <= INVALID_HANDLE
    requires forall i :: 0 <= i < |seeds| ==> seeds[i].Fair()
    requires forall i :: 0 <= i < |events| ==> events[i].Fair()
    ensures Tradable(resting) && |resting.Keys| == |resting| <= |seeds| + |events|
    ensures Counted(resting, Buy, bidCounts) && Counted(resting, Sell, askCounts)
    ensures idCounter <= FIRST_ID + |seeds| + |events|
    ensures forall id {:trigger id in resting} :: id in resting ==> id < idCounter
    ensures var w := WarmedUp(EmptyDesk(capacity), seeds, events);
      && resting.Keys == handles.Keys && Joined(resting, handles) == w.desk.live && idCounter == w.desk.nextId
  {
    hide OrderBook.Valid, Mirrors, Counted, Tradable, Planner.Following, Faithful, WarmedUp, WarmUpOps, Joined;
    hide Planner.Now;
    EmptyTables(capacity);
    var book := new OrderBook(capacity);
    var live := new Planner(book, map[], map[], map[], map[], FIRST_ID);
    assert live.Now() == EmptyDesk(capacity) by { NothingJoined(); }
    ghost var ops := live.WarmUp(seeds, events);
    live.TablesAreTradable();
    resting, handles := live.tracker.resting, live.tracker.handles;
    bidCounts, askCounts, idCounter := live.tracker.bidCounts, live.tracker.askCounts, live.idCounter;
  }

  lemma NothingJoined()
    ensures Joined(map[], map[]) == map[]
  {}

  /**
   * The whole set-up and the timed run, from an empty book of the chosen size. The tables are those the
   * warm-up's random choices come to, the batch is the one its own come to on the book rebuilt from them;
   * neither runs out of slots, and every operation of the batch succeeds.
   */
  method WarmUpAndReplay(seeds: seq<AddDraw>, events: seq<Draw>, draws: seq<Draw>)
    returns (book: OrderBook, pending: seq<PendingOp>, ok: nat,
             ghost resting: RestingMap, ghost handles: map<uint64, HandleMeta>, ghost start: Desk)
    requires |seeds| <= SEED_ADDS && |events| <= WARMUP_EVENTS && ChosenPool(|draws|) <= INVALID_HANDLE
    requires forall i :: 0 <= i < |seeds| ==> seeds[i].Fair()
    requires forall i :: 0 <= i < |events| ==> events[i].Fair()
    requires forall i :: 0 <= i < |draws| ==> draws[i].Fair()
    ensures resting.Keys == handles.Keys && |resting.Keys| <= ChosenPool(|draws|)
    ensures var w := WarmedUp(EmptyDesk(ChosenPool(|draws|)), seeds, events);
      && Joined(resting, handles) == w.desk.live
      && StartsFrom(start, ChosenPool(|draws|), resting, w.desk.nextId)
    ensures pending == PlanOps(Planning(start, []), draws) && ok == |pending| == |draws|
    ensures book.Valid() && Faithful(start.book, pending, book.state)
  {
    hide OrderBook.Valid, Counted, Tradable, Faithful, StartsFrom, Joined, PlanOps, WarmedUp;
    var capacity := ChosenPool(|draws|);
    var tables, bidCounts, askCounts, idCounter;
    tables, bidCounts, askCounts, idCounter, handles := WarmUpTables(capacity, seeds, events);
    resting := tables;
    book, pending, ok, start := SetupAndReplay(capacity, tables, bidCounts, askCounts, idCounter, draws);
  }
}
