/**
 * Plans of the replay benchmark: pre-generated operations that name their orders by pool slot, and
 * what makes a plan faithful to the book it starts from.
 */
module Plans {
  import opened Handles
  import opened LedgerInvariants
  import opened Ledgers
  import opened Runs
  import opened Tracking
  import opened Types

  datatype Scenario = AddRestExistingLevel | AddRestNewLevel | Unmeasured

  datatype PendingOp =
    | LimitAdd(oid: uint64, side: Side, price: int64, qty: uint64, scenario: Scenario)
    | CancelTarget(targetId: uint64, targetHandle: OrderHandle)
    | ModifyTarget(targetId: uint64, targetHandle: OrderHandle, side: Side, price: int64, qty: uint64, oid: uint64)
    | Market(oid: uint64, side: Side, qty: uint64)

  function CommandOf(op: PendingOp): Command {
    match op
    case LimitAdd(oid, side, price, qty, scenario) => LimitOrder(oid, side, price, qty, oid)
    case CancelTarget(id, h) => CancelOrder(h)
    case ModifyTarget(id, h, side, price, qty, oid) => ModifyOrder(h, side, price, qty, oid)
    case Market(oid, side, qty) => MarketOrder(oid, side, qty)
  }

  /** What a limit order does, seen from the book before it: rest untouched on a price in use, or on a new one. */
  ghost function TagOf(l: Ledger, c: Command): Scenario
    requires c.LimitOrder? && Allowed(l, c)
  {
    var r := Step(l, c).1;
    if r.trades != [] || r.remaining == 0 then Unmeasured
    else if c.price in l.Side(!Opposite(c.side)) then AddRestExistingLevel
    else AddRestNewLevel
  }

  ghost predicate Tagged(l: Ledger, op: PendingOp)
    requires op.LimitAdd? && Allowed(l, CommandOf(op))
  {
    op.scenario == TagOf(l, CommandOf(op))
  }

  /** The operation can be carried out in l, on the very order it was planned for, and will count as a success. */
  ghost predicate Fits(l: Ledger, op: PendingOp) {
    && Allowed(l, CommandOf(op))
    && match op
       case LimitAdd(oid, side, price, qty, scenario) => qty > 0 && Tagged(l, op)
       case CancelTarget(id, h) => Denotes(l, h).id == id
       case ModifyTarget(id, h, side, price, qty, oid) => Denotes(l, h).id == id && qty > 0
       case Market(oid, side, qty) => qty > 0
  }

  /** From book l, every operation fits when its turn comes, and the last one leads to book last. */
  ghost predicate Faithful(l: Ledger, ops: seq<PendingOp>, last: Ledger)
    decreases |ops|
  {
    if ops == [] then l == last
    else Fits(l, ops[0]) && Faithful(Step(l, CommandOf(ops[0])).0, ops[1..], last)
  }

  lemma FaithfulUnfolds(l: Ledger, ops: seq<PendingOp>, last: Ledger)
    requires Faithful(l, ops, last)
    ensures ops == [] ==> l == last
    ensures ops != [] ==> Fits(l, ops[0]) && Allowed(l, CommandOf(ops[0]))
    ensures ops != [] ==> Faithful(Step(l, CommandOf(ops[0])).0, ops[1..], last)
  {}

  lemma NothingFaithful(l: Ledger)
    ensures Faithful(l, [], l)
  {}

  lemma FaithfulFrom(l: Ledger, op: PendingOp, ops: seq<PendingOp>, last: Ledger)
    requires Fits(l, op) && Faithful(Step(l, CommandOf(op)).0, ops, last)
    ensures Faithful(l, [op] + ops, last)
  {
    assert ([op] + ops)[1..] == ops;
  }

  lemma FaithfulExtends(l: Ledger, ops: seq<PendingOp>, last: Ledger, op: PendingOp)
    requires Faithful(l, ops, last) && Fits(last, op)
    ensures Allowed(last, CommandOf(op)) && Faithful(l, ops + [op], Step(last, CommandOf(op)).0)
  {
    FitsIsAllowed(last, op);
    hide Faithful, Fits, Step, Allowed, CommandOf;
    var after := Step(last, CommandOf(op)).0;
    NothingFaithful(after);
    FaithfulFrom(last, op, [], after);
    assert [op] + [] == [op];
    FaithfulJoins(l, ops, last, [op], after);
  }

  lemma FitsIsAllowed(l: Ledger, op: PendingOp)
    requires Fits(l, op)
    ensures Allowed(l, CommandOf(op))
  {}

  /** A plan cut short is still faithful. */
  lemma {:induction false} FaithfulSplits(l: Ledger, ops: seq<PendingOp>, last: Ledger, k: nat) returns (middle: Ledger)
    requires Faithful(l, ops, last) && k <= |ops|
    ensures Faithful(l, ops[..k], middle) && Faithful(middle, ops[k..], last)
    decreases |ops|
  {
    hide Faithful, Fits, Step, Allowed, CommandOf;
    if k == 0 {
      middle := l;
      NothingFaithful(l);
      assert ops[..k] == [] && ops[k..] == ops;
    } else {
      FaithfulUnfolds(l, ops, last);
      middle := FaithfulSplits(Step(l, CommandOf(ops[0])).0, ops[1..], last, k - 1);
      FaithfulFrom(l, ops[0], ops[1..][..k - 1], middle);
      assert ops[..k] == [ops[0]] + ops[1..][..k - 1] && ops[k..] == ops[1..][k - 1..];
    }
  }

  lemma {:induction false} FaithfulJoins(l: Ledger, ops: seq<PendingOp>, middle: Ledger, more: seq<PendingOp>,
                                         last: Ledger)
    requires Faithful(l, ops, middle) && Faithful(middle, more, last)
    ensures Faithful(l, ops + more, last)
    decreases |ops|
  {
    hide Faithful, Fits, Step, Allowed, CommandOf;
    FaithfulUnfolds(l, ops, middle);
    if ops == [] {
      assert ops + more == more;
    } else {
      FaithfulJoins(Step(l, CommandOf(ops[0])).0, ops[1..], middle, more, last);
      FaithfulFrom(l, ops[0], ops[1..] + more, last);
      assert ops + more == [ops[0]] + (ops[1..] + more);
    }
  }

  // ---------- pool slots ----------

  lemma {:induction false} SweepFreesSlots(l: Ledger, isAsk: bool, limit: Option<int>, taker: uint64, quantity: uint64)
    requires Good(l.Side(isAsk))
    ensures |Sweep(l, isAsk, limit, taker, quantity).after.free| >= |l.free|
    decreases quantity
  {
    hide Good, Sweep, Stops, Best;
    if Stops(l, isAsk, limit, quantity) {
      SweepAtStop(l, isAsk, limit, taker, quantity);
    } else {
      SweepUnfold(l, isAsk, limit, taker, quantity);
      var p := Best(isAsk, l.Side(isAsk));
      var fill := Min(quantity, l.Side(isAsk)[p][0].quantity);
      SweepFreesSlots(FillAt(l, isAsk, p, fill), isAsk, limit, taker, quantity - fill);
    }
  }

  /** The slots an operation can take from the pool: only a limit order can end up with one more than it freed. */
  function Takes(c: Command): nat {
    if c.LimitOrder? then 1 else 0
  }

  lemma StepTakesOneSlot(l: Ledger, c: Command)
    requires Allowed(l, c)
    ensures |Step(l, c).0.free| >= |l.free| - Takes(c)
    ensures c.CancelOrder? ==> |Step(l, c).0.free| > |l.free|
  {
    hide Sweep, Good;
    match c
    case LimitOrder(id, side, price, quantity, timestamp) =>
      SweepFreesSlots(l, Opposite(side), Some(price), id, quantity);
    case MarketOrder(id, side, quantity) =>
      SweepFreesSlots(l, Opposite(side), None, id, quantity);
    case CancelOrder(h) =>
      CancelFreesSlot(l, h);
    case ModifyOrder(h, side, price, quantity, timestamp) =>
      CancelFreesSlot(l, h);
      SweepFreesSlots(Cancel(l, h), Opposite(side), Some(price), Denotes(l, h).id, quantity);
  }

  lemma CancelFreesSlot(l: Ledger, h: OrderHandle)
    requires Live(l, h)
    ensures |Cancel(l, h).free| == |l.free| + 1
  {
    var isAsk: bool, p: int, k: nat :| LiveAt(l, isAsk, p, k, h) && Cancel(l, h) == RemoveAt(l, isAsk, p, k);
  }

  function LimitOrders(cs: seq<Command>): (n: nat)
    ensures n <= |cs|
  {
    if cs == [] then 0 else Takes(cs[0]) + LimitOrders(cs[1..])
  }

  /** So a run takes at most one slot a limit order. */
  lemma {:induction false} RunTakesOneSlotEach(l: Ledger, cs: seq<Command>)
    requires AllowedRun(l, cs)
    ensures |Run(l, cs).free| >= |l.free| - LimitOrders(cs)
    decreases |cs|
  {
    hide Step, Allowed;
    if cs != [] {
      StepTakesOneSlot(l, cs[0]);
      RunTakesOneSlotEach(Step(l, cs[0]).0, cs[1..]);
    }
  }

  /** A slot is all that a limit order can lack, and no other operation lacks any. */
  lemma AskedIsAllowed(l: Ledger, c: Command, cap: nat)
    requires Sound(l, cap) && Asked(l, c) && Takes(c) <= |l.free|
    ensures Allowed(l, c)
  {
    hide Sweep, Good, Cancel, Denotes, Live;
    match c
    case LimitOrder(id, side, price, quantity, timestamp) =>
      SweepFreesSlots(l, Opposite(side), Some(price), id, quantity);
    case MarketOrder(id, side, quantity) =>
    case CancelOrder(h) =>
    case ModifyOrder(h, side, price, quantity, timestamp) =>
      ModifyNeedsNoSlot(l, h, side, price, quantity, timestamp, cap);
  }

  /**
   * A pool with a free slot for every limit order to come is never exhausted: each operation of the run can
   * be carried out, if only its handles are live and its prices in range when its turn comes.
   */
  lemma {:induction false} PoolLasts(l: Ledger, cs: seq<Command>, cap: nat)
    requires Sound(l, cap) && AskedRun(l, cs) && LimitOrders(cs) <= |l.free|
    ensures AllowedRun(l, cs)
    decreases |cs|
  {
    hide Sound, Asked, Allowed, Step;
    if cs != [] {
      AskedIsAllowed(l, cs[0], cap);
      StepTakesOneSlot(l, cs[0]);
      StepKeepsSound(l, cs[0], cap);
      PoolLasts(Step(l, cs[0]).0, cs[1..], cap);
    }
  }

  lemma FollowAddsOne(t: Table, l: Ledger, c: Command)
    requires Allowed(l, c)
    ensures |Follow(t, l, c)| <= |t| + 1
  {
    hide Step, Denotes, Sweep;
    var r := Step(l, c).1;
    ApplyShrinks(t, r.trades);
    if c.ModifyOrder? || c.CancelOrder? {
      ApplyShrinks(t - {Denotes(l, c.handle).id}, r.trades);
    }
  }

  lemma {:induction false} ApplyShrinks(t: Table, trades: seq<Trade>)
    ensures |ApplyTrades(t, trades)| <= |t|
  {
    if trades != [] {
      ApplyShrinks(ApplyTrade(t, trades[0]), trades[1..]);
    }
  }

  lemma {:induction false} TableGrowsByOneEach(t: Table, l: Ledger, cs: seq<Command>)
    requires AllowedRun(l, cs)
    ensures |FollowRun(t, l, cs)| <= |t| + |cs|
    decreases |cs|
  {
    hide Step, Allowed, Follow;
    if cs != [] {
      FollowAddsOne(t, l, cs[0]);
      TableGrowsByOneEach(Follow(t, l, cs[0]), Step(l, cs[0]).0, cs[1..]);
    }
  }

  const SEED_ADDS: nat := 5000
  const WARMUP_EVENTS: nat := 500000

  /** The pool size chosen for a batch. */
  function ChosenPool(batch: nat): nat {
    WARMUP_EVENTS + batch + 50000
  }

  /**
   * The chosen pool lasts: the warm-up never runs out of slots, more than the batch needs are left after it,
   * and the table it ends with leaves the rebuilt book a slot for every operation of the batch.
   */
  lemma ChosenPoolLasts(batch: nat, cs: seq<Command>)
    requires ChosenPool(batch) <= INVALID_HANDLE && |cs| <= SEED_ADDS + WARMUP_EVENTS
    requires AskedRun(Initial(ChosenPool(batch)), cs)
    ensures AllowedRun(Initial(ChosenPool(batch)), cs)
    ensures |Run(Initial(ChosenPool(batch)), cs).free| > batch
    ensures |FollowRun(map[], Initial(ChosenPool(batch)), cs)| + batch < ChosenPool(batch)
  {
    hide AskedRun, AllowedRun, Run, FollowRun, Sound;
    InitialSound(ChosenPool(batch));
    PoolLasts(Initial(ChosenPool(batch)), cs, ChosenPool(batch));
    RunTakesOneSlotEach(Initial(ChosenPool(batch)), cs);
    TableGrowsByOneEach(map[], Initial(ChosenPool(batch)), cs);
  }
}
