/** Whole runs: any sequence of operations whose callers keep to the rules, from the empty book. */
module Runs {
  import opened LedgerInvariants
  import opened Ledgers
  import opened Types

  datatype Command =
    | LimitOrder(id: uint64, side: Side, price: int64, quantity: uint64, timestamp: uint64)
    | MarketOrder(id: uint64, side: Side, quantity: uint64)
    | CancelOrder(handle: OrderHandle)
    | ModifyOrder(handle: OrderHandle, side: Side, price: int64, quantity: uint64, timestamp: uint64)

  /** What the engine asks of its caller: handles are live, and an order that rests has room. */
  ghost predicate Allowed(l: Ledger, c: Command) {
    GoodBook(l) &&
    match c
    case LimitOrder(id, side, price, quantity, timestamp) => CanRest(l, id, side, price, quantity)
    case MarketOrder(id, side, quantity) => true
    case CancelOrder(h) => Live(l, h)
    case ModifyOrder(h, side, price, quantity, timestamp) => CanModify(l, h, side, price, quantity)
  }

  ghost function Step(l: Ledger, c: Command): (Ledger, AddResult)
    requires Allowed(l, c)
  {
    match c
    case LimitOrder(id, side, price, quantity, timestamp) => AddLimit(l, id, side, price, quantity, timestamp)
    case MarketOrder(id, side, quantity) => AddMarket(l, id, side, quantity)
    case CancelOrder(h) => (Cancel(l, h), BLANK_RESULT)
    case ModifyOrder(h, side, price, quantity, timestamp) => Modify(l, h, side, price, quantity, timestamp)
  }

  ghost predicate AllowedRun(l: Ledger, cs: seq<Command>)
    decreases |cs|
  {
    cs == [] || (Allowed(l, cs[0]) && AllowedRun(Step(l, cs[0]).0, cs[1..]))
  }

  ghost function Run(l: Ledger, cs: seq<Command>): Ledger
    requires AllowedRun(l, cs)
    decreases |cs|
  {
    if cs == [] then l else Run(Step(l, cs[0]).0, cs[1..])
  }

  /** What the caller is told along a run, one result a command. */
  ghost function Results(l: Ledger, cs: seq<Command>): seq<AddResult>
    requires AllowedRun(l, cs)
    decreases |cs|
  {
    if cs == [] then [] else [Step(l, cs[0]).1] + Results(Step(l, cs[0]).0, cs[1..])
  }

  // ---------- runs whose callers do not look at the pool ----------

  /** Whatever rests of an order is at a price the book has. */
  ghost predicate InBand(l: Ledger, id: uint64, side: Side, price: int64, quantity: uint64)
    requires GoodBook(l)
  {
    Sweep(l, Opposite(side), Some(price), id, quantity).remaining > 0 ==> 0 <= price < PRICE_COUNT
  }

  /** All that a caller who does not look at the pool answers for: live handles and prices in range. */
  ghost predicate Asked(l: Ledger, c: Command) {
    GoodBook(l) &&
    match c
    case LimitOrder(id, side, price, quantity, timestamp) => InBand(l, id, side, price, quantity)
    case MarketOrder(id, side, quantity) => true
    case CancelOrder(h) => Live(l, h)
    case ModifyOrder(h, side, price, quantity, timestamp) =>
      Live(l, h) && GoodBook(Cancel(l, h)) && InBand(Cancel(l, h), Denotes(l, h).id, side, price, quantity)
  }

  /** A run of which that is known, as far as the pool lets it go on. */
  ghost predicate AskedRun(l: Ledger, cs: seq<Command>)
    decreases |cs|
  {
    cs == [] || (Asked(l, cs[0]) && (Allowed(l, cs[0]) ==> AskedRun(Step(l, cs[0]).0, cs[1..])))
  }

  lemma StepKeepsSound(l: Ledger, c: Command, cap: nat)
    requires Sound(l, cap) && Allowed(l, c)
    ensures Sound(Step(l, c).0, cap)
  {
    match c
    case LimitOrder(id, side, price, quantity, timestamp) =>
      AddLimitKeeps(l, id, side, price, quantity, timestamp, cap);
    case MarketOrder(id, side, quantity) => AddMarketKeeps(l, id, side, quantity, cap);
    case CancelOrder(h) => CancelKeeps(l, h, cap);
    case ModifyOrder(h, side, price, quantity, timestamp) => ModifyKeeps(l, h, side, price, quantity, timestamp, cap);
  }

  lemma {:induction false} RunKeepsSound(l: Ledger, cs: seq<Command>, cap: nat)
    requires Sound(l, cap) && AllowedRun(l, cs)
    ensures Sound(Run(l, cs), cap)
    decreases |cs|
  {
    if cs != [] {
      StepKeepsSound(l, cs[0], cap);
      RunKeepsSound(Step(l, cs[0]).0, cs[1..], cap);
    }
  }

  /**
   * In every reachable state each pool slot is in exactly one place, every order is positive and
   * sits at its own price in range, and no bid meets an ask.
   */
  lemma ReachableIsSound(cs: seq<Command>, cap: nat)
    requires cap <= INVALID_HANDLE && AllowedRun(Initial(cap), cs)
    ensures Sound(Run(Initial(cap), cs), cap)
  {
    InitialSound(cap);
    RunKeepsSound(Initial(cap), cs, cap);
  }
}
