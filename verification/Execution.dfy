/** Running commands on the engine itself: whole runs of the pointer structure are runs of the ledger. */
module Execution {
  import opened LedgerInvariants
  import opened Ledgers
  import opened OrderBooks
  import opened Runs
  import opened Types

  /** Carries out one allowed command. */
  method Execute(book: OrderBook, c: Command) returns (result: AddResult)
    requires book.Valid() && Allowed(book.state, c)
    modifies book.Repr()
    ensures book.Valid() && (book.state, result) == Step(old(book.state), c)
  {
    hide Sound, OrderBook.Valid, GoodBook, Sweep, AddLimit, AddMarket, Modify, Cancel, CanRest, CanModify, Live;
    result := BLANK_RESULT;
    match c {
      case LimitOrder(id, side, price, quantity, timestamp) =>
        result := book.AddLimitOrder(id, side, price, quantity, timestamp);
      case MarketOrder(id, side, quantity) =>
        result := book.AddMarketOrder(id, side, quantity, 0);
      case CancelOrder(h) =>
        var _ := book.CancelOrder(h);
      case ModifyOrder(h, side, price, quantity, timestamp) =>
        result := book.ModifyOrder(h, side, price, quantity, timestamp);
    }
  }

  /** Carries out a run: the engine ends in the state the ledger's run ends in, and reports the same on the way. */
  method ExecuteRun(book: OrderBook, cs: seq<Command>) returns (results: seq<AddResult>)
    requires book.Valid() && AllowedRun(book.state, cs)
    modifies book.Repr()
    ensures book.Valid() && book.state == Run(old(book.state), cs)
    ensures results == Results(old(book.state), cs)
  {
    hide OrderBook.Valid, AllowedRun, Run, Results, Allowed, Step;
    results := [];
    assert cs[0..] == cs;
    for i := 0 to |cs|
      invariant book.Valid() && AllowedRun(book.state, cs[i..])
      invariant Run(book.state, cs[i..]) == Run(old(book.state), cs)
      invariant results + Results(book.state, cs[i..]) == Results(old(book.state), cs)
    {
      RunUnfolds(book.state, cs[i..]);
      assert cs[i..][0] == cs[i] && cs[i..][1..] == cs[i + 1..];
      var result := Execute(book, cs[i]);
      results := results + [result];
    }
    assert cs[|cs|..] == [];
    RunUnfolds(book.state, []);
  }

  lemma RunUnfolds(l: Ledger, cs: seq<Command>)
    requires AllowedRun(l, cs)
    ensures cs == [] ==> Run(l, cs) == l && Results(l, cs) == []
    ensures cs != [] ==> Allowed(l, cs[0]) && AllowedRun(Step(l, cs[0]).0, cs[1..])
    ensures cs != [] ==> Run(l, cs) == Run(Step(l, cs[0]).0, cs[1..])
    ensures cs != [] ==> Results(l, cs) == [Step(l, cs[0]).1] + Results(Step(l, cs[0]).0, cs[1..])
  {}

  /** From a fresh engine: the final pointer structure is sound, every slot of its pool in one place. */
  method RunFromEmpty(capacity: nat, cs: seq<Command>) returns (book: OrderBook, results: seq<AddResult>)
    requires capacity <= INVALID_HANDLE && AllowedRun(Initial(capacity), cs)
    ensures fresh(book.Repr()) && book.Valid() && |book.pool.slots| == capacity
    ensures book.state == Run(Initial(capacity), cs) && Sound(book.state, capacity)
    ensures results == Results(Initial(capacity), cs)
  {
    hide OrderBook.Valid, AllowedRun, Run, Results, Sound;
    book := new OrderBook(capacity);
    results := ExecuteRun(book, cs);
    ReachableIsSound(cs, capacity);
  }
}
