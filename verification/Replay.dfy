/** The differential harness: engine and naive book side by side, for every stream of requests. */
module Replay {
  import opened Handles
  import opened LedgerInvariants
  import opened Ledgers
  import opened OrderBooks
  import opened Reference
  import opened Refinement
  import opened Runs
  import opened Tracking
  import opened Types

  /** A request names its order by id; the harness knows the handle. */
  datatype Request =
    | AddLimit(id: uint64, side: Side, price: int64, quantity: uint64, timestamp: uint64)
    | AddMarket(id: uint64, side: Side, quantity: uint64, timestamp: uint64)
    | Drop(id: uint64)
    | Change(id: uint64, side: Side, price: int64, quantity: uint64, timestamp: uint64)

  function RequestCommand(live: Table, r: Request): Command
    requires r.Drop? || r.Change? ==> r.id in live
  {
    match r
    case AddLimit(id, side, price, quantity, timestamp) => Command.LimitOrder(id, side, price, quantity, timestamp)
    case AddMarket(id, side, quantity, timestamp) => Command.MarketOrder(id, side, quantity)
    case Drop(id) => Command.CancelOrder(live[id].handle)
    case Change(id, side, price, quantity, timestamp) =>
      Command.ModifyOrder(live[id].handle, side, price, quantity, timestamp)
  }

  /** New limit orders have fresh ids, dropped and changed orders are live, and what rests has room. */
  ghost predicate Fitting(live: Table, l: Ledger, r: Request) {
    && (r.AddLimit? ==> r.id !in live)
    && (r.Drop? || r.Change? ==> r.id in live)
    && Allowed(l, RequestCommand(live, r))
  }

  ghost predicate AllFitting(live: Table, l: Ledger, rs: seq<Request>)
    decreases |rs|
  {
    rs == [] ||
    (Fitting(live, l, rs[0]) &&
     var c := RequestCommand(live, rs[0]); AllFitting(Follow(live, l, c), Step(l, c).0, rs[1..]))
  }

  /** The commands that a stream of requests comes to, handles looked up as the table follows along. */
  ghost function Commands(live: Table, l: Ledger, rs: seq<Request>): (cs: seq<Command>)
    requires AllFitting(live, l, rs)
    ensures AllowedRun(l, cs)
    decreases |rs|
  {
    if rs == [] then []
    else
      var c := RequestCommand(live, rs[0]);
      var cs := Commands(Follow(live, l, c), Step(l, c).0, rs[1..]);
      assert ([c] + cs)[1..] == cs;
      [c] + cs
  }

  /** One request as the naive book answers it; dropping an order reports nothing. */
  ghost predicate Naively(b: RefBook, r: Request, b': RefBook, e: AddResult) {
    b.Good() &&
    match r
    case AddLimit(id, side, price, quantity, timestamp) => (b', e) == RefLimit(b, id, side, price, quantity)
    case AddMarket(id, side, quantity, timestamp) => (b', e) == RefMarket(b, id, side, quantity)
    case Drop(id) => RefCancelled(b, id, b') && e == BLANK_RESULT
    case Change(id, side, price, quantity, timestamp) =>
      exists m: RefBook :: RefCancelled(b, id, m) && m.Good() && (b', e) == RefLimit(m, id, side, price, quantity)
  }

  /** The naive book goes through the given states while it answers the requests one by one. */
  ghost predicate NaiveRun(books: seq<RefBook>, rs: seq<Request>, es: seq<AddResult>) {
    && |books| == |rs| + 1 && |es| == |rs|
    && forall i {:trigger rs[i]} :: 0 <= i < |rs| ==> Naively(books[i], rs[i], books[i + 1], es[i])
  }

  class ResultHarness {
    const actual: OrderBook
    const expected: ReferenceOrderBook
    var live: Table

    ghost predicate Valid()
      reads this, expected, actual.Repr()
    {
      && expected !in actual.Repr() && this !in actual.Repr()
      && actual.Valid() && |actual.pool.slots| <= INVALID_HANDLE
      && expected.Valid() && expected.Book() == ForgetBook(actual.state)
      && Mirrors(live, actual.state)
    }

    constructor (capacity: nat)
      requires capacity <= INVALID_HANDLE
      ensures Valid() && actual.state == Initial(capacity) && live == map[]
      ensures expected.Book() == RefBook(map[], map[])
      ensures fresh(expected) && fresh(actual.Repr())
    {
      hide Mirrors, Sound, OrderBook.Valid, ForgetBook;
      expected := new ReferenceOrderBook();
      actual := new OrderBook(capacity);
      live := map[];
      new;
      EmptyAgrees(capacity);
    }

    static lemma EmptyAgrees(capacity: nat)
      requires capacity <= INVALID_HANDLE
      ensures Mirrors(map[], Initial(capacity)) && ForgetBook(Initial(capacity)) == RefBook(map[], map[])
    {}

    /** Takes fully filled makers off the table; every maker is on it with enough quantity. */
    method ApplyFills(trades: seq<Trade>)
      requires Known(live, trades)
      modifies this
      ensures live == ApplyTrades(old(live), trades)
    {
      for i := 0 to |trades|
        invariant Known(live, trades[i..])
        invariant ApplyTrades(live, trades[i..]) == ApplyTrades(old(live), trades)
      {
        var trade := trades[i];
        assert trades[i..][0] == trade && trades[i..][1..] == trades[i + 1..];
        var left := live[trade.makerId].quantity - trade.quantity;
        if left == 0 {
          live := live - {trade.makerId};
        } else {
          live := live[trade.makerId := live[trade.makerId].(quantity := left)];
        }
      }
    }

    method AddLimitOrder(id: uint64, side: Side, price: int64, quantity: uint64, timestamp: uint64)
      returns (a: AddResult, e: AddResult)
      requires Valid() && Fitting(live, actual.state, AddLimit(id, side, price, quantity, timestamp))
      modifies this, expected, actual.Repr()
      ensures Valid() && SameResult(a, e)
      ensures Naively(old(expected.Book()), AddLimit(id, side, price, quantity, timestamp), expected.Book(), e)
      ensures var c := Command.LimitOrder(id, side, price, quantity, timestamp);
        && (actual.state, a) == Step(old(actual.state), c)
        && live == Follow(old(live), old(actual.state), c)
    {
      hide Mirrors, Sound, OrderBook.Valid, Ledgers.AddLimit, RefLimit, ForgetBook, ApplyTrades, Known, CanRest;
      SoundState();
      LimitAgrees(actual.state, id, side, price, quantity, timestamp, |actual.pool.slots|);
      FollowMirrors(live, actual.state, Command.LimitOrder(id, side, price, quantity, timestamp), |actual.pool.slots|);
      e := expected.AddLimitOrder(id, side, price, quantity, timestamp);
      a := actual.AddLimitOrder(id, side, price, quantity, timestamp);
      ApplyFills(a.trades);
      if a.code.Success? && a.remaining > 0 {
        live := live[id := Entry(!Opposite(side), price, a.remaining, a.handle)];
      }
    }

    method AddMarketOrder(id: uint64, side: Side, quantity: uint64, timestamp: uint64)
      returns (a: AddResult, e: AddResult)
      requires Valid()
      modifies this, expected, actual.Repr()
      ensures Valid() && SameResult(a, e) && old(GoodBook(actual.state))
      ensures Naively(old(expected.Book()), AddMarket(id, side, quantity, timestamp), expected.Book(), e)
      ensures var c := Command.MarketOrder(id, side, quantity);
        && (actual.state, a) == Step(old(actual.state), c)
        && live == Follow(old(live), old(actual.state), c)
    {
      hide Mirrors, Sound, OrderBook.Valid, Ledgers.AddMarket, RefMarket, ForgetBook, GoodBook, ApplyTrades, Known;
      SoundState();
      MarketAgrees(actual.state, id, side, quantity);
      FollowMirrors(live, actual.state, Command.MarketOrder(id, side, quantity), |actual.pool.slots|);
      e := expected.AddMarketOrder(id, side, quantity, timestamp);
      a := actual.AddMarketOrder(id, side, quantity, timestamp);
      ApplyFills(a.trades);
    }

    method Cancel(id: uint64)
      requires Valid() && id in live
      modifies this, expected, actual.Repr()
      ensures Valid() && old(Fitting(live, actual.state, Drop(id)))
      ensures Naively(old(expected.Book()), Drop(id), expected.Book(), BLANK_RESULT)
      ensures var c := Command.CancelOrder(old(live)[id].handle);
        && (actual.state, BLANK_RESULT) == Step(old(actual.state), c)
        && live == Follow(old(live), old(actual.state), c)
    {
      hide Mirrors, Sound, OrderBook.Valid, Ledgers.Cancel, ForgetBook, UniquePlaces, Denotes, Naively;
      hide ReferenceOrderBook.Valid, ApplyTrades, Known, Nowhere;
      LiveDenotes(id);
      var h := live[id].handle;
      FollowMirrors(live, actual.state, Command.CancelOrder(h), |actual.pool.slots|);
      CancelBoth(h, id);
      live := live - {id};
    }

    /** Cancels the same order in both books, by handle and by id. */
    method CancelBoth(h: OrderHandle, id: uint64)
      requires Valid() && Live(actual.state, h) && Denotes(actual.state, h).id == id && UniquePlaces(actual.state)
      modifies expected, actual.Repr()
      ensures actual.Valid() && expected.Valid() && expected.Book() == ForgetBook(actual.state)
      ensures Naively(old(expected.Book()), Drop(id), expected.Book(), BLANK_RESULT)
      ensures actual.state == Ledgers.Cancel(old(actual.state), h)
    {
      hide Mirrors, Sound, OrderBook.Valid, Ledgers.Cancel, ForgetBook, RefCancelled, UniquePlaces, Denotes;
      hide ReferenceOrderBook.Valid, Nowhere;
      SoundState();
      var _ := actual.CancelOrder(h);
      var _ := expected.CancelOrder(id);
      CancelAgrees(live, old(actual.state), h, expected.Book());
    }

    method Modify(id: uint64, side: Side, price: int64, quantity: uint64, timestamp: uint64)
      returns (a: AddResult, e: AddResult)
      requires Valid() && Fitting(live, actual.state, Change(id, side, price, quantity, timestamp))
      modifies this, expected, actual.Repr()
      ensures Valid() && SameResult(a, e)
      ensures Naively(old(expected.Book()), Change(id, side, price, quantity, timestamp), expected.Book(), e)
      ensures var c := RequestCommand(old(live), Change(id, side, price, quantity, timestamp));
        && (actual.state, a) == Step(old(actual.state), c)
        && live == Follow(old(live), old(actual.state), c)
    {
      hide Mirrors, Sound, OrderBook.Valid, Ledgers.Cancel, Ledgers.Modify;
      hide ForgetBook, ReferenceOrderBook.Valid, ApplyTrades, Known, Denotes, Naively;
      LiveDenotes(id);
      var h := live[id].handle;
      FollowMirrors(live, actual.state, Command.ModifyOrder(h, side, price, quantity, timestamp), |actual.pool.slots|);
      a, e := ModifyBoth(h, id, side, price, quantity, timestamp);
      live := live - {id};
      ApplyFills(a.trades);
      if a.code.Success? && a.remaining > 0 {
        live := live[id := Entry(!Opposite(side), price, a.remaining, a.handle)];
      }
    }

    /** Modifies the same order in both books, by handle and by id. */
    method ModifyBoth(h: OrderHandle, id: uint64, side: Side, price: int64, quantity: uint64, timestamp: uint64)
      returns (a: AddResult, e: AddResult)
      requires Valid() && CanModify(actual.state, h, side, price, quantity) && Denotes(actual.state, h).id == id
      modifies expected, actual.Repr()
      ensures actual.Valid() && expected.Valid() && expected.Book() == ForgetBook(actual.state)
      ensures SameResult(a, e)
      ensures Naively(old(expected.Book()), Change(id, side, price, quantity, timestamp), expected.Book(), e)
      ensures (actual.state, a) == Ledgers.Modify(old(actual.state), h, side, price, quantity, timestamp)
    {
      hide Mirrors, Sound, OrderBook.Valid, Ledgers.Cancel;
      hide Ledgers.Modify, RefLimit, ForgetBook, RefCancelled, CanModify;
      SoundState();
      e := expected.ModifyOrder(id, side, price, quantity, timestamp);
      ghost var b: RefBook :| RefCancelled(old(expected.Book()), id, b) && b.Good() &&
        (expected.Book(), e) == RefLimit(b, id, side, price, quantity);
      ModifyAgrees(live, actual.state, h, side, price, quantity, timestamp, |actual.pool.slots|, b);
      a := actual.ModifyOrder(h, side, price, quantity, timestamp);
    }

    /** A live id's handle denotes the order with that id. */
    lemma LiveDenotes(id: uint64)
      requires Valid() && id in live
      ensures var l := actual.state;
        && Sound(l, |actual.pool.slots|) && UniquePlaces(l) && GoodBook(l)
        && Live(l, live[id].handle) && Denotes(l, live[id].handle).id == id
    {
      var k: nat :| RestsAt(actual.state, id, live[id], k);
      assert LiveAt(actual.state, live[id].isAsk, live[id].price, k, live[id].handle);
      CancelAt(actual.state, live[id].isAsk, live[id].price, k, live[id].handle);
    }

    lemma SoundState()
      requires Valid()
      ensures Sound(actual.state, |actual.pool.slots|) && GoodBook(actual.state) && expected.Book().Good()
    {}

    /** Plays one request against both books. */
    method Play(r: Request) returns (a: AddResult, e: AddResult)
      requires Valid() && Fitting(live, actual.state, r)
      modifies this, expected, actual.Repr()
      ensures Valid() && SameResult(a, e) && Naively(old(expected.Book()), r, expected.Book(), e)
      ensures var c := RequestCommand(old(live), r);
        && (actual.state, a) == Step(old(actual.state), c)
        && live == Follow(old(live), old(actual.state), c)
    {
      hide Follow, Step, SameResult, ResultHarness.Valid, Allowed, Naively;
      a, e := BLANK_RESULT, BLANK_RESULT;
      match r {
        case AddLimit(id, side, price, quantity, timestamp) =>
          a, e := AddLimitOrder(id, side, price, quantity, timestamp);
        case AddMarket(id, side, quantity, timestamp) =>
          a, e := AddMarketOrder(id, side, quantity, timestamp);
        case Drop(id) =>
          Cancel(id);
          assert SameResult(a, e) by { SameBlank(); }
        case Change(id, side, price, quantity, timestamp) =>
          a, e := Modify(id, side, price, quantity, timestamp);
      }
    }

    static lemma SameBlank()
      ensures SameResult(BLANK_RESULT, BLANK_RESULT)
    {}

    /**
     * Every stream of fitting requests gives the same results on both books, one by one: on the engine those
     * of the run of its commands, on the naive book those of the same requests by id.
     */
    method ReplayAll(rs: seq<Request>)
      returns (actuals: seq<AddResult>, expecteds: seq<AddResult>, ghost books: seq<RefBook>)
      requires Valid() && AllFitting(live, actual.state, rs)
      modifies this, expected, actual.Repr()
      ensures Valid()
      ensures |actuals| == |expecteds| == |rs| && forall i :: 0 <= i < |rs| ==> SameResult(actuals[i], expecteds[i])
      ensures var cs := Commands(old(live), old(actual.state), rs);
        actuals == Results(old(actual.state), cs) && actual.state == Run(old(actual.state), cs)
      ensures NaiveRun(books, rs, expecteds)
      ensures books[0] == old(expected.Book()) && books[|rs|] == expected.Book()
    {
      hide Fitting, Follow, Step, SameResult, ResultHarness.Valid, Naively, Results, Run, Commands;
      actuals, expecteds, books := [], [], [expected.Book()];
      assert rs[0..] == rs;
      for i := 0 to |rs|
        invariant Valid() && AllFitting(live, actual.state, rs[i..])
        invariant |actuals| == |expecteds| == i && forall j :: 0 <= j < i ==> SameResult(actuals[j], expecteds[j])
        invariant Onward(live, actual.state, rs[i..], actuals, old(live), old(actual.state), rs)
        invariant NaiveRun(books, rs[..i], expecteds)
        invariant books[0] == old(expected.Book()) && books[i] == expected.Book()
      {
        FirstFits(live, actual.state, rs[i..]);
        assert rs[i..][0] == rs[i] && rs[i..][1..] == rs[i + 1..];
        OneOnward(live, actual.state, rs[i..], actuals, old(live), old(actual.state), rs);
        ghost var before := expected.Book();
        var a, e := Play(rs[i]);
        NaivelyOnward(books, rs, i, expecteds, expected.Book(), e);
        actuals, expecteds, books := actuals + [a], expecteds + [e], books + [expected.Book()];
      }
      assert rs[..|rs|] == rs && rs[|rs|..] == [];
      NothingLeft(live, actual.state);
    }

    /** Results so far and results to come make up those of the whole stream, and so do the states. */
    static ghost predicate Onward(live: Table, l: Ledger, rs: seq<Request>, done: seq<AddResult>,
                                  live0: Table, l0: Ledger, all: seq<Request>)
      requires AllFitting(live, l, rs) && AllFitting(live0, l0, all)
    {
      && done + Results(l, Commands(live, l, rs)) == Results(l0, Commands(live0, l0, all))
      && Run(l, Commands(live, l, rs)) == Run(l0, Commands(live0, l0, all))
    }

    static lemma OneOnward(live: Table, l: Ledger, rs: seq<Request>, done: seq<AddResult>,
                           live0: Table, l0: Ledger, all: seq<Request>)
      requires AllFitting(live, l, rs) && AllFitting(live0, l0, all) && rs != []
      requires Onward(live, l, rs, done, live0, l0, all)
      ensures Fitting(live, l, rs[0]) && (rs[0].Drop? || rs[0].Change? ==> rs[0].id in live)
      ensures Allowed(l, RequestCommand(live, rs[0]))
      ensures var c := RequestCommand(live, rs[0]);
        && AllFitting(Follow(live, l, c), Step(l, c).0, rs[1..])
        && Onward(Follow(live, l, c), Step(l, c).0, rs[1..], done + [Step(l, c).1], live0, l0, all)
    {
      hide Fitting, Allowed, Follow, Step, Commands, Results, Run;
      FirstFits(live, l, rs);
      CommandsUnfold(live, l, rs);
      var c := RequestCommand(live, rs[0]);
      var cs := Commands(Follow(live, l, c), Step(l, c).0, rs[1..]);
      assert done + ([Step(l, c).1] + Results(Step(l, c).0, cs)) == done + [Step(l, c).1] + Results(Step(l, c).0, cs);
    }

    static lemma CommandsUnfold(live: Table, l: Ledger, rs: seq<Request>)
      requires AllFitting(live, l, rs) && rs != [] && (rs[0].Drop? || rs[0].Change? ==> rs[0].id in live)
      requires Allowed(l, RequestCommand(live, rs[0]))
      requires var c := RequestCommand(live, rs[0]); AllFitting(Follow(live, l, c), Step(l, c).0, rs[1..])
      ensures var c := RequestCommand(live, rs[0]);
        var cs := Commands(Follow(live, l, c), Step(l, c).0, rs[1..]);
        && Results(l, Commands(live, l, rs)) == [Step(l, c).1] + Results(Step(l, c).0, cs)
        && Run(l, Commands(live, l, rs)) == Run(Step(l, c).0, cs)
    {
      hide Follow, Step, Allowed;
      var c := RequestCommand(live, rs[0]);
      var cs := Commands(Follow(live, l, c), Step(l, c).0, rs[1..]);
      assert ([c] + cs)[0] == c && ([c] + cs)[1..] == cs;
    }

    static lemma NothingLeft(live: Table, l: Ledger)
      ensures Commands(live, l, []) == [] && Results(l, []) == [] && Run(l, []) == l
    {}

    static lemma NaivelyOnward(books: seq<RefBook>, rs: seq<Request>, i: nat, es: seq<AddResult>,
                               b: RefBook, e: AddResult)
      requires i < |rs| && NaiveRun(books, rs[..i], es) && Naively(books[i], rs[i], b, e)
      ensures NaiveRun(books + [b], rs[..i + 1], es + [e])
    {
      hide Naively;
      var more := books + [b];
      forall j | 0 <= j < i + 1
        ensures Naively(more[j], rs[..i + 1][j], more[j + 1], (es + [e])[j])
      {
        assert j < i ==> rs[..i + 1][j] == rs[..i][j];
      }
    }

    static lemma FirstFits(live: Table, l: Ledger, rs: seq<Request>)
      requires AllFitting(live, l, rs) && rs != []
      ensures Fitting(live, l, rs[0]) && (rs[0].Drop? || rs[0].Change? ==> rs[0].id in live)
      ensures Allowed(l, RequestCommand(live, rs[0]))
      ensures var c := RequestCommand(live, rs[0]); AllFitting(Follow(live, l, c), Step(l, c).0, rs[1..])
    {}
  }

  /**
   * From empty books, every stream that fits gives the same results on both, one by one: those of the engine's
   * commands on an empty ledger, and those of the naive book.
   */
  method ReplayFromEmpty(capacity: nat, rs: seq<Request>)
    returns (actuals: seq<AddResult>, expecteds: seq<AddResult>, ghost books: seq<RefBook>)
    requires capacity <= INVALID_HANDLE && AllFitting(map[], Initial(capacity), rs)
    ensures |actuals| == |expecteds| == |rs| && forall i :: 0 <= i < |rs| ==> SameResult(actuals[i], expecteds[i])
    ensures actuals == Results(Initial(capacity), Commands(map[], Initial(capacity), rs))
    ensures NaiveRun(books, rs, expecteds) && books[0] == RefBook(map[], map[])
  {
    hide AllFitting, SameResult, ResultHarness.Valid, Initial, Naively, Results, Run, Commands;
    var harness := new ResultHarness(capacity);
    actuals, expecteds, books := harness.ReplayAll(rs);
  }
}
