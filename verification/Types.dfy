/** The value types shared by the matching engine: sides, trades, results and price order. */
module Types {
  import opened Sequences

  /** Machine integer widths of the engine's fields; every assignment is checked to stay in range. */
  type uint64 = x: int | 0 <= x < 0x1_0000_0000_0000_0000
  type int64 = x: int | -0x8000_0000_0000_0000 <= x < 0x8000_0000_0000_0000
  type uint32 = x: int | 0 <= x < 0x1_0000_0000

  /** A slot number of the pool; the largest value stands for no order. */
  type OrderHandle = uint32
  const INVALID_HANDLE: OrderHandle := 0xFFFF_FFFF

  /** Prices per side book: the number of bits of an occupancy tree. */
  const PRICE_COUNT: nat := 4096

  datatype Option<+T> = None | Some(value: T)

  datatype Side = Buy | Sell

  datatype Trade = Trade(takerId: uint64, makerId: uint64, price: int64, quantity: uint64)

  datatype ErrorCode =
    | Success
    | InvalidQuantity
    | DuplicateOrderId
    | UnknownOrderId
    | PendingCancelExists
    | MarketRemainderCancelled

  datatype AddResult = AddResult(
    code: ErrorCode,
    initial: uint64,
    filled: uint64,
    remaining: uint64,
    handle: OrderHandle,
    trades: seq<Trade>)

  /** A result before anything happened, as default member initialisers leave it. */
  const BLANK_RESULT := AddResult(Success, 0, 0, 0, INVALID_HANDLE, [])

  function Min(a: uint64, b: uint64): uint64 {
    if a <= b then a else b
  }

  /** Strict aggressiveness: lower asks and higher bids come first. */
  predicate Better(isAsk: bool, a: int, b: int) {
    if isAsk then a < b else a > b
  }

  /** b is the most aggressive member of s. */
  ghost predicate IsBest(isAsk: bool, b: int, s: set<int>) {
    b in s && forall x :: x in s && x != b ==> Better(isAsk, b, x)
  }

  lemma {:induction false} BestExists(isAsk: bool, s: set<int>)
    requires s != {}
    ensures exists b :: IsBest(isAsk, b, s)
  {
    var x := Member(s);
    var rest := s - {x};
    if rest == {} {
      assert s == {x};
      assert IsBest(isAsk, x, s);
    } else {
      BestExists(isAsk, rest);
      var b :| IsBest(isAsk, b, rest);
      assert s == rest + {x};
      assert IsBest(isAsk, if Better(isAsk, x, b) then x else b, s);
    }
  }

  /** The most aggressive of some prices: where an ordered map with these keys begins. */
  function BestOf(isAsk: bool, s: set<int>): (b: int)
    requires s != {}
    ensures IsBest(isAsk, b, s)
  {
    BestExists(isAsk, s);
    var b :| b in s && forall x :: x in s && x != b ==> Better(isAsk, b, x);
    b
  }

  lemma OneBest(isAsk: bool, a: int, b: int, s: set<int>)
    requires IsBest(isAsk, a, s) && IsBest(isAsk, b, s)
    ensures a == b
  {}

  /** A limit order may trade at a price of the opposite side (isAsk says which side that is). */
  predicate Crosses(isAsk: bool, limit: int, price: int) {
    if isAsk then limit >= price else limit <= price
  }
}
