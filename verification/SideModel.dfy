/**
 * A book side as the queues at its prices, under the operations of its callers, for both ways of storing
 * it: a map from price to level, and the ring with its cold map. The two differ in when a level without
 * orders disappears; neither difference is ever seen.
 */
module SideModel {
  import opened RingBits
  import opened RingBuffers
  import opened Sequences
  import opened Types

  /** The queue of every price that has a level; a queue may be empty. */
  type QueueMap<T> = map<int, seq<T>>

  datatype Storage = OneMap | RingAndCold

  // ---------- operations ----------

  /** A level without orders that was in the window of the best and is not in that of a better price. */
  ghost predicate Displaced<T>(isAsk: bool, best: int, price: int, q: QueueMap<T>, p: int)
    requires p in q
  {
    q[p] == [] && RankOf(isAsk, best, p) < RING_SIZE <= RankOf(isAsk, price, p)
  }

  /** The levels left once there is room for a price: a better price than the best moves the window. */
  ghost function Kept<T>(storage: Storage, isAsk: bool, q: QueueMap<T>, price: int): (left: QueueMap<T>)
    ensures forall p {:trigger left[p]} {:trigger p in left} :: p in left ==> p in q && left[p] == q[p]
    ensures forall p {:trigger p in q} :: p in q && p !in left ==> q[p] == []
  {
    if storage.OneMap? || q == map[] || !Better(isAsk, price, BestOf(isAsk, q.Keys)) then q
    else map p | p in q && !Displaced(isAsk, BestOf(isAsk, q.Keys), price, q, p) :: q[p]
  }

  ghost function Created<T>(storage: Storage, isAsk: bool, q: QueueMap<T>, price: int): (r: QueueMap<T>)
    ensures price in r
  {
    if price in q then q else Kept(storage, isAsk, q, price)[price := []]
  }

  lemma MapKeepsAll<T>(isAsk: bool, q: QueueMap<T>, price: int)
    ensures Kept(OneMap, isAsk, q, price) == q
  {}

  /** A price in the window whose level, like every level at least as good, is empty. */
  ghost predicate Led<T>(isAsk: bool, best: int, q: QueueMap<T>, p: int) {
    RankOf(isAsk, best, p) < RING_SIZE &&
    forall r {:trigger q[r]} :: r in q && RankOf(isAsk, best, r) <= RankOf(isAsk, best, p) ==> q[r] == []
  }

  /** Nothing rests at the best level, so its owner may erase it. */
  ghost predicate GhostBest<T>(isAsk: bool, q: QueueMap<T>) {
    q != map[] && q[BestOf(isAsk, q.Keys)] == []
  }

  /** Once a drained best level was erased: the map loses it alone, the ring every empty level it meets. */
  ghost function Erased<T>(storage: Storage, isAsk: bool, q: QueueMap<T>): (r: QueueMap<T>)
    ensures forall p {:trigger r[p]} {:trigger p in r} :: p in r ==> p in q && r[p] == q[p]
    ensures forall p {:trigger p in q} :: p in q && p !in r ==> q[p] == []
    ensures GhostBest(isAsk, q) ==> BestOf(isAsk, q.Keys) !in r
  {
    if !GhostBest(isAsk, q) then q
    else if storage.OneMap? then q - {BestOf(isAsk, q.Keys)}
    else
      assert Led(isAsk, BestOf(isAsk, q.Keys), q, BestOf(isAsk, q.Keys));
      map p | p in q && !Led(isAsk, BestOf(isAsk, q.Keys), q, p) :: q[p]
  }

  /** Erasing until orders rest at the best, or nothing is left. */
  ghost function Skipped<T>(storage: Storage, isAsk: bool, q: QueueMap<T>): QueueMap<T>
    decreases |q|
  {
    if !GhostBest(isAsk, q) then q
    else
      Smaller(q, Erased(storage, isAsk, q), BestOf(isAsk, q.Keys));
      Skipped(storage, isAsk, Erased(storage, isAsk, q))
  }

  lemma SkippedUnfold<T>(storage: Storage, isAsk: bool, q: QueueMap<T>)
    ensures Skipped(storage, isAsk, q) ==
      if GhostBest(isAsk, q) then Skipped(storage, isAsk, Erased(storage, isAsk, q)) else q
  {}

  /** What the owner of a side asks of it; Unlink takes the k-th order of a queue out from outside. */
  datatype SideRequest<T> =
    | Create(price: int64)
    | Rest(price: int64, order: T)
    | Unlink(price: int64, k: nat)
    | EraseBest
    | SkipGhosts

  ghost function Step<T>(storage: Storage, isAsk: bool, q: QueueMap<T>, r: SideRequest<T>): QueueMap<T> {
    match r
    case Create(price) => Created(storage, isAsk, q, price)
    case Rest(price, order) =>
      var c := Created(storage, isAsk, q, price);
      c[price := c[price] + [order]]
    case Unlink(price, k) => if price in q && k < |q[price]| then q[price := Without(q[price], k)] else q
    case EraseBest => Erased(storage, isAsk, q)
    case SkipGhosts => Skipped(storage, isAsk, q)
  }

  /** The best price and the oldest order there. */
  ghost function Top<T>(isAsk: bool, q: QueueMap<T>): Option<(int, T)> {
    if q == map[] || GhostBest(isAsk, q) then None else Some((BestOf(isAsk, q.Keys), q[BestOf(isAsk, q.Keys)][0]))
  }

  /** What a request lets its caller see: once the ghosts are skipped, the best price and the order to trade next. */
  ghost function Seen<T>(storage: Storage, isAsk: bool, q: QueueMap<T>, r: SideRequest<T>): Option<(int, T)> {
    if r.SkipGhosts? then Top(isAsk, Skipped(storage, isAsk, q)) else None
  }

  ghost function Run<T>(storage: Storage, isAsk: bool, q: QueueMap<T>, rs: seq<SideRequest<T>>): QueueMap<T>
    decreases |rs|
  {
    if rs == [] then q else Run(storage, isAsk, Step(storage, isAsk, q, rs[0]), rs[1..])
  }

  ghost function AllSeen<T>(storage: Storage, isAsk: bool, q: QueueMap<T>, rs: seq<SideRequest<T>>)
    : seq<Option<(int, T)>>
    decreases |rs|
  {
    if rs == [] then []
    else [Seen(storage, isAsk, q, rs[0])] + AllSeen(storage, isAsk, Step(storage, isAsk, q, rs[0]), rs[1..])
  }

  // ---------- the side without levels ----------

  /** The orders resting at each price; levels without orders do not show. */
  ghost function Shown<T>(q: QueueMap<T>): QueueMap<T> {
    map p | p in q && q[p] != [] :: q[p]
  }

  ghost function At<T>(v: QueueMap<T>, price: int): seq<T> {
    if price in v then v[price] else []
  }

  /** What shows once the queue of one price is replaced. */
  ghost function WithQueue<T>(v: QueueMap<T>, price: int, queue: seq<T>): QueueMap<T> {
    if queue == [] then v - {price} else v[price := queue]
  }

  /** One request on a side that has no levels to create or erase, only resting orders. */
  ghost function BareStep<T>(v: QueueMap<T>, r: SideRequest<T>): QueueMap<T> {
    match r
    case Rest(price, order) => WithQueue(v, price, At(v, price) + [order])
    case Unlink(price, k) => if k < |At(v, price)| then WithQueue(v, price, Without(At(v, price), k)) else v
    case _ => v
  }

  ghost function BareRun<T>(v: QueueMap<T>, rs: seq<SideRequest<T>>): QueueMap<T>
    decreases |rs|
  {
    if rs == [] then v else BareRun(BareStep(v, rs[0]), rs[1..])
  }

  ghost function BareSeen<T>(isAsk: bool, v: QueueMap<T>, rs: seq<SideRequest<T>>): seq<Option<(int, T)>>
    decreases |rs|
  {
    if rs == [] then []
    else [if rs[0].SkipGhosts? then Top(isAsk, v) else None] + BareSeen(isAsk, BareStep(v, rs[0]), rs[1..])
  }

  /** Losing empty queues does not show. */
  lemma LossUnseen<T>(q: QueueMap<T>, r: QueueMap<T>)
    requires forall p {:trigger p in r} :: p in r ==> p in q && r[p] == q[p]
    requires forall p {:trigger p in q} :: p in q && p !in r ==> q[p] == []
    ensures Shown(r) == Shown(q)
  {
    forall p
      ensures p in Shown(r) <==> p in Shown(q)
      ensures p in Shown(r) ==> Shown(r)[p] == Shown(q)[p]
    {
      assert p in r ==> p in q;
      assert p in q ==> p in r || q[p] == [];
    }
  }

  lemma PutShown<T>(q: QueueMap<T>, price: int, queue: seq<T>)
    ensures Shown(q[price := queue]) == WithQueue(Shown(q), price, queue)
  {}

  lemma CreatedUnseen<T>(storage: Storage, isAsk: bool, q: QueueMap<T>, price: int)
    ensures Shown(Created(storage, isAsk, q, price)) == Shown(q)
    ensures Created(storage, isAsk, q, price)[price] == At(Shown(q), price)
  {
    hide Kept, Shown;
    if price !in q {
      LossUnseen(q, Kept(storage, isAsk, q, price));
      PutShown(Kept(storage, isAsk, q, price), price, []);
    }
    ShownAt(q, price);
  }

  lemma ShownAt<T>(q: QueueMap<T>, price: int)
    ensures At(Shown(q), price) == At(q, price)
    ensures price !in q ==> Shown(q) - {price} == Shown(q)
  {}

  lemma {:induction false} SkippedUnseen<T>(storage: Storage, isAsk: bool, q: QueueMap<T>)
    ensures Shown(Skipped(storage, isAsk, q)) == Shown(q) && !GhostBest(isAsk, Skipped(storage, isAsk, q))
    decreases |q|
  {
    hide GhostBest, Erased, Shown;
    if GhostBest(isAsk, q) {
      LossUnseen(q, Erased(storage, isAsk, q));
      GhostInside(isAsk, q);
      Smaller(q, Erased(storage, isAsk, q), BestOf(isAsk, q.Keys));
      SkippedUnseen(storage, isAsk, Erased(storage, isAsk, q));
    }
  }

  lemma GhostInside<T>(isAsk: bool, q: QueueMap<T>)
    requires GhostBest(isAsk, q)
    ensures q != map[] && BestOf(isAsk, q.Keys) in q
  {}

  /** A best level with orders is the best that shows. */
  lemma TopShown<T>(isAsk: bool, q: QueueMap<T>)
    requires !GhostBest(isAsk, q)
    ensures Top(isAsk, q) == Top(isAsk, Shown(q))
  {
    if q != map[] {
      var b := BestOf(isAsk, q.Keys);
      assert b in Shown(q);
      OneBest(isAsk, b, BestOf(isAsk, Shown(q).Keys), Shown(q).Keys);
    }
  }

  /** Each way of storing a side does to what shows what the bare side does. */
  lemma StepShown<T>(storage: Storage, isAsk: bool, q: QueueMap<T>, r: SideRequest<T>)
    ensures Shown(Step(storage, isAsk, q, r)) == BareStep(Shown(q), r)
    ensures Seen(storage, isAsk, q, r) == if r.SkipGhosts? then Top(isAsk, Shown(q)) else None
  {
    hide Created, Erased, Skipped, Shown, GhostBest, Top;
    match r {
      case Create(price) => CreatedUnseen(storage, isAsk, q, price);
      case Rest(price, order) =>
        CreatedUnseen(storage, isAsk, q, price);
        PutShown(Created(storage, isAsk, q, price), price, At(Shown(q), price) + [order]);
      case Unlink(price, k) =>
        ShownAt(q, price);
        if price in q && k < |q[price]| {
          PutShown(q, price, Without(q[price], k));
        }
      case EraseBest => LossUnseen(q, Erased(storage, isAsk, q));
      case SkipGhosts =>
        SkippedUnseen(storage, isAsk, q);
        TopShown(isAsk, Skipped(storage, isAsk, q));
    }
  }

  lemma {:induction false} RunShown<T>(storage: Storage, isAsk: bool, q: QueueMap<T>, rs: seq<SideRequest<T>>)
    ensures Shown(Run(storage, isAsk, q, rs)) == BareRun(Shown(q), rs)
    ensures AllSeen(storage, isAsk, q, rs) == BareSeen(isAsk, Shown(q), rs)
    decreases |rs|
  {
    hide Step, Seen, BareStep, Shown;
    if rs != [] {
      StepShown(storage, isAsk, q, rs[0]);
      RunShown(storage, isAsk, Step(storage, isAsk, q, rs[0]), rs[1..]);
    }
  }

  /**
   * The two ways of storing a side are interchangeable: from sides that show the same, every stream of
   * requests lets its caller see the same and ends in sides that show the same.
   */
  lemma SidesAgree<T>(isAsk: bool, ring: QueueMap<T>, plain: QueueMap<T>, rs: seq<SideRequest<T>>)
    requires Shown(ring) == Shown(plain)
    ensures Shown(Run(RingAndCold, isAsk, ring, rs)) == Shown(Run(OneMap, isAsk, plain, rs))
    ensures AllSeen(RingAndCold, isAsk, ring, rs) == AllSeen(OneMap, isAsk, plain, rs)
  {
    RunShown(RingAndCold, isAsk, ring, rs);
    RunShown(OneMap, isAsk, plain, rs);
  }

  // ---------- what the source demands of a caller ----------

  /** A created price must be a legitimate one and find a level in the pool; what is unlinked must rest. */
  ghost predicate Served<T>(isAsk: bool, capacity: nat, q: QueueMap<T>, r: SideRequest<T>) {
    match r
    case Create(price) => Bounded(price) && (price in q || |Kept(RingAndCold, isAsk, q, price)| < capacity)
    case Rest(price, _) => Bounded(price) && (price in q || |Kept(RingAndCold, isAsk, q, price)| < capacity)
    case Unlink(price, k) => k < |At(q, price)|
    case _ => true
  }

  ghost predicate AllServed<T>(isAsk: bool, capacity: nat, q: QueueMap<T>, rs: seq<SideRequest<T>>)
    decreases |rs|
  {
    rs == [] || (Served(isAsk, capacity, q, rs[0])
                 && AllServed(isAsk, capacity, Step(RingAndCold, isAsk, q, rs[0]), rs[1..]))
  }
}
