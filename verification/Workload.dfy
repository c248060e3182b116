/**
 * What the replay benchmark does with its random choices, as functions: the operation each choice comes
 * to, the orders it leaves, and what waits in the two queues of cancels.
 */
module Workloads {
  import opened Handles
  import opened LedgerInvariants
  import opened Ledgers
  import opened Plans
  import opened Runs
  import opened Sequences
  import opened Tracking
  import opened Types

  const MAX_ID: nat := 0xFFFF_FFFF_FFFF_FFFF

  // ---------- random choices ----------

  /** The random choices behind a limit order; its price must be one the book has. */
  datatype AddDraw = AddDraw(side: Side, price: int64, qty: uint64) {
    predicate Fair() {
      0 <= price < PRICE_COUNT && qty > 0
    }
  }

  /** Every random choice behind one event; the picks are the ids drawn until one of them is live. */
  datatype Draw = Draw(
    roll: nat,
    add: AddDraw,
    replacement: AddDraw,
    marketQty: uint64,
    picks: seq<uint64>,
    cluster: seq<uint64>)
  {
    predicate Fair() {
      add.Fair() && replacement.Fair() && marketQty > 0
    }
  }

  // ---------- one operation ----------

  /** What the next operation is chosen and carried out on: the book, the orders tracked, the next id to give out. */
  datatype Desk = Desk(book: Ledger, live: Table, nextId: nat)

  /** The first pick that is live, or failing that the live order with the smallest id. */
  function Target(picks: seq<uint64>, live: set<uint64>): (id: uint64)
    requires live != {}
    ensures id in live
  {
    if picks == [] then BestOf(true, live)
    else if picks[0] in live then picks[0]
    else Target(picks[1..], live)
  }

  ghost function AddOp(d: Desk, draw: AddDraw): (op: PendingOp)
    requires d.nextId <= MAX_ID
    ensures op.LimitAdd? && op.oid == d.nextId
    ensures op.side == draw.side && op.price == draw.price && op.qty == draw.qty
  {
    var c := Command.LimitOrder(d.nextId, draw.side, draw.price, draw.qty, d.nextId);
    LimitAdd(d.nextId, draw.side, draw.price, draw.qty, if Allowed(d.book, c) then TagOf(d.book, c) else Unmeasured)
  }

  function CancelOp(live: Table, id: uint64): (op: PendingOp)
    requires id in live
    ensures op.CancelTarget? && op.targetId == id
  {
    CancelTarget(id, live[id].handle)
  }

  function ReplaceOp(live: Table, id: uint64, draw: AddDraw, nextId: uint64): (op: PendingOp)
    requires id in live
    ensures op.ModifyTarget? && op.targetId == id
  {
    ModifyTarget(id, live[id].handle, draw.side, draw.price, draw.qty, nextId)
  }

  /** The operation a draw comes to: an add while nothing is live, else of the kind rolled. */
  ghost function Rolled(d: Desk, w: Draw): PendingOp
    requires d.nextId <= MAX_ID
  {
    if w.roll < 45 || d.live == map[] then AddOp(d, w.add)
    else if w.roll < 93 then CancelOp(d.live, Target(w.picks, d.live.Keys))
    else if w.roll < 98 then ReplaceOp(d.live, Target(w.picks, d.live.Keys), w.replacement, d.nextId)
    else Market(d.nextId, w.add.side, w.marketQty)
  }

  /** The desk once an operation was carried out; all but cancels use up an id. */
  ghost function After(d: Desk, op: PendingOp): (d': Desk)
    ensures d.nextId <= d'.nextId <= d.nextId + 1 && (op.CancelTarget? ==> d'.nextId == d.nextId)
  {
    var c := CommandOf(op);
    if Allowed(d.book, c) then
      Desk(Step(d.book, c).0, Follow(d.live, d.book, c), if op.CancelTarget? then d.nextId else d.nextId + 1)
    else d
  }

  ghost function AfterAll(d: Desk, ops: seq<PendingOp>): (d': Desk)
    ensures (forall i :: 0 <= i < |ops| ==> ops[i].CancelTarget?) ==> d'.nextId == d.nextId
    decreases |ops|
  {
    if ops == [] then d else AfterAll(After(d, ops[0]), ops[1..])
  }

  // ---------- clusters ----------

  /** The live ones of some picks, each once, in the order they were drawn. */
  function LiveOnce(picks: seq<uint64>, live: set<uint64>): seq<uint64> {
    if picks == [] then []
    else if picks[0] in live then [picks[0]] + LiveOnce(picks[1..], live - {picks[0]})
    else LiveOnce(picks[1..], live)
  }

  /** The live ones of some picks, as often as they were drawn. */
  function LiveAmong(picks: seq<uint64>, live: set<uint64>): seq<uint64> {
    if picks == [] then []
    else (if picks[0] in live then [picks[0]] else []) + LiveAmong(picks[1..], live)
  }

  lemma LiveAmongUnfold(picks: seq<uint64>, live: set<uint64>)
    ensures picks == [] ==> LiveAmong(picks, live) == []
    ensures picks != [] ==>
      LiveAmong(picks, live) == (if picks[0] in live then [picks[0]] else []) + LiveAmong(picks[1..], live)
  {}

  /** Cancels of the live ones of some picks, each once, under the handles of a table. */
  function CancelsOf(live: Table, picks: seq<uint64>, left: set<uint64>): (ops: seq<PendingOp>)
    requires left <= live.Keys
    ensures forall i :: 0 <= i < |ops| ==> ops[i].CancelTarget?
  {
    if picks == [] then []
    else if picks[0] in left then [CancelOp(live, picks[0])] + CancelsOf(live, picks[1..], left - {picks[0]})
    else CancelsOf(live, picks[1..], left)
  }

  lemma CancelsUnfold(live: Table, picks: seq<uint64>, left: set<uint64>)
    requires left <= live.Keys
    ensures picks == [] ==> CancelsOf(live, picks, left) == []
    ensures picks != [] ==>
      CancelsOf(live, picks, left) ==
      (if picks[0] in left then [CancelOp(live, picks[0])] else []) + CancelsOf(live, picks[1..], left - {picks[0]})
  {
    if picks != [] && picks[0] !in left {
      assert left - {picks[0]} == left;
    }
  }

  /** They are the cancels of exactly those orders, in the order in which they were drawn. */
  lemma {:induction false} CancelsNameLiveOnce(live: Table, picks: seq<uint64>, left: set<uint64>)
    requires left <= live.Keys
    ensures var ops, ids := CancelsOf(live, picks, left), LiveOnce(picks, left);
      |ops| == |ids| && forall i :: 0 <= i < |ids| ==> ids[i] in live && ops[i] == CancelOp(live, ids[i])
  {
    if picks != [] {
      CancelsNameLiveOnce(live, picks[1..], left);
      CancelsNameLiveOnce(live, picks[1..], left - {picks[0]});
      LiveOnceIsLive(picks, left);
      assert forall i :: 0 <= i < |LiveOnce(picks, left)| ==> LiveOnce(picks, left)[i] in LiveOnce(picks, left);
    }
  }

  lemma {:induction false} LiveOnceIsLive(picks: seq<uint64>, live: set<uint64>)
    ensures forall id :: id in LiveOnce(picks, live) <==> id in picks && id in live
    ensures Distinct(LiveOnce(picks, live))
  {
    if picks != [] {
      LiveOnceIsLive(picks[1..], live);
      LiveOnceIsLive(picks[1..], live - {picks[0]});
      var rest := LiveOnce(picks[1..], live - {picks[0]});
      assert forall id :: id in picks <==> id == picks[0] || id in picks[1..];
      assert picks[0] in live ==> forall i :: 0 <= i < |rest| ==> rest[i] in rest;
    }
  }

  /** One more pick adds itself at the end if it is live. */
  lemma {:induction false} OneMoreAmong(picks: seq<uint64>, id: uint64, live: set<uint64>)
    ensures LiveAmong(picks + [id], live) == LiveAmong(picks, live) + if id in live then [id] else []
  {
    hide LiveAmong;
    LiveAmongUnfold(picks, live);
    LiveAmongUnfold(picks + [id], live);
    if picks == [] {
      LiveAmongUnfold([], live);
      assert picks + [id] == [id] && [id][1..] == [];
    } else {
      assert (picks + [id])[0] == picks[0] && (picks + [id])[1..] == picks[1..] + [id];
      OneMoreAmong(picks[1..], id, live);
    }
  }

  lemma LiveOnceUnfold(picks: seq<uint64>, live: set<uint64>)
    ensures picks == [] ==> LiveOnce(picks, live) == []
    ensures picks != [] ==>
      LiveOnce(picks, live) == (if picks[0] in live then [picks[0]] else []) + LiveOnce(picks[1..], live - {picks[0]})
  {
    if picks != [] && picks[0] !in live {
      assert live - {picks[0]} == live;
    }
  }

  /** In a cluster of the batch it does so only the first time. */
  lemma {:induction false} OneMoreOnce(picks: seq<uint64>, id: uint64, live: set<uint64>)
    ensures LiveOnce(picks + [id], live) == LiveOnce(picks, live) + if id in live && id !in picks then [id] else []
  {
    hide LiveOnce;
    LiveOnceUnfold(picks, live);
    LiveOnceUnfold(picks + [id], live);
    if picks == [] {
      LiveOnceUnfold([], live - {id});
      LiveOnceUnfold([], live);
      assert picks + [id] == [id] && [id][1..] == [];
    } else {
      assert (picks + [id])[0] == picks[0] && (picks + [id])[1..] == picks[1..] + [id];
      OneMoreOnce(picks[1..], id, live - {picks[0]});
      assert id in picks <==> id == picks[0] || id in picks[1..];
    }
  }

  // ---------- planning ----------

  /** The dry-run desk, and the planned cancels to hand out before the next choice, last one first. */
  datatype Planning = Planning(desk: Desk, queue: seq<PendingOp>)

  /** The cancels of the cluster that a cancel may bring with it. */
  function ClusterOps(live: Table, cluster: seq<uint64>): seq<PendingOp> {
    CancelsOf(live, cluster, live.Keys)
  }

  /** After i picks: which orders are left, and how the cancels so far begin those of the whole cluster. */
  ghost predicate ClusterSoFar(live: Table, picks: seq<uint64>, i: nat, ops: seq<PendingOp>, left: set<uint64>)
    requires i <= |picks|
  {
    && left == live.Keys - Elements(picks[..i])
    && ops + CancelsOf(live, picks[i..], left) == ClusterOps(live, picks)
  }

  lemma ClusterStarts(live: Table, picks: seq<uint64>)
    ensures ClusterSoFar(live, picks, 0, [], live.Keys)
  {
    assert picks[0..] == picks && live.Keys - Elements(picks[..0]) == live.Keys;
  }

  lemma ClusterGoesOn(live: Table, picks: seq<uint64>, i: nat, ops: seq<PendingOp>, left: set<uint64>)
    requires i < |picks| && ClusterSoFar(live, picks, i, ops, left)
    ensures picks[i] in left ==> picks[i] in live
    ensures ClusterSoFar(live, picks, i + 1,
                         ops + if picks[i] in left then [CancelOp(live, picks[i])] else [], left - {picks[i]})
  {
    hide CancelsOf, ClusterOps;
    assert picks[i..][0] == picks[i] && picks[i..][1..] == picks[i + 1..];
    CancelsUnfold(live, picks[i..], left);
    var one := if picks[i] in left then [CancelOp(live, picks[i])] else [];
    var rest := CancelsOf(live, picks[i + 1..], left - {picks[i]});
    assert ops + (one + rest) == ops + one + rest;
    assert Elements(picks[..i + 1]) == Elements(picks[..i]) + {picks[i]};
  }

  lemma ClusterEnds(live: Table, picks: seq<uint64>, ops: seq<PendingOp>, left: set<uint64>)
    requires ClusterSoFar(live, picks, |picks|, ops, left)
    ensures ops == ClusterOps(live, picks) && left == live.Keys - Elements(picks)
    ensures forall i :: 0 <= i < |ops| ==> ops[i].CancelTarget?
  {
    assert picks[|picks|..] == [] && picks[..|picks|] == picks && ops + [] == ops;
  }

  ghost function NextOp(p: Planning, w: Draw): PendingOp
    requires p.desk.nextId <= MAX_ID
  {
    if p.queue != [] then p.queue[|p.queue| - 1] else Rolled(p.desk, w)
  }

  /** A cancel just planned brings its cluster with it: carried out at once, and queued back to front. */
  ghost function PlanningAfter(d: Desk, op: PendingOp, cluster: seq<uint64>): Planning {
    var after := After(d, op);
    if op.CancelTarget? then
      Planning(AfterAll(after, ClusterOps(after.live, cluster)), Reverse(ClusterOps(after.live, cluster)))
    else Planning(after, [])
  }

  lemma CancelPlanning(d: Desk, op: PendingOp, cluster: seq<uint64>)
    requires op.CancelTarget?
    ensures var after := After(d, op);
      PlanningAfter(d, op, cluster) ==
      Planning(AfterAll(after, ClusterOps(after.live, cluster)), Reverse(ClusterOps(after.live, cluster)))
  {}

  ghost function NextPlanning(p: Planning, w: Draw): (p': Planning)
    requires p.desk.nextId <= MAX_ID
    ensures p'.desk.nextId <= p.desk.nextId + 1
  {
    if p.queue != [] then Planning(p.desk, p.queue[..|p.queue| - 1])
    else PlanningAfter(p.desk, Rolled(p.desk, w), w.cluster)
  }

  /** The batch that a stream of draws comes to. */
  ghost function PlanOps(p: Planning, ws: seq<Draw>): seq<PendingOp>
    requires p.desk.nextId + |ws| <= MAX_ID
    decreases |ws|
  {
    if ws == [] then [] else [NextOp(p, ws[0])] + PlanOps(NextPlanning(p, ws[0]), ws[1..])
  }

  ghost function PlanEnd(p: Planning, ws: seq<Draw>): Planning
    requires p.desk.nextId + |ws| <= MAX_ID
    decreases |ws|
  {
    if ws == [] then p else PlanEnd(NextPlanning(p, ws[0]), ws[1..])
  }

  // ---------- warming up ----------

  /** The desk, and the ids to cancel before the next choice if they are still live then, last one first. */
  datatype Warming = Warming(desk: Desk, queue: seq<uint64>) {
    predicate QueuedLive() {
      queue != [] && queue[|queue| - 1] in desk.live
    }

    /** The queue without its last id, which is taken off whether live or not. */
    function Popped(): seq<uint64> {
      if queue == [] then [] else queue[..|queue| - 1]
    }
  }

  function QueuedCancel(w: Warming): PendingOp
    requires w.QueuedLive()
  {
    CancelOp(w.desk.live, w.queue[|w.queue| - 1])
  }

  ghost function WarmOp(w: Warming, d: Draw): PendingOp
    requires w.desk.nextId <= MAX_ID
  {
    if w.QueuedLive() then QueuedCancel(w) else Rolled(w.desk, d)
  }

  ghost function NextWarm(w: Warming, d: Draw): (w': Warming)
    requires w.desk.nextId <= MAX_ID
    ensures w'.desk.nextId <= w.desk.nextId + 1
  {
    var after := After(w.desk, WarmOp(w, d));
    Warming(after, w.Popped() + if WarmOp(w, d).CancelTarget? then LiveAmong(d.cluster, after.live.Keys) else [])
  }

  /** The operations of some adds for depth. */
  ghost function SeedOps(d: Desk, seeds: seq<AddDraw>): seq<PendingOp>
    requires d.nextId + |seeds| <= MAX_ID
    decreases |seeds|
  {
    if seeds == [] then [] else [AddOp(d, seeds[0])] + SeedOps(After(d, AddOp(d, seeds[0])), seeds[1..])
  }

  ghost function Seeded(d: Desk, seeds: seq<AddDraw>): (d': Desk)
    requires d.nextId + |seeds| <= MAX_ID
    ensures d'.nextId <= d.nextId + |seeds|
    decreases |seeds|
  {
    if seeds == [] then d else Seeded(After(d, AddOp(d, seeds[0])), seeds[1..])
  }

  ghost function WarmOps(w: Warming, ds: seq<Draw>): seq<PendingOp>
    requires w.desk.nextId + |ds| <= MAX_ID
    decreases |ds|
  {
    if ds == [] then [] else [WarmOp(w, ds[0])] + WarmOps(NextWarm(w, ds[0]), ds[1..])
  }

  ghost function Warmed(w: Warming, ds: seq<Draw>): (w': Warming)
    requires w.desk.nextId + |ds| <= MAX_ID
    ensures w'.desk.nextId <= w.desk.nextId + |ds|
    decreases |ds|
  {
    if ds == [] then w else Warmed(NextWarm(w, ds[0]), ds[1..])
  }

  /** Adds for depth, then events. */
  ghost function WarmedUp(d: Desk, seeds: seq<AddDraw>, events: seq<Draw>): (w: Warming)
    requires d.nextId + |seeds| + |events| <= MAX_ID
    ensures w.desk.nextId <= d.nextId + |seeds| + |events|
  {
    Warmed(Warming(Seeded(d, seeds), []), events)
  }

  ghost function WarmUpOps(d: Desk, seeds: seq<AddDraw>, events: seq<Draw>): seq<PendingOp>
    requires d.nextId + |seeds| + |events| <= MAX_ID
  {
    SeedOps(d, seeds) + WarmOps(Warming(Seeded(d, seeds), []), events)
  }

  // ---------- part of the way ----------

  /** After i draws: what was planned so far, and what still will be, make up the whole batch. */
  ghost predicate PlanSoFar(start: Planning, ws: seq<Draw>, i: nat, done: seq<PendingOp>, p: Planning)
    requires i <= |ws| && start.desk.nextId + |ws| <= MAX_ID
  {
    && p.desk.nextId + |ws| - i <= MAX_ID
    && done + PlanOps(p, ws[i..]) == PlanOps(start, ws) && PlanEnd(p, ws[i..]) == PlanEnd(start, ws)
  }

  lemma PlanStarts(start: Planning, ws: seq<Draw>)
    requires start.desk.nextId + |ws| <= MAX_ID
    ensures PlanSoFar(start, ws, 0, [], start)
  {
    assert ws[0..] == ws;
  }

  lemma PlanGoesOn(start: Planning, ws: seq<Draw>, i: nat, done: seq<PendingOp>, p: Planning)
    requires i < |ws| && start.desk.nextId + |ws| <= MAX_ID && PlanSoFar(start, ws, i, done, p)
    ensures PlanSoFar(start, ws, i + 1, done + [NextOp(p, ws[i])], NextPlanning(p, ws[i]))
  {
    hide NextOp, NextPlanning;
    assert ws[i..][0] == ws[i] && ws[i..][1..] == ws[i + 1..];
    var rest := PlanOps(NextPlanning(p, ws[i]), ws[i + 1..]);
    assert done + ([NextOp(p, ws[i])] + rest) == done + [NextOp(p, ws[i])] + rest;
  }

  lemma PlanEnds(start: Planning, ws: seq<Draw>, done: seq<PendingOp>, p: Planning)
    requires start.desk.nextId + |ws| <= MAX_ID && PlanSoFar(start, ws, |ws|, done, p)
    ensures done == PlanOps(start, ws) && p == PlanEnd(start, ws)
  {
    assert ws[|ws|..] == [] && done + [] == done;
  }

  ghost predicate SeedsSoFar(start: Desk, seeds: seq<AddDraw>, i: nat, done: seq<PendingOp>, d: Desk)
    requires i <= |seeds| && start.nextId + |seeds| <= MAX_ID
  {
    && d.nextId + |seeds| - i <= MAX_ID
    && done + SeedOps(d, seeds[i..]) == SeedOps(start, seeds) && Seeded(d, seeds[i..]) == Seeded(start, seeds)
  }

  lemma SeedsStart(start: Desk, seeds: seq<AddDraw>)
    requires start.nextId + |seeds| <= MAX_ID
    ensures SeedsSoFar(start, seeds, 0, [], start)
  {
    assert seeds[0..] == seeds;
  }

  lemma SeedsGoOn(start: Desk, seeds: seq<AddDraw>, i: nat, done: seq<PendingOp>, d: Desk)
    requires i < |seeds| && start.nextId + |seeds| <= MAX_ID && SeedsSoFar(start, seeds, i, done, d)
    ensures SeedsSoFar(start, seeds, i + 1, done + [AddOp(d, seeds[i])], After(d, AddOp(d, seeds[i])))
  {
    hide AddOp, After;
    assert seeds[i..][0] == seeds[i] && seeds[i..][1..] == seeds[i + 1..];
    var rest := SeedOps(After(d, AddOp(d, seeds[i])), seeds[i + 1..]);
    assert done + ([AddOp(d, seeds[i])] + rest) == done + [AddOp(d, seeds[i])] + rest;
  }

  lemma SeedsEnd(start: Desk, seeds: seq<AddDraw>, done: seq<PendingOp>, d: Desk)
    requires start.nextId + |seeds| <= MAX_ID && SeedsSoFar(start, seeds, |seeds|, done, d)
    ensures done == SeedOps(start, seeds) && d == Seeded(start, seeds)
  {
    assert seeds[|seeds|..] == [] && done + [] == done;
  }

  ghost predicate WarmSoFar(start: Warming, ds: seq<Draw>, i: nat, done: seq<PendingOp>, w: Warming)
    requires i <= |ds| && start.desk.nextId + |ds| <= MAX_ID
  {
    && w.desk.nextId + |ds| - i <= MAX_ID
    && done + WarmOps(w, ds[i..]) == WarmOps(start, ds) && Warmed(w, ds[i..]) == Warmed(start, ds)
  }

  lemma WarmStarts(start: Warming, ds: seq<Draw>)
    requires start.desk.nextId + |ds| <= MAX_ID
    ensures WarmSoFar(start, ds, 0, [], start)
  {
    assert ds[0..] == ds;
  }

  lemma WarmGoesOn(start: Warming, ds: seq<Draw>, i: nat, done: seq<PendingOp>, w: Warming)
    requires i < |ds| && start.desk.nextId + |ds| <= MAX_ID && WarmSoFar(start, ds, i, done, w)
    ensures WarmSoFar(start, ds, i + 1, done + [WarmOp(w, ds[i])], NextWarm(w, ds[i]))
  {
    hide WarmOp, NextWarm;
    assert ds[i..][0] == ds[i] && ds[i..][1..] == ds[i + 1..];
    var rest := WarmOps(NextWarm(w, ds[i]), ds[i + 1..]);
    assert done + ([WarmOp(w, ds[i])] + rest) == done + [WarmOp(w, ds[i])] + rest;
  }

  lemma WarmEnds(start: Warming, ds: seq<Draw>, done: seq<PendingOp>, w: Warming)
    requires start.desk.nextId + |ds| <= MAX_ID && WarmSoFar(start, ds, |ds|, done, w)
    ensures done == WarmOps(start, ds) && w == Warmed(start, ds)
  {
    assert ds[|ds|..] == [] && done + [] == done;
  }

  // ---------- recognising an operation and what it leaves ----------

  lemma AddOpIs(d: Desk, draw: AddDraw, op: PendingOp)
    requires d.nextId <= MAX_ID && op.LimitAdd? && Fits(d.book, op) && op.oid == d.nextId
    requires op.side == draw.side && op.price == draw.price && op.qty == draw.qty
    ensures op == AddOp(d, draw)
  {
    hide Allowed, TagOf;
  }

  lemma AfterIs(d: Desk, op: PendingOp, d': Desk)
    requires Fits(d.book, op) && d'.book == Step(d.book, CommandOf(op)).0
    requires d'.live == Follow(d.live, d.book, CommandOf(op))
    requires d'.nextId == if op.CancelTarget? then d.nextId else d.nextId + 1
    ensures d' == After(d, op)
  {
    hide Allowed, Step, Follow, Tagged;
  }

  /** The table followed from a result is the one the operation leaves. */
  lemma FollowIs(t: Table, l: Ledger, op: PendingOp, r: AddResult)
    requires Fits(l, op) && r == Step(l, CommandOf(op)).1
    ensures op.LimitAdd? ==>
      Follow(t, l, CommandOf(op)) == WithRested(ApplyTrades(t, r.trades), op.oid, op.side, op.price, r)
    ensures op.Market? ==> Follow(t, l, CommandOf(op)) == ApplyTrades(t, r.trades)
    ensures op.CancelTarget? ==> Follow(t, l, CommandOf(op)) == t - {op.targetId}
    ensures op.ModifyTarget? ==>
      Follow(t, l, CommandOf(op)) ==
      WithRested(ApplyTrades(t - {op.targetId}, r.trades), op.targetId, op.side, op.price, r)
  {
    hide Tagged, ApplyTrades, WithRested;
  }

  lemma AfterCancel(d: Desk, op: PendingOp)
    requires op.CancelTarget? && Fits(d.book, op)
    ensures After(d, op).live == d.live - {op.targetId}
  {
    FollowIs(d.live, d.book, op, BLANK_RESULT);
  }

  lemma {:induction false} AfterOneMore(d: Desk, ops: seq<PendingOp>, op: PendingOp)
    ensures AfterAll(d, ops + [op]) == After(AfterAll(d, ops), op)
    decreases |ops|
  {
    hide After;
    if ops == [] {
      assert ops + [op] == [op] && [op][1..] == [];
    } else {
      assert (ops + [op])[0] == ops[0] && (ops + [op])[1..] == ops[1..] + [op];
      AfterOneMore(After(d, ops[0]), ops[1..], op);
    }
  }

  // ---------- what the choices come to ----------

  /** Kind and data of what a draw comes to: an add while nothing is live, else as the roll has it. */
  lemma RolledIs(d: Desk, w: Draw)
    requires d.nextId <= MAX_ID
    ensures var op := Rolled(d, w);
      && (w.roll < 45 || d.live == map[] ==>
        op.LimitAdd? && op.oid == d.nextId && op.side == w.add.side && op.price == w.add.price && op.qty == w.add.qty)
      && (45 <= w.roll < 93 && d.live != map[] ==>
        op.CancelTarget? && op.targetId in d.live && op.targetHandle == d.live[op.targetId].handle)
      && (93 <= w.roll < 98 && d.live != map[] ==>
        && op.ModifyTarget? && op.targetId in d.live && op.targetHandle == d.live[op.targetId].handle
        && op.oid == d.nextId && op.side == w.replacement.side
        && op.price == w.replacement.price && op.qty == w.replacement.qty)
      && (98 <= w.roll && d.live != map[] ==>
        op.Market? && op.oid == d.nextId && op.side == w.add.side && op.qty == w.marketQty)
      && (d.live != map[] && 45 <= w.roll < 98 && (exists i :: 0 <= i < |w.picks| && w.picks[i] in d.live) ==>
        op.targetId in w.picks)
  {
    hide Allowed, TagOf, Target;
    if d.live != map[] {
      TargetPicked(w.picks, d.live.Keys);
    }
  }

  /** A pick is taken if one is live, and of those the first. */
  lemma {:induction false} TargetPicked(picks: seq<uint64>, live: set<uint64>)
    requires live != {}
    ensures (exists i :: 0 <= i < |picks| && picks[i] in live) ==>
      exists i :: 0 <= i < |picks| && picks[i] == Target(picks, live) && forall j :: 0 <= j < i ==> picks[j] !in live
  {
    if picks != [] && picks[0] !in live {
      TargetPicked(picks[1..], live);
      if exists i :: 0 <= i < |picks| && picks[i] in live {
        var i :| 0 <= i < |picks| && picks[i] in live;
        assert picks[1..][i - 1] in live;
        var k :| 0 <= k < |picks[1..]| && picks[1..][k] == Target(picks[1..], live)
          && forall j :: 0 <= j < k ==> picks[1..][j] !in live;
        assert picks[k + 1] == Target(picks, live);
        forall j | 0 <= j < k + 1
          ensures picks[j] !in live
        {
          assert j > 0 ==> picks[j] == picks[1..][j - 1];
        }
      }
    }
  }

  ghost predicate Tidy(d: Desk, cap: nat) {
    Sound(d.book, cap) && Mirrors(d.live, d.book)
  }

  /** A tracked order can be cancelled, and only it goes. */
  lemma CancelFits(d: Desk, op: PendingOp, cap: nat)
    requires Tidy(d, cap) && op.CancelTarget? && op.targetId in d.live && op == CancelOp(d.live, op.targetId)
    ensures Fits(d.book, op) && Tidy(After(d, op), cap) && After(d, op).live == d.live - {op.targetId}
  {
    var l, e := d.book, d.live[op.targetId];
    SoundUnique(l, cap);
    var k: nat :| RestsAt(l, op.targetId, e, k);
    assert LiveAt(l, e.isAsk, e.price, k, e.handle);
    CancelAt(l, e.isAsk, e.price, k, e.handle);
    AfterCancel(d, op);
    StepKeepsSound(l, CommandOf(op), cap);
    FollowMirrors(d.live, l, CommandOf(op), cap);
  }

  /** Cancelling a cluster takes the live ones of its picks, and no others. */
  lemma {:induction false} ClusterTakes(d: Desk, t: Table, picks: seq<uint64>, cap: nat)
    requires Tidy(d, cap) && d.live.Keys <= t.Keys && forall id :: id in d.live ==> d.live[id] == t[id]
    ensures AfterAll(d, CancelsOf(t, picks, d.live.Keys)).live == d.live - Elements(picks)
    decreases |picks|
  {
    hide Tidy, After;
    CancelsUnfold(t, picks, d.live.Keys);
    if picks == [] {
      assert d.live - Elements(picks) == d.live;
    } else {
      var rest := CancelsOf(t, picks[1..], d.live.Keys - {picks[0]});
      assert Elements(picks) == {picks[0]} + Elements(picks[1..]);
      if picks[0] in d.live {
        var op := CancelOp(t, picks[0]);
        CancelFits(d, op, cap);
        ClusterTakes(After(d, op), t, picks[1..], cap);
        assert After(d, op).live.Keys == d.live.Keys - {picks[0]};
        assert ([op] + rest)[0] == op && ([op] + rest)[1..] == rest;
        assert d.live - {picks[0]} - Elements(picks[1..]) == d.live - Elements(picks);
      } else {
        ClusterTakes(d, t, picks[1..], cap);
        assert d.live.Keys - {picks[0]} == d.live.Keys && [] + rest == rest;
        assert d.live - Elements(picks[1..]) == d.live - Elements(picks);
      }
    }
  }

  /**
   * A cancel plans its cluster: the orders left are those not picked, and handed out last to first the queue
   * cancels each picked order that is live, once, in the order in which they were drawn. No other operation
   * leaves anything in the queue.
   */
  lemma CancelPlansCluster(d: Desk, op: PendingOp, cluster: seq<uint64>, cap: nat)
    requires Tidy(d, cap) && (op.CancelTarget? ==> op.targetId in d.live && op == CancelOp(d.live, op.targetId))
    ensures var p := PlanningAfter(d, op, cluster);
      if op.CancelTarget? then
        var left := d.live - {op.targetId};
        var ids := LiveOnce(cluster, left.Keys);
        && p.desk.live == left - Elements(cluster) && |p.queue| == |ids|
        && forall i :: 0 <= i < |ids| ==> ids[i] in left && p.queue[|ids| - 1 - i] == CancelOp(left, ids[i])
      else p.queue == []
  {
    hide Tidy, AfterAll, After, ClusterOps, LiveOnce, Reverse, CancelOp;
    if op.CancelTarget? {
      CancelFits(d, op, cap);
      var mid := After(d, op);
      ClusterGone(mid, cluster, cap);
      ClusterHandedOut(mid.live, cluster);
    }
  }

  lemma ClusterGone(d: Desk, cluster: seq<uint64>, cap: nat)
    requires Tidy(d, cap)
    ensures AfterAll(d, ClusterOps(d.live, cluster)).live == d.live - Elements(cluster)
  {
    hide Tidy, AfterAll, After, CancelsOf;
    ClusterTakes(d, d.live, cluster, cap);
  }

  lemma ClusterHandedOut(live: Table, cluster: seq<uint64>)
    ensures var queue, ids := Reverse(ClusterOps(live, cluster)), LiveOnce(cluster, live.Keys);
      && |queue| == |ids|
      && forall i :: 0 <= i < |ids| ==> ids[i] in live && queue[|ids| - 1 - i] == CancelOp(live, ids[i])
  {
    hide CancelsOf, LiveOnce, CancelOp;
    CancelsNameLiveOnce(live, cluster, live.Keys);
  }
}
