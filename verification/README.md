# Matching engine verification

A Dafny model of a low-latency limit order book and proofs about it. The book matches incoming
orders against resting ones in price-time priority. It runs on mutable intrusive data: a fixed pool of
order slots with a last-in first-out free list, doubly linked first-in first-out price levels, one
direct-indexed array of 4096 levels a side, and a two-level 64-bit bitmap that finds the next best
price. Handles are pool slots, so a cancel or modify costs one lookup.

The pieces, from the bottom:

- `Types`, `Sequences`: machine widths, results, price order; small sequence idioms.
- `Bits`, `OccupancyTree`: the bitmap on `bv64` words, as a finite set of indices.
- `PriceLevel`, `OrderPool`: the linked queues and the free list, with ghost sequences of what they hold.
- `ArraySideBook`: active set, cached best and lazily retired ghost levels of one side.
- `Ledger`, `LedgerInvariants`: what an engine state means: a queue for every price in use and the
  stack of free slots; every operation as a function on ledgers, and the invariants it keeps.
- `OrderBook`: the engine itself, every operation proved equal to its ledger function.
- `PriceTime`, `Conservation`, `Tracking`, `Runs`, `Handles`: priority, volume, outside tracking, whole
  runs, and what a handle means over time.
- `Reports`: what the results say about handles, refusals, the order that rests and the tags of a plan.
- `Execution`: sequences of commands carried out on the engine, ending where the run of the ledger ends.
- `Reference`, `Refinement`, `Replay`: the naive book of maps and queues, the correspondence with it,
  and the differential harness for all request streams.
- `RingBits`, `RingBuffer`, `PriceLevelPool`, `SideBook`, `CachedSideBook`: the plain ordered map of
  levels, and the second side book, a 16-slot rotating window over a cold ordered map.
- `SideModel`, `SideReplay`: both side books as maps of queues, and the proof that they are interchangeable:
  for every stream of requests they show the same and end with the same orders resting.
- `Plans`, `Workload`, `Tracker`, `Rebuild`, `Planner`: the replay benchmark: what its random choices come to,
  as functions, its warm-up, how long its pool lasts, and its planner, whose dry run must be reproduced by
  pool slots alone on a rebuilt book.

The side is a parameter `isAsk` where the engine has a template. A function with `requires` states
what the engine documents as the caller's duty: prices of resting orders in range, live handles, a free
slot for an order that rests, and for the ring a free level for a new price (counted after those that the
slide releases) and prices small enough that differences do not overflow.
Bit-vector operations are wrapped in one-line functions so that each proof uses only the bits it needs.

Some things the proofs bring out, where names or comments in the sources suggest otherwise:

- `modify_order` with quantity 0 removes the old order and reports `InvalidQuantity`; it is not a no-op.
- A modified order that rests keeps its handle exactly when matching filled no maker completely
  (`ModifyKeepsHandle`); it never needs a spare slot (`ModifyNeedsNoSlot`).
- The engine's book is the array side book; the comment in `order_book.hpp` about maps of lists is stale.
- After `erase_best` the array side book never has an empty best level, but the ring side book can:
  exactly when every level in the window was empty and so is the best one beyond it (`BestAfterErase`);
  `EmptyBestAfterErase` reaches such a side.
- The planner never plans more than one operation at a time, so its final resize discards nothing, and
  its retry branches for handles that are not found are never taken.

## Model

| member | source | states |
|---|---|---|
| OrderBooks.OrderBook.AddLimitOrder | core/matching_engine/src/order_book.cpp:64-117 | result and new book are exactly the sweep of the opposite side followed by resting the remainder in the top free slot; the pointer structure, bitmaps and cached bests still say what the book is, pool slots stay partitioned, and no active bid index, ghosts included, reaches an active ask index |
| OrderBooks.OrderBook.AddMarketOrder | core/matching_engine/src/order_book.cpp:122-147 | the same without a price limit; a remainder is reported as cancelled and never rests |
| OrderBooks.OrderBook.CancelOrder | core/matching_engine/src/order_book.cpp:37-44 | a live handle takes exactly the order it denotes out of its queue and pushes its slot on the free stack |
| OrderBooks.OrderBook.ModifyOrder | core/matching_engine/src/order_book.cpp:49-59 | equals cancelling and then adding under the original id; with quantity 0 the old order is gone and the code is InvalidQuantity |
| OrderBooks.OrderBook.MatchLimit | core/matching_engine/src/order_book.cpp:150-185 | both nested loops terminate and compute the sweep of the book; when quantity is left, the cached best, which may be a ghost, does not cross |
| OrderBooks.OrderBook.MatchMarket | core/matching_engine/src/order_book.cpp:188-217 | the separately written market loops compute the sweep without a limit |
| OrderBooks.OrderBook.DrainLevel | core/matching_engine/src/order_book.cpp:162-178 | the inner loop is a run of sweep steps at one level, and it ends with the level or the quantity exhausted |
| OrderBooks.OrderBook.TradeOnce | core/matching_engine/src/order_book.cpp:163-177 | one round of the inner loop is one step of the sweep and keeps every invariant of the book |
| OrderBooks.OrderBook.EraseAndRelease | core/matching_engine/src/order_book.cpp:173-177 | unlinking and releasing an order moves one slot from one queue to the free stack and disturbs no other chain |
| OrderBooks.OrderBook.Rest | core/matching_engine/src/order_book.cpp:87-111 | the order comes to rest in the slot on top of the stack, youngest at its price, its price active |
| OrderBooks.OrderBook.Advance | core/matching_engine/src/order_book.cpp:180-181 | retiring the drained best level and the ghosts behind it changes no order, and the cached best is then the best price at which orders rest, or the side is empty |
| OrderBooks.OrderBook.LiveLevels | core/matching_engine/include/llme/matching/array_side_book.hpp:59-76 | the levels with orders of the array side are exactly the prices of the ledger, so the best active level with orders is the true best |
| OrderBooks.OrderBook.CachedBest | core/matching_engine/src/order_book.cpp:154-160 | what the cached index proves about the book: no best means an empty side, a ghost best that does not cross means nothing live crosses |
| OrderBooks.OrderBook.constructor | core/matching_engine/include/llme/matching/order_book.hpp:69-70 | a fresh book is the empty ledger over a stack of all its slots, last slot on top |
| Reports.ReportedHandle | core/matching_engine/src/order_book.cpp:64-147 | over every limit, market and modify command: a valid handle is reported exactly when part of the order came to rest; an order of no quantity, and no other, is refused, and the refusal is InvalidQuantity with zero quantities, no trades and the invalid handle; a cancelled remainder is reported exactly by market orders with some left |
| Reports.RestsAsReported | core/matching_engine/src/order_book.cpp:86-117 | what rests is the youngest order at the limit price, with the quantity left over, the timestamp given and the handle reported, under its own id or, for a replacement, the old one; nothing else is added |
| Reports.NaiveRefuses | core/matching_engine/tests/order_book_add_result_gtest.cpp:45-105 | the naive book refuses exactly the orders of no quantity, with the same report written out |
| LedgerInvariants.AddLimitKeeps | core/matching_engine/src/order_book.cpp:64-117 | a limit order keeps the partition of the slots, positive quantities, prices in range and the uncrossed book |
| LedgerInvariants.AddMarketKeeps | core/matching_engine/src/order_book.cpp:122-147 | a market order keeps the same four invariants |
| LedgerInvariants.CancelKeeps | core/matching_engine/src/order_book.cpp:37-44 | a cancel keeps the same four invariants |
| LedgerInvariants.ModifyKeeps | core/matching_engine/src/order_book.cpp:49-59 | a modify keeps the same four invariants |
| LedgerInvariants.SweepKeeps | core/matching_engine/src/order_book.cpp:150-185 | matching keeps the partition, activates no price, and stops only where it must |
| LedgerInvariants.NothingCrosses | core/matching_engine/src/order_book.cpp:26-30 | where a sweep stops with quantity left, no price of the opposite side crosses the limit |
| LedgerInvariants.CancelAt | core/matching_engine/src/order_book.cpp:37-44 | a handle denotes one place only, so the order removed is the one the handle names |
| Runs.ReachableIsSound | core/matching_engine/src/order_book.cpp:37-217 | after any run of allowed operations from the empty book: every slot in exactly one place, orders positive and at their own price, no bid meets an ask |
| Runs.RunKeepsSound | core/matching_engine/src/order_book.cpp:37-217 | the same from any sound book |
| Execution.ExecuteRun | core/matching_engine/src/order_book.cpp:37-217 | carrying out a sequence of commands leaves the engine itself in the state the run of the ledger ends in, intact, and reports result by result what the run reports |
| Execution.RunFromEmpty | core/matching_engine/include/llme/matching/order_book.hpp:69-70 | from a fresh engine, after any allowed sequence: the results of the run one by one, the pointer structure intact and its state the reachable one, every pool slot in exactly one place, no bid meeting an ask |
| Runs.StepKeepsSound | core/matching_engine/src/order_book.cpp:37-217 | one operation of any kind keeps soundness |
| PriceTime.FlatSorted | core/matching_engine/include/llme/matching/types.hpp:13-28 | a side listed in priority order: better prices first, and never a worse one before a better one |
| PriceTime.FlatHoldsQueues | core/matching_engine/include/llme/matching/price_level.hpp:41-48 | restricted to one price that list is the queue of the price, in order of arrival |
| PriceTime.SweepIsFillList | core/matching_engine/src/order_book.cpp:150-185 | the two nested loops trade exactly as one pass over the list in priority order: same trades, same remainder, same orders left, slots freed in that order |
| PriceTime.FillListFromFront | core/matching_engine/src/order_book.cpp:162-178 | the makers are the first ones of the list, all but the last filled completely, the rest untouched |
| PriceTime.FillListCovers | core/matching_engine/src/order_book.cpp:162-178 | no shorter prefix would do: it covers the quantity, or ends where the list or the limit does |
| PriceTime.PriceTimePriority | core/matching_engine/src/order_book.cpp:150-185 | both together for the book: matching consumes the shortest crossing prefix in price-time order |
| PriceTime.SweepStops | core/matching_engine/src/order_book.cpp:154-158 | matching ends exactly when the quantity, the side or the crossing prices are exhausted |
| PriceTime.NoLimit | core/matching_engine/src/order_book.cpp:150-217 | a limit that every opposite price crosses trades exactly as no limit |
| PriceTime.MarketIsLimitWithoutRest | core/matching_engine/src/order_book.cpp:122-147 | a market order has the trades and fills of a limit order priced through the whole book, and leaves that book minus the rested remainder |
| Conservation.SweepVolume | core/matching_engine/src/order_book.cpp:165-171 | filled quantity is the sum of the trades and exactly what the opposite side loses; nothing wraps |
| Conservation.StepVolume | core/matching_engine/src/order_book.cpp:37-217 | filled plus remaining is the quantity asked for, and resting volume changes by posted minus traded minus removed |
| Conservation.RunVolume | core/matching_engine/src/order_book.cpp:37-217 | over a whole run resting volume is what was posted minus maker fills minus what cancels and modifies removed |
| Handles.FollowMirrors | core/matching_engine/src/order_book.cpp:64-117 | a table of live orders updated from the results alone lists, after any operation, exactly the orders of the book with their quantities and handles |
| Handles.RunMirrors | core/matching_engine/src/order_book.cpp:37-217 | the same over whole runs |
| Handles.HandleKept | core/matching_engine/src/order_book.cpp:86-117 | an operation on other orders changes of a resting order only its quantity, by exactly the fills reported for its id |
| Handles.KeptUntilUsedUp | core/matching_engine/src/order_book.cpp:86-117 | over any run that does not cancel or modify it, an order keeps handle, side and price, its quantity reduced by the sum of its reported fills; it leaves exactly when those fills reach its quantity |
| Handles.QueueOrderKept | core/matching_engine/src/order_book.cpp:37-217 | two orders of one queue that stay do not change places in one operation |
| Handles.RunKeepsQueueOrder | core/matching_engine/src/order_book.cpp:37-217 | two orders of one queue that stay never change places, over any run |
| Handles.ModifyNeedsNoSlot | core/matching_engine/src/order_book.cpp:49-59 | a modify lacks no pool slot in any sound book: it can be carried out exactly when its handle is live and what rests of it is at a price in range |
| Handles.ModifyKeepsHandle | core/matching_engine/src/order_book.cpp:49-59 | a replacement that rests gets the very same handle exactly when its matching filled no maker completely |
| Tracking.MirrorSweep | benchmark/src/hft/hft_macro_workload.hpp:796-817 | applying the trades of a match to the table follows the match; every maker is found with enough quantity |
| Tracking.OneMirror | benchmark/src/hft/hft_macro_workload.hpp:303-304 | only one table lists exactly the orders of a book, so the tables are a function of it |
| Reference.ReferenceOrderBook.AddLimitOrder | core/matching_engine/tests/order_book_add_result_gtest.cpp:45-77 | the naive book of queues computes its limit-order specification |
| Reference.ReferenceOrderBook.AddMarketOrder | core/matching_engine/tests/order_book_add_result_gtest.cpp:79-105 | the naive book computes its market-order specification |
| Reference.ReferenceOrderBook.ModifyOrder | core/matching_engine/tests/order_book_add_result_gtest.cpp:107-114 | modify by id is cancel by id, then add |
| Reference.ReferenceOrderBook.CancelOrder | core/matching_engine/tests/order_book_add_result_gtest.cpp:116-118 | the first order with the id, bids before asks, best level first, leaves its queue; an emptied level leaves the map; found exactly when some queue held the id |
| Reference.ReferenceOrderBook.CancelFromBook | core/matching_engine/tests/order_book_add_result_gtest.cpp:189-206 | the search over levels and queues finds the first occurrence or proves there is none |
| Reference.ReferenceOrderBook.MatchLimit | core/matching_engine/tests/order_book_add_result_gtest.cpp:121-138 | its matching loop computes the naive sweep |
| Reference.ReferenceOrderBook.MatchMarket | core/matching_engine/tests/order_book_add_result_gtest.cpp:140-148 | its market loop computes the naive sweep without a limit |
| Reference.ReferenceOrderBook.MatchLevel | core/matching_engine/tests/order_book_add_result_gtest.cpp:150-176 | one level of matching is a run of naive sweep steps |
| Refinement.SweepsAgree | core/matching_engine/tests/order_book_add_result_gtest.cpp:121-176 | forgetting slots and timestamps turns the sweep of the engine into that of the naive book, trade for trade |
| Refinement.LimitAgrees | core/matching_engine/tests/order_book_add_result_gtest.cpp:45-77 | limit orders: same code, quantities, trades and handle validity, and the books still correspond |
| Refinement.MarketAgrees | core/matching_engine/tests/order_book_add_result_gtest.cpp:79-105 | market orders: same code, quantities and trades, never a handle, and the books still correspond |
| Refinement.CancelAgrees | core/matching_engine/tests/order_book_add_result_gtest.cpp:116-118 | cancelling by handle and cancelling by the id it denotes are the same |
| Refinement.ModifyAgrees | core/matching_engine/tests/order_book_add_result_gtest.cpp:107-114 | the same for modify |
| Replay.ResultHarness.Play | core/matching_engine/tests/order_book_add_result_gtest.cpp:245-348 | any one fitting request carries out its command on the real engine and the request by id on the naive book, gives the same result on both and keeps them in correspondence |
| Replay.ResultHarness.ReplayAll | core/matching_engine/tests/order_book_add_result_gtest.cpp:219-348 | for every stream of fitting requests the results of the engine are those of the run of its commands, the results of the naive book are its own answers to the requests one after the other, and they are equal one by one: ghosts, bitmap and pool are unobservable |
| Replay.ReplayFromEmpty | core/matching_engine/tests/order_book_add_result_gtest.cpp:219-348 | the same closed: two books made empty, any stream that fits the capacity; engine results those of the commands on an empty ledger, naive results those of a naive run from an empty book, equal one by one |
| ArraySideBooks.ArraySideBook.GetOrCreate | core/matching_engine/include/llme/matching/array_side_book.hpp:46-57 | activates exactly the price asked for; the cached best remains the most aggressive active index, and levels with orders remain active |
| ArraySideBooks.ArraySideBook.EraseBest | core/matching_engine/include/llme/matching/array_side_book.hpp:59-76 | retires only levels without orders; then the best level is the most aggressive of all levels that hold orders, or none holds any |
| ArraySideBooks.ArraySideBook.ClearGhostBestLevel | core/matching_engine/include/llme/matching/array_side_book.hpp:113-124 | the clearing loop terminates at the most aggressive level that holds orders, or with none active; levels with orders remain active |
| ArraySideBooks.ArraySideBook.PriceOf | core/matching_engine/include/llme/matching/array_side_book.hpp:100-104 | inverse of the index of a price |
| ArraySideBooks.ArraySideBook.constructor | core/matching_engine/include/llme/matching/array_side_book.hpp:19-27 | 4096 distinct empty levels, none active |
| OccupancyTrees.OccupancyTree.Set | core/matching_engine/src/occupancy_tree.cpp:20-35 | adds exactly one member to the set the two bitmap levels represent; the summary bit of a word is set if and only if the word is non-zero |
| OccupancyTrees.OccupancyTree.Clear | core/matching_engine/src/occupancy_tree.cpp:38-54 | removes exactly one member |
| OccupancyTrees.OccupancyTree.Empty | core/matching_engine/include/llme/matching/occupancy_tree.hpp:26-28 | the summary word is zero exactly when the set is empty |
| OccupancyTrees.OccupancyTree.FindNextSet | core/matching_engine/src/occupancy_tree.cpp:58-95 | the least member at or above the position, with no internal assertion failing |
| OccupancyTrees.OccupancyTree.FindPrevSet | core/matching_engine/src/occupancy_tree.cpp:98-136 | the greatest member at or below the position |
| OccupancyTrees.OccupancyTree.NextBest | core/matching_engine/include/llme/matching/occupancy_tree.hpp:19-24 | after the best was cleared, the most aggressive member left |
| OccupancyTrees.SetFirst | core/matching_engine/src/occupancy_tree.cpp:24-29 | setting one bit of one word adds one member and no other |
| OccupancyTrees.ClearFirst | core/matching_engine/src/occupancy_tree.cpp:42-48 | clearing one bit of one word removes one member and no other |
| OccupancyTrees.RaiseSummary | core/matching_engine/src/occupancy_tree.cpp:31-34 | setting the summary bit of a word that just became non-zero restores the summary |
| OccupancyTrees.LowerSummary | core/matching_engine/src/occupancy_tree.cpp:50-53 | clearing the summary bit of a word that just became zero restores the summary |
| OccupancyTrees.NextHere | core/matching_engine/src/occupancy_tree.cpp:65-75 | a set bit at or above the position in the same word is the least member from there |
| OccupancyTrees.NextLater | core/matching_engine/src/occupancy_tree.cpp:80-94 | otherwise the first bit of the first later non-zero word is |
| OccupancyTrees.PrevEarlier | core/matching_engine/src/occupancy_tree.cpp:120-135 | the mirror image toward lower positions |
| Bits.HighBits | core/matching_engine/include/llme/matching/occupancy_tree.hpp:40-43 | masking with all ones from bit j keeps exactly the bits from j up |
| Bits.LowBits | core/matching_engine/include/llme/matching/occupancy_tree.hpp:45-48 | masking with all ones to bit j keeps exactly the bits to j, bit 63 included |
| Bits.CountrZero | core/matching_engine/src/occupancy_tree.cpp:71 | the count of trailing zeros is the least set bit |
| Bits.Top | core/matching_engine/src/occupancy_tree.cpp:111 | 63 minus the count of leading zeros is the greatest set bit |
| PriceLevels.PriceLevel.PushBack | core/matching_engine/include/llme/matching/price_level.hpp:41-48 | the linked chain, correct in both directions, grows by the order at its end |
| PriceLevels.PriceLevel.Erase | core/matching_engine/include/llme/matching/price_level.hpp:50-57 | exactly that order leaves the chain, the others keep their order and their links |
| OrderPools.OrderPool.constructor | core/matching_engine/include/llme/matching/order_pool.hpp:17-22 | the free list is the stack of all slots, last slot on top |
| OrderPools.OrderPool.Acquire | core/matching_engine/include/llme/matching/order_pool.hpp:24-34 | pops the top of the stack, or reports the invalid handle when the stack is empty |
| OrderPools.OrderPool.Release | core/matching_engine/include/llme/matching/order_pool.hpp:35-38 | pushes the slot on the stack; the list stays acyclic |
| OrderPools.OrderPool.IndexOf | core/matching_engine/include/llme/matching/order_pool.hpp:49 | the position of a slot, from which resolving gets it back |
| RingBits.WrapIndex | core/matching_engine/include/llme/matching/ring_buffer.hpp:116-118 | masking the sum of anchor and cast rank is the Euclidean remainder modulo 16, for negative ranks too |
| RingBits.InWindow | core/matching_engine/include/llme/matching/ring_buffer.hpp:104-106 | one unsigned comparison decides 0 <= r < 16 |
| RingBits.NextLiveOffset | core/matching_engine/include/llme/matching/ring_buffer.hpp:182-185 | rotation and trailing-zero count give the least offset whose bit is set, or -1 exactly when none is |
| RingBits.RotateBits | core/matching_engine/include/llme/matching/ring_buffer.hpp:183 | bit k of the rotated mask is bit k plus anchor, modulo 16, of the mask |
| RingBuffers.RingBuffer.NextLive | core/matching_engine/include/llme/matching/ring_buffer.hpp:182-185 | the least offset from the anchor at which a slot holds a level, or -1 when no slot does |
| RingBuffers.RingBuffer.Rank | core/matching_engine/include/llme/matching/ring_buffer.hpp:90-95 | negative exactly for a price better than the best and zero exactly at the best; no overflow for bounded prices |
| RingBuffers.RingBuffer.IdxOf | core/matching_engine/include/llme/matching/ring_buffer.hpp:116-118 | the slot a rank belongs to |
| RingBuffers.RingBuffer.Empty | core/matching_engine/include/llme/matching/ring_buffer.hpp:121 | no live bit exactly when no slot holds a level |
| RingBuffers.RingBuffer.Insert | core/matching_engine/include/llme/matching/ring_buffer.hpp:142-148 | one slot changes; live bit, price and level stay in agreement |
| RingBuffers.RingBuffer.Remove | core/matching_engine/include/llme/matching/ring_buffer.hpp:154-162 | the same when clearing a slot |
| RingBuffers.RingBuffer.Evict | core/matching_engine/include/llme/matching/ring_buffer.hpp:168-172 | the same, handing the level out |
| PriceLevelPools.PriceLevelPool.constructor | core/matching_engine/include/llme/matching/pricelevel_pool.hpp:29-40 | capacity many distinct slots, each on the free list once |
| PriceLevelPools.PriceLevelPool.Acquire | core/matching_engine/include/llme/matching/pricelevel_pool.hpp:42-49 | pops an empty, well-linked level |
| PriceLevelPools.PriceLevelPool.Release | core/matching_engine/include/llme/matching/pricelevel_pool.hpp:55-65 | pushes the slot that embeds the level; the level itself does not change |
| SideBooks.SideBook.GetOrCreate | core/matching_engine/include/llme/matching/order_book.hpp:44-47 | the plain ordered map: the level of a price, created empty if missing; the queues become those of the model of a map |
| SideBooks.SideBook.EraseBest | core/matching_engine/include/llme/matching/order_book.hpp:49-51 | exactly the best price leaves the map; the queues become those of the model of a map, and the resting orders do not change |
| SideBooks.SideBook.BestPrice | core/matching_engine/include/llme/matching/order_book.hpp:36-38 | the most aggressive price of the map |
| SideBooks.ShedsKeepsResting | core/matching_engine/include/llme/matching/cached_side_book.hpp:14-31 | losing empty levels is not observable, and every price with orders keeps its level object |
| SideBooks.PushOn | core/matching_engine/src/order_book.cpp:110-111 | an order linked into a level from outside goes behind the queue of that price, and no other queue changes |
| SideBooks.EraseFrom | core/matching_engine/src/order_book.cpp:40 | an order unlinked from outside leaves the queue of its price, and no other queue changes |
| CachedSideBooks.CachedSideBook.BestIsAtAnchor | core/matching_engine/include/llme/matching/cached_side_book.hpp:18-24 | the anchor slot holds the most aggressive price of both tiers; an empty ring means an empty side |
| CachedSideBooks.CachedSideBook.GetOrCreate | core/matching_engine/include/llme/matching/cached_side_book.hpp:125-150 | the levels afterwards are exactly those before, minus the empty ones that leave the window when a better price moves it, plus the level asked for; a free level is needed only if the pool is full after those are released; every tier and pool invariant is kept |
| CachedSideBooks.CachedSideBook.HotGetOrCreate | core/matching_engine/include/llme/matching/cached_side_book.hpp:135-142 | a price in the window resolves to the level in its slot or to a new one in the vacant slot; nothing else changes |
| CachedSideBooks.CachedSideBook.PoolConserved | core/matching_engine/include/llme/matching/cached_side_book.hpp:25-31 | free levels and levels in use always add up to the pool: none is leaked, shared or released twice |
| CachedSideBooks.SlidQueues | core/matching_engine/include/llme/matching/cached_side_book.hpp:199-233 | what a slide keeps, in terms of queues, is what the model of the side keeps |
| CachedSideBooks.LeadingQueues | core/matching_engine/include/llme/matching/cached_side_book.hpp:153-196 | what an erase removes, in terms of queues, is what the model of the side removes |
| CachedSideBooks.CachedSideBook.EraseBest | core/matching_engine/include/llme/matching/cached_side_book.hpp:153-196 | removes exactly the leading run of empty levels within the window, keeps the resting orders, restores the anchor and the cold boundary, and leaves the queues of the model |
| CachedSideBooks.CachedSideBook.ReanchorTo | core/matching_engine/include/llme/matching/cached_side_book.hpp:199-233 | the contents lose exactly the empty levels that fall out of the window of the better best and gain the new level; what falls out with orders is parked in the cold map |
| CachedSideBooks.CachedSideBook.RetireFarEnd | core/matching_engine/include/llme/matching/cached_side_book.hpp:213-229 | clears exactly the slots before the anchor and no other; of their levels exactly the empty ones go back to the pool, and all their prices leave the window |
| CachedSideBooks.CachedSideBook.FlushAllToCold | core/matching_engine/include/llme/matching/cached_side_book.hpp:236-250 | empties the ring: exactly its empty levels go back to the pool, the others go cold, and all cold keys lie beyond the new window |
| CachedSideBooks.CachedSideBook.PromoteAll | core/matching_engine/include/llme/matching/cached_side_book.hpp:190-195 | promotes exactly until the best cold price is out of the window; each target slot is vacant |
| CachedSideBooks.CachedSideBook.PromoteCold | core/matching_engine/include/llme/matching/cached_side_book.hpp:102-112 | the best cold price moves to its own vacant slot |
| CachedSideBooks.CachedSideBook.Advance | core/matching_engine/include/llme/matching/cached_side_book.hpp:162-188 | the walk releases empty levels in order of rank and stops at the first with orders, at the best cold level, or with an empty side |
| CachedSideBooks.CachedSideBook.ColdGetOrCreate | core/matching_engine/include/llme/matching/cached_side_book.hpp:91-95 | a price beyond the window is in the cold map or in neither tier |
| CachedSideBooks.CachedSideBook.Materialize | core/matching_engine/include/llme/matching/cached_side_book.hpp:80-84 | a level moves from the free list to a vacant slot; free list, ring and cold map still partition the pool |
| CachedSideBooks.CachedSideBook.Drop | core/matching_engine/include/llme/matching/cached_side_book.hpp:158-159 | an empty level goes back to the free list once; the partition is kept and no level is altered |
| CachedSideBooks.CachedSideBook.Rest | core/matching_engine/include/llme/matching/cached_side_book.hpp:125-150 | get-or-create followed by an outside push: contents and queues are exactly those of the model step, and the resting orders change at that price only |
| CachedSideBooks.CachedSideBook.Push | core/matching_engine/src/order_book.cpp:110-111 | an outside push changes one queue, at its end, and none of the invariants of the two tiers |
| CachedSideBooks.CachedSideBook.Unlink | core/matching_engine/src/order_book.cpp:40 | an outside erase takes one order out of one queue, which may leave a level empty, and keeps the invariants |
| CachedSideBooks.CachedSideBook.SkipGhosts | core/matching_engine/src/order_book.cpp:154-181 | erasing while nothing rests at the best ends with the queues of the model, loses only levels without orders and changes no other level object, and ends at the best resting price or an empty side |
| SideBooks.SideBook.SkipGhosts | core/matching_engine/src/order_book.cpp:154-181 | on the plain map too it keeps the resting orders and ends at the best resting price or an empty map |
| CachedSideBooks.CachedSideBook.BestPrice | core/matching_engine/include/llme/matching/cached_side_book.hpp:40-41 | the cached best is the most aggressive price of both tiers |
| CachedSideBooks.CachedSideBook.BestLevel | core/matching_engine/include/llme/matching/cached_side_book.hpp:43-44 | the level at the anchor is the level of that price |
| CachedSideBooks.BestAfterErase | core/matching_engine/include/llme/matching/cached_side_book.hpp:162-188 | after erasing the best the new best level is empty exactly when every level in the window was and so is the best one beyond it |
| SideReplay.EmptyBestAfterErase | core/matching_engine/include/llme/matching/cached_side_book.hpp:185-195 | a side its caller can reach, asks 100 and 200 rested and unlinked, whose best level is empty right after an erase |
| CachedSideBooks.FrameAdvance | core/matching_engine/include/llme/matching/cached_side_book.hpp:178-180 | moving the anchor forward to the next live slot keeps every live slot at anchor plus rank modulo 16 |
| CachedSideBooks.FrameRetreat | core/matching_engine/include/llme/matching/cached_side_book.hpp:210-229 | moving it back does too, once the slots before it are vacant |
| CachedSideBooks.FrameVacancy | core/matching_engine/include/llme/matching/cached_side_book.hpp:135-142 | a live slot where a price of the window belongs holds that very price, so the hit test is safe |
| CachedSideBooks.CachedSideBook.constructor | core/matching_engine/include/llme/matching/cached_side_book.hpp:72 | an empty side over a full pool of capacity many levels, all of its parts new |
| SideModel.StepShown | core/matching_engine/include/llme/matching/cached_side_book.hpp:14-31 | for either storage, what shows after a request and what the caller sees are what the request does to bare queues without any levels; empty levels kept, shed or erased never matter |
| SideModel.SkippedUnseen | core/matching_engine/src/order_book.cpp:154-181 | for either storage, skipping ghosts ends without one and loses no order |
| SideModel.RunShown | core/matching_engine/include/llme/matching/cached_side_book.hpp:14-31 | the same over every stream of requests, from any side |
| SideModel.SidesAgree | core/matching_engine/include/llme/matching/cached_side_book.hpp:14-31 | ring and plain map are interchangeable: from sides that show the same, every stream shows its caller the same and ends in sides that show the same |
| SideReplay.PlayRing | core/matching_engine/include/llme/matching/cached_side_book.hpp:125-196 | one request on the ring side book, whatever it is, leaves the queues of ids its model says, in an intact book |
| SideReplay.PlayPlain | core/matching_engine/include/llme/matching/order_book.hpp:31-52 | one request on the plain side book leaves the queues of ids its model says |
| SideReplay.RunRing | core/matching_engine/include/llme/matching/cached_side_book.hpp:125-196 | from an empty ring side book, the whole stream shows and leaves what the model says |
| SideReplay.RunPlain | core/matching_engine/include/llme/matching/order_book.hpp:31-52 | the same for the plain one |
| SideReplay.ReplaySides | core/matching_engine/include/llme/matching/cached_side_book.hpp:14-31 | closed: for every stream of creates, rests, outside erases, erasures of a drained best and skips that fits the pool, an empty ring side book and an empty plain one show the same best prices and next orders and end with the same ids resting at the same prices in the same order |
| SideReplay.SpellsStep | core/matching_engine/include/llme/matching/cached_side_book.hpp:125-196 | a step on queues of orders is the step on the queues of their ids |
| Trackers.Tracker.ApplyTradeFills | benchmark/src/hft/hft_macro_workload.hpp:796-817 | both tables follow the trades in step, and the per-price counts with them |
| Trackers.Tracker.TrackRemove | benchmark/src/hft/hft_macro_workload.hpp:775-794 | forgetting an order lowers the count of its price by one and drops a count that reaches zero |
| Trackers.Tracker.TrackAdd | benchmark/src/hft/hft_macro_workload.hpp:762-773 | the tables gain one entry and one count |
| Trackers.Tracker.FollowResult | benchmark/src/hft/hft_macro_workload.hpp:565-571 | fills and rested remainder of one operation, together, as the book made them |
| Planners.TrackedAreQueued | benchmark/src/hft/hft_macro_workload.hpp:762-773 | as many tracked ids at a price as orders in its queue |
| Planners.Planner.LevelTracked | benchmark/src/hft/hft_macro_workload.hpp:854-860 | a price has a count exactly when the book has orders there, and the count is the queue length |
| Rebuilds.BuildBook | benchmark/src/hft/hft_macro_workload.hpp:825-847 | rebuilding from the tables rests every order without a trade, and gives the same book each time |
| Rebuilds.RebuiltInIdOrder | benchmark/src/hft/hft_macro_workload.hpp:829-844 | in a rebuilt book every queue is in order of id and every order has its id for a timestamp: ids that came first still trade first |
| Rebuilds.MirrorIsTradable | benchmark/src/hft/hft_macro_workload.hpp:159-160 | tables that mirror a reachable book can be rebuilt |
| Rebuilds.RestsWhole | benchmark/src/hft/hft_macro_workload.hpp:839-844 | an order that crosses nothing rests whole in the top slot |
| Plans.FaithfulExtends | benchmark/src/hft/hft_macro_workload.hpp:508-526 | a faithful plan stays faithful when an operation that fits its end is appended |
| Plans.FaithfulSplits | benchmark/src/hft/hft_macro_workload.hpp:172-175 | a prefix of a faithful plan is faithful |
| Plans.StepTakesOneSlot | benchmark/src/hft/hft_macro_workload.hpp:129-130 | no operation ends up with more pool slots than before, except a limit order with one more; a cancel gives one back |
| Plans.RunTakesOneSlotEach | benchmark/src/hft/hft_macro_workload.hpp:129-130 | a run takes at most one slot a limit order |
| Plans.PoolLasts | core/matching_engine/include/llme/matching/order_pool.hpp:24-34 | a pool with a free slot for every limit order to come is never exhausted: from any sound book the whole run can be carried out, nothing being assumed of the pool on the way |
| Plans.AskedIsAllowed | core/matching_engine/src/order_book.cpp:86-94 | a free slot is all that a limit order can lack, and no other operation lacks one |
| Plans.ChosenPoolLasts | benchmark/src/hft/hft_macro_workload.hpp:129-156 | warm-up, batch and 50000 slots suffice for any seeding and warm-up whose handles are live and prices in range: no operation ever lacks a slot, more than a batch of slots is free at its end, and the tables reached leave the rebuilt book a slot for every operation of the batch |
| Planners.Planner.LimitBook | benchmark/src/hft/hft_macro_workload.hpp:551-564 | the dry run carries the order out, and the scenario tag says rightly whether it joined a price in use |
| Reports.TagMeans | benchmark/src/hft/hft_macro_workload.hpp:557-564 | an add tagged as joining a level rested whole behind at least one other order at its price, one tagged as opening a level rested whole and alone, and the unmeasured ones traded |
| Planners.Planner.CancelLive | benchmark/src/hft/hft_macro_workload.hpp:586-625 | the tracked handle is live and denotes the target: the retry branches are never taken |
| Planners.Planner.ModifyLive | benchmark/src/hft/hft_macro_workload.hpp:646-690 | the same for modify, whose target keeps its id in the tables |
| Planners.Planner.MarketLive | benchmark/src/hft/hft_macro_workload.hpp:698-728 | the same for market orders |
| Planners.Planner.EnqueueClusterPending | benchmark/src/hft/hft_macro_workload.hpp:1016-1083 | the live ones among the picks, each once and in the order drawn, are cancelled at once on the dry-run book; the queue holds exactly these cancels back to front |
| Planners.Planner.GeneratePendingOne | benchmark/src/hft/hft_macro_workload.hpp:508-526 | one draw changes plan, dry-run book, tables, next id and queue exactly as the function of the draw says: the last queued cancel is handed out, or the operation rolled is carried out and planned, with its cluster if it is a cancel; base book after the plan and the reversed queue stays the dry-run book |
| Planners.Planner.PlanRolled | benchmark/src/hft/hft_macro_workload.hpp:521-526 | the operation planned is the one rolled, and the queue is then the cluster of a cancel or empty |
| Workloads.RolledIs | benchmark/src/hft/hft_macro_workload.hpp:521-526 | kind and data of what a draw comes to: below 45 or with nothing live an add, below 93 a cancel, below 98 a modify, else a market order, with the drawn side, price, quantity and next id, targets live and under their tracked handles |
| Workloads.TargetPicked | benchmark/src/hft/hft_macro_workload.hpp:994-1013 | the first live one of the picks is the target, whenever one of them is live |
| Workloads.CancelPlansCluster | benchmark/src/hft/hft_macro_workload.hpp:586-631 | a cancel takes from the tables its target and exactly the picked orders of its cluster, and what is handed out next are the cancels of the live picks, each once, in the order drawn; no other operation leaves anything queued |
| Workloads.OneMoreOnce | benchmark/src/hft/hft_macro_workload.hpp:1027-1068 | each further pick of a cluster adds itself at the end, if it is live and was not picked before |
| Planners.Planner.SelectCancelTarget | benchmark/src/hft/hft_macro_workload.hpp:974-1014 | the target its picks come to: the first live one, failing that some live order, and 0 when there is none |
| Planners.Planner.Plan | benchmark/src/hft/hft_macro_workload.hpp:172-175 | the batch is exactly the function of the stream of draws, one operation a draw, so the final resize discards nothing; book, tables, ids and queue end as that function says |
| Planners.ExecuteAll | benchmark/src/hft/hft_macro_workload.hpp:730-760 | replaying a faithful plan on its base book, every operation names the live order it was planned for and succeeds |
| Planners.SetupAndReplay | benchmark/src/hft/hft_macro_workload.hpp:159-181 | for every stream of random choices: the batch planned on one rebuilt book is the function of the choices, replays on another without a failure, and leaves that book as planned |
| Planners.Planner.GenerateAndExecuteOne | benchmark/src/hft/hft_macro_workload.hpp:494-506 | one warm-up event: which operation is carried out, and book, tables, next id and cluster queue after it, are the function of the event: a queued cancel if its order is still live, else the operation rolled, the last queued id gone either way, the live picks of a cancel appended |
| Planners.Planner.CancelQueued | benchmark/src/hft/hft_macro_workload.hpp:495-499 | the last queued id is taken off; its order is cancelled exactly if it is still live |
| Workloads.OneMoreAmong | benchmark/src/hft/hft_macro_workload.hpp:1085-1101 | each further pick of a cluster adds itself to the queue, if it is live, however often it was picked |
| Planners.Planner.DoCancel | benchmark/src/hft/hft_macro_workload.hpp:901-914 | a tracked order is cancelled through its handle, which is always live, and the picks of its cluster still live then join the queue in the order drawn; for an order that is gone nothing changes |
| Planners.Planner.WarmUp | benchmark/src/hft/hft_macro_workload.hpp:149-156 | for every stream of random choices: the operations carried out, and book, tables, ids and queue at the end, are exactly the function of the choices; each fits, takes at most one slot and adds at most one tracked order |
| Planners.WarmUpTables | benchmark/src/hft/hft_macro_workload.hpp:127-159 | from an empty book, the tables kept are those the random choices come to, and they can be rebuilt |
| Planners.WarmUpIsTradable | benchmark/src/hft/hft_macro_workload.hpp:158-160 | the tables of any warm-up run on a book of the chosen size can be rebuilt, with a slot to spare for every operation of the batch |
| Planners.WarmUpAndReplay | benchmark/src/hft/hft_macro_workload.hpp:127-181 | the whole set-up from an empty book of the chosen size and the timed run, for every stream of random choices: the tables are those of the warm-up, the batch is the function of its choices on the book rebuilt from them, nothing runs out of slots, every operation succeeds, and the replay ends in the planned book |

## Left out

- Timestamps take part only as stored data; no result depends on them, and the naive book drops them.
- Stale handles, out-of-range prices and an exhausted pool when an order rests: the caller's duty in the source, preconditions here.
- `DuplicateOrderId`, `UnknownOrderId` and `PendingCancelExists` are declared but never produced.
- Prefetching, inlining and branch hints, latency claims, and the move operations of `PriceLevel`.
- The cast from a price level to its pool slot is an ownership map from level to slot; memory layout is not modelled.
- Bit positions within a 64-bit word are taken with a remainder where `OccupancyTree` masks with 63; the ring's masking is modelled on bit vectors.
- The loop bodies that both matching loops repeat are shared methods (`MatchBest`, `DrainLevel`, `TradeOnce`), and adds of warm-up and planning share `LimitLive`, cancels `CancelLive`, modifies `ModifyLive`, market orders `MarketLive` (fragments of the class: `CancelOne`, `CancelQueued`, `CancelPicked`, `ModifyPicked`, `ExecuteRolled`, `Seed`, `RunEvents`, `PlanRolled`, `HandOut`, `PlanCancel`, `PlanModify`, `CancelFirst`, `CancelCluster`, `CancelPick`, `QueueBackToFront`, `Record`, `PutLast`); shared too are fragments of `CachedSideBook` (`Locate`, `HotGetOrCreate`, `JumpTo`, `SlideTo`, `Retire`, `RetireOne`, `RetireBehind`, `ResetRing`, `Drop`, `GiveBack`, `EraseGhost`, `DropLeading`, `CenterOn`, `Advance`, `PullFromCold`).
- Ordered maps are maps with a most-aggressive-key function, so iteration order is that of the keys and insertion cost is not modelled.
- `SideBook` and `CachedSideBook` keep levels as objects, and an outside push or erase is given as `Push` and `Unlink`; the engine of `OrderBook` uses `ArraySideBook` alone, as the source does.
- The capacity of the ring's level pool is a parameter; the source fixes it at 100000.
- The planner's random generators, probability tables and distances to the best quote: every draw of warm-up and batch is an arbitrary choice, including which live orders a cancel, modify or cluster picks; prices drawn out of range are excluded. A target is the first live pick, so picks can make it any live order; only when no pick is live is it a fixed one, the smallest id.
- The re-centring of the planner's best quotes after the warm-up, which only feeds the random prices.
- The planner's list of candidate ids and its compaction, which only feed the random choice of a target.
- The attribution sidecar and its shadow bitmap, which are not copies of the engine's bitmap.
- Benchmark timing, performance counters, command lines, CSV output, plotting and shell scripts.
- The planner's cluster roll of 15 in 100 is part of the arbitrary picks, an empty cluster standing for no roll.
