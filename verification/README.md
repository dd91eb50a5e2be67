# TradeFeed, modelled and proved in Dafny

TradeFeed is a single-symbol limit order book and matching engine. This project models its core in Dafny and proves what
the design relies on:

* **The order book.** `OrderBook.OrderBook` is the concrete book: price-indexed intrusive lists, a three-tier occupancy
  bitset per side, a direct-address id table, a pooled order arena with a LIFO free list, and cached best prices. Every
  call is proved to act on its abstract value exactly as the pure book of `BookSpec` does. That specification holds no
  bitset, list, level or cached price: it is two queues sorted by price then arrival, an id index, a free list and a
  recursive match. It is exact even when ids collide, so the proofs need no assumption on ids. `IdealBook` then drops
  index and free list as well, and `BookView.Refines` states the whole refinement: while live ids are distinct modulo
  2^20, the concrete book over any sequence of calls returns, fills, holds and quotes what the plain two-queue book does.
* **The ring.** `RingSteps` is the step machine of the lock-free single-producer single-consumer ring: every load, buffer
  access and store of `push` and `pop` is one step, the threads interleave arbitrarily, and an acquire load may return
  any value between the last one seen and the current one. Order, capacity and exclusive slots are proved of every
  interleaving, without a bound on the number of pushes. `SpscRing.SpscRing` is the code itself, each call proved to be a
  schedule of that machine.
* **The engine over the ring.** `MatchingEngine.MatchingEngine` wraps the book with ids, match numbers and replies.
  `EngineThread` composes it with the ring and proves schedule independence; `EngineIds` proves that the ids the engine
  assigns keep the id table complete for 2^20 new orders and, beyond, as long as resting orders are recent. `Exchange`
  creates books, engines and rings and draws the conclusions for them. `CallDetails` and `Requests` say field by field, in
  numbers and without the functions that build them, what each call and each message does and what is answered.
* **Parsers and framing.** Civil calendar, RFC 3339 timestamps, the JSON object splitter, the gateway's 32-byte messages
  and the WebSocket client's frames, each with a round trip against an independent printer or grammar.

`dafny verify dfyconfig.toml` checks the whole project with Dafny 4.11. Files:

| part | files, bottom up |
|---|---|
| structures | `Types`, `SeqFacts`, `Arithmetic`, `Bits`, `PriceBitset`, `PriceLevel`, `OrderPool` |
| book | `BookSpec`, `Ladder`, `BookState`, `Sweep`, `OrderBook` |
| laws of the book | `MatchLaws`, `BookLaws`, `CallLaws`, `CallDetails`, `Conservation`, `IdealBook`, `Aggregates`, `BookView` |
| engine and ring | `EngineSpec`, `MatchingEngine`, `RingSteps`, `SpscRing`, `EngineThread`, `EngineIds`, `Requests`, `Exchange` |
| parsers and framing | `Calendar`, `Timestamp`, `JsonSplit`, `Bytes`, `Gateway`, `WebSocket` |

## What turned out false of the code, and when it holds

* A rejected modify does not leave the book as it was: `modify_order` cancels before it checks the price.
  `CallLaws.RejectedModify` proves that the book is unchanged if and only if the id is not found, and that otherwise the
  call is exactly the cancel; `CallLaws.RejectedModifyLosesOrder` is a concrete case.
* A resting order is not always found by its id: `reg` overwrites its slot. `CallLaws.TableStaysComplete` proves, in
  terms of the book before the call, that an accepted order keeps the table complete if and only if no resting order
  shares its slot, or it crosses and covers an opposite order that does together with all before it, and is a market order
  or no larger than the liquidity it crosses; `CallLaws.CompleteIffHarmless` is the same over runs.
  `CallLaws.ClashHidesOrder` is a concrete case.
* `pop` compares indices where `push` subtracts. `RingSteps.WordTests` proves that the subtraction is right for all
  counts and the comparison exactly while both have wrapped equally often. `RingSteps.PopGivesUp` says exactly when `pop`
  refuses; `RingSteps.WrapHidesItem` exhibits, for every capacity, a schedule of 2^64 pushes after which `pop` refuses a
  non-empty ring, and no later schedule pops again (`RingSteps.StuckForGood`).
* The level aggregate is decremented through a signed negation that overflows for a fill of exactly 2^31.
  `Aggregates.CallExact` proves that a call makes no such fill if and only if, in the book it finds, no opposite order
  within its reach would be traded for exactly 2^31; `Aggregates.HalfRangeOverflows` is a concrete run that makes one;
  and `BookView.Totals` proves all aggregates right after any run that keeps the condition, as every run with quantities
  below 2^31 does.
* `read_frame` adds header size and length in 64 bits. `WebSocket.TurnAgreesIff` proves that a turn of its loop, as
  written, does what the frame asks for if and only if the sum is below 2^64 (or the connection ends before even the
  wrapped sum has arrived). Otherwise a masked header may make it throw, depending on delivery
  (`WebSocket.MaskedHeaderThrows`), and `WebSocket.StallingRead` exhibits a ping that is answered again on every turn for
  ever.
* A level's order count has 32 bits. `PriceLevel.EmptyIsRight` proves that `empty()` is right exactly unless a level holds
  a positive multiple of 2^32 orders, which a pool below 2^32 rules out.

## Model

| member | source | states |
|---|---|---|
| `Bits.SetBit` | src/core/price_bitset.h:33-39 | or-ing in `1 << k` sets bit k of a 64-bit word and changes no other bit |
| `Bits.ClearBit` | src/core/price_bitset.h:41-51 | and-ing with the complement of `1 << k` clears bit k and changes no other bit |
| `Bits.CtzIsLowest` | src/core/price_bitset.h:69-77 | the count of trailing zeros is the position of the least set bit |
| `Bits.TopBitIsHighest` | src/core/price_bitset.h:80 | 63 minus the leading zeros is the position of the greatest set bit |
| `PriceBitset.SetKeepsSummary` | src/core/price_bitset.h:33-39 | setting a bit in two adjacent tiers keeps every upper bit equal to "lower word non-zero" |
| `PriceBitset.ClearKeepsSummary` | src/core/price_bitset.h:41-51 | clearing keeps it too, with the upper bit cleared exactly when the lower word becomes zero |
| `PriceBitset.TopThroughTiers` | src/core/price_bitset.h:58-66 | descending by top bits from the last non-zero top word reaches the greatest member |
| `PriceBitset.BottomThroughTiers` | src/core/price_bitset.h:69-77 | descending by lowest bits from the first non-zero top word reaches the least member |
| `PriceBitset.PriceBitset.constructor` | src/core/price_bitset.h:29-31 | the new bitset, for any number of levels, is valid and represents the empty set |
| `PriceBitset.PriceBitset.Set` | src/core/price_bitset.h:33-39 | all three tiers stay consistent and the represented set gains exactly i |
| `PriceBitset.PriceBitset.Clear` | src/core/price_bitset.h:41-51 | all three tiers stay consistent and the represented set loses exactly i, a redundant clear included |
| `PriceBitset.PriceBitset.Test` | src/core/price_bitset.h:53-55 | true exactly for members |
| `PriceBitset.PriceBitset.Highest` | src/core/price_bitset.h:58-66 | the maximum of the represented set, or nothing exactly when it is empty |
| `PriceBitset.PriceBitset.Lowest` | src/core/price_bitset.h:69-77 | the minimum of the represented set, or nothing exactly when it is empty |
| `PriceLevel.Push` | src/core/price_level.h:12-20 | the doubly linked list of queue q becomes that of q with the order appended; no other order is touched, only links change |
| `PriceLevel.Remove` | src/core/price_level.h:22-30 | the list of q becomes that of q without its k-th order, for any k; the removed order is unlinked and the rest keep everything but links |
| `PriceLevel.AdjustQty` | src/core/price_level.h:37 | after a fill of the front order the aggregate is again the sum of remainders modulo 2^32, except for a fill of 2^31 |
| `PriceLevel.WalksMirror` | src/core/price_level.h:12-30 | the forward walk from the head is the queue in arrival order, the backward walk from the tail its mirror, both end at null after `count` steps |
| `PriceLevel.CountKept` | src/core/price_level.h:19-28 | the count stays the number of orders modulo 2^32 through any push and removal |
| `PriceLevel.EmptyIsRight` | src/core/price_level.h:33 | `empty()` is right if and only if the number of orders is zero or not a multiple of 2^32 |
| `OrderPool.OrderPool.constructor` | src/core/order_pool.h:12-16 | the free list starts as all arena indices, lowest on top |
| `OrderPool.OrderPool.Allocate` | src/core/order_pool.h:18-23 | pops the top of the free list |
| `OrderPool.OrderPool.Deallocate` | src/core/order_pool.h:25-30 | pushes the cell back and resets its links and filled quantity, and no other cell |
| `Ladder.FlatPush` | src/core/order_book.cpp:36-47 | appending to the queue of one price level is inserting into the sorted side behind equal or better prices |
| `Ladder.FlatRemove` | src/core/order_book.cpp:56-73 | removing from the queue of one level is removing that order from the sorted side, wherever it stands |
| `Ladder.FlatBest` | src/core/order_book.cpp:117-135 | with no better level occupied, the best level's queue is the front of the sorted side |
| `Sweep.SweepIsMatch` | src/core/order_book.cpp:90-155 | the two nested matching loops, one trade at a time with its bookkeeping, compute the recursive match |
| `BookState.BestIsFront` | src/core/order_book.cpp:174-188 | the cached best price is that of the sorted side's first order, or the sentinel for an empty side |
| `OrderBook.OrderBook.constructor` | src/core/order_book.cpp:4-10 | the new book, all its parts new, has a full free list of any size and, below 2^32 orders, is valid and represents the empty book |
| `OrderBook.OrderBook.ScanBest` | src/core/order_book.cpp:174-188 | the rescan through the bitset sets the best occupied price of the side, or its sentinel, and counts itself |
| `OrderBook.OrderBook.Trade` | src/core/order_book.cpp:90-107 | one trade: the smaller remainder at the resting price; the fill record has that price and quantity and, on the side each traded, the id and client of taker and resting order; both orders, aggregate and match count updated, every other part of the book kept |
| `OrderBook.OrderBook.MatchOne` | src/core/order_book.cpp:90-115 | the loop body of `drain_level` is one step of the specified sweep, a filled order being unlinked, unregistered and freed |
| `OrderBook.OrderBook.DrainLevel` | src/core/order_book.cpp:90-115 | draining ends with the level empty or the taker filled, is a prefix of the specified sweep, counts each fill, and makes progress |
| `OrderBook.OrderBook.MatchAgainst` | src/core/order_book.cpp:117-155 | the outer loop terminates, completes the sweep, stops at the limit, keeps every structure consistent and the cached bests exact |
| `OrderBook.OrderBook.LookupOrder` | src/core/order_book.h:41-44 | exactly the resting order the specified index leads to, or none |
| `OrderBook.OrderBook.AddOrder` | src/core/order_book.cpp:12-54 | the abstract book, return value, fills and match count become those of the specified add; every structural invariant is kept; no assumption on ids |
| `OrderBook.OrderBook.CancelOrder` | src/core/order_book.cpp:56-78 | likewise for the specified cancel |
| `OrderBook.OrderBook.ModifyOrder` | src/core/order_book.cpp:80-88 | likewise for the specified modify |
| `OrderBook.OrderBook.ValidateBbo` | src/core/order_book.cpp:159-170 | true exactly when both cached bests are the best occupied levels |
| `OrderBook.OrderBook.ClearFills` | src/core/order_book.h:68 | empties the fill list and leaves the book as it is |
| `MatchLaws.MatchTakesPrefix` | src/core/order_book.cpp:90-155 | price-time priority: fills consume a prefix of the opposite side in order, each recorded at the resting price and within the limit as a number, and only the last touched order may stay partly filled, with the taker then exhausted |
| `MatchLaws.FillsInDetail` | src/core/order_book.cpp:96-106 | the i-th fill field by field: price of the i-th resting order, at most a buy limit and at least a sell limit, buyer and seller each under their own id and client |
| `MatchLaws.MatchConserves` | src/core/order_book.cpp:90-115 | executed plus left over is the taker's quantity; executed plus resting is what rested before |
| `MatchLaws.MatchIsMaximal` | src/core/order_book.cpp:117-155 | executed quantity is the minimum of the quantity and the liquidity priced within the limit; a taker with a remainder leaves nothing priced within its limit |
| `MatchLaws.FilledIff` | src/core/order_book.cpp:90-155 | an opposite order is filled completely if and only if it and all before it cross and together are no more than the quantity |
| `MatchLaws.InsertPosition` | src/core/order_book.cpp:36-47 | a newcomer joins behind every order of equal or better price and before every worse one, prices compared as numbers, and the side stays sorted |
| `BookLaws.PoolPartition` | src/core/order_pool.h:12-30 | free list and resting orders partition the arena without duplicates; allocated orders number the resting ones |
| `BookLaws.AddKeeps` | src/core/order_book.cpp:12-54 | an add keeps both sides sorted, positive, in range and uncrossed, keeps the partition of the arena, and leaves no dangling table entry |
| `BookLaws.CancelKeeps` | src/core/order_book.cpp:56-78 | a cancel keeps all of that |
| `BookLaws.ModifyKeeps` | src/core/order_book.cpp:80-88 | a modify keeps all of that |
| `BookLaws.ReachableOk` | src/core/order_book.cpp:12-88 | every book reachable from the empty one has all of that, colliding ids included |
| `CallLaws.MarketIsLoosestLimit` | src/core/order_book.cpp:117-155 | a market order has the fills and leaves the opposite side of a limit order at the extreme price, and never rests |
| `CallLaws.CancelUndoesAdd` | src/core/order_book.cpp:56-78 | cancelling an order that just rested without trading, in a free slot, restores queues, index and free list exactly |
| `CallLaws.ModifySucceeds` | src/core/order_book.cpp:80-88 | a modify succeeds if and only if the id is found and the price in range, hence never fails for want of pool space |
| `CallLaws.RejectedModify` | src/core/order_book.cpp:80-88 | a rejected modify leaves the book unchanged if and only if the id was not found; otherwise it is exactly the cancel |
| `CallLaws.RejectedModifyLosesOrder` | src/core/order_book.cpp:86-87 | a concrete rejected modify that removes its order |
| `CallLaws.RegisteredIsFound` | src/core/order_book.h:41-46 | a resting order is found under its id if and only if its table slot holds it |
| `CallLaws.TableStaysComplete` | src/core/order_book.h:45-46 | an accepted order keeps every resting order findable if and only if, in the book before the call, no resting order shares its slot, or it covers an opposite order that does and cannot rest |
| `CallLaws.CompleteIffHarmless` | src/core/order_book.h:45-46 | over any run, no resting order is ever hidden if and only if every accepted add meets that condition in the book it finds |
| `CallLaws.CancelRegistered` | src/core/order_book.cpp:75-76 | a cancel keeps every resting order findable and frees its slot |
| `CallLaws.ModifyRegistered` | src/core/order_book.cpp:80-88 | so does a modify, without any condition |
| `CallLaws.LookupComplete` | src/core/order_book.h:41-46 | over any run whose added ids differ modulo 2^20 from those resting, every resting order is found by its id |
| `CallLaws.RecentIdsFit` | src/core/matching_engine.cpp:16 | ids within the last 2^20 assigned never clash |
| `CallLaws.ClashHidesOrder` | src/core/order_book.h:45 | two adds 2^20 apart after which the first order rests but cannot be cancelled |
| `CallDetails.AddInDetail` | src/core/order_book.cpp:12-54 | an add is accepted exactly while a cell is free and a limit price lies between 1 and 1000000; it then trades within its limit, conserves quantity, trades for as long as it can, and what is left of a limit order rests under its id, client, price and remainder in its place |
| `CallDetails.CancelInDetail` | src/core/order_book.cpp:56-78 | a cancel that succeeds takes out exactly one order, the one with the id; one that fails changes nothing |
| `CallDetails.ModifyInDetail` | src/core/order_book.cpp:80-88 | a modify that succeeds takes out the order with the id and submits it anew on its side, for its client, at the new price and quantity |
| `Conservation.MatchBalances` | src/core/order_book.cpp:90-115 | per order id, a match moves quantity from resting and incoming to executed without loss |
| `Conservation.ConservedOverRuns` | src/core/order_book.cpp:12-115 | over any run, per side and per order id or in total, submitted equals executed plus cancelled plus discarded market remainder plus resting; bought equals sold |
| `IdealBook.AddRefines` | src/core/order_book.cpp:12-54 | erasing index, free list and handles, the exact add is the plain add, pool capacity being a count of resting orders |
| `IdealBook.CancelRefines` | src/core/order_book.cpp:56-78 | likewise for cancel by id, given a complete table |
| `IdealBook.ModifyRefines` | src/core/order_book.cpp:80-88 | likewise for modify |
| `IdealBook.RunFromEmpty` | src/core/order_book.cpp:12-155 | any run from empty with ids distinct modulo 2^20 from those resting has the outcomes, fills and queues of the plain book |
| `Aggregates.MatchSafe` | src/core/order_book.cpp:90-155 | a match makes no fill of 2^31 if and only if no opposite order within reach, given what stands before it, would be traded for exactly 2^31 |
| `Aggregates.CallExact` | src/core/order_book.cpp:90-97 | for every reachable book and every call, the same for add, cancel and modify, the condition being on the book before the call |
| `Aggregates.RunExact` | src/core/order_book.cpp:12-155 | a run makes no fill of 2^31 if and only if every call of it meets its condition |
| `Aggregates.SmallRunKeepsExact` | src/core/order_book.cpp:97 | calls with quantities below 2^31 always meet it |
| `Aggregates.HalfRangeOverflows` | src/core/order_book.cpp:97 | two opposite orders of quantity 2^31 at one price trade exactly 2^31 |
| `BookView.BestPrices` | src/core/order_book.h:62-65 | the cached bests are the front prices of the sorted sides or the sentinels, and do not cross when the sides do not |
| `BookView.LevelPrices` | src/core/order_book.h:62-65 | each level's count is that of the orders at its price, its bit is set exactly when there are any, and its aggregate, while exact, is their sum modulo 2^32 |
| `BookView.LevelWalks` | src/core/price_level.h:12-30 | in every valid book, each level is walked from the head in arrival order and from the tail in the mirror order, and both walks end at null |
| `BookView.Replay` | src/core/order_book.cpp:12-88 | any sequence of calls on the concrete book gives the specified returns, fills, match count and book, and aggregates stay exact exactly while no fill is 2^31 |
| `BookView.Session` | src/core/order_book.cpp:159-170 | after any sequence of calls on a new book `validate_bbo` returns true, best bid is below best ask, and the active orders number the resting ones |
| `BookView.Totals` | src/core/order_book.h:64-65 | after any run on a new book in which each call meets its condition, in particular with quantities below 2^31, every level quantity is the sum resting at its price modulo 2^32; a run that does not has made a fill of 2^31 |
| `BookView.Refines` | src/core/order_book.cpp:12-155 | the concrete book equals the plain two-queue book in returns, fills, resting orders and best prices over any sequence of calls with distinct live ids |
| `EngineSpec.AcceptedEmits` | src/core/matching_engine.cpp:14-27 | an accepted order emits exactly one message of kind accepted to its sender about its id, then for each fill of that very call a bid and an ask report under the next match number, and nothing else |
| `EngineSpec.ReportsAt` | src/core/matching_engine.cpp:78-95 | the two reports of the k-th fill field by field: buyer first, each with its client and id, price, quantity, the k-th number and the timestamp |
| `Requests.NewOrderServed` | src/core/matching_engine.cpp:14-27 | for every new order, from the fields of the message: when it is accepted, what reply goes to whom, and that an order of the sender under the next id, with the message's side, type, price and quantity, is submitted and its fills reported |
| `Requests.CancelServed` | src/core/matching_engine.cpp:28-34 | for every cancel: confirmation or rejection with reason 2 to the sender; confirmed, exactly the order with the message's id has left; rejected, nothing changed and, the table being complete, no order has the id |
| `Requests.ModifyServed` | src/core/matching_engine.cpp:35-44 | for every modify: acceptance or rejection with reason 3 to the sender; accepted, the order found is submitted anew on its side, under its id and for its client, at the message's price and quantity |
| `Requests.OthersIgnored` | src/core/matching_engine.cpp:45-47 | every other message changes and emits nothing |
| `EngineSpec.EngineRunsBook` | src/core/matching_engine.cpp:11-48 | over any message sequence the engine's book is the book after the calls made, and the match number advances by the fills made |
| `EngineSpec.ReportsAreFills` | src/core/matching_engine.cpp:78-95 | the execution reports in the log are exactly the fills of the book's run, each once, consecutively numbered |
| `EngineSpec.IdsIncrease` | src/core/matching_engine.cpp:15-16 | each new order takes the next id of a 64-bit counter: the next id is the first one plus the new orders, modulo 2^64 |
| `EngineSpec.EngineInvariant` | src/core/matching_engine.cpp:11-95 | from start, for any messages: next id and match number modulo 2^64, book invariant and reports together |
| `EngineSpec.EmitsButForClock` | src/core/matching_engine.cpp:11-12 | emitted messages depend on the clock only in their timestamp |
| `EngineIds.RecentRunsFit` | src/core/matching_engine.cpp:16 | while at each new order the resting ids are among the last 2^20 assigned, no new order ever clashes in the id table |
| `EngineIds.FewOrdersAreRecent` | src/core/matching_engine.cpp:16 | with at most 2^20 new orders they always are |
| `EngineIds.EngineIsIdeal` | src/core/matching_engine.cpp:11-48 | then every resting order of the engine is found and can be cancelled, and the engine's book and fills are those of the plain two-queue book |
| `MatchingEngine.MatchingEngine.constructor` | src/core/matching_engine.h:11-31 | the engine starts with both counters at 1 over an empty book |
| `MatchingEngine.MatchingEngine.EmitFills` | src/core/matching_engine.cpp:78-95 | appends the reports of the current fills and advances the match number by their number, modulo 2^64 |
| `MatchingEngine.MatchingEngine.Reply` | src/core/matching_engine.cpp:50-67 | an accepted message to the client about the id, followed by the fill reports, or a rejected one with the given reason |
| `MatchingEngine.MatchingEngine.Process` | src/core/matching_engine.cpp:11-48 | engine state and emitted log become those of the specification, and the match number stays one more than the book's match count |
| `MatchingEngine.MatchingEngine.Run` | src/core/matching_engine.cpp:3-9 | the polling loop over the concrete ring processes what it pops in order: state and log, timestamps aside, are those specified for the popped messages, one per turn until the ring is empty |
| `RingSteps.WordTests` | src/transport/spsc_ring.h:33-47 | the wrapped subtraction is right for all counts; the comparison is right if and only if both counts wrapped equally often |
| `RingSteps.StepOk` | src/transport/spsc_ring.h:30-56 | every single step of either thread keeps the ring invariant |
| `RingSteps.Fifo` | src/transport/spsc_ring.h:30-56 | for every interleaving, however many pushes: popped is a prefix of pushed, occupancy is at most the capacity, no slot is accessed by both threads at once |
| `RingSteps.PushGivesUp` | src/transport/spsc_ring.h:33-37 | a push fails exactly when the ring was full by the tail value it reloaded |
| `RingSteps.PopGivesUp` | src/transport/spsc_ring.h:47-51 | a pop fails exactly when the head value it reloaded is its tail or has reached 2^64 |
| `RingSteps.StuckForGood` | src/transport/spsc_ring.h:44-56 | once the tail stands at 2^64 - 1 or the cached head has reached 2^64, no schedule ever pops again |
| `RingSteps.DrainedReachable` | src/transport/spsc_ring.h:30-56 | any number of items below 2^64 can be passed through |
| `RingSteps.WrapHidesItem` | src/transport/spsc_ring.h:47 | with 2^64 pushes there is a schedule where `pop` fails on a non-empty ring, after which no schedule ever pops |
| `SpscRing.SpscRing.constructor` | src/transport/spsc_ring.h:20-28 | the new ring is the initial state of the step machine |
| `SpscRing.SpscRing.Push` | src/transport/spsc_ring.h:30-42 | the call is a schedule of the step machine; it succeeds exactly when there is room and then appends the item |
| `SpscRing.SpscRing.Pop` | src/transport/spsc_ring.h:44-56 | the call is a schedule of the step machine; it yields the oldest item exactly when the cached or the current head lies above the tail and below 2^64, so below 2^64 pushes exactly when there is one |
| `SpscRing.PopsWhenNotEmpty` | src/transport/spsc_ring.h:47-51 | a pop gets through exactly when the cached or the current head lies above the tail and below 2^64, never on an empty ring; its verdict is right if and only if the current head is below 2^64 or the cached one lies so |
| `EngineThread.EngineFollowsInput` | src/core/matching_engine.cpp:3-9 | for every interleaving, however long, the processed messages are a prefix of those pushed, and book, counters and log (timestamps aside) are a function of them |
| `EngineThread.IdenticalInputsIdenticalTrades` | README.md:46-50 | two schedules that have processed as much of the same input agree on book, counters and trades |
| `Exchange.TradeOnNewBook` | src/core/order_book.cpp:4-88 | a newly created book, given any calls, passes `validate_bbo`, does not cross, and accounts for every order |
| `Exchange.TradeAsIdeal` | src/core/order_book.cpp:4-155 | a newly created book, given calls with distinct live ids, returns, fills and quotes as the plain two-queue book |
| `Exchange.QuantityAt` | src/core/order_book.h:64-65 | a newly created book, given calls that keep the aggregates exact, reports at every price the quantity resting there |
| `Exchange.ServeMessages` | src/core/matching_engine.cpp:3-9 | a new engine on a new book behind a new ring emits exactly the specified log for the messages put into the ring |
| `Exchange.ServeClient` | src/transport/socket_transport.h:110-143 | end to end: the messages a client writes, however the network cuts them, pass the gateway and the ring in order, each saying what its bytes say (1, 2, 3 for new, cancel, modify; 0 and 1 for sides and types; the numbers in their fields), and the engine emits exactly the log specified for them |
| `Calendar.DaysFromCivilIsNaive` | src/feed/feed_normalizer.h:78-85 | for every valid date of every year the algorithm counts days as year-by-year, month-by-month counting does |
| `Calendar.SuccessorIsNextDay` | src/feed/feed_normalizer.h:78-85 | 1 January 1970 is day 0 and each date's successor is one day later |
| `Calendar.DayOrder` | src/feed/feed_normalizer.h:78-85 | day numbers order dates as the calendar does, in both directions |
| `Calendar.DatesThereAre` | src/feed/feed_normalizer.h:76-78 | the dates counted are those of the Gregorian calendar: its month lengths and its leap rule |
| `Calendar.FourCenturies` | src/feed/feed_normalizer.h:78-85 | 400 years are 146097 days |
| `Timestamp.Number` | src/feed/feed_normalizer.h:92-100 | the digits of a field up to the first other character |
| `Timestamp.Fraction` | src/feed/feed_normalizer.h:108-114 | up to nine fraction digits, padded to nanoseconds |
| `Timestamp.ParseRfc3339` | src/feed/feed_normalizer.h:90-117 | for every string the specified value, zero when too short, wrapping modulo 2^64 once where the source wraps at each operation |
| `Timestamp.ParsePrinted` | src/feed/feed_normalizer.h:90-117 | parsing a printed UTC timestamp of any four-digit year gives its instant modulo 2^64 |
| `Timestamp.ParseIsExact` | src/feed/feed_normalizer.h:90-117 | for years 1970 to 2553 it gives the exact nanosecond count, with zero to nine fraction digits |
| `Timestamp.ParsedOrder` | src/feed/feed_normalizer.h:90-117 | numeric order of parsed timestamps is chronological order |
| `Timestamp.ShortIsZero` | src/feed/feed_normalizer.h:90-91 | a string under twenty characters parses to zero |
| `Timestamp.FieldIs` | src/feed/feed_normalizer.h:92-100 | a field is its decimal digits in base ten up to the first other character, whatever follows |
| `Timestamp.FractionCutOff` | src/feed/feed_normalizer.h:108-114 | fraction digits beyond the ninth make no difference |
| `Timestamp.OneStamp` | src/feed/feed_normalizer.h:87-117 | one timestamp worked out to its nanosecond count |
| `JsonSplit.ForEachObject` | src/feed/feed_normalizer.h:161-178 | for every frame the index-based loop hands on exactly the objects of the character-by-character specification |
| `JsonSplit.SplitJoined` | src/feed/feed_normalizer.h:161-178 | splitting a frame joined from any objects of the grammar (nested objects, strings with braces and escapes) and neutral separators gives back those objects in order |
| `JsonSplit.EveryPieceIsOneObject` | src/feed/feed_normalizer.h:159-178 | whatever the frame, each text handed on splits into exactly itself |
| `JsonSplit.OneFrame` | src/feed/feed_normalizer.h:158-178 | one frame worked out, with a brace inside a string and a nested object |
| `Gateway.DecodeEncode` | src/codec/sbe_messages.h:35-48 | decoding the 32 packed little-endian bytes of a wire message gives its fields back |
| `Gateway.OfferReadOff` | src/transport/socket_transport.h:126-136 | the offer of any 32-byte block, by byte positions: type, side and order type first, client at 4, order id at 8, price at 16, quantity at 20, least significant byte first |
| `Gateway.OffersAt` | src/transport/socket_transport.h:122-140 | any stream gives one offer for each whole block of 32 bytes, in order, read off the bytes of that block, and the remainder is what follows |
| `Gateway.OneCall` | src/transport/socket_transport.h:115-121 | one call takes all bytes of the segments before the first other arrival and nothing behind it, and drops the connection unless there was just nothing to read yet |
| `Gateway.OffersAppend` | src/transport/socket_transport.h:110-143 | cutting a stream into messages can stop anywhere and resume from the remainder |
| `Gateway.OffersOfEncoded` | src/transport/socket_transport.h:122-140 | a stream of encoded messages and a partial one holds exactly those messages, each field copied to the field of its name, and the partial one remains |
| `Gateway.ClientState.Accept` | src/transport/socket_transport.h:63-75 | a slot taken by a new connection starts with nothing received |
| `Gateway.ClientState.ReadClient` | src/transport/socket_transport.h:110-143 | all bytes up to the first empty receive are taken; the messages offered since the connection began are those of the bytes received (`Gateway.OffersAt`), and the buffer holds the rest; the connection drops on end or error only |
| `Gateway.Connection` | src/transport/socket_transport.h:110-143 | however the network cuts a client's messages, the gateway offers exactly those messages in order, each field copied to the field of its name |
| `WebSocket.NextEncoded` | src/feed/alpaca_ws.cpp:209-255 | an unmasked frame in any of the three length forms is delivered, answered, skipped or closes according to its opcode, and reading goes on behind it |
| `WebSocket.ReadsWhatWasSent` | src/feed/alpaca_ws.cpp:209-255 | for any list of frames and an incomplete tail: the text and binary payloads in order, the pings answered, a stop at close, and exactly the tail retained |
| `WebSocket.HeaderBytes` | src/feed/alpaca_ws.cpp:211-228 | opcode, header size and length of a frame byte by byte, for the three length forms with and without a key |
| `Bytes.XorDigits` | src/feed/alpaca_ws.cpp:200 | each binary digit of the exclusive or is one exactly where the operands differ |
| `Bytes.XorByteIs` | src/feed/alpaca_ws.cpp:200 | the masking of one byte is the digit-by-digit exclusive or |
| `WebSocket.ServerReadsClientFrame` | src/feed/alpaca_ws.cpp:177-203 | a server that exclusive-ors, digit by digit, each payload byte with its byte of the key, as section 5.3 of RFC 6455 says, recovers opcode and payload from the frame, whatever the key |
| `WebSocket.LengthBytes` | src/feed/alpaca_ws.cpp:189-191 | the shifting loop writes the eight bytes of the length, most significant first |
| `WebSocket.FieldBytes` | src/feed/alpaca_ws.cpp:182-191 | the mask bit with the length in its one-, three- or nine-byte form, most significant byte first |
| `WebSocket.MaskBytes` | src/feed/alpaca_ws.cpp:193-201 | the i-th byte is the i-th payload byte exclusive-ored with the key byte at i modulo 4 |
| `WebSocket.FrameBytes` | src/feed/alpaca_ws.cpp:177-203 | the bytes built are first byte, length form, key and payload, the i-th payload byte exclusive-ored with the key byte at i modulo 4 |
| `WebSocket.AlpacaWebSocket.ReadExact` | src/feed/alpaca_ws.cpp:167-175 | appends what arrives exactly as specified; succeeds exactly when the connection still has that many bytes, and loses none |
| `WebSocket.AlpacaWebSocket.SendFrame` | src/feed/alpaca_ws.cpp:177-203 | while writes succeed, writes one frame that a server reads as the given opcode and payload; otherwise reports failure |
| `WebSocket.AlpacaWebSocket.ReadHeader` | src/feed/alpaca_ws.cpp:211-230 | the header read piecewise is that of the whole byte stream |
| `WebSocket.AlpacaWebSocket.ReadTurn` | src/feed/alpaca_ws.cpp:211-233 | one turn of the loop with its wrapped sum, clipped payload, exception and erasure |
| `WebSocket.TurnAgreesIff` | src/feed/alpaca_ws.cpp:228-233 | a turn as written does what the frame asks for if and only if header and length add up to less than 2^64 or the connection ends before the wrapped sum |
| `WebSocket.AsWrittenIsNext` | src/feed/alpaca_ws.cpp:209-255 | while no header reaches 2^64 the loop as written ends, either with the next message of the byte stream or at the first pong that cannot be written |
| `WebSocket.AllAsWrittenIsSession` | src/feed/alpaca_ws.cpp:209-255 | repeated reads as written, while no header reaches 2^64 and writes succeed, give exactly the session of the byte stream |
| `WebSocket.ThrowsOnlyOversized` | src/feed/alpaca_ws.cpp:228-232 | a turn throws only at a masked header whose sum reached 2^64 |
| `WebSocket.MaskedHeaderThrows` | src/feed/alpaca_ws.cpp:228-232 | such a header throws when it is buffered without its key, and does not when the key is buffered too |
| `WebSocket.RunsForEver` | src/feed/alpaca_ws.cpp:230-245 | at a ping whose sum is exactly 2^64, after any number n of turns whose writes succeed the buffer is unchanged and n pongs have been sent; only a failed write ends the loop |
| `WebSocket.StallingRead` | src/feed/alpaca_ws.cpp:230-245 | a concrete ten-byte header with that sum, whatever is buffered behind it |
| `WebSocket.AlpacaWebSocket.ReadFrame` | src/feed/alpaca_ws.cpp:209-255 | outcome, buffer and pongs are those of the loop as written, failed reads and writes included, cut off after a given number of turns; while no header reaches 2^64, given turns and writes enough, they depend only on the bytes to come, not on how they arrive |
| `WebSocket.AlpacaWebSocket.ReadAll` | src/feed/alpaca_ws.cpp:209-255 | repeated reads are those of the loop as written; while no header reaches 2^64 and writes succeed, they give the session of the byte stream |

## Left out

- `OrderBook.OrderBook.constructor`: promises a valid book for capacities below 2^32 only, because from 2^32 orders at a level `empty()` can take it for an empty one (`PriceLevel.EmptyIsRight`); what a larger pool then does is not modelled.
- `OrderBook.OrderBook.MatchAgainst`: models `match_limit` and `match_market` as one loop with an optional limit; the two source loops differ in nothing else.
- `PriceLevel.AdjustQty`: says nothing of the aggregate after a fill of exactly 2^31, whose signed negation is undefined in the source; `Aggregates.CallExact` says when that happens.
- `WebSocket.AlpacaWebSocket.ReadFrame`: the loop, endless in the source for a stalling header, is cut off after a given number of turns. Failing writes are a number of writes that succeed followed by failures, and random bytes are taken to be available.
- `JsonSplit.ForEachObject`: nesting depth is unbounded where the source has a 32-bit int.
- `Calendar.DaysFromCivilIsNaive`: years are unbounded where the source has a 32-bit int; the unsigned wrap-arounds are modelled.
- `Timestamp.ParsedOrder`: the lower-case `t` and `z`, numeric offsets and leap seconds of RFC 3339 are not printed.
- `Gateway.ClientState.ReadClient`: one connection; slots, descriptors and the interleaving of clients are left out. `recv` is any sequence of segments, would-block, end and error.
- Orders are arena indices instead of pointers, and NIL instead of null.
- Clocks, random keys and receive times are parameters or arbitrary values; the engine clock appears only in the `timestamp` field.
- Ids are unbounded naturals in the book; the engine's counters wrap modulo 2^64.
- Enumerations are closed datatypes: values outside the declared members are not modelled, and `Exchange.ServeClient` takes messages with declared values.
- Ring pushes of the engine and the gateway are recorded as emitted and offered; what happens on a full ring is not.
- Memory ordering beyond stale index loads, and the ring's `size`.
- Floating point: price conversion, field extraction and `normalize` in src/feed/feed_normalizer.h.
- Fragmented messages and unmasking of masked server frames, which `read_frame` does not do either.
- Sockets, epoll, TLS, the HTTP upgrade, authentication, outbound sends, analytics, benchmarks, command lines and threads' set-up.
