# jev-quant: a Dafny model of the trading engine's data structures and protocols

jev-quant is a trading engine: market data goes into local order books, an external model decides whether to open or
close, orders go to one of several venues, and executions come back. This project models the parts of it whose
correctness is not visible in any single function, and proves what they keep over whole runs.

* **Incremental order book** (`BookSpec`, `BookRefinement`, `BookLaws`, `MarketOrderBooks` and below it `BookStores`,
  `SideBooks`, `OrderTables`, `LevelLists`, `SlotArrays`, `MemPools`). Slot arrays with backward-shift deletion, a
  circular sorted level list and object pools are one map from order identifiers to orders, together with the exact
  level totals.
* **Binance depth book** (`DepthSpec`, `DepthConvergence`, `DepthAcceptance`, `DepthBooks` and below it `DepthSides`,
  `DepthTables`, `DepthLists`). A tombstone hash table, a linear sorted list and a bounded ring of early events; the
  book equals the exchange's book at its last update id.
* **Single-producer/single-consumer queue** (`SpscQueues`), one atomic access at a time, over all interleavings: the
  ring is a queue on values, whatever the schedule.
* **Engine** (`PositionKeeper`, `PositionLaws`, `PositionConservation`, `RiskManager`, `OrderManager`, `EngineSpec`,
  `EngineDecisions`, `EngineSafety`, `EngineExactness`, `EngineConservation`, `EngineFreshness`, `TradeEngines`). Positions
  by day lot, pre-trade risk, order slots, decisions and their freshness, with the venue as an environment.
* **SimNow adapter** (`Numerals`, `SimNowSpec`, `SimNowStartup`, `SimNowSafety`, `SimNowLifecycle`, `SimNowReplay`,
  `SimNowFills`, `SimNowAnswers`, `SimNowExecutions`). A callback-driven start-up and order state machine under arbitrary
  events.
* **Simex adapter** (`SimexLedger`, `SimexOrders`, `SimexSync`, `SimexAcceptance`, `TopFive`, `LevelAggregates`,
  `SimexVenueAdapters`). The order ledger with its purge, snapshot-and-increment synchronisation, and in-place top-five
  aggregation.
* **Engine and adapters together** (`Responses`, `EngineHearing`, `VenueLoop`, `SimexLoop`), connected by the gateway's
  two queues: the SimNow adapter answers only as the engine's safety demands, whatever is called back, and so does the
  Simex adapter as long as its venue keeps the protocol of the order ledger.
* **Smaller pieces**: the price round trip through doubles (`CtpMapping`), the JSON diff of the replay tool and its
  wording variant (`JsonDiff`, `WordingVariant`).

Where the source updates objects in place, so does the model: a class whose methods are tied, by their `ensures`, to
functions on values (`View() == ...`), and the properties are proved about those functions and their runs. What each
operation accepts and what it then does is also stated without these functions, for one step and over runs: `BookLaws`,
`DepthAcceptance`, `PositionLaws`, `EngineDecisions`, `SimNowStartup`, `SimNowFills`, `SimNowAnswers`, `SimexOrders`,
`SimexAcceptance`. Exceptions are outcomes of the functions and results of the methods; a `std::terminate` that callers
cannot reach is a returned flag proved false. `dafny verify dfyconfig.toml` checks everything.

Modelling decisions:

* Prices and profits held in doubles are real numbers; Binance prices are the keys of an arbitrary hash function.
* 32-bit quantities wrap (`AddU32`) and convert to signed integers (`Int32`) where the source does so.
* Pointers to pooled nodes are block indices; `-1` stands for the null pointer of the Binance list.
* Slot counts, pool capacities and load ceilings are parameters of the structures and instantiated with the source's
  constants in `BookStores` and `DepthBooks`.
* Return codes of the CTP library, deadlines, market readiness and full queues are parameters of the steps.
* Order references of SimNow, decimal numerals in the source, are the numbers they denote; where the source walks its
  map of orders, it does so in the dictionary order of the numerals (`Numerals`).
* What a SimNow run says of one order's responses holds as long as no second new-order request carries its identifier;
  position and open orders are accounted for without any restriction. `IdentifiersIncrease` is the engine's side.

Findings about the source, with the condition under which each arises:

* A level can disappear under a resting order: when the other orders at its price leave a zero total behind (`CancelExact`;
  a run in `ZeroQuantityLosesLevel`), or when a modification in place lowers the total to zero (`ResizeExact`; a run in
  `ZeroModifyLosesLevel`) or moves the order away from such a price (`MoveExact`). A level total past 2^32 breaks the
  book in an ADD (`RestExact`) and in both kinds of MODIFY.
* With `last_update_id_` 0 the Binance gap check is off; an event that starts later is accepted and can leave the book
  wrong (`ConvergenceExact`; a run in `SkippedGapLosesBook`).
* An open against the position breaks the lot sums (`OpenKeepsLotsExactly`), and a close beyond its lot loses money in
  the accounts (`CloseConservesExactly`); the engine's exception fires exactly in those cases
  (`DisagreesExactlyWhenImproper`).
* The signed conversion in the position limit makes it unsound for quantities near 2^32 (`OpenBoundExact`). For the
  engine: every allowed run is safe, and keeps the position limit, exactly when the decision quantity fits an int32 or no
  order is ever placed; otherwise a quote, an evaluation, an open and an execution carry a position past the limit
  (`SafetyExact`, `LimitExact`).
* An ACCEPTED for a finished order revives it; position safety survives exactly when the order could be placed now
  (`AcceptanceExact`), and a run from the start shows it lost (`LateAcceptanceBreaksSafety`).
* A Simex order that is finished and waits for nothing leaves the ledger exactly at the next purge
  (`LeavesExactlyAtPurge`), so an answer to a cancel that comes after that ends the adapter, and one before does not
  (`LateAnswerFatalExactly`; a run in `AnswerAfterOwnCancelIsFatal`). The purge is safe with a venue whose CANCELED also
  counts as its answer to a pending cancel (`PurgeNeverDropsOwed`).
* A replayed SimNow trade changes nothing, but is refused, and so stops trading, exactly when a status callback has
  meanwhile given the order another system number (`ReplayPassesExactly`; a run from start-up in
  `RenamedReplayStopsTrading`).
* The price 33554432.00000019 comes back one unit larger from the conversion to double and back, under every
  round-to-nearest arithmetic, and is the first price that does not survive (`FirstLostPrice`, `BoundProtectsExactly`).

## Model

| member | source | states |
|---|---|---|
| MemPools.MemPool.Allocate | src/common/mem_pool.h:58-75 | fails exactly when every block is live, so all blocks are usable; otherwise it returns a block that was not live, and nothing else changes |
| MemPools.MemPool.Deallocate | src/common/mem_pool.h:77-91 | frees exactly the block it is given, reviving an exhausted pool; refuses exactly blocks that are not live |
| MemPools.MemPool.UpdateNextFreeIndex | src/common/mem_pool.h:105-121 | the cyclic scan stops at a free block or, after a whole cycle, sets the flag exactly when none is free |
| SlotArrays.VacancyExists | src/trading/strategy/market_order_book.h:34-38 | fewer entries than slots always leave a vacant slot, on which probe loops end |
| SlotArrays.SlotArray.Find | src/trading/strategy/market_order_book.h:231-240 | terminates and is map lookup |
| SlotArrays.SlotArray.Insert | src/trading/strategy/market_order_book.h:242-250 | adds exactly the absent key, with wrap-around and without breaking a probe chain |
| SlotArrays.SlotArray.Erase | src/trading/strategy/market_order_book.h:252-285 | removes exactly the key and returns its node; the chains stay unbroken |
| SlotArrays.SlotArray.Compact | src/trading/strategy/market_order_book.h:264-283 | backward-shift compaction ends and restores unbroken chains from a single hole |
| SlotArrays.SlotArray.ChainCrossesHole | src/trading/strategy/market_order_book.h:273-277 | the masked comparison holds exactly when the entry's probe chain runs through the hole |
| SlotArrays.SiftEnds | src/trading/strategy/market_order_book.h:268-272 | reaching a vacant slot means no chain crosses the hole any more |
| SlotArrays.SiftMoves | src/trading/strategy/market_order_book.h:277-281 | moving an entry whose chain crosses the hole keeps every other chain whole and opens the hole at its old slot |
| SlotArrays.SiftSkips | src/trading/strategy/market_order_book.h:273-277 | an entry whose home lies between hole and probe may stay |
| LevelLists.LevelList.InsertSorted | src/trading/strategy/market_order_book.h:433-464 | links a level into the circular list at its rank, best price at the head, and indexes it |
| LevelLists.LevelList.Remove | src/trading/strategy/market_order_book.h:466-479 | unlinks exactly the level; order, circle and head are kept |
| LevelLists.LinkedIn | src/trading/strategy/market_order_book.h:456-463 | the pointer assignments of an insertion turn a sorted circle into a sorted circle with one more level |
| LevelLists.LinkedOut | src/trading/strategy/market_order_book.h:466-479 | the pointer assignments of a removal turn a sorted circle into a sorted circle without the level |
| SideBooks.PoolNeverFull | src/trading/strategy/market_order_book.h:40-45 | as many live blocks as levels: below the load ceiling the level pool has a free block |
| SideBooks.SideBook.AddToLevel | src/trading/strategy/market_order_book.h:390-397 | adds to the level or creates it; refused, with nothing changed, exactly at the ceiling |
| SideBooks.SideBook.RemoveFromLevel | src/trading/strategy/market_order_book.h:399-412 | takes the quantity off the level, which disappears when nothing positive remains |
| SideBooks.SideBook.HasCapacityFor | src/trading/strategy/market_order_book.h:334-344 | the price has a level, or there is room for one more |
| SideBooks.SideBook.Clear | src/trading/strategy/market_order_book.h:481-494 | the walk round the circle ends and frees every block exactly once |
| SideBooks.SideBook.Best | src/trading/strategy/market_order_book.h:508-523 | the head is the best level, absent exactly when the side is empty |
| OrderTables.PoolNeverFull | src/trading/strategy/market_order_book.h:40-45 | below the load ceiling the order pool has a free block |
| OrderTables.OrderTable.Insert | src/trading/strategy/market_order_book.h:346-356 | stores exactly one more order; the pool's termination is unreachable below the ceiling |
| OrderTables.OrderTable.Erase | src/trading/strategy/market_order_book.h:380-388 | removes and returns exactly the order, and frees its block |
| OrderTables.OrderTable.Clear | src/trading/strategy/market_order_book.h:499-502 | every stored order's block is freed exactly once |
| BookStores.BookStore.TopOfBook | src/trading/strategy/market_order_book.h:508-524 | the BBO is read off the two heads, or is the sentinels |
| MarketOrderBooks.MarketOrderBook.AddOrder | src/trading/strategy/market_order_book.h:346-356 | cancels the old order first, and leaves that cancellation behind when the capacity check throws; otherwise the order stands as given (`AddExact`) |
| MarketOrderBooks.MarketOrderBook.ModifyOrder | src/trading/strategy/market_order_book.h:358-378 | moves the whole order or only the difference; a capacity exception changes nothing |
| MarketOrderBooks.MarketOrderBook.CancelOrder | src/trading/strategy/market_order_book.h:380-388 | removes exactly the order and its share of its level |
| MarketOrderBooks.MarketOrderBook.OnMarketUpdate | src/trading/strategy/market_order_book.h:102-149 | every update, mode errors and exceptions included, does what it means to the maps; the BBO is refreshed only where the source does |
| MarketOrderBooks.Replay | src/trading/strategy/market_order_book.h:102-134 | a fresh book fed any run of incremental updates with positive quantities, trades and ignored updates among them, holds exactly the run's orders and exact level totals; its BBO names the best of them unless the last update that touched the book threw |
| BookRefinement.CancelExact | src/trading/strategy/market_order_book.h:399-412 | a cancellation keeps levels exact exactly when what stays at the price has a positive total |
| BookRefinement.RestExact | src/trading/strategy/market_order_book.h:390-397 | an addition keeps levels exact exactly when the new total fits 32 bits |
| BookRefinement.ResizeExact | src/trading/strategy/market_order_book.h:370-377 | a modification in place keeps levels exact exactly when a smaller quantity leaves a positive total and a larger one fits 32 bits |
| BookRefinement.MoveExact | src/trading/strategy/market_order_book.h:364-369 | a modification to another price or side keeps levels exact exactly when what stays behind has a positive total and the new total fits |
| BookRefinement.ModifyIsReplace | src/trading/strategy/market_order_book.h:358-378 | both branches of a modification amount to a cancellation and an addition |
| BookRefinement.StepAgrees | src/trading/strategy/market_order_book.h:346-412 | any positive update whose totals fit keeps every level the exact total of the orders resting there, even when it throws |
| BookRefinement.RunAgrees | src/trading/strategy/market_order_book.h:346-412 | so does every run: a level exists exactly where an order rests, with their sum |
| BookRefinement.BboIsBestOrders | src/trading/strategy/market_order_book.h:508-524 | the BBO is the best price among the resting orders and their total there |
| BookRefinement.ZeroQuantityLosesLevel | src/trading/strategy/market_order_book.h:390-412 | three updates after which a resting zero-quantity order has no level |
| BookRefinement.ZeroModifyLosesLevel | src/trading/strategy/market_order_book.h:358-412 | two updates after which an order modified to quantity 0 rests without a level |
| BookLaws.AddExact | src/trading/strategy/market_order_book.h:346-356 | an ADD stores the order as given, on its own side, and throws exactly when, its old order gone, the orders are at their ceiling or its side has neither an order at the price nor room for a level; then the old order is gone |
| BookLaws.ModifyExact | src/trading/strategy/market_order_book.h:358-378 | a MODIFY of a resting order stores it as given, and throws with nothing changed exactly when its side has neither an order at the price nor room; an unknown identifier changes nothing |
| BookLaws.RunOrdersExact | src/trading/strategy/market_order_book.h:102-134 | after every run, failed updates included, an order rests exactly if the last update about its identifier rested it, and as that update gave it |
| BookLaws.RunNamesExact | src/trading/strategy/market_order_book.h:102-134 | so an identifier rests exactly if such an order stands, always under its own name |
| DepthTables.NullExists | src/trading/venue/binance/binance_depth_book.cpp:73-102 | real tombstones never exceed the counter, which stays within its bound, so a null slot always exists |
| DepthTables.DepthTable.Find | src/trading/venue/binance/binance_depth_book.cpp:38-47 | terminates and is map lookup past tombstones |
| DepthTables.DepthTable.FreeSlot | src/trading/venue/binance/binance_depth_book.cpp:78-86 | the first slot of the chain that holds no node: the first tombstone, or the null slot at its end |
| DepthTables.DepthTable.Insert | src/trading/venue/binance/binance_depth_book.cpp:73-89 | adds exactly the absent price; a reused tombstone is not counted back |
| DepthTables.DepthTable.Kill | src/trading/venue/binance/binance_depth_book.cpp:131-135 | the slot becomes a tombstone and exactly its price leaves the table |
| DepthLists.DepthList.InsertSorted | src/trading/venue/binance/binance_depth_book.cpp:49-63 | links a node at its rank, best price at the head, tail kept |
| DepthLists.DepthList.Remove | src/trading/venue/binance/binance_depth_book.cpp:65-71 | unlinks exactly the node |
| DepthSides.DepthSide.Upsert | src/trading/venue/binance/binance_depth_book.cpp:118-129 | sets the price's quantity in place or adds the price, never lowering the tombstone counter; fails exactly when the pool is full |
| DepthSides.DepthSide.Remove | src/trading/venue/binance/binance_depth_book.cpp:131-140 | removes exactly the price and counts its tombstone, or rebuilds the slots past the bound, with no tombstone left |
| DepthSides.DepthSide.Rehash | src/trading/venue/binance/binance_depth_book.cpp:91-102 | the rebuilt table holds the same prices, without tombstones, and every node knows its slot |
| DepthSides.DepthSide.Clear | src/trading/venue/binance/binance_depth_book.cpp:104-116 | frees every node exactly once and empties the side |
| DepthSides.DepthSide.Top | src/trading/venue/binance/binance_depth_book.cpp:212-236 | the first levels of the list are the best prices of the map with their quantities, all of them if there are fewer than the limit |
| DepthSides.PrefixIsTop | src/trading/venue/binance/binance_depth_book.cpp:218-225 | a prefix of a best-first list is the best part of its map |
| DepthBooks.DepthBook.OnDepthEvent | src/trading/venue/binance/binance_depth_book.cpp:142-153 | the event is appended to the ring until a snapshot is in, then applied |
| DepthBooks.DepthBook.ApplyDepthEvent | src/trading/venue/binance/binance_depth_book.cpp:155-186 | stale events are skipped, gaps throw, other events change both sides entry by entry; which these are is `EventExact` |
| DepthBooks.DepthBook.InstallSnapshot | src/trading/venue/binance/binance_depth_book.cpp:188-200 | replaces both sides, drains the ring in order and becomes ready only if nothing throws; a missing update id throws with both sides already replaced |
| DepthBooks.DepthBook.DrainPendingEvents | src/trading/venue/binance/binance_depth_book.cpp:202-210 | applies the buffered events oldest first, stopping at a failure with that event still buffered |
| DepthBooks.DepthBook.Publish | src/trading/venue/binance/binance_depth_book.cpp:212-236 | publishes the best five levels of each side, as integer prices and quantities cut towards zero |
| DepthBooks.Follow | src/trading/venue/binance/binance_depth_book.cpp:142-210 | the object, fed faithful events and snapshots in any order, equals the exchange's book whenever it is ready; it fails exactly when the update ids or the number of levels say so, and stands where they say |
| DepthConvergence.EventConverges | src/trading/venue/binance/binance_depth_book.cpp:155-186 | an accepted event takes the exchange's book at one update id to its book at another |
| DepthConvergence.RunConverges | src/trading/venue/binance/binance_depth_book.cpp:142-210 | over every non-failing run a ready book equals the exchange's book at `last_update_id_` |
| DepthConvergence.BufferThenInstall | src/trading/venue/binance/binance_depth_book.cpp:188-210 | buffering events and then installing has the outcome and the book of installing first and applying them in order |
| DepthConvergence.ConvergenceExact | src/trading/venue/binance/binance_depth_book.cpp:164-172 | an event that continues the last update, or meets a book without one, is right for every history exactly when `last_update_id_` is not 0 or the event starts at 0 |
| DepthConvergence.SkippedGapLosesBook | src/trading/venue/binance/binance_depth_book.cpp:155-200 | a run of a true snapshot with update id 0 and a faithful later event, after which a ready book holds a bid the exchange no longer has |
| DepthAcceptance.EventExact | src/trading/venue/binance/binance_depth_book.cpp:155-186 | an event is skipped if it ends at or before `last_update_id_`; refused with the book unchanged exactly if that is not 0 and neither is its previous id nor has its successor among the event's ids; otherwise taken exactly if no side ever needs more than 4096 levels |
| DepthAcceptance.FaithfulEventExact | src/trading/venue/binance/binance_depth_book.cpp:155-186 | a faithful event that is taken makes the exchange's book at `last_update_id_` its book at the event's end; acceptance as above |
| DepthAcceptance.DrainExact | src/trading/venue/binance/binance_depth_book.cpp:202-210 | the buffered events are all taken exactly when they chain up from the snapshot with room for their levels, and end at the last one's book |
| DepthAcceptance.InstallExact | src/trading/venue/binance/binance_depth_book.cpp:188-200 | a faithful snapshot is installed exactly when the exchange's book at its update id fits and the buffered events chain up from there |
| DepthAcceptance.RunExact | src/trading/venue/binance/binance_depth_book.cpp:142-210 | over every run of faithful inputs: failure, readiness, buffered events and `last_update_id_` are what the ids and the number of levels say, and a ready book is the exchange's |
| SpscQueues.SlotsDiffer | src/common/lf_queue.h:51-60 | two elements less than a turn apart never share a slot |
| SpscQueues.SpscQueue.TryGetNextToWriteTo | src/common/lf_queue.h:34-40 | null exactly when the queue holds `capacity` elements; otherwise the slot of the next element |
| SpscQueues.SpscQueue.WriteSlot | src/common/lf_queue.h:34-40 | writing never touches a slot the consumer may read |
| SpscQueues.SpscQueue.CheckNotFull | src/common/lf_queue.h:51-54 | the terminate branch is not reached after a successful `tryGetNextToWriteTo`, whatever the consumer does meanwhile |
| SpscQueues.SpscQueue.GetNextToRead | src/common/lf_queue.h:62-68 | null exactly when nothing is left to read |
| SpscQueues.SpscQueue.ReadSlot | src/common/lf_queue.h:62-68 | the value read is the oldest written one not finished with |
| SpscQueues.SpscQueue.CheckNotEmpty | src/common/lf_queue.h:70-73 | the terminate branch is not reached after a successful `getNextToRead` |
| SpscQueues.SpscQueue.Take | src/common/lf_queue.h:35-79 | any step of either thread does to the ring what it does to the queue on values, and keeps the invariant; a step its thread cannot take next does nothing |
| SpscQueues.Interleave | src/common/lf_queue.h:35-91 | over every interleaving the ring is the queue on values that the schedule makes; values read are a prefix of values written and the count accounts for the rest within capacity |
| SpscQueues.RunIsFifo | src/common/lf_queue.h:35-91 | in every interleaving the queue on values is first-in first-out, bounded by the capacity |
| SpscQueues.PushPublishes | src/common/lf_queue.h:35-60 | a push into a queue with room publishes its value after all others, whatever the consumer does between its steps |
| SpscQueues.PopTakesOldest | src/common/lf_queue.h:62-79 | a pop from a queue that holds something takes its oldest value, whatever the producer does between its steps |
| PositionKeeper.PositionInfo.OnFill | src/trading/strategy/position_keeper.h:82-100 | an execution does to position, lots and profits exactly what `Filled` says |
| PositionKeeper.PositionInfo.ClosePosition | src/trading/strategy/position_keeper.h:131-168 | consumes yesterday's lot before today's, as the offset allows, and realises the difference to the lot's price |
| PositionKeeper.PositionInfo.RecalculateUnrealizedPnl | src/trading/strategy/position_keeper.h:170-190 | marks the open position at the mid price, or at nothing without quotes |
| PositionKeeper.PositionInfo.UpdateBBO | src/trading/strategy/position_keeper.h:102-106 | a quote re-marks the position and changes nothing else |
| PositionKeeper.OpenKeepsLotsExactly | src/trading/strategy/position_keeper.h:117-129 | opening keeps lots and position in step exactly when it does not oppose the position |
| PositionKeeper.CloseConservesExactly | src/trading/strategy/position_keeper.h:131-168 | closing against the position keeps realised profit equal to cash flow plus cost exactly when the lots cover it, or nothing is paid |
| PositionKeeper.FillConserves | src/trading/strategy/position_keeper.h:82-168 | a proper execution keeps the lots and the money identity |
| PositionKeeper.MarkedToMarket | src/trading/strategy/position_keeper.h:170-190 | with both quotes total profit is cash flow plus the position at the mid price |
| PositionKeeper.UnquotedIsRealized | src/trading/strategy/position_keeper.h:170-190 | without a position, or with a quote missing, nothing is unrealised and total profit is the realised one |
| PositionKeeper.ProperMoves | src/trading/strategy/position_keeper.h:82-168 | a proper execution moves the position by its signed quantity and its lot by its quantity |
| PositionConservation.RunConserves | src/trading/strategy/position_keeper.h:82-190 | over every run of proper executions and quotes: lots, realised profit and total profit balance against the cash flow |
| PositionLaws.CloseExact | src/trading/strategy/position_keeper.h:131-168 | each unit closed comes from yesterday's lot first, as the offset allows, and earns its distance from its lot's average; averages stay while a lot holds anything |
| PositionLaws.OpenExact | src/trading/strategy/position_keeper.h:117-129 | an open joins today's lot at the average cost of all its units, and realises nothing |
| PositionLaws.RunAverage | src/trading/strategy/position_keeper.h:82-168 | over every run of proper executions the average of what is held lies among the prices it was opened at, and yesterday's lot stays empty |
| RiskManager.OpenBoundExact | src/trading/strategy/risk_manager.h:47-55 | the position limit is sound from every position within it, lots matching, exactly for quantities that survive the signed conversion |
| RiskManager.AllowedCloseIsCovered | src/trading/strategy/risk_manager.h:56-58 | an allowed close is positive and within the lots its offset names |
| RiskManager.ResolvedOffset | src/trading/strategy/position_keeper.h:68-80 | the chosen offset names a lot that holds something, yesterday's first, and is INVALID exactly when nothing is asked or held |
| OrderManager.OrderManager.OnOrderUpdate | src/trading/strategy/order_manager.cpp:10-40 | only the slot with the response's identifier changes, as the response says |
| OrderManager.OrderManager.MoveOpenOrder | src/trading/strategy/order_manager.cpp:54-59 | the slot, the request and the next identifier after an open decision; other slots unchanged |
| OrderManager.OrderManager.MoveClose | src/trading/strategy/order_manager.cpp:61-80 | the close is cut to what the chosen lot holds, checked, and placed; other slots unchanged |
| OrderManager.OrderManager.Move | src/trading/strategy/order_manager.cpp:82-102 | a different live order is cancelled, a free slot takes a new order, a pending one waits |
| OrderManager.OrderManager.New | src/trading/strategy/order_manager.cpp:104-135 | a new order is sent and stored exactly when risk allows it, with a fresh identifier |
| OrderManager.OrderManager.Cancel | src/trading/strategy/order_manager.cpp:137-154 | only a live order is cancelled, and it stays outstanding |
| TradeEngines.TradeEngine.HandleClientResponse | src/trading/strategy/trade_engine.cpp:183-202 | position first, then the test, then the order; the test's exception leaves the order slot unchanged |
| TradeEngines.TradeEngine.HandleMarketUpdate | src/trading/strategy/trade_engine.cpp:204-212 | re-marks the position, updates the features and forgets the evaluation when they are invalid |
| TradeEngines.TradeEngine.HandleJevDecision | src/trading/strategy/trade_engine.cpp:214-300 | acts on a decision exactly as the guards and branches say, for one ticker only |
| TradeEngines.TradeEngine.Admits | src/trading/strategy/trade_engine.cpp:215-254 | the guards for readiness, staleness, features and single-order venues |
| TradeEngines.TradeEngine.PlaceOpen | src/trading/strategy/trade_engine.cpp:258-285 | the opening branch with the simex guard against opposite exposure |
| TradeEngines.TradeEngine.PlaceClose | src/trading/strategy/trade_engine.cpp:286-298 | the closing branch: against the position, selling at the bid and buying at the ask (`NewOrderExact`) |
| TradeEngines.TradeEngine.ScheduleJevEvaluation | src/trading/strategy/trade_engine.cpp:323-354 | registers a fresh evaluation exactly when venue, features and timer allow |
| TradeEngines.TradeEngine.UpdateVenueState | src/trading/strategy/trade_engine.h:99-105 | stores readiness, account and multiplier; losing readiness forgets every evaluation |
| TradeEngines.TradeEngine.DisableVenueTrading | src/trading/strategy/trade_engine.h:106-109 | forgets every evaluation and readiness |
| TradeEngines.TradeEngine.AcceptsEvaluation | src/trading/strategy/trade_engine.h:111-114 | holds exactly for the evaluation a decision could still be acted on for |
| TradeEngines.TradeEngine.ProcessPending | src/trading/strategy/trade_engine.cpp:98-105 | draining responses, updates, decisions and the timer is handling their events in that order, until a handler throws; the requests they send are queued in order |
| TradeEngines.Trade | src/trading/strategy/trade_engine.cpp:98-181 | a fresh engine object through any turns of both threads is what handling their events in order makes of it, up to the first exception, with the requests it sent; with an allowed venue and a quantity that fits nothing throws and every position is safe |
| EngineSpec.FeedAppend | src/trading/strategy/trade_engine.cpp:107-181 | draining one queue after another is one run of all their events |
| EngineDecisions.NewOrderExact | src/trading/strategy/trade_engine.cpp:214-300 | a decision sends a given new order exactly if it answers the current evaluation, the guards hold, risk allows it and its side is free, and the order is the one wanted: an open buys at the ask for LONG and sells at the bid otherwise, with the configured quantity; a close sells a long position at the bid and buys back a short one at the ask, with the smaller of that quantity and the chosen lot |
| EngineDecisions.WithdrawalExact | src/trading/strategy/trade_engine.cpp:214-300 | a decision sends a cancellation exactly of a live order on the wanted side that differs in price, quantity or offset; a close has to pass the risk check first |
| EngineDecisions.DecisionLeaves | src/trading/strategy/trade_engine.cpp:214-300 | the order sent pends in its slot, the one withdrawn pends its cancellation, and nothing else changes |
| EngineDecisions.RiskExact | src/trading/strategy/risk_manager.h:34-65 | the check allows exactly a valid quantity within the order size, the position limit for opens, the lots for closes, and a total loss of at most the limit where one is set |
| EngineDecisions.QuoteExact | src/trading/strategy/trade_engine.cpp:204-212 | a market update is stored for its own ticker; features are good exactly for valid prices that do not cross with quantities behind both, and otherwise the evaluation is forgotten |
| EngineDecisions.EvaluationExact | src/trading/strategy/trade_engine.cpp:323-354 | an evaluation with the next number is registered exactly when the timer is due, the ticker's features are good and a single-order venue is ready |
| EngineHearing.HeardExactly | src/trading/strategy/order_manager.cpp:10-40 | what each kind of response makes of the slot that holds its order, and that it leaves all others alone |
| EngineSafety.DisagreesExactlyWhenImproper | src/trading/strategy/trade_engine.cpp:188-199 | the exception after a fill is thrown exactly for opens against the position and closes that do not oppose it or exceed their lots |
| EngineSafety.AnswerIsSafe | src/trading/strategy/trade_engine.cpp:183-202 | a response the venue may give keeps the ticker safe and never throws |
| EngineSafety.OpenIsSafe | src/trading/strategy/trade_engine.cpp:258-285 | an open decision for an int32 quantity keeps the ticker safe: no opposite open, no opposed position, limit kept even if all is filled |
| EngineSafety.CloseIsSafe | src/trading/strategy/trade_engine.cpp:286-298 | a close decision for an int32 quantity keeps every outstanding close covered by its lot |
| EngineSafety.RunIsSafe | src/trading/strategy/trade_engine.cpp:183-300 | every reachable state under a quantity that fits (the exact condition): lots add up to the position, closes are covered, opens are one-sided and do not oppose it, the limit holds, nothing throws |
| EngineSafety.AllowedIsHandled | src/trading/strategy/trade_engine.cpp:107-202 | with an allowed venue every event of a run is handled: no exception cuts a drain short |
| EngineSafety.AcceptanceExact | src/trading/strategy/order_manager.cpp:21-23 | an acceptance keeps a safe ticker safe exactly when it is about another order, an active one, or one that could be placed now |
| EngineExactness.SafetyExact | src/trading/strategy/trade_engine.h:83-88 | every allowed run is safe exactly when the decision quantity fits an int32 or no order is ever placed |
| EngineExactness.LimitExact | src/trading/strategy/risk_manager.h:47-55 | every allowed run keeps positions within the limit under the same condition exactly |
| EngineExactness.LateAcceptanceBreaksSafety | src/trading/strategy/order_manager.cpp:21-23 | a run from the start (open, cancelled, opposite open) after which accepting the cancelled order breaks safety |
| EngineConservation.RunBalances | src/trading/strategy/position_keeper.h:82-190 | over every engine run with an allowed venue and a quantity that fits the accounts balance against the cash flow of the executions |
| EngineFreshness.LatestExactlyFresh | src/trading/strategy/trade_engine.cpp:204-239 | the identifier a decision must match is exactly the one scheduled last with nothing lost since |
| EngineFreshness.OrderOnlyForFreshDecision | src/trading/strategy/trade_engine.cpp:214-240 | a request goes out only for a scheduled, not superseded evaluation, with features and venue good ever since, even if quotes went bad and recovered |
| EngineFreshness.FreshStaysTradable | src/trading/strategy/trade_engine.cpp:323-338 | from a scheduling to the first interruption the ticker stays tradable |
| EngineFreshness.IdentifiersIncrease | src/trading/strategy/order_manager.cpp:118-134 | evaluation and order identifiers are never used twice |
| SimNowExecutions.SimNowExecution.HandleRequest | src/trading/venue/simnow/simnow_execution.cpp:22-25 | `submit` with its exception caught does exactly what the value function says, for any identifiers, and keeps the invariant |
| SimNowExecutions.SimNowExecution.OrderOf | src/trading/venue/simnow/simnow_execution.cpp:98-100 | the order a cancellation reaches: the first of its identifier in the dictionary order of the references |
| SimNowExecutions.SimNowExecution.Cancel | src/trading/venue/simnow/simnow_execution.cpp:81-93 | at most one cancellation per order; a transport refusal is published and fatal |
| SimNowExecutions.SimNowExecution.Finish | src/trading/venue/simnow/simnow_execution.cpp:73-79 | publishes CANCELED or REJECTED and ends the order, or waits for a reported execution |
| SimNowExecutions.SimNowExecution.OrderEvent | src/trading/venue/simnow/simnow_execution.cpp:132-151 | flags, publications and the end of the order after a status callback |
| SimNowExecutions.SimNowExecution.TradeEvent | src/trading/venue/simnow/simnow_execution.cpp:153-170 | a trade moves order, position and log together, or nothing; what is published carries the callback's price (`TradeExact`) |
| SimNowExecutions.SimNowExecution.HandleEvent | src/trading/venue/simnow/simnow_execution.cpp:172-253 | every kind of callback, with exactly the partial effects an exception leaves |
| SimNowExecutions.SimNowExecution.StageEvent | src/trading/venue/simnow/simnow_execution.cpp:206-225 | the login sequence advances one pending request at a time |
| SimNowExecutions.SimNowExecution.DrainCallbacks | src/trading/venue/simnow/simnow_execution.cpp:258-263 | a batch is its callbacks one after the other, exceptions caught |
| SimNowExecutions.SimNowExecution.PollQueries | src/trading/venue/simnow/simnow_execution.cpp:271-295 | queries, timeouts and readiness after a batch |
| SimNowExecutions.SimNowExecution.PollStopping | src/trading/venue/simnow/simnow_execution.cpp:265-270 | one cancellation of every order in turn, whatever return codes they get: afterwards none is open, unfinished and without a cancellation while connected; stopped exactly when none is open |
| SimNowExecutions.SimNowExecution.PollOrders | src/trading/venue/simnow/simnow_execution.cpp:255-300 | a lost callback, the batch, then cancellations or queries: exactly the steps of the value functions |
| SimNowExecutions.Operate | src/trading/venue/simnow/simnow_execution.cpp:22-300 | a fresh adapter object through any turns of its threads keeps the invariant and is a reachable state; its position is the signed sum of the executions it published |
| SimNowSafety.FinishedKeeps | src/trading/venue/simnow/simnow_execution.cpp:73-79 | the quantity-mismatch exception is unreachable, and the invariant is kept |
| SimNowSafety.OrderKeeps | src/trading/venue/simnow/simnow_execution.cpp:132-151 | a status callback keeps the invariant and throws exactly for an unknown order or an impossible quantity |
| SimNowSafety.TradeKeeps | src/trading/venue/simnow/simnow_execution.cpp:153-170 | any execution callback keeps the invariant |
| SimNowSafety.ErrorKeeps | src/trading/venue/simnow/simnow_execution.cpp:180-194 | an error callback keeps the invariant and throws exactly when it is about no stored order |
| SimNowSafety.SubmissionKeeps | src/trading/venue/simnow/simnow_execution.cpp:95-130 | any request, reused identifiers included, keeps the invariant: one open order, fitting the position |
| SimNowSafety.RunKeeps | src/trading/venue/simnow/simnow_execution.cpp:95-300 | every reachable state, under arbitrary requests and callbacks, keeps the invariant |
| SimNowLifecycle.PositionIsAccountedFor | src/trading/venue/simnow/simnow_execution.cpp:95-170 | over every run: at most one order is not done; the position is within one lot, is the signed sum of published executions, and folding them gives it with today's lot as large |
| SimNowLifecycle.OrderLifecycle | src/trading/venue/simnow/simnow_execution.cpp:57-93 | an order whose identifier came once is done exactly when one terminal response was published, never two; nothing follows it; ACCEPTED at most once |
| SimNowLifecycle.NothingFollows | src/trading/venue/simnow/simnow_execution.cpp:132-194 | once such an order is done, no later run publishes anything about it |
| SimNowLifecycle.ReportedIsNeverCanceled | src/trading/venue/simnow/simnow_execution.cpp:73-79 | once an execution was reported for an open order, only its trade ends it; with an identifier that came once it is never published canceled or rejected, and if it ends its trade was published |
| SimNowLifecycle.SweepExactly | src/trading/venue/simnow/simnow_execution.cpp:81-93 | cancelling orders in turn gives each that is open, unfinished and not yet cancelled a request number of its own, and leaves the others alone |
| SimNowFills.TradeExact | src/trading/venue/simnow/simnow_execution.cpp:153-170 | a trade callback is taken exactly if it reports the first execution of an open order, as ordered, or repeats one; the former publishes one lot at the callback's price, ends the order and moves the position, the latter and any other change nothing |
| SimNowFills.RunExecutesReported | src/trading/venue/simnow/simnow_execution.cpp:57-170 | over every run the FILLED responses are, one for one and in order, the trade callbacks taken for the first time, each with the callback's price and one lot on its order's side |
| SimNowFills.RunCashExact | src/trading/venue/simnow/simnow_execution.cpp:57-170 | so a participant that folds them has realised what those callbacks pay and receive, plus the signed cost of what it holds |
| SimNowAnswers.StatusExact | src/trading/venue/simnow/simnow_execution.cpp:132-151 | a status of an open order publishes a refused cancellation once, an acceptance once, and as the last word REJECTED for a rejected insertion and CANCELED otherwise, unless an execution was reported |
| SimNowAnswers.StatusOtherwise | src/trading/venue/simnow/simnow_execution.cpp:132-151 | any other status publishes nothing, and throws for an unknown order or an impossible quantity |
| SimNowAnswers.ErrorExact | src/trading/venue/simnow/simnow_execution.cpp:180-194 | a failed insertion ends its order as REJECTED unless an execution was reported, a failed cancellation is published once |
| SimNowAnswers.ErrorOtherwise | src/trading/venue/simnow/simnow_execution.cpp:180-194 | any other error callback changes nothing, and throws exactly when it is an error about no order |
| SimNowAnswers.NewOrderExact | src/trading/venue/simnow/simnow_execution.cpp:95-130 | which new orders are taken, stored under the next reference and number, and what is published about the others |
| SimNowStartup.RunConfirmed | src/trading/venue/simnow/simnow_execution.cpp:202-253 | whatever stage of the start-up a run has reached, its stages (authentication, login, settlement, four queries) were confirmed one after the other |
| SimNowStartup.RunIsClean | src/trading/venue/simnow/simnow_execution.cpp:226-247 | as long as the adapter has not failed, no awaited answer showed a position, a working order, an unusable account or an ineligible instrument |
| SimNowStartup.ReadyIsVerified | src/trading/venue/simnow/simnow_execution.cpp:202-296 | an adapter that says it is ready has been through the whole start-up, has been shown its instrument and its account, and nothing against trading |
| SimNowStartup.OrderOnlyAfterStartup | src/trading/venue/simnow/simnow_execution.cpp:95-130 | over every run an order is stored only after all of that, at a positive multiple of the tick shown |
| SimNowStartup.LoginExact | src/trading/venue/simnow/simnow_execution.cpp:211-223 | the awaited login answer is taken exactly if it names a session of the market data's trading day and settlement can be asked for; orders are numbered on from its last reference |
| SimNowStartup.QueryExact | src/trading/venue/simnow/simnow_execution.cpp:226-252 | the awaited answer to a query is taken exactly if nothing in it speaks against trading and what it had to bring has come by its end; the last part of the last one ends the start-up |
| SimNowStartup.FailedAnswerExact | src/trading/venue/simnow/simnow_execution.cpp:195-201 | an error ends trading unless it answers the account query after the start-up, which only makes the account not count |
| SimNowStartup.PollExact | src/trading/venue/simnow/simnow_execution.cpp:271-296 | a poll fails exactly when the query under way is late or the one due cannot be sent; the adapter is ready exactly when the start-up is over, quotes come in and the account is known |
| SimNowStartup.PollAsks | src/trading/venue/simnow/simnow_execution.cpp:275-288 | the query due goes out under the next number, or is put back when the transport is busy, and then an account read after the start-up stops to count |
| SimNowReplay.TradeIsProcessedOnce | src/trading/venue/simnow/simnow_execution.cpp:159-160 | a processed trade is a replay for ever after and changes nothing |
| SimNowReplay.ReplayChangesNothing | src/trading/venue/simnow/simnow_execution.cpp:153-160 | a replay changes nothing, and is refused only for what it names |
| SimNowReplay.ReplayPassesExactly | src/trading/venue/simnow/simnow_execution.cpp:132-160 | after a trade and a status of its order, the same trade passes exactly when the status named no other system number |
| SimNowReplay.RenamedReplayStopsTrading | src/trading/venue/simnow/simnow_execution.cpp:132-194 | a run from start-up: logged in, queried, ready, order, trade, status with another system number; the replayed trade is fatal |
| Numerals.FirstIsUnique | src/trading/venue/simnow/simnow_execution.h:56 | of a set of references exactly one is met first in dictionary order |
| Numerals.InOrderIsOrdered | src/trading/venue/simnow/simnow_execution.cpp:267 | the walk over all orders visits the references in the dictionary order of their numerals |
| VenueLoop.NextIsAllowed | src/trading/venue/simnow/simnow_execution.cpp:57-170 | the next response in the queue is about the order the engine holds, still active, and within what it asks for |
| VenueLoop.LoopIsSafe | src/trading/strategy/trade_engine.cpp:107-202 | engine and adapter in any interleaving under arbitrary callbacks and any quantity: every response delivered is one engine safety allows, no handler throws, and the position is at most one lot, the sum of the executions heard and the adapter's own once all are heard; the engine is safe without an assumption on the venue |
| SimexLoop.NextIsAllowed | src/trading/venue/simex/simex_venue_adapter.cpp:283-328 | with a venue that keeps the ledger's protocol the next response in the queue is one engine safety allows |
| SimexLoop.LoopIsSafe | src/trading/venue/simex/simex_venue_adapter.cpp:223-328 | engine and ledger in any interleaving: no handler throws, the engine is safe, and its position is the sum of the executions heard, the adapter's own once all are heard |
| TopFive.PlacedKeepsTop | src/trading/venue/simex/simex_venue_adapter.cpp:118-153 | a contribution keeps the array the n best levels with complete quantities; an evicted price never matters again |
| TopFive.FoldedIsTop | src/trading/venue/simex/simex_venue_adapter.cpp:118-153 | folding all contributions gives exactly the n best prices of the fully aggregated map |
| TopFive.FoldedIgnoresOrder | src/trading/venue/simex/simex_venue_adapter.cpp:118-125 | any iteration order gives the same levels |
| TopFive.TopIsUnique | src/trading/venue/simex/simex_venue_adapter.cpp:118-125 | a price map has one sequence of best levels |
| LevelAggregates.LevelAggregate.Aggregate | src/trading/venue/simex/simex_venue_adapter.cpp:126-153 | the in-place array update is that contribution, for both orders of price |
| LevelAggregates.LevelAggregate.LowerBound | src/trading/venue/simex/simex_venue_adapter.cpp:130-139 | halving finds the first level that is not better |
| SimexVenueAdapters.SimexVenueAdapter.PublishBook | src/trading/venue/simex/simex_venue_adapter.cpp:367-404 | publishes the five best levels of each side of the book, fully aggregated, exactly when all their quantities fit, and throws otherwise |
| SimexVenueAdapters.SimexVenueAdapter.Submit | src/trading/venue/simex/simex_venue_adapter.cpp:223-281 | queues a frame for exactly the requests that pass, purging when the ledger is full; others are answered locally (`OpenExact`, `CancelExact`) |
| SimexVenueAdapters.SimexVenueAdapter.Purge | src/trading/venue/simex/simex_venue_adapter.cpp:269-274 | removes exactly the finished orders without a pending cancel |
| SimexVenueAdapters.SimexVenueAdapter.Response | src/trading/venue/simex/simex_venue_adapter.cpp:283-328 | changes the order and the position as the response says and publishes it, or throws (`ResponseExact`) |
| SimexVenueAdapters.SimexVenueAdapter.Increment | src/trading/venue/simex/simex_venue_adapter.cpp:410-424 | buffers before the snapshot, then applies the next number only; succeeds exactly when the market step does (`IncrementExact`) and what it publishes fits |
| SimexVenueAdapters.SimexVenueAdapter.Snapshot | src/trading/venue/simex/simex_venue_adapter.cpp:425-455 | installs the first snapshot and drains the buffer, later ones only advertise; succeeds exactly when the market step does and what it publishes fits |
| SimexVenueAdapters.Operate | src/trading/venue/simex/simex_venue_adapter.cpp:223-457 | a fresh adapter object through any requests, frames and datagrams, up to the first exception, is the ledger's run and the market's run, with everything it queued and published; quantities, position and sides are accounted for |
| SimexVenueAdapters.RanIsBoth | src/trading/venue/simex/simex_venue_adapter.cpp:223-457 | orders and market data do not influence each other: a run of the adapter is a run of either side over its own inputs |
| SimexLedger.RunKeeps | src/trading/venue/simex/simex_venue_adapter.cpp:223-328 | in every run without exceptions: quantity asked is remaining plus executed per order, the position is the sum of all executions, live opens are on one side |
| SimexLedger.TerminalNeverReverts | src/trading/venue/simex/simex_venue_adapter.cpp:283-328 | a finished order stays finished as long as its identifier is not opened anew |
| SimexLedger.RunKeepsDebts | src/trading/venue/simex/simex_venue_adapter.cpp:269-278 | with a venue that keeps the protocol the ledger's flags say exactly what the venue still owes |
| SimexLedger.PurgeNeverDropsOwed | src/trading/venue/simex/simex_venue_adapter.cpp:269-290 | with a venue that owes each order one terminal reply and each cancel one answer, a CANCELED counting as both, whatever it may send next is about an order the purge has kept |
| SimexLedger.LeavesExactlyAtPurge | src/trading/venue/simex/simex_venue_adapter.cpp:269-278 | a finished order without a pending cancel stays as it is, and leaves exactly when a submission goes out with the ledger full |
| SimexLedger.HeldUntilPurge | src/trading/venue/simex/simex_venue_adapter.cpp:269-278 | so over every run: as long as its identifier is not opened anew, it is held exactly until the first purge |
| SimexLedger.LateAnswerFatalExactly | src/trading/venue/simex/simex_venue_adapter.cpp:289-308 | whatever the venue's protocol, its answer to a cancel that comes after the order is finished, and before its identifier is opened anew, ends the adapter exactly when a purge has happened since |
| SimexLedger.AnswerAfterOwnCancelIsFatal | src/trading/venue/simex/simex_venue_adapter.cpp:289-308 | such a run: after the venue's own cancellation and a purge, its late answer to a cancel ends the adapter |
| SimexOrders.OpenExact | src/trading/venue/simex/simex_venue_adapter.cpp:223-281 | which new orders go to the venue, with what frame and what stored order; which are refused, and with what response; and that the adapter ends exactly when the buffer is full or too many orders wait |
| SimexOrders.CancelExact | src/trading/venue/simex/simex_venue_adapter.cpp:223-281 | a cancellation goes out exactly for a live order without one under way, repeating what that order asked for, and is refused otherwise |
| SimexOrders.ResponseExact | src/trading/venue/simex/simex_venue_adapter.cpp:283-328 | a frame is taken exactly if it is about an order held, and an execution only of what is left of a live one with the position within 32 bits; its order alone changes, and what is published repeats its price and quantities |
| SimexOrders.RunSpeaksExact | src/trading/venue/simex/simex_venue_adapter.cpp:223-328 | over every run the venue gets exactly the requests that may go there, in order, and the engine exactly the refusals of the others and the venue's frames |
| SimexOrders.RunExecutesExact | src/trading/venue/simex/simex_venue_adapter.cpp:283-328 | over every run the executions published are those of the venue's frames, one for one, in order and at their prices, and their signed sum is the adapter's position |
| SimexSync.DrainFollowsLog | src/trading/venue/simex/simex_venue_adapter.cpp:446-452 | draining contiguous increments replays the venue's log |
| SimexSync.RunFollowsLog | src/trading/venue/simex/simex_venue_adapter.cpp:330-457 | once synchronised, the book is the venue's log replayed to the sequence reached, over every non-failing run |
| SimexSync.ArrivalOrderIsIrrelevant | src/trading/venue/simex/simex_venue_adapter.cpp:415-418 | increments before the snapshot may arrive in any order: same state, or the same failure |
| SimexAcceptance.IncrementExact | src/trading/venue/simex/simex_venue_adapter.cpp:410-424 | of a synchronised adapter that follows the venue's log: an increment the snapshot held is skipped, the next one is taken exactly when it is legal at the log's book and what it leaves fits, any other is refused; the last price is that of the last trade |
| SimexAcceptance.DrainExact | src/trading/venue/simex/simex_venue_adapter.cpp:446-452 | the buffer drains exactly if beyond the snapshot it leaves no gap and all its increments are taken, and then up to its highest number |
| SimexAcceptance.SnapshotExact | src/trading/venue/simex/simex_venue_adapter.cpp:425-455 | the first snapshot is taken exactly when its orders are well-formed, told apart and fit, and the buffer drains up from it |
| SimexAcceptance.RunExact | src/trading/venue/simex/simex_venue_adapter.cpp:330-457 | a run of genuine datagrams fails exactly when the log and the sequence numbers say so; once synchronised, book and last trade price are those of the log at the sequence reached |
| JsonDiff.DescribeWordingDiff | src/tools/jev_variant.cpp:65-70 | no entries exactly for equal documents, and the entries are exactly the differences there are: changes with both values, errors of their kind at their path; without errors they patch one document into the other |
| JsonDiff.DiffReport.DiffJson | src/tools/jev_variant.cpp:13-49 | appends such a diff below the pointer, in whatever order keys are walked |
| JsonDiff.PatchedUnder | src/tools/jev_variant.cpp:23-31 | changes below one child patch that child only |
| WordingVariant.BuildPreviousWordingVariant | src/tools/jev_variant.cpp:53-63 | field-by-field editing is three replacements at three paths; fails exactly when a required field is missing |
| WordingVariant.VariantChangesWordingOnly | src/tools/jev_variant.cpp:53-63 | the pinned wording stands at its paths, everything off them is as in the request, and the shape is kept |
| WordingVariant.DiffIsWordingOnly | src/tools/jev_variant.cpp:53-70 | the diff of a request and its variant has no errors and only those paths, changed to the pinned wording |
| CtpMapping.SafePricesSurvive | src/trading/venue/simnow/ctp_mapping.cpp:6-11 | below 2^51 a price survives conversion to a double and back under any arithmetic within the unit roundoff |
| CtpMapping.RoundTripExactly | src/trading/venue/simnow/ctp_mapping.cpp:6-11 | how far the unit roundoff alone carries: a price survives under every arithmetic within it exactly when it is below 2^51 |
| CtpMapping.FirstLostPrice | src/trading/venue/simnow/ctp_mapping.cpp:6-11 | rounding to nearest, every price below 3355443200000019 survives, and that one comes back one unit larger |
| CtpMapping.BoundProtectsExactly | src/trading/venue/simnow/ctp_mapping.cpp:6-11 | a bound protects every price below it exactly when it is at most that price |
| CtpMapping.ToNearestRounds | src/trading/venue/simnow/ctp_mapping.cpp:6-11 | round-to-nearest arithmetic exists, so these results are about something |

## Left out

- Networking, sockets, TLS, the CTP transport, HTTP and JSON wire formats, logging, configuration and thread wiring: they are the environment that supplies events and return codes.
- Binance REST and user-stream order handling, and the execution handler around it.
- Memory orderings below sequential consistency: every atomic access of the queue and the engine is one indivisible step.
- A decision handled while the venue thread changes readiness: engine handlers and mailbox updates are whole steps here, so a request already past its guards when readiness is lost is not modelled.
- Rounding in profit arithmetic, and NaN, infinities and negative zero as Binance prices: real numbers are used instead.
- Published Binance prices and quantities too large for their integer types, whose conversion is undefined in C++.
- `MarketOrderBook` depth snapshots beyond their front levels, which are all the book itself reads.
- Signed overflow of positions and of `position_ + quantity`, undefined in C++: positions are unbounded integers, and without a position limit executions are assumed to keep them within 31 bits.
- The pointer from `PositionInfo` to the book's BBO: a position keeps the last quote it was given, as it does between market updates.
- `moveOrders`, the two-sided quoting no handler calls, and quantities, features and probabilities of decisions beyond validity, bias and intent.
- Queue overflow in `sendClientRequest` and `scheduleJevEvaluation`, which terminates the process.
- The account figures SimNow publishes to the engine: to the adapter an account is usable or not.
- Bounds of the gateway's queues between engine and adapters: in `VenueLoop` and `SimexLoop` they are unbounded.
- SimNow instruments whose price tick rounds to zero at eight decimals, for which the source divides by zero.
- Wrap-around of 64-bit counters: order, evaluation and reference numbers are unbounded.
- Framing, versions and sequence numbers of Simex wire messages: a response or datagram is well framed or an exception.
- Escaping of keys in JSON pointers and JSON numbers beyond their value: paths are sequences of keys and indices, and numbers are compared as reals.
- Overflow of the total in one aggregated Simex level beyond 64 bits, which the book capacity excludes.
- Transmission of queued Simex frames: `outgoing` holds every frame ever queued, and whether the buffer is full is a parameter of the request.
