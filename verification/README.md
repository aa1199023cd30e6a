# Match engine: a verified model

A limit-order matching engine with the recovery protocol around it. Three processes are
modelled. The generator inserts an `INITIAL` row and then queues the order; when it starts, it
first resends every open row and takes its id counter from the largest stored id. The engine
matches by price and then id over a `price -> orderId -> Order` map for each side and emits one
message per trade, or one report for an order that found no trade. The persistence worker
replays these messages into the `orders` and `trade_records` tables.

## How the model is built

* `Orders`, `Fees`: the values; every number is an integer in millionths, because orders pass
  through six-decimal text before the engine sees them (`src/Serialization.cpp:74-82`). Double
  arithmetic is taken as exact. A fee is an integer in 1e-8 units and becomes six-decimal text
  on its way to the table (ties away from zero).
* `Matching`: what the engine computes, on a flat book `id -> Order`. `PriceLevels` gives the
  nested maps as a view of it, `OrderedKeys` the iterators (a reverse iterator keeps its base,
  as `std::map::erase` makes the source do), and `Engine` the class with the nested loops that
  erase from the maps they walk, proved against `Matching`.
* `SortedFill`, `Mirror`, `BookInvariants`, `FeeDrift`: matching is the fold over the sorted list
  of makers; it is greedy and optimal for the taker, treats both sides alike, keeps the book
  uncrossed, conserves quantity, and bounds trades and fee rounding.
* `Tables`, `Persistence`, `Generator`: the tables as values, and the worker and the generator as
  classes that change a `Database` step by step.
* `Protocol`: the processes and their queues as one step system. A crash may fall between any
  two steps, so also between two trades of one order; it may take everything but the tables, or
  leave the worker some of the results. A generator may come up, after a crash or next to a live
  engine, once no order is queued or being matched and no trade is pending. A step that is not
  enabled changes nothing, so every sequence of steps is a run.
* `Canonical`: the tables alone determine the next message. `Pipeline`: the invariant of all
  interleavings. `Recovery`: the tables only ever advance along that one path, so crashes and
  restarts do not change the outcome. `History`: what the tables show over whole runs. `Rebuild`,
  `Restart`: reloading and resending. `Rates`, `RestartRates`: the same results when fee rates do
  not fit the `fee_rate` column. `Witness`: runs that show the conditions to be needed.

In these modules `Coherent(s)` compares rates too, so it holds of runs whose rates have at most
four decimals (`GoodRun`); for other runs it holds once rates and fees are forgotten. The
main results about `Coherent` states have counterparts for all reachable states in `Rates` and
`RestartRates`.

## What is taken as given

* Submitted quantities are positive. The classes of `Engine` take as given that fills lie between
  zero and the quantity and that a book entry is replaced only by an order of the same price and
  side; `Rates.QueueListedAllRates` proves both of every reachable state.
* The queues are FIFO; there is one generator and one worker (`main.cpp:58`); SQL statements
  succeed and the transaction of a trade is atomic.
* The reload query sorts by `create_time`, which has a resolution of one second, so about a
  hundred rows may tie (`src/OrderGenerator.cpp:27`). The protocol admits every order in which
  rows up to which nothing is left to do come as they like and the others by id (`InTurn`).
* A side that is not BUY takes the sell path (`src/MatchingEngine.cpp:53-57`). The source passes
  taker and maker into parameters called buyer and seller (`src/MatchingEngine.cpp:147`,
  `src/MatchingEngine.cpp:175-177`); the model names the slots taker and maker.
* The repository's own description lets the persistence process read the order queue too
  (`README.md:6`); the code reads only the result queue, and the generator writes the order rows
  itself (`src/OrderGenerator.cpp:57-61`). The model follows the code.

## Where the code falls short, exactly

* The `fee_rate` column keeps four decimals (`db.sql:7`), so a reloaded order may charge another
  fee than the one first sent: its recorded fees survive if and only if its rate has at most four
  decimals (`Rates.FeesSurviveReload`), and `Witness.TradeAfterCrash` gives the runs whose
  `trade_records` rows differ. Apart from rates and fees recovery is exact for all rates
  (`Rates.RunsAgreeUpToFees`).
* Every batch of orders is a new generator (`main.cpp:86-95`), usually next to a live engine, and
  it resends all open rows. With an idle engine this trades nothing and leaves the books as they
  are, but for rates, if and only if no trade is still on its way to the tables
  (`RestartRates.ResendExactlyAllRates`); with a busy one, if and only if nothing that was pending
  when the rows were read and nothing that the engine sends until the resent orders come is a trade
  (`RestartRates.ResendBusyAllRates`). Otherwise a row lags behind the engine, and
  `Witness.DoubledTrade` gives runs in which a whole quantity is traded a second time.
* Even without a pending trade the resent rows bring their rates: the books of an idle engine stay
  exactly as they are if and only if, besides, every resting order has a rate of at most four
  decimals (`RestartRates.ResendExactlyWithRates`, `Witness.OneOrderRestart`).
* The processes are started and die separately (`main.cpp:134-138`). When the engine dies while the
  worker still has results to apply, a generator that comes up and reads its rows in turn keeps the
  pipeline invariant if and only if none of those results is a trade
  (`RestartRates.LoadExactlyAllRates`); `Witness.DoubledTrade` is an example here too, because the
  engine it leaves is as empty as one that has died.
* The same theorem says which ties of `create_time` keep it: the rows must come in turn.
  `Witness.SwappedRows` has two new rows in the wrong order, which trade at the other order's price.
* The id counter is a 32-bit unsigned int. The ids of a batch rise above the stored ones if and
  only if it does not wrap (`Generator.IdsRise`).

## Model

| member | source | states |
|---|---|---|
| Orders.Execute | src/MatchingEngine.cpp:168-179 | a trade fills both orders by the same positive quantity, overfills neither, completes at least one, is at the maker's price, and charges each side its rate within half a unit of 1e-8 |
| Matching.Match | src/MatchingEngine.cpp:98-128 | matching ends with a valid book and a taker that can trade no more, having changed nothing of the taker but its fill |
| Matching.Process | src/MatchingEngine.cpp:68-93 | one order leaves a valid book whose ids are old ones or its own |
| PriceLevels.LadderWellFormed | src/MatchingEngine.cpp:64-66 | in the nested maps each entry sits under its own price and id, ids are unique across levels, no level is empty, every entry is open and on its side |
| PriceLevels.LadderMember | src/MatchingEngine.cpp:64-66 | an order rests exactly when the map of its side holds it under its price and id |
| PriceLevels.AddLadder | src/MatchingEngine.cpp:64-66 | adding an order to the nested map of its side is adding it to the flat book, and leaves the other side alone |
| PriceLevels.SettleLevel | src/MatchingEngine.cpp:113-120 | writing back or erasing a maker inside its level is settling it in the flat book |
| PriceLevels.CloseLevel | src/MatchingEngine.cpp:123-127 | erasing a level exactly when it has become empty restores the nested map |
| OrderedKeys.Next | src/MatchingEngine.cpp:113-127 | the iterator after a key is the least key above it, whether the key was erased or not |
| OrderedKeys.ReverseErase | src/MatchingEngine.cpp:159-163 | the reverse-iterator erase removes the level it denotes and goes on with the next smaller price: none skipped, none visited twice |
| Engine.FrontIsBest | src/MatchingEngine.cpp:98-111 | the front order of the best acceptable level is the maker with price and id priority |
| Engine.NothingLeft | src/MatchingEngine.cpp:101-104 | when the best price of the other side is not acceptable no trade is left |
| Engine.LevelStep | src/MatchingEngine.cpp:107-120 | one round of the inner loop makes the next trade and leaves both nested maps in step with the flat book |
| Engine.MatchingEngine.ProcessTrade | src/MatchingEngine.cpp:168-179 | both orders come back with the fill of the executed trade, and exactly its message is sent |
| Engine.MatchingEngine.MatchBuyOrders | src/MatchingEngine.cpp:95-129 | the nested loops over sell levels terminate and compute exactly the trades, messages and remaining book of matching |
| Engine.MatchingEngine.MatchSellOrders | src/MatchingEngine.cpp:131-165 | the reverse loops over buy levels terminate and compute exactly the trades, messages and remaining book of matching |
| Engine.MatchingEngine.AddOrderToBook | src/MatchingEngine.cpp:64-66 | the order is in the book of its side under its price and id and nothing else changes |
| Engine.MatchingEngine.MatchOrders | src/MatchingEngine.cpp:68-93 | matches and rests the order exactly when it is not complete; an order without a fill that trades nothing sends its one report, any other order sends trades only |
| Engine.MatchingEngine.ProcessOrder | src/MatchingEngine.cpp:49-62 | one order off the queue changes the books and the log exactly as the specification says |
| Engine.MatchingEngine.Run | src/MatchingEngine.cpp:23-47 | a queue of orders, resent ones included, changes books and log as the fold of the specification |
| SortedFill.FlattenSorted | src/MatchingEngine.cpp:97-107 | the flattened makers are in priority order: best price, then smallest id |
| SortedFill.FlattenContents | src/MatchingEngine.cpp:97-107 | the flattened list holds exactly the orders of the side |
| SortedFill.MatchIsFill | src/MatchingEngine.cpp:98-128 | matching equals the fold over the sorted list of makers: same trades, same taker, same makers left |
| SortedFill.Footprint | src/MatchingEngine.cpp:98-128 | makers touched are a prefix of the priority order, all but the last are completed, the rest are unchanged, prices are the makers' own, within the limit and getting no better, and the walk stops only when it must |
| SortedFill.FillVolume | src/MatchingEngine.cpp:98-128 | over a sorted list the traded quantity is the smaller of the taker's remainder and the depth it accepts |
| SortedFill.FillOptimalBuy | src/MatchingEngine.cpp:97-127 | no allocation of the traded quantity over the makers costs a buy taker less |
| Mirror.TradedVolume | src/MatchingEngine.cpp:95-165 | for any book and taker the traded quantity is the smaller of the taker's remainder and the acceptable depth |
| Mirror.GreedyOptimal | src/MatchingEngine.cpp:95-165 | for any book a buy taker pays the least, and a sell taker receives the most, over all allocations of the traded quantity |
| Mirror.MatchMirror | src/MatchingEngine.cpp:131-165 | the sell path is the buy path under exchange of sides and negation of prices: same makers, order and quantities, mirrored book |
| BookInvariants.MatchTouches | src/MatchingEngine.cpp:98-128 | only makers that the taker accepts are touched, and only their fills; every message agrees with the orders it carries |
| BookInvariants.ProcessExactly | src/MatchingEngine.cpp:68-93 | an order without a fill that finds no acceptable price on the other side sends exactly one report, any other only trades; it rests with the fill it gained exactly when it is not complete, and its own side stays otherwise as it is |
| BookInvariants.RunReports | src/MatchingEngine.cpp:77-80 | in the log of any queue of orders only orders of the queue that have no fill are reported |
| BookInvariants.ProcessUncrossed | src/MatchingEngine.cpp:68-104 | every order leaves an uncrossed book uncrossed |
| BookInvariants.RunUncrossed | src/MatchingEngine.cpp:68-104 | after any queue of orders each resting buy price is below each resting sell price |
| BookInvariants.TradeBound | src/MatchingEngine.cpp:98-128 | the trades of one order number the makers removed, or one more; exactly as many while the taker is open |
| BookInvariants.MatchConserves | src/MatchingEngine.cpp:168-179 | the traded volume leaves the taker and the other side in equal measure, and the taker's own side is unchanged |
| BookInvariants.RunConserves | src/MatchingEngine.cpp:68-93 | over any run and on each side, resting plus submitted quantity is what rests at the end plus the traded volume |
| Fees.RoundHalfAway | src/MatchingEngine.cpp:221-224 | rounding is to a nearest unit, ties away from zero, and keeps the sign |
| Fees.RoundMonotone | src/MatchingEngine.cpp:221-224 | rounding is monotone |
| Fees.RoundIdempotent | src/MatchingEngine.cpp:221-224 | rounding a rounded value changes nothing |
| Fees.FeeMonotone | src/MatchingEngine.cpp:215-216 | a larger fill is charged at least as much |
| Fees.FeeNearest | src/MatchingEngine.cpp:215-216 | a fee is the exact product rounded to 8 decimals, halves away from zero |
| Fees.StoredFeeNearest | src/Serialization.cpp:126-127 | the text of a fee is a multiple of 1e-6 within half of it, halves away from zero |
| Fees.DoubleRounding | src/Serialization.cpp:126-127 | a stored fee, rounded to 8 and then to 6 decimals, is within 50.5 units of 1e-8 of the exact fee |
| Fees.StoredRateExact | db.sql:7 | the fee_rate column holds a multiple of 0.0001 within half of it of the rate, halves away from zero, and the rate itself if and only if it has at most four decimals |
| FeeDrift.RunFeeDrift | src/MatchingEngine.cpp:205-219 | over a whole run and all fills of an order, as taker and as maker, its fees differ from the exact total by at most half a unit per fill |
| Tables.Redelivery | src/PersistenceProgram.cpp:151-173 | replaying any suffix of the log changes no order row and records exactly the replayed trades again |
| Tables.ApplyAllRows | src/PersistenceProgram.cpp:151-163 | after a log each row holds what the last writer of its id wrote |
| Tables.ApplyAllTrades | src/PersistenceProgram.cpp:165-173 | after a log every trade has been recorded once, in order |
| Tables.OpenRowsValid | src/OrderGenerator.cpp:84 | in valid tables the reload query selects exactly the orders that are not complete |
| Tables.StatusExactly | src/PersistenceProgram.cpp:151-157 | in valid tables a row is FULLY_FILLED exactly when it is filled completely, PARTIALLY_FILLED exactly when it is filled in part, INITIAL or MATCHING exactly without a fill |
| Tables.TradeRowExactly | src/PersistenceProgram.cpp:165-173 | a trade row names the users, orders, side, price and quantity of its record, and each slot's own fee to six decimals |
| Tables.InsertRowExactly | src/OrderGenerator.cpp:71-81 | an insert adds an INITIAL row with the order's columns and the rate to four decimals, or changes nothing when the id exists; other rows and all trades stay |
| Tables.LostMessage | src/PersistenceProgram.cpp:139-172 | when one message of a log is lost the rows end alike if and only if every row it would have changed is written again later, and exactly its trade is missing |
| Persistence.PersistenceProgram.ProcessOrder | src/PersistenceProgram.cpp:151-163 | only the row of the id changes: it gets the absolute fill and is FULLY_FILLED from the whole quantity on, PARTIALLY_FILLED for a positive fill below it, MATCHING otherwise |
| Persistence.PersistenceProgram.ProcessTradeRecord | src/PersistenceProgram.cpp:165-173 | one trade row is inserted with the record's users, orders, side, price and quantity in their columns and each slot's fee within 0.0000005, a multiple of 0.000001 |
| Persistence.PersistenceProgram.ProcessUnmatchedOrderMessage | src/PersistenceProgram.cpp:115-123 | a report updates the one row |
| Persistence.PersistenceProgram.ProcessTradeMessage | src/PersistenceProgram.cpp:125-144 | a trade updates taker and maker rows and inserts the trade |
| Persistence.PersistenceProgram.ProcessMessage | src/PersistenceProgram.cpp:86-97 | dispatch on the message type has the effect of the message on the tables |
| Persistence.PersistenceProgram.Run | src/PersistenceProgram.cpp:43-84 | the worker is the fold of the log into the tables |
| Tables.InsertedIsMax | src/OrderGenerator.cpp:31-34 | a new id lies above every stored id and becomes the largest |
| Generator.OrderGenerator.WriteOrderToDatabase | src/OrderGenerator.cpp:71-81 | one INITIAL row with the order's columns and the rate within 0.00005, a multiple of 0.0001; nothing when the id exists; other rows stay |
| Generator.OrderGenerator.SendOrder | src/OrderGenerator.cpp:57-69 | row first unless the order is resent, then the queue |
| Generator.OrderGenerator.LoadOrdersFromDatabase | src/OrderGenerator.cpp:83-117 | exactly the rows INITIAL, MATCHING or PARTIALLY_FILLED are queued, once, as they are stored, in whatever order the query returns them, and the tables stay as they are |
| Generator.OrderGenerator.GetMaxOrderId | src/OrderGenerator.cpp:120-132 | the largest stored id, or 10000, as a 32-bit unsigned int |
| Generator.OrderGenerator.CreateRandomOrder | src/OrderGenerator.cpp:31-47 | the next id of the 32-bit counter, 0 after 4294967295, also as user id; the drawn side, price, quantity and rate; no fill |
| Generator.OrderGenerator.GenerateOrders | src/OrderGenerator.cpp:18-29 | reloads, restarts the counter from the stored maximum, then inserts and queues each new order, with rising ids above all stored ones as long as the counter does not wrap |
| Generator.NoWrap | src/OrderGenerator.cpp:31-34 | without a wrap a batch inserts each row above all the others |
| Generator.NewOrdersExactly | src/OrderGenerator.cpp:31-47 | without a wrap a batch sends its requests in order, each with the next id, also as user id, with what was drawn and no fill |
| Generator.InsertAllExactly | src/OrderGenerator.cpp:71-81 | without a wrap a batch adds an INITIAL row for each request with ids counting up from the largest one and its rate to four decimals, and changes nothing else |
| Generator.SentIds | src/OrderGenerator.cpp:31-34 | with a wrap the ids go on from 0 after 4294967295 |
| Generator.IdsRise | src/OrderGenerator.cpp:31-34 | the ids of a batch rise above the stored maximum if and only if the counter does not wrap |
| Protocol.StepsAreProcess | src/MatchingEngine.cpp:49-93 | taking an order, trading one message at a time and finishing is what processing the order computes |
| Protocol.PersistsAreApplyAll | src/PersistenceProgram.cpp:43-84 | the worker's steps apply the pending results in order, as its loop does |
| Protocol.RunReportsUnfilled | src/MatchingEngine.cpp:77-80 | in every state of every run only orders without a fill are reported |
| Restart.StepsAreGenerateOrders | src/OrderGenerator.cpp:18-29 | from a cold start the generator's steps in the protocol have the effect proved of the generator while its counter does not wrap |
| Restart.RestartIsGenerateOrders | main.cpp:86-95 | next to any live engine that has drained the steps of a second generator queue the open rows as they were read, in turn, and then the new orders, insert their rows, and leave books and pending results alone |
| Restart.CrashIsGenerateOrders | src/OrderGenerator.cpp:18-29 | after a crash in any state the engine and both queues are empty, and the new generator queues the open rows and then the new orders |
| Restart.EngineCrashIsGenerateOrders | main.cpp:134-138 | after a crash of the engine alone the same, and the results that the worker still gets stay pending, if none of them is a trade |
| Canonical.PathUnique | src/PersistenceProgram.cpp:86-163 | the messages that tables call for have only one completion |
| Canonical.PathInsert | src/OrderGenerator.cpp:31-34 | a new row with the largest id changes nothing about what is already determined |
| Pipeline.TakerIsNext | src/MatchingEngine.cpp:98-128 | what the engine sends for its taker is what the tables call for next |
| Pipeline.StepCoherent | src/PersistenceProgram.cpp:86-163 | every step of every process, crashes and generators that come up included, keeps the pipeline invariant, for rates of four decimals |
| Pipeline.PipelineInvariant | src/PersistenceProgram.cpp:86-163 | for rates of four decimals the pipeline invariant holds in every reachable state |
| Pipeline.RowsMatchEngine | src/PersistenceProgram.cpp:139-163 | for rates of four decimals, with the pending results applied a resting order's row shows its fill and is MATCHING or PARTIALLY_FILLED accordingly, the taker's shows its fill and status once it has traded, a waiting order's is as it waits, and any other is completely filled and FULLY_FILLED |
| Pipeline.UnprocessedAreInitial | src/OrderGenerator.cpp:57-61 | for rates of four decimals, without a crash every order not yet taken is an INITIAL row or repeats a resting order |
| Recovery.RunAdvances | src/PersistenceProgram.cpp:86-163 | for rates of four decimals, from any state of a run to any later one the tables advance by exactly the messages they and the new orders determine |
| Recovery.QuiescentAgreement | src/OrderGenerator.cpp:84 | for rates of four decimals, when all is drained the reload query selects exactly the resting orders with their fills, MATCHING without and PARTIALLY_FILLED with one; all other rows are completely filled and FULLY_FILLED |
| Recovery.RunsAgree | src/OrderGenerator.cpp:83-117 | for rates of four decimals two runs with the same tables and submissions, whatever their interleavings, crashes and generator restarts, end in the same rows, trades (fees included) and books |
| Recovery.CheckpointRecovery | src/OrderGenerator.cpp:83-117 | for rates of four decimals, losing the engine, the order queue and any end of the result queue at any point and reloading reaches the state of the undisturbed run |
| Recovery.TablesDecide | src/OrderGenerator.cpp:83-117 | for rates of four decimals two states that agree on tables and submissions finish alike, whatever their queues and engines hold |
| Recovery.Completes | src/OrderGenerator.cpp:83-117 | for rates of four decimals, from every reachable state, crashed or not, some steps without a new submission reach quiescence |
| Recovery.EveryStepNearer | src/OrderGenerator.cpp:83-117 | whatever the schedule, every step that changes anything and submits or loses nothing comes nearer to quiescence in a well-founded order |
| Recovery.QuiescentExactly | src/OrderGenerator.cpp:83-117 | for rates of four decimals a reachable state is quiescent if and only if no such step changes it |
| History.MakerIsFirst | src/MatchingEngine.cpp:106-120 | the maker of the next trade has a better price than every other processed open order on its side, or the same price and a smaller id, reloaded or not |
| History.PathPriority | src/MatchingEngine.cpp:106-120 | of two resting orders on one side the one behind is filled no further before the one ahead is complete |
| History.PriorityOverRuns | src/MatchingEngine.cpp:106-120 | for rates of four decimals, of two resting orders on one side the one with the better price, or the same price and the smaller id, is completed before the other is filled further, between any two states of a run, recovery included |
| History.CommitReconciled | src/PersistenceProgram.cpp:139-172 | each message keeps every row's absolute fill equal to the sum of the trades naming it |
| History.CommitBalanced | src/PersistenceProgram.cpp:139-172 | each message keeps the fills of both sides equal to the traded volume |
| History.CommitPriced | src/MatchingEngine.cpp:168-179 | each recorded trade is between a buy and a sell order, names their users in the right columns, is at the older order's price, and within the newer one's limit |
| History.CommitFrontier | src/OrderGenerator.cpp:83-117 | each message keeps everything below the last processed order settled |
| History.EmptyConsistent | db.sql:1-18 | empty tables are reconciled, balanced and settled, so every run from them is |
| History.RunConsistent | src/PersistenceProgram.cpp:139-172 | for rates of four decimals reconciliation, balance, pricing and the frontier, once true, hold after every step of every run |
| Rebuild.RebuildAnyOrder | src/OrderGenerator.cpp:95-111 | resending an uncrossed book in any permutation trades nothing and rebuilds the same nested maps |
| Rebuild.ReloadResumes | src/OrderGenerator.cpp:83-117 | rows below the interrupted order rebuild the books without a trade and that order resumes with the message the tables call for |
| Rebuild.QuietRests | src/MatchingEngine.cpp:68-88 | open orders that are processed without a trade rest exactly as they came, each replacing what had its id |
| Rebuild.ResendDrained | src/OrderGenerator.cpp:95-111 | resending orders as the engine holds them trades nothing and changes nothing |
| Pipeline.SyncedLoad | src/OrderGenerator.cpp:83-117 | rows that come in turn, resent to an engine that holds any part of them, bring it to exactly the settled rows, with the others waiting |
| Pipeline.SyncedInTurn | src/OrderGenerator.cpp:84 | only rows that come in turn do so |
| Pipeline.QueueListed | src/MatchingEngine.cpp:64-66 | for rates of four decimals, in every reachable state an order whose id is in the book or in the queue twice has the same price and side each time, as the receive loop needs |
| Pipeline.LoadingCoherent | src/OrderGenerator.cpp:18-29 | a generator that comes up when it may keeps the pipeline invariant while it resends |
| Restart.TradeRaises | src/PersistenceProgram.cpp:139-172 | a pending trade leaves some selected row behind what the log will make of it |
| Restart.ResendExactly | src/OrderGenerator.cpp:83-117 | for rates of four decimals, resending every open row in any order to an idle engine trades nothing and keeps the books if and only if no trade is still pending |
| Restart.ResendBusy | src/OrderGenerator.cpp:83-117 | for rates of four decimals, rows that are read while orders are queued or being matched do no harm if and only if neither what was pending nor what the engine sends until they come holds a trade |
| Restart.LoadExactly | src/OrderGenerator.cpp:83-117 | for rates of four decimals, with no order queued or being matched, the rows read keep the pipeline invariant if and only if no trade is pending and they come in turn, also after a crash of the engine alone |
| Restart.ResendWhenDrained | src/OrderGenerator.cpp:83-117 | for rates of four decimals and no trade pending, what a resend reports only repeats what the tables come to |
| RestartRates.ResendExactlyAllRates | src/OrderGenerator.cpp:83-117 | for all rates, every order of the rows and every reachable state with an idle engine, resending every open row trades nothing and keeps the books, but for rates, if and only if no trade is still pending |
| RestartRates.ResendBusyAllRates | src/OrderGenerator.cpp:83-117 | for all rates, rows read in any reachable state and resent behind what is queued, whatever the schedule, do no harm if and only if neither what was pending nor what the engine sends until they come holds a trade |
| RestartRates.LoadExactlyAllRates | main.cpp:134-138 | for all rates and every reachable state with no order queued or being matched, after an engine crash too, the rows read keep the pipeline invariant if and only if no trade is pending and they come in turn |
| RestartRates.ResendKeepsTables | src/OrderGenerator.cpp:83-117 | for all rates and no trade pending, a resend changes nothing in what the tables come to |
| RestartRates.ResendExactlyWithRates | src/OrderGenerator.cpp:101 | a resend keeps the books, rates included, if and only if no trade is pending and every resting order has a rate of at most four decimals |
| RestartRates.StepKeepsRates | db.sql:7 | in every step each row keeps the rate of its order, rounded to four decimals |
| RestartRates.TradesCharged | src/MatchingEngine.cpp:205-219 | in every reachable state each recorded trade charges taker and maker in their own columns, at a rate that the column rounds to the one in that order's row |
| Witness.DoubledTrade | src/OrderGenerator.cpp:83-117 | for every sell order, followed by a buy order of the same quantity that accepts its price, whose trade is still pending, a restarted generator has the whole quantity traded a second time |
| Witness.SwappedRows | src/OrderGenerator.cpp:84 | two new rows that match trade at the price of the first one read and with the second one as taker, so reading them out of turn changes the trade |
| Witness.OneOrderRestart | src/OrderGenerator.cpp:101 | for every request, resending the one resting order keeps it as it is if and only if its rate has at most four decimals |
| Witness.TradeAfterCrash | db.sql:7 | one unit at price one, with a crash that catches the buy order: the order rows end as undisturbed, and the trade row, fees included, if and only if both rates have at most four decimals |
| Witness.OneOrderCrash | db.sql:7 | a crash that catches an order on its way leaves the engine as the undisturbed run does if and only if its rate has at most four decimals |
| Rates.FeesSurviveReload | db.sql:7 | all recorded fees of an order survive a reload if and only if its rate has at most four decimals; one unit at price one tells |
| Rates.StripDo | src/OrderGenerator.cpp:83-117 | every step commutes with forgetting rates and fees |
| Rates.RunsAgreeUpToFees | src/OrderGenerator.cpp:83-117 | for all rates, runs with the same submissions end in the same rows, trades and books but for rates and fees |
| Rates.CheckpointRecoveryAllRates | src/OrderGenerator.cpp:83-117 | for all rates, a crash at any point, with or without the pending results, and a reload end as the undisturbed run does, but for rates and fees |
| Rates.PipelineInvariantAllRates | src/PersistenceProgram.cpp:86-163 | for all rates the pipeline invariant holds in every reachable state, but for rates and fees |
| Rates.RunConsistentAllRates | src/PersistenceProgram.cpp:139-172 | for all rates reconciliation, balance, pricing and the frontier, once true, hold after every step |
| Rates.PriorityAllRates | src/MatchingEngine.cpp:106-120 | for all rates, from any reachable state on, the resting order with the better price, or the same price and the smaller id, is completed before the other is filled further |
| Rates.CompletesAllRates | src/OrderGenerator.cpp:83-117 | for all rates some steps without a new submission reach quiescence from every reachable state |
| Rates.EveryStepNearerAllRates | src/OrderGenerator.cpp:83-117 | for all rates, in every reachable state and whatever the schedule, every step that changes anything and submits or loses nothing comes nearer to quiescence in a well-founded order |
| Rates.QuiescentExactlyAllRates | src/OrderGenerator.cpp:83-117 | for all rates a reachable state is quiescent if and only if no such step changes it, so no schedule gets stuck |
| Rates.QueueListedAllRates | src/MatchingEngine.cpp:64-66 | for all rates, in every reachable state an order whose id is in the book or in the queue twice has the same price and side each time |
| Rates.QuiescentAgreementAllRates | src/OrderGenerator.cpp:84 | for all rates the open rows at quiescence are the resting orders with their fills, but for rates, MATCHING without a fill and PARTIALLY_FILLED with one, and all other rows are completely filled and FULLY_FILLED |
| Rates.RowsMatchEngineAllRates | src/PersistenceProgram.cpp:139-163 | for all rates, with the pending results applied, each row shows the engine's fill with the status of that fill, or waits as recorded, or is completely filled and FULLY_FILLED, but for rates |
| Rates.StatusesAllRates | src/PersistenceProgram.cpp:151-157 | in every reachable state, before and after the pending results, a row is FULLY_FILLED exactly when it is filled completely, PARTIALLY_FILLED exactly when in part, INITIAL or MATCHING exactly without a fill |
| Rates.UnprocessedAreInitialAllRates | src/OrderGenerator.cpp:57-61 | for all rates, without a crash every order not yet taken is an INITIAL row or repeats a resting order |

## Left out

- Sockets, JSON text, MySQL calls, reconnect loops, logging, the HTTP and WebSocket servers and
  configuration: queues are sequences, messages datatypes, tables maps and sequences.
- Messages of an unknown type and malformed messages, which the worker logs and drops.
- `DbConnectionPool`: one worker holds one connection for its lifetime.
- `publishOrderBook` and `formatOrderBook`: throttled display without effect on the state.
- Enum and string conversions, time stamps, the `status` and `orderType` fields of an order in
  flight, and the random trade id: nothing that is modelled reads them.
- IEEE rounding of doubles; quantities, prices and fees are exact here up to the roundings that
  the source performs on purpose.
- Recovery.RunsAgree: the counter of the protocol is unbounded and so stands for runs of fewer than
  2^32 ids; `Generator.IdsRise` says what a wrap does to a batch.
- Runs that go on after rows have come out of turn: `RestartRates.LoadExactlyAllRates` says when
  they do.
- Fees.StoredRateExact: does not model the range of `decimal(5,4)`; rates beyond 9.9999, which the
  generator does not draw (`src/OrderGenerator.cpp:12`), would not be stored at all.
- Generator.OrderGenerator.WriteOrderToDatabase: does not model an insert that fails for another
  reason than a duplicate id, for instance a quantity beyond `decimal(10,6)`.
- Runs that go on after a generator has come up while orders are queued or a trade is pending: the
  protocol admits one only once the engine has drained, `RestartRates.ResendExactlyAllRates` and
  `RestartRates.ResendBusyAllRates` say exactly when a resend does harm.
- An engine that comes up again without a new generator: nothing then reloads its books.
- Loss of a single message by the worker while the engine lives on is not a step of the protocol;
  `Tables.LostMessage` says exactly what stays wrong in the tables.
- Cancellation, market orders and the comparison operators of `Order`: declared but not used.
