# Verified model of the nanosecond trading stack

A Dafny model of the stateful core of the trading stack, with proofs about every run of it. `dafny verify dfyconfig.toml`
checks the whole project.

| part | files | what it is |
|---|---|---|
| Order manager | `Words`, `OrderMap`, `OmsModel`, `OmsSafety`, `OmsLedger`, `OmsOrders`, `OmsAccounts`, `OmsTightness`, `OmsLimit`, `OmsExposure`, `OmsStops`, `OmsLeaks`, `OmsCounts`, `OmsRecords`, `Oms` | The OMS: a linear-probing hash index with re-inserting deletion, slot allocation from a free stack, the order state machine, the ledgers. `OmsModel` is the state machine as functions on values; `Oms` holds the classes that update arrays and fields in place and are proved to compute those functions. |
| Matching book | `Wrappers`, `BookSpec`, `BookInvariant`, `BookLaws`, `BookIndex`, `BookEffects`, `BookMirror`, `Levels`, `OrderBook`, `MatchingEngine`, `Lockstep` | A flat reference book (one list per side, best first), the laws it obeys, the two level-based implementations proved to refine it, and their equivalence. |
| TSC check | `TscSync` | The two-thread ping-pong as interleaved atomic steps, and the meaning of the skew estimate. |
| Order gateway | `Gateway` | Reassembly of 40-byte reports from an arbitrarily chunked stream. |
| Hop tracer | `Bits`, `Tracer` | The power-of-two trace ring against the unbounded log. |

## How the model is set up

- **Two layers.** Where the source changes things in place, a class does so too (`OrderIndex`, `OrderManager`, the two
  `OrderBook`s, `OrderGateway`, `HopTracer`); each method's contract equates the new abstract state with a function of the
  old one. Each `OrderManager` and each book carries a ghost history and the invariant "my state is the result of running
  the model on my history", so the theorems about every run apply to every object. For the gateway and the tracer the
  methods `PollTurns` and `Loop` make the calls of the pipeline loop on one object and are proved to follow the
  functions the theorems are about.
- **Any report, or a well-formed one.** `OmsSafety` assumes nothing about the exchange: reports may be duplicated, late,
  for unknown ids, with absurd quantities or an unknown type byte. `OmsOrders` accounts for the orders of such runs too,
  by counting the reports that upset a count. `OmsLedger` speaks of well-formed runs, defined by `WellFormed`: a fill
  moves between 1 and the quantity left, a `Fill` exactly the quantity left, a `CancelAck` names an acknowledged order and
  a `Reject` an unacknowledged one. `BooksKeptIff` shows that little of this can be spared: the counters
  survive a report if and only if it is `Faithful`, which differs from this only in that a partial fill may carry any
  quantity that, read as an int32, lies between minus what was filled and what is left. `OmsLeaks` gives, for each of
  the four types of report that can be unfaithful, a run from the initial state that leaves a counter wrong.
- **Integers.** The 32-bit fields (position, pending delta, quantities) wrap explicitly (`Words`); signed overflow is
  given its two's-complement result, and `PositionBound` shows that it does not occur in well-formed runs. Depth sums wrap
  at 64 bits, and the TSC check computes on 64-bit words. Counters of type
  `size_t`, order ids and prices of the book are unbounded naturals.
- **Prices of the OMS are reals**, and so are cash and averages.
- **The hash function** is any function into the table; `FibonacciHash` is the one the source uses.
- **List iterators** are node numbers, unique over the life of a book. No freshness of order ids is assumed: the books
  are modelled for repeated ids too, and `AddExactIff` says exactly when a repeated id makes the index inexact.
- **Code and comments.** `map_remove` calls its repair "Robin Hood deletion"; what the code does, and what is modelled, is
  plain re-insertion of the rest of the cluster. `orderbook.h` documents the spread as absent only when a side is empty; the
  code also returns nothing for a crossed book, which `EveryBookKeepsInv` shows to be unreachable.

## Findings

- `live_orders_ + pending_new_` never falls below the number of open orders, whatever reports arrive. So at most 50 of the
  4096 slots and 8192 index positions are ever in use, no slot or index operation can fail, and only the risk check can
  refuse an order (`EveryRunIsSafe`, `OnlyRiskRefuses`).
- The position stays within 490,500 although `max_position` is 500, and 490,500 is reached by an explicit family of
  well-formed events (`PositionBound`, `PositionBoundIsAttained`). The risk check looks at the net quantity still to
  trade; what bounds the position is the buys alone and the sells alone. No outcome of a well-formed run takes it beyond
  500 if and only if every order accepted fitted in with the open orders of its own side (`ContainedIff`,
  `LimitHoldsIff`).
- The hit rate can exceed 100%, without bound: a partial fill that leaves the order open with nothing filled is counted
  as a first fill, and so is the next one. Such a fill is empty, or wraps the 32-bit filled quantity around to 0
  (`HitRateUnbounded`, `WrappedFillCountsAgain`). `HitRateIff` and `IocLedgerIff` say exactly when the counts hold.
- Trading can stop for good: the risk check then refuses every order, whatever happens. It does if and only if the
  admission counters show 50 and no report can lower them any more, or the exposure is so far out that no order of up to
  10,000 brings it back within 500, whatever becomes of the open orders (`StoppedIff`); with nothing open, if and only if
  the counters show 50 or the exposure is beyond 10,500 (`IdleStoppedIff`). Fifty cancels of unacknowledged orders get
  there, and so do fifty rejects of acknowledged ones, with nothing open and no position (`EarlyCancelsCanStop`,
  `LateRejectsCanStop`). A well-formed run gets there too: it is left with a position of 10,501 when the sells that
  balanced it are cancelled (`WellFormedRunCanStop`).
- The exposure the risk check starts from stays within 490,500 in every run, with any reports (`EveryRunExposure`).
- A second limit order under an id that still rests can hide the first from the index (`AddExactIff`, `RepeatedIdHides`).
- A tracer asked for more than 2^63 records gets a capacity of 0 (`RoundUpPow2`).
- A full trace ring shows the start of a discarded trace in place of its oldest entry until the next completion
  (`RingShowsEndOfLog`).

## Model

| member | source | states |
|---|---|---|
| `OrderMap.Find` | src/oms.cpp:7-15 | In a table without gaps the search finds an id, with its slot, exactly when the table maps it. |
| `OrderMap.Insert` | include/nts/oms.h:137-146 | The binding goes into the hole nearest to the hash position in probe order; a full table is unchanged. |
| `OrderMap.InsertRefinesMap` | include/nts/oms.h:137-146 | Inserting a new id at that hole keeps the table gap-free and is map update. |
| `OrderMap.ReinsertedBehindCursor` | src/oms.cpp:26-32 | During a deletion, the re-inserted entry never lands on the hole that ended the cluster nor on a place still to be visited. |
| `OrderMap.RepairStep` | src/oms.cpp:26-32 | One turn of the repair loop keeps the invariant that only unvisited entries may have a gap, and only in the visited stretch. |
| `OrderMap.RepairCluster` | src/oms.cpp:24-32 | The repair loop ends, at the cluster's original hole if the table had one, with a gap-free table and unchanged contents. |
| `OrderMap.CirclingStep` | src/oms.cpp:26-32 | In a table that was full, one turn of the loop passes an entry that has no gap or moves it nearer to its hash position, so the cursor comes round to the one hole. |
| `OrderMap.Remove` | src/oms.cpp:17-33 | Deletion from any gap-free table, full ones included, is map-minus-id: every other id keeps its slot, the id is gone, the table is gap-free; an absent id changes nothing. |
| `OrderMap.HasHole` | include/nts/oms.h:46-47 | A table with fewer bindings than positions has a hole, so probing ends. |
| `OrderMap.ProbeIsMasked` | src/oms.cpp:10 | The probe position is the sum of hash and step masked with 8191. |
| `OrderMap.TopBits` | include/nts/oms.h:133-135 | A 64-bit product shifted right by 64 - 13 is a place in the table. |
| `Words.Wrap32IsTwosComplement` | src/oms.cpp:88-90 | Casts to int32 and int32 sums are reduced to two's complement, and exact if and only if they fit. |
| `Words.U32IsModulo` | src/oms.cpp:95 | Unsigned sums are reduced modulo 2^32. |
| `OmsImpl.OrderIndex.Put` | include/nts/oms.h:137-146 | Adding a new id to an index with room never fails and is map update. |
| `OmsImpl.OrderIndex.Delete` | src/oms.cpp:17-33 | Deleting is map-minus-id. |
| `OmsImpl.OrderManager.RiskAllows` | include/nts/oms.h:154-168 | The sequence of early returns decides the risk predicate, with int32 wrap-around of the base. |
| `OmsImpl.OrderManager.Send` | include/nts/oms.h:170-196 | In every reachable state an order is sent exactly when the risk check passes, and the whole new state is the model's. |
| `OmsImpl.OrderManager.Execute` | src/oms.cpp:44-146 | For every report whatsoever, index, slots, record, counters and ledgers become exactly the model's new state. |
| `OmsImpl.OrderManager.FillReceived` | src/oms.cpp:61-109 | Acceptance, record, money and statistics of a fill, and when the slot is to be released. |
| `OmsImpl.OrderManager.Release` | src/oms.cpp:37-40 | The id leaves the index and the slot goes on top of the free stack, inside its bounds. |
| `OmsSafety.SlotsRetire` | src/oms.cpp:37-40 | Retiring an order keeps each issued slot either stacked once or owned by one mapped id whose record carries it. |
| `OmsSafety.EveryRunIsSafe` | include/nts/oms.h:137-196 | For every run with arbitrary reports: slot and index integrity, free stack plus mapped orders equal slots issued, at most 50 orders open and 50 slots used. |
| `OmsSafety.OnlyRiskRefuses` | include/nts/oms.h:170-174 | In every run an order is refused only by the risk check. |
| `OmsSafety.FillKeepsExposure` | src/oms.cpp:87-92 | A fill of any quantity leaves position plus pending delta unchanged modulo 2^32. |
| `OmsExposure.EveryRunExposure` | include/nts/oms.h:159-161 | In every run, with any reports, position plus pending delta stays within 490,500 and the risk base formed from it does not wrap. |
| `OmsExposure.AcceptedIff` | include/nts/oms.h:154-174 | After every run an order is accepted if and only if it is for at most 10,000, the counters show less than 50, it brings the exposure within 500, and its price is within 5.0 of the last reference price set, if that is positive. |
| `OmsSafety.EveryRunPositions` | src/oms.cpp:92-102 | In every run the position is congruent to bought minus sold quantity modulo 2^32, and fills are buy fills plus sell fills. |
| `OmsSafety.DeadIsAbsorbing` | src/oms.cpp:44-46 | Once an order is terminal, in any continuation it stays so and every report for it leaves the whole state unchanged. |
| `OmsSafety.ReportKillsIff` | src/oms.cpp:84-137 | A report makes an order terminal if and only if it is a `Fill`, a `CancelAck`, a `Reject` or a partial fill that leaves nothing. |
| `OmsSafety.EndedSlotIsNext` | src/oms.cpp:37-40 | The slot of an order that has just ended is the next to be used. |
| `OmsRecords.RecordsTellStories` | src/oms.cpp:44-146 | In every run, with any reports, each record carries side, price, quantity and type of the `Send` that issued its id; its status, filled quantity, average and leaves are what the reports for this id alone make of it; ids are consecutive; and the index holds exactly the unfinished orders. |
| `OmsSafety.AckFillConfluence` | src/oms.cpp:52-74 | For a sent order, ack-then-fill, fill-then-ack and fill alone reach the same full state, for any fill. |
| `OmsLedger.BooksKeptIff` | src/oms.cpp:51-144 | Pending count, live count and pending delta stay exact after a report if and only if the report is faithful to its order. |
| `OmsLedger.BooksThroughoutIff` | src/oms.cpp:51-144 | They are exact throughout a run if and only if every report of it was faithful. |
| `OmsLeaks.EarlyCancelBreaksBooks` | src/oms.cpp:111-125 | Send and cancel unacknowledged: no order is open and `pending_new_` is 1. |
| `OmsLeaks.LateRejectBreaksBooks` | src/oms.cpp:127-139 | Send, acknowledge and reject: no order is open and `live_orders_` is 1. |
| `OmsLeaks.ShortFillBreaksBooks` | src/oms.cpp:84-107 | Send 2 and `Fill` 1: no order is open and the pending delta is 1. |
| `OmsLeaks.OverFillBreaksBooks` | src/oms.cpp:87-90 | Send 2 and partially fill 3: no order is open and the pending delta is -1. |
| `OmsStops.StoppedIff` | include/nts/oms.h:154-168 | After every run every continuation refuses every order if and only if the admission counters are stuck at 50 or the exposure is stranded beyond the reach of one order. |
| `OmsStops.IdleStoppedIff` | include/nts/oms.h:154-168 | With nothing open: if and only if the counters show 50 or the exposure is beyond 10,500. |
| `OmsStops.WellFormedRunCanStop` | include/nts/oms.h:159-161 | Some well-formed run gets there, with nothing open and a position of 10,501. |
| `OmsLeaks.EarlyCancelsStopTrading` | src/oms.cpp:111-125 | After 50 cancels of unacknowledged orders, in any run, trading has stopped. |
| `OmsLeaks.EarlyCancelsCanStop` | src/oms.cpp:111-125 | Some run of early cancels gets there, with no order open and no position. |
| `OmsLeaks.LateRejectsCanStop` | src/oms.cpp:127-139 | Some run of rejects of acknowledged orders gets there, with no order open, none pending and no position. |
| `OmsLedger.OpenOrdersCounted` | include/nts/oms.h:154-196 | In every well-formed run `pending_new_` counts the sent, `live_orders_` the acknowledged open orders, the pending delta is the signed sum of leaves, and at most 50 are open. |
| `OmsLedger.PositionBound` | include/nts/oms.h:154-168 | In every well-formed run the position stays within 490,500 and the pending delta within 500,000, every event adds to both over the integers, and the risk base does not wrap. |
| `OmsTightness.PositionBoundIsAttained` | include/nts/oms.h:154-168 | Some well-formed run ends at a position of exactly 490,500. |
| `OmsLimit.ContainedIff` | include/nts/oms.h:159-161 | No well-formed outcome of the open orders takes the position beyond a bound if and only if it is within the bound together with all open buys and together with all open sells. |
| `OmsLimit.SendKeepsWithinIff` | include/nts/oms.h:154-168 | An accepted order keeps it so if and only if it fits in with the open orders of its own side. |
| `OmsLimit.LimitHoldsIff` | include/nts/oms.h:154-168 | Throughout a well-formed run no outcome takes the position beyond 500 if and only if every order accepted fitted. |
| `OmsOrders.EveryOrderAccounted` | src/oms.cpp:51-139 | In every run, with any reports: pending, accepted and rejected orders are those sent plus the late rejects; `pending_new_` is the unacknowledged orders plus the early cancels; filled, waiting and unfilled orders are those accepted plus the emptying fills. |
| `OmsOrders.OrdersBalanceIff` | src/oms.cpp:127-139 | Orders sent are pending, accepted or rejected if and only if no order was rejected after its acknowledgement. |
| `OmsOrders.HitRateIff` | src/pipeline_utils.cpp:105-108 | In every run the hit rate is at most 100% if and only if the emptying fills do not outnumber the accepted orders without a fill. |
| `OmsOrders.HitRateKeptIff` | src/oms.cpp:93 | A report takes it above 100% exactly if it fills an accepted order without a fill while as many orders count as filled as accepted. |
| `OmsLeaks.HitRateUnbounded` | src/oms.cpp:93 | For every n some run has one order accepted and n counted as filled. |
| `OmsLeaks.WrappedFillCountsAgain` | src/oms.cpp:75-93 | Partial fills of 1, 2^32 - 1 and 1 of one order of 2 are counted as two orders filled. |
| `OmsOrders.IocLedgerKeptIff` | src/oms.cpp:51-139 | With IOC orders, accepted stays filled plus missed plus waiting after a report if and only if it is not an emptying fill, a cancel of an unacknowledged order or a reject of a waiting one. |
| `OmsOrders.IocLedgerIff` | src/oms.cpp:51-139 | It holds throughout a run if and only if no report of it was one of these. |
| `OmsOrders.OrderLedger` | src/pipeline_utils.cpp:105-113 | In every well-formed run orders sent are pending, accepted or rejected; the hit rate is at most 100%; with IOC orders only, accepted is filled plus missed plus waiting. |
| `OmsAccounts.CashIsFoldOfTrades` | src/oms.cpp:150-159 | In every run trading cash is the fold of the booked trades. |
| `OmsCounts.FillsAreTrades` | src/oms.cpp:93-102 | In every run `fills_`, `buy_fills_` and `sell_fills_` are the numbers of trades, and the three quantities are the trades' quantities modulo 2^32. |
| `OmsCounts.ReportsAreCounted` | src/oms.cpp:51-139 | In every run accepted orders, filled orders, missed IOC orders, cancels and rejects are the numbers of the reports they stand for. |
| `OmsAccounts.AveragesAreWeightedMeans` | src/oms.cpp:75-82 | In every well-formed run each record's filled quantity and average price are the total and the volume-weighted mean of its order's trades. |
| `BookInvariant.EveryBookKeepsInv` | src/matching/orderbook.cpp:9-36 | Every reachable book is sorted by price and arrival, uncrossed, without empty orders, and its index has no dangling entry; ids may repeat. |
| `BookInvariant.MatchConsumesPrefix` | src/matching/orderbook.cpp:75-120 | Matching removes a prefix of the makers and at most shrinks the next; if quantity is left the next maker is untouched and does not cross. |
| `BookLaws.MatchGivesShares` | src/matching/orderbook.cpp:99-120 | The fills are exactly the positive values of min(maker quantity, taker quantity less what is ahead), at makers' prices, in priority order. |
| `BookLaws.ResidualIsQuantityLessShare` | src/matching/orderbook.cpp:107-119 | What is left of each maker is its quantity less that share. |
| `BookLaws.Priority` | src/matching/orderbook.cpp:75-120 | In every reachable book: makers are touched in order and emptied before the next; a limit order fills at its price or better, at prices that only get worse; if quantity is left, everything opposite is dearer than a buy's limit or cheaper than a sell's, and nothing rests opposite a market order. |
| `BookLaws.Conservation` | src/matching/orderbook.cpp:107-119 | Taker quantity is fills plus remainder, and the makers lose exactly the fills. |
| `BookLaws.FillsAllItCan` | src/matching/orderbook.cpp:75-97 | A taker fills the smaller of its quantity and the quantity within its limit. |
| `BookEffects.AddEffect` | src/matching/orderbook.cpp:9-20 | Adding any order to any reachable book: a limit order rests with exactly what it could not fill, as one new indexed entry of its own side; otherwise nothing rests; the other side loses its shares and nothing else. |
| `BookEffects.AddTotals` | src/matching/orderbook.cpp:9-20 | The own side grows by what a limit order did not fill, the other side shrinks by what was filled. |
| `BookEffects.CancelEffect` | src/matching/orderbook.cpp:22-36 | A cancel takes exactly the indexed order out, wherever it stands, and its id out of the index; for other ids it changes nothing. |
| `BookEffects.BestPrices` | src/matching/orderbook.cpp:38-53 | In every reachable book a bid rests at the best bid and none higher, an ask at the best ask and none lower, and the spread is their difference exactly when both exist. |
| `BookEffects.AddDepth` | src/matching/orderbook.cpp:63-71 | Modulo 2^64 an add raises the depth of its own side, at its own price only, by what a limit order did not fill, and lowers the other side's by what was filled at each price. |
| `BookEffects.CancelDepth` | src/matching/orderbook.cpp:63-71 | A cancel lowers only the depth at the order's side and price, by the order's quantity. |
| `BookEffects.BookFollowsReplies` | src/matching/orderbook.cpp:9-36 | In every run with fresh ids, under each id rests exactly what a client reckons from the fills and cancels alone. |
| `BookLaws.MarketOrderSplits` | src/matching/orderbook.cpp:9-20 | A market order for x + y leaves the same book as x then y, with the same fills once adjacent fills of one maker are merged. |
| `BookIndex.LimitThenCancel` | src/matching/orderbook.cpp:9-36 | Adding a limit order under an unindexed id and cancelling it leaves what matching alone leaves; the cancel succeeds exactly when a remainder rested. |
| `BookIndex.CancelsCommute` | src/matching/orderbook.cpp:22-36 | Cancels of any two ids commute on every book. |
| `BookIndex.AddExactIff` | src/matching/orderbook.cpp:124-129 | An exact index stays exact under an add if and only if the order does not clash: a limit order outlasting what it can reach while its id rests elsewhere. |
| `BookIndex.RepeatedIdHides` | src/matching/orderbook.cpp:124-129 | Two limit buys under one id at prices 5 and 6 leave two orders resting and one indexed. |
| `BookIndex.IndexIsExact` | src/matching/orderbook.cpp:9-36 | In every run without clashes the index is exactly the resting orders with side, price and node. |
| `BookIndex.FreshIdsKeepIndexExact` | src/matching/orderbook.cpp:9-36 | So it is in every run that adds no id twice: fresh ids never clash. |
| `BookIndex.ExactCounts` | src/matching/orderbook.cpp:55-57 | With an exact index `len` is the number of resting orders. |
| `BookMirror.MirrorRun` | src/matching/orderbook.cpp:75-129 | Swapping sides and reflecting prices commutes with whole runs. |
| `BookMirror.MirrorFills` | src/matching/orderbook.cpp:75-97 | `match_sell` makes the mirrored fills of `match_buy` on the mirrored book. |
| `Levels.FlatPush` | src/matching_engine.cpp:133-143 | Pushing onto levels stored best price first is insertion by price and arrival. |
| `Levels.FlatBackPush` | src/matching/orderbook.cpp:124-129 | Pushing onto ascending bids is insertion into the reversed list. |
| `Levels.FlatErase` | src/matching_engine.cpp:29-37 | Erasing an indexed node from its level, and the level when empty, removes exactly that order. |
| `Levels.FlatBackErase` | src/matching/orderbook.cpp:29-33 | The same for bids stored in ascending order. |
| `Levels.MatchLevel` | src/matching/orderbook.cpp:76-84 | Sweeping the best level without a limit check and going on with the rest is matching the concatenation. |
| `OrderBookImpl.OrderBook.FillAtLevel` | src/matching/orderbook.cpp:99-120 | Filling at a level is matching its queue, for either side. |
| `OrderBookImpl.OrderBook.MatchBuy` | src/matching/orderbook.cpp:75-85 | Sweeping ask levels from the front computes the reference match. |
| `OrderBookImpl.OrderBook.MatchSell` | src/matching/orderbook.cpp:87-97 | Sweeping bid levels from the back computes the reference match. |
| `OrderBookImpl.OrderBook.Add` | src/matching/orderbook.cpp:9-20 | Adding refines the reference add: same fills appended, same residual book. |
| `OrderBookImpl.OrderBook.Cancel` | src/matching/orderbook.cpp:22-36 | Cancelling refines the reference cancel; true exactly when the index knew the id. |
| `OrderBookImpl.OrderBook.BestBidPrice` | src/matching/orderbook.cpp:38-41 | The best bid is that of the reference book. |
| `OrderBookImpl.OrderBook.SpreadNow` | src/matching/orderbook.cpp:48-53 | The spread is that of the reference book. |
| `OrderBookImpl.OrderBook.QuantityAt` | src/matching/orderbook.cpp:63-71 | The depth at a price is the 64-bit sum of the resting quantities there. |
| `MatchingEngineImpl.OrderBook.MatchBuy` | src/matching_engine.cpp:75-102 | The inlined level loop computes the reference match on asks. |
| `MatchingEngineImpl.OrderBook.MatchSell` | src/matching_engine.cpp:104-131 | The inlined level loop computes the reference match on descending bids. |
| `MatchingEngineImpl.OrderBook.Add` | src/matching_engine.cpp:7-18 | Adding refines the reference add. |
| `MatchingEngineImpl.OrderBook.Cancel` | src/matching_engine.cpp:20-40 | Cancelling refines the reference cancel. |
| `MatchingEngineImpl.OrderBook.QuantityAt` | src/matching_engine.cpp:60-73 | The depth at a price is that of the reference book. |
| `Lockstep.RunBoth` | src/matching_engine.cpp:7-143 | On every command sequence both implementations give identical fills, cancel results, best prices, spread, length and depth after every command. |
| `TscSync.TscDeltaExactIff` | tools/tsc_sync_check.cpp:74-79 | The signed difference is exact precisely when it fits in an int64. |
| `TscSync.EveryInterleaving` | tools/tsc_sync_check.cpp:180-239 | Every interleaving of the two threads, with any passage of time, keeps the protocol invariant. |
| `TscSync.AcknowledgedSampleIsFresh` | tools/tsc_sync_check.cpp:218-228 | When the acknowledgement is seen, request, acknowledgement and the target's last request carry this number, and the published timestamp and core number are those taken for it, between start and end. |
| `TscSync.ConsistentSkewsIff` | tools/tsc_sync_check.cpp:229-251 | Exactly the skews in [low, high - roundtrip % 2] are consistent with a sample's readings. |
| `TscSync.MeasurementIsSound` | tools/tsc_sync_check.cpp:200-257 | At the end of any interleaving the sample reported by the 64-bit computation is sound and the first of shortest round trip, the skew lies in the reported interval, a skew within the threshold passes, and a pass bounds the skew by threshold plus twice the uncertainty. |
| `TscSync.MachineArithmeticIsExact` | tools/tsc_sync_check.cpp:229-232 | Below the horizon the 64-bit round trip, midpoint and offset are the exact ones. |
| `TscSync.CurrentIsSound` | tools/tsc_sync_check.cpp:226-232 | The sample about to be evaluated was read between start and end and below the horizon, so what is computed from it is exact. |
| `TscSync.SummaryIsExact` | tools/tsc_sync_check.cpp:247-256 | ... and so are uncertainty, bounds and verdict. |
| `TscSync.EveryFairScheduleFinishes` | tools/tsc_sync_check.cpp:180-243 | Under every schedule in which both threads keep moving, 20 rounds per sample and 22 more bring the reference thread to its end and the target to its exit. |
| `TscSync.DeadlockFree` | tools/tsc_sync_check.cpp:180-243 | From every reachable state both threads can go on to their ends, so `join` can return. |
| `Gateway.OrderGateway.Fill` | src/order_gateway.cpp:87-103 | The read loop takes what fits, in order, until the buffer is full, nothing is available or the connection is gone. |
| `Gateway.InterruptionsAreInvisible` | src/order_gateway.cpp:87-103 | Leaving interrupted calls out of the script changes nothing. |
| `Gateway.DrainTakesAll` | src/order_gateway.cpp:87-103 | One poll takes everything up to the first pause, if there is room. |
| `Gateway.GoesDownIff` | src/order_gateway.cpp:87-103 | The gateway goes down if and only if a shutdown, an error or an empty read is reached before a pause and before the buffer is full. |
| `Gateway.DownForGood` | src/order_gateway.cpp:84-133 | Once down it has dropped its buffer and hands out nothing any more. |
| `Gateway.OrderGateway.PollExecution` | src/order_gateway.cpp:84-125 | A poll hands out the first 40 bytes, decoded, and keeps the rest. |
| `Gateway.OrderGateway.PollAll` | src/main.cpp:222-225 | Polling until nothing is handed out ends, and hands out the decoded reports of that many polls. |
| `Gateway.OrderGateway.PollTurns` | src/main.cpp:189-238 | Over any number of turns of the pipeline loop the object goes through the polls of one connection. |
| `Gateway.PollsConserve` | src/order_gateway.cpp:84-125 | Until close, reports handed out, bytes buffered and bytes to come make up the stream. |
| `Gateway.ReportIsStreamSlice` | src/order_gateway.cpp:105-122 | Report i is bytes [40i, 40i + 40) of the stream. |
| `Gateway.ChunkingIndependence` | src/order_gateway.cpp:84-125 | Two sockets that deliver the same bytes in different chunks hand out the same reports. |
| `Gateway.NothingIsHeldBack` | src/order_gateway.cpp:105 | When nothing more can be read and a poll is empty, every complete report has been handed out. |
| `Gateway.EverythingIsHandedOut` | src/order_gateway.cpp:84-125 | On a connection that lasts, enough polls hand out every complete report of the stream, whatever the chunks. |
| `Gateway.DecodeLayout` | include/nts/wire_protocol.h:38-48 | Decoding the wire layout gives every field back, whatever the side byte and padding. |
| `Gateway.ReportsArriveInOrder` | src/order_gateway.cpp:84-125 | If the stream starts with the layouts of some reports, the i-th report handed out decodes to the i-th of them. |
| `Bits.RoundUpPow2` | src/instrument/tracer.cpp:21-31 | The shift-and-or chain gives the least power of two not below its argument, and 0 beyond 2^63. |
| `Bits.MaskIsRemainder` | include/nts/instrument/tracer.h:158 | Masking with a power of two less one is the remainder. |
| `Tracer.HopTracer.constructor` | src/instrument/tracer.cpp:33-36 | The capacity is the least power of two at least the request and the ring is empty; beyond 2^63 there is no room at all. |
| `Tracer.HopTracer.Start` | include/nts/instrument/tracer.h:64-70 | Opening a trace clears only the mask of the next slot. |
| `Tracer.HopTracer.RecordReport` | include/nts/instrument/tracer.h:89-124 | An acknowledgement goes behind the open trace, if any, with exactly its three hops visible. |
| `Tracer.HopTracer.Trace` | include/nts/instrument/tracer.h:149-155 | Reading an index, wrapped or not. |
| `Tracer.HopTracer.Turn` | src/main.cpp:198-235 | The calls of one turn of the pipeline loop, in its order, are one turn of the model. |
| `Tracer.HopTracer.Loop` | src/main.cpp:189-238 | After any turns on a new tracer every index reads as the end of the log says. |
| `Tracer.TurnShows` | src/main.cpp:198-235 | One turn of the pipeline loop extends what the ring shows by that turn's log entries. |
| `Tracer.RingShowsEndOfLog` | include/nts/instrument/tracer.h:144-155 | After any turns the ring shows the last `count()` entries of the unbounded log, except index 0 of a full ring right after a discarded trace. |
| `Tracer.DisabledIsSilent` | include/nts/instrument/tracer.h:64-130 | A tracer that is switched off is not touched by any turns. |

## Left out

- Sockets, sending of orders, multicast, signals, command lines, report printing and file saving: I/O without an invariant of its own.
- Closing of the gateway: buffered bytes are dropped at that point, so the stream properties speak of the time before it.
- Floating-point rounding and NaN in prices, cash and averages: reals are used.
- `TscSync.MeasurementIsSound`: takes both counters to read between 0 and 2^62 throughout and to differ by a constant, the sum of samples and warm-up to fit in an int, and treats acquire/release operations as atomic steps in one order.
- Tracer operations on a capacity of 0: they would access the ring outside its bounds.
- Wrap-around of `size_t` counters and of 64-bit order ids, prices and quantities of the books: they are unbounded here.
- The two timestamps the pipeline stores in an order record, and the unused `leaves_qty` and timestamp of an OMS report: nothing in the order manager reads them.
- `mark_pnl`, `total_pnl`, `is_empty`, `enable` and `disable`: one-line reads and writes.
- The top-of-book `OrderBook`, `ImbalanceStrategy`, `OrderTickRing`, market-data receivers, statistics and percentiles, PMU counters and clock calibration: short branches or foreign calls.
- The Rust exchange is not part of this model; it appears only as the well-formedness of its reports.
