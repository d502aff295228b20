# AlgoPulse execution core in Dafny

A model of the decision logic of AlgoPulse, an A-share algorithmic
execution engine: it takes algorithmic instructions (TWAP, VWAP and the
shot strategy) and cuts them into child orders across the trading
day. The engine runs inside asio coroutines, strands and timers. Under
that layer its logic is sequential arithmetic over value snapshots. That
logic is modelled here as pure functions, with each coroutine step and
callback turned into an explicit step or event function.

One module per part of the engine:

- `Status`, `MarketTime`, `Numbers`, `Symbols`, `AcctKeys`, `Security`,
  `IdGen`, `Text`: the common layer.
  - status and side codes and the quote mode of an account type;
  - the trading-day calendar (09:30 open, 11:30-13:00 break, 14:57
    closing auction, 15:00 close) in integer milliseconds;
  - std::stol-style parsing;
  - symbol spellings;
  - the account-key order;
  - minimum order size, lot and tick;
  - the 64-bit id layout;
  - getline splitting, trimming and the key=value parser.
- `Orders`, `AlgoOrders`: child order snapshots with their staleness
  gate, and the algorithmic instruction with its parameter lookups.
- `Allocation`, `Performance`, `Schedule`, `Trader`, `Placer`: the
  instruction's execution.
  - the cumulative TWAP/VWAP curves and their last-slice correction;
  - the per-instruction performance book and its make/take/cancel
    policies;
  - the slicing schedule and each round's quantities and prices;
  - the start check, stop/cancel and the child-order price rules;
  - the replay clock;
  - the placer mapping an instruction's progress onto an order.
- `Depth`, `BookSim`, `FeedInternet`, `FeedReplay`, `LimitedQueues`,
  `Shot`: market data and simulation.
  - level-5 quotes and their deltas;
  - the simulated order book with frozen cash and shares;
  - the internet and replay quote feeds;
  - the shot strategy's tick window, sub-tasks and signals.
- `Service`, `DataManager`, `Configs`: the service layer.
  - instruction expansion and the backtest admission queue;
  - trade-calendar and security lookups over loaded tables;
  - the INI reader, its lookups and the broker table.
- `Framing`, `Sessions`, `HttpResponse`: the wire layer.
  - the 4-byte big-endian length prefix and buffer growth;
  - the send queue and the client's pending requests;
  - the server's session tables and notification resend;
  - the HTTP response's status line and header fields (section 3.1.2
    and section 3.2 of RFC 7230).
- `Wrappers`, `Seqs`, `Arith`: shared helpers.
  - `Option` and `Result`;
  - a sequence enumerating a map's keys, which stands for hash-map
    iteration order;
  - integer and real arithmetic facts.

Times are integer milliseconds, and C++ doubles are `real`. A C++
`(int)` cast of a double is truncation toward zero (`Arith.Trunc`).
Unsigned and 32-bit wrap-around is written out where the source relies
on it (`Numbers.Wrap32`, `FeedReplay.Wrap64`, `IdGen`,
`LimitedQueues.Signed64`). The model takes these as inputs:

- the wall clock;
- the random jitter;
- hash-map iteration orders;
- the tuning constants `DefaultCoverRate` and `MAXShotImpactVolRate`.

## Model

| member | source | states |
|---|---|---|
| Status.IsFinalAlgo | src/common/common.h:23-25 | an instruction status is final exactly for Finished (6), Expired (8), Terminated (10) and Error (12) |
| Status.IsRunningAlgo | src/common/common.h:26-30 | running is false for the final codes and for Canceling (4) and true for every other code, Routing and Creating included |
| Status.IsFinalOrder | src/common/common.h:73-75 | an order status is final exactly for FILLED, PARTIALCANCEL, CANCELED and REJECTED |
| Status.IsUnfinishedOrder | src/common/common.h:65-67 | unfinished is the negation of final |
| Status.IsCanceledOrder | src/common/common.h:69-71 | cancelled means CANCELED or PARTIALCANCEL, and both are final |
| Status.IsValidSide | src/common/common.h:93-95 | only sides 1 to 5 are valid; DEBITSELL (6) is refused because the bound is the table size |
| Status.SideName | src/common/common.h:87-92 | a valid side gets its table name and any other side, DEBITSELL included, "unKnonw" |
| Status.IsBuy | src/common/common.h:100-102 | buy sides are BUY, MARGINBUY and DEBITBUY |
| Status.IsSell | src/common/common.h:104-106 | sell sides are SELL, MARGINSELL and DEBITSELL |
| Status.BuySellPartition | src/common/common.h:100-106 | no side is both buy and sell, and the two together cover exactly the codes 1 to 6 |
| Status.QuoteModeOf | src/common/common.h:128-139 | the quote mode by account-type name prefix, first match wins: "BT" replay, "SIMLIVE", "SIMCUST", otherwise live |
| Status.IsBackTestAcctType | src/common/common.h:141-149 | an account type is a backtest one exactly when its quote mode is replay |
| MarketTime.IsAfternoonBreak | src/common/common.h:197-199 | the break is strictly between 11:30 and 13:00 of the same day |
| MarketTime.IsInContinuousTrading | src/common/common.h:225-227 | continuous trading is 09:30 to 14:57 inclusive |
| MarketTime.IsInMarketTime | src/common/common.h:229-232 | market time is 09:15 to 11:30 or 13:00 to 15:00, inclusive; continuous trading outside the break is market time |
| MarketTime.DeltaMs | src/common/common.h:244-247 | the whole seconds (floored) in milliseconds plus the truncated milliseconds of the fraction; never negative for a non-negative duration |
| MarketTime.AddMarketDuration | src/common/common.h:237-266 | the result always lies in [09:30, 15:00] of the reference day; a morning start whose raw end passes 11:30 is pushed back by the 90-minute break |
| MarketTime.AvailableStart | src/common/common.h:273-285 | before 09:30 gives 09:30, [11:30, 13:00] gives 13:00, anything else (after 15:00 included) is kept; the result is never earlier, on the same day, not before 09:30 and not in [11:30, 13:00) |
| MarketTime.AvailableStartIdempotent | src/common/common.h:273-285 | applying the start adjustment twice is applying it once |
| MarketTime.MarketDuration | src/common/common.h:290-317 | 0 when start is after end; otherwise the millisecond rule on the end capped at 15:00, in seconds |
| MarketTime.MarketDurationIsSessionOverlap | src/common/common.h:290-317 | from a start inside a session, the duration is exactly the overlap of [start, end] with the two sessions |
| MarketTime.DurationSinceOpen | src/common/common.h:322-329 | 0 at or before 09:30, otherwise the session time elapsed since 09:30; never negative |
| MarketTime.AddThenMeasure | src/common/common.h:237-317 | adding a duration from inside a session and measuring back gives the same milliseconds when the end stays before 15:00 |
| MarketTime.NegativeDurationInBreak | src/common/common.h:307-309 | from 11:40 to 11:50 the duration is minus ten minutes, because the end in the break is replaced by 11:30 minus the start |
| MarketTime.BreakCountedFromMorningClose | src/common/common.h:310-311 | from 11:30 exactly to 13:01 the break is counted: the start is not before 11:30, so no break is subtracted |
| MarketTime.PreOpenCountedBeforeBreak | src/common/common.h:302-309 | a start before 09:30 and an end in the break count the pre-open time, because the break rule overwrites the pre-open subtraction |
| Numbers.GetInt | src/common/common.h:467-475 | the integer std::stol reads, narrowed to 32 bits, or the default when nothing numeric is read |
| Symbols.ExchangeStrCode | src/common/common.cpp:8-17 | SZSE gives "SZ", SHSE gives "SH", anything else "Invalid", each in both directions |
| Symbols.ToLocalSymbol | src/common/common.cpp:22-35 | "SHSE.c" gives "c.SH", "SZSE.c" gives "c.SZ", and every other code gives "" |
| Symbols.ExchangeOf | src/quote/MarketDepth.h:110-116 | a symbol ending in "SZ" is Shenzhen, one ending in "SH" (and not "SZ") is Shanghai |
| Symbols.ToLocalSymbolExchange | src/common/common.cpp:22-35 | a converted Shanghai or Shenzhen code is recognised as that exchange again |
| AcctKeys.Less | src/common/typedefs.h:61-72 | the key order is lexicographic: account type first, then for equal types the account string in byte order, then for equal accounts the broker |
| AcctKeys.Equal | src/common/typedefs.h:73-75 | key equality is componentwise |
| AcctKeys.LessIsStrictTotalOrder | src/common/typedefs.h:61-75 | the order is irreflexive, transitive and asymmetric, and for any two keys one is less or they are equal |
| Security.NewSecurityInfo | src/common/StockDataTypes.cpp:3-34 | "68" symbols get a first lot of 200 and a step of 1, others 100 and 100; the tick is 0.01 or 0.001 by exchange suffix and first digit, and 0 with neither suffix |
| Security.MinOrderQty | src/common/StockDataTypes.h:54-65 | the stored sizes when both are positive, otherwise (200, 1) for "68...SH" and (100, 100) for the rest |
| Security.ConstructedSizesPositive | src/common/StockDataTypes.cpp:6-16 | after construction the fallback of the minimum order quantity is never taken |
| Security.Floor2FitLotSize | src/common/StockDataTypes.h:67-73 | 0 below the first lot; otherwise the largest r with first lot <= r <= qty and r minus the first lot a multiple of the step |
| Security.Floor2FitIdempotent | src/common/StockDataTypes.h:67-73 | fitting a fitted quantity changes nothing |
| Security.Floor2FitMonotone | src/common/StockDataTypes.h:67-73 | fitting preserves order: q1 <= q2 gives fit(q1) <= fit(q2) |
| Security.IndexBelongName | src/common/StockDataTypes.h:101-116 | index 1, 2 and 4 give hs300, zz500 and zz1000; otherwise security type 8 gives Cbond, and everything else "oth" |
| IdGen.Tag | src/common/IdGenerator.h:6-13 | the id type tags are the enum positions, all below 64 |
| IdGen.TagInjective | src/common/IdGenerator.h:6-13 | distinct id types have distinct tags |
| IdGen.NewId | src/common/IdGenerator.h:25-42 | the counter grows by one (64-bit); the id's low 16 bits are the old counter's, and bit 16 is always 0 |
| IdGen.DecodeId | src/common/IdGenerator.h:25-42 | while the clock is below 2^41 the top six bits are the type tag and bits 17 to 57 the clock |
| IdGen.TypesNeverCollide | src/common/IdGenerator.h:25-42 | ids of different id types never coincide while the clock is below 2^41 |
| Orders.IsNewerThan | src/orderbook/Order.h:76-87 | never newer than a final snapshot; newer when final, when more is filled, or when the previous one was still being sent or reported |
| Orders.IsNewerThanOpt | src/orderbook/Order.h:89-94 | any snapshot is newer than a missing one |
| Orders.DuplicateIsNotNewer | src/orderbook/Order.h:76-87 | a NEW or PARTIALFILLED snapshot is not newer than itself, so a duplicate report is dropped |
| Orders.FinalSnapshotIsSticky | src/orderbook/Order.h:76-87 | once a final snapshot is accepted no later snapshot is newer |
| Orders.OrderAcctKey | src/orderbook/Order.h:108-111 | the account key is the account type, account and broker |
| Orders.OrderBookKey | src/orderbook/Order.h:101-106 | a replay order's book key uses its instruction id in place of the broker; other orders use the account key |
| Text.FirstIndex | src/common/common.cpp:230 | the first position holding the character, or none exactly when it does not occur |
| Text.TextSplit | src/common/common.cpp:201-207 | empty input gives no tokens, and no token contains the delimiter |
| Text.SplitJoin | src/common/common.cpp:201-207 | joining the tokens with the delimiter gives the input back, less one trailing delimiter (no trailing empty token) |
| Text.SplitCount | src/common/common.cpp:201-207 | there is one token per delimiter, plus one when the input does not end with the delimiter |
| Text.ToLower | src/common/common.cpp:209-213 | the length is kept, upper-case ASCII letters become lower-case and every other character is kept |
| Text.ToUpper | src/common/common.cpp:215-219 | the length is kept, lower-case ASCII letters become upper-case and every other character is kept |
| Text.CaseRoundTrip | src/common/common.cpp:209-219 | lower-casing after upper-casing is lower-casing, and both are idempotent |
| Text.Trim | src/common/common.cpp:237-244 | the trimmed text is the slice from the first to the last non-space character, empty exactly when the text is all space |
| Text.TrimIdempotent | src/common/common.cpp:237-244 | trimming twice is trimming once |
| Text.SegmentPair | src/common/common.cpp:228-236 | a segment without '=' is ignored; otherwise it splits at its first '=' into the trimmed key and value |
| Text.ParseStringToMap | src/common/common.cpp:221-254 | the keys are exactly those of the comma segments that hold '=' |
| Text.ParsePairsKeys | src/common/common.cpp:225-249 | a key is in the map exactly when some segment gives it |
| Text.ParsePairsLastWins | src/common/common.cpp:246-247 | a key's value is that of the last segment giving the key |
| Text.SecondsDiff | src/common/common.cpp:37-41 | the difference is the milliseconds from a to b over 1000, non-negative exactly when a <= b |
| Text.SecondsDiffAntisymmetric | src/common/common.cpp:37-41 | swapping the times negates the difference |
| AlgoOrders.DefaultSlicer | src/algo/AlgoOrder.h:10-27 | a fresh slice starts at index 0 with bias 0.05, one round remaining, nothing to make or take and not last |
| AlgoOrders.DefaultAlgoOrder | src/algo/AlgoOrder.h:30-80 | a fresh instruction is an ALGO-category TWAP with side -1, no target, broker 0, no parent, both guards on, and no parameters |
| AlgoOrders.GetOrDefaultStr | src/algo/AlgoOrder.h:148-153 | the configured parameter when present, otherwise the default |
| AlgoOrders.GetOrDefaultInt | src/algo/AlgoOrder.h:162-167 | a missing or non-numeric parameter gives the default; a numeric one in 32-bit range gives its value |
| AlgoOrders.GetOrDefaultReal | src/algo/AlgoOrder.h:155-160 | a missing or unparsable parameter gives the default; otherwise the parsed value |
| AlgoOrders.QuoteModeOfOrder | src/algo/AlgoOrder.cpp:25-29 | the quote mode depends on the account type alone |
| AlgoOrders.IsBackTestOrder | src/algo/AlgoOrder.h:175-177 | an instruction is a backtest one exactly when its account type's quote mode is replay |
| AlgoOrders.AlgoAcctKey | src/algo/AlgoOrder.cpp:20-23 | the account key is the account type, account and broker |
| AlgoOrders.AlgoBookKey | src/algo/AlgoOrder.cpp:11-18 | a backtest instruction gets a book of its own keyed by its id; any other shares the account's book |
| Allocation.TruncDiv | src/algo/Algo.cpp:20-22 | the cast to int truncates toward zero: the floor quotient for a non-negative numerator, the negated floor for a negative one |
| Allocation.TwapRaw | src/algo/Algo.cpp:13-22 | n cumulative targets, the i-th being (i+1)/n of the target truncated, the last exactly the target |
| Allocation.TwapRawMonotone | src/algo/Algo.cpp:13-22 | for a non-negative target the raw cumulative targets never decrease |
| Allocation.HighestAbove | src/algo/Algo.cpp:28-33 | the backward scan finds the highest index at or below j whose value exceeds v, or none exactly when no such index exists |
| Allocation.ClampBack | src/algo/Algo.cpp:28-33 | only the first entry found scanning backward above v is lowered to v, and only when one exists; the length is kept |
| Allocation.CorrectLastSlice | src/algo/Algo.cpp:24-35 | when the last slice is below the first lot, the second-to-last target becomes target minus the first lot and one earlier entry is clamped; otherwise nothing changes; the last target is always kept |
| Allocation.HighestAboveAgree | src/algo/Algo.cpp:28-33 | the scan depends only on the entries it visits |
| Allocation.TwapAllocate | src/algo/Algo.cpp:6-37 | a non-positive slice count gives just the target; otherwise n entries ending in the target, corrected only when the raw last slice is below the first lot |
| Allocation.VwapAllocate | src/algo/Algo.cpp:41-112 | one slice gives just the target; otherwise the profile's length, its last entry kept and the same last-slice correction applied |
| Allocation.CorrectedCurveNotMonotone | src/algo/Algo.cpp:24-35 | the correction clamps only one entry, so for 150 over 5 slices with a first lot of 100 the cumulative targets go 30, 60, 50, 50, 150 |
| Performance.NewPerf | src/algo/AlgoPerformance.cpp:8-17 | a new aggregator is for a buy exactly when the instruction's side is a buy side; it starts with no orders, no makers and zero counters |
| Performance.OnOrderRequest | src/algo/AlgoPerformance.cpp:57-74 | the order is stored, the count grows by one and the quantity and amount by the order's; it is tracked as a maker exactly when it rests passively (buy below ask 1, sell above a positive bid 1) |
| Performance.Placeholder | src/algo/AlgoPerformance.cpp:83-91 | the stand-in for an unknown order is a REPORTING snapshot with nothing filled, so every real update is newer than it |
| Performance.WithRates | src/algo/AlgoPerformance.cpp:141-145 | filled, cancel and maker rates are percentages of requested plus cancelled quantity (0 when that is not positive); the maker fill rate is a percentage of the maker quantity |
| Performance.ApplyFill | src/algo/AlgoPerformance.cpp:104-113 | the filled quantity grows by exactly the new minus the old filled quantity, and the maker-filled quantity does so only for a tracked maker order |
| Performance.ApplyTerminal | src/algo/AlgoPerformance.cpp:114-137 | a non-final update changes no counter; a full fill counts as filled, else a positive cancel quantity counts as cancelled; cancel and reject statuses give back the unfilled remainder; a reject extends the reject streak and any other final status resets it |
| Performance.OnOrderRecUpdate | src/algo/AlgoPerformance.cpp:76-100 | an update not newer than the stored snapshot (or the stand-in) changes nothing; a newer one is stored and its fill delta is counted |
| Performance.UpdateIdempotent | src/algo/AlgoPerformance.cpp:76-147 | delivering the same update twice has the effect of delivering it once |
| Performance.Slippage | src/algo/AlgoPerformance.h:103-113 | 0 when the benchmark or the average is not positive; otherwise basis points in the trader's favour, positive for a buy exactly when the average is below the benchmark and for a sell exactly when above |
| Performance.SlippageSidesOpposite | src/algo/AlgoPerformance.h:103-113 | the sell slippage is the negation of the buy slippage for the same prices |
| Performance.Release | src/algo/AlgoPerformance.h:93 | releasing empties the order map and leaves everything else unchanged |
| Performance.AllowMake | src/algo/AlgoPerformance.cpp:161-178 | passive orders are refused exactly after more than ten orders when the worst-case cancel rate is above 40 (50 for low prices) and the fill rate below 60 (30) |
| Performance.ShouldTake | src/algo/AlgoPerformance.cpp:180-199 | taking is asked for exactly when there were more than six orders or time progress is past 0.15 (0.2 for low prices) and the fill rate is below 50 (30) |
| Performance.QtyPendingAtBestPrice | src/algo/AlgoPerformance.cpp:256-258 | the query returns (0, 0) before reaching its loops |
| Performance.ShouldCancel | src/algo/AlgoPerformance.cpp:201-212 | 0 when the requested quantity is within the cap, and also whenever the best price is excluded (the pending query returns 0); otherwise the lot-fitted excess, never more than the excess |
| Performance.AllPendingOrderIds | src/algo/AlgoPerformance.cpp:214-223 | exactly the ids of non-final stored orders, each once; none when every stored order is final |
| Performance.SumPendingSplit | src/algo/AlgoPerformance.cpp:284-312 | pending quantity over a union of two disjoint order classes is the sum over each class |
| Performance.QtyAtLimitPrice | src/algo/AlgoPerformance.cpp:150-158 | the pending quantity summed over exactly the unfinished orders resting at the limit price, in iteration order; 0 when there are none |
| Performance.PendingAtPrice | src/algo/AlgoPerformance.cpp:152-156 | the ids kept are exactly those whose order rests at the price and is not final |
| Performance.SumPendingAtPrice | src/algo/AlgoPerformance.cpp:150-158 | summing pending quantity under the price-and-unfinished test equals summing it over the filtered ids |
| Performance.SumPendingWhereZero | src/algo/AlgoPerformance.cpp:150-158 | summing over orders none of which is selected gives 0 |
| Performance.OrderDataXXBestPrice | src/algo/AlgoPerformance.cpp:284-312 | the returned ids are exactly the pending orders behind the best price, each once, and the at-best and behind-best quantities add up to all pending quantity |
| Performance.SortByPrice | src/algo/AlgoPerformance.cpp:233-235 | the sort is a permutation of its input in ascending price |
| Performance.InsertByPrice | src/algo/AlgoPerformance.cpp:233-235 | inserting into a price-sorted list keeps it sorted and adds exactly the one entry |
| Performance.PricedIds | src/algo/AlgoPerformance.cpp:227-232 | each pending id is paired with its order's price, in order |
| Performance.Ids | src/algo/AlgoPerformance.cpp:238 | the ids of a priced list, in order |
| Performance.CancelScan | src/algo/AlgoPerformance.cpp:236-253 | the ids chosen are exactly the cancelable ones (any id, or only those whose pending quantity is lot-fitted when residuals are skipped) among the scanned ids before the first one whose pending quantity takes the running total past the target; only scanned ids are chosen |
| Performance.PendingSumCons | src/algo/AlgoPerformance.cpp:236-244 | the running pending total of a sequence is its first order's pending quantity plus the total of the rest |
| Performance.ScanLength | src/algo/AlgoPerformance.cpp:236-244 | the scan stops at the first order whose pending quantity would take the running total past the target: every shorter prefix stays within it, one more order exceeds it |
| Performance.CancelableOf | src/algo/AlgoPerformance.cpp:245-251 | the ids kept are exactly those whose pending quantity is lot-fitted when residuals are skipped, and all of them otherwise |
| Performance.CancelScanWithinTarget | src/algo/AlgoPerformance.cpp:236-253 | with non-negative pending quantities, the pending quantity chosen never takes the running total past the target |
| Performance.CancelOrderIds | src/algo/AlgoPerformance.cpp:225-254 | exactly the cancelable ids of the ascending-price order of the pending orders, cut where the running pending total would first exceed the cancel target; every id is pending and stored, and their pending quantity never exceeds the target |
| Performance.SortedIdsPending | src/algo/AlgoPerformance.cpp:227-235 | sorting by price introduces no id that was not pending |
| Schedule.ShapeFor | src/algo/AlgoTrader.cpp:515-531 | windows under five minutes use 40-second slices of 2 rounds and longer ones 60 seconds of 3; a previous close under 6 always gives 60 seconds of 2 rounds and a 10% bias |
| Schedule.RoundHalfAway | src/algo/AlgoTrader.cpp:535 | rounding lands within half a unit of the value |
| Schedule.Ceil | src/algo/AlgoTrader.cpp:537 | the ceiling is the least integer not below the value |
| Schedule.JitteredDuration | src/algo/AlgoTrader.cpp:533-535 | the window shortened by the jitter in hundredths of a second, rounded to milliseconds |
| Schedule.SliceCount | src/algo/AlgoTrader.cpp:537 | the fewest slices of the slice length that cover the duration |
| Schedule.Curve | src/algo/AlgoTrader.cpp:539-543 | TWAP uses the TWAP curve; VWAP uses the VWAP curve over the volume profile and fails for a non-positive slice count |
| Schedule.BuildSlicers | src/algo/AlgoTrader.cpp:548-571 | one slicer per curve entry with its index, cumulative target, bias and round count and nothing to make or take; only the last is marked last, and every other lasts one slice length |
| Schedule.SumDurationsAppend | src/algo/AlgoTrader.cpp:548-571 | the total duration of two runs of slicers is the sum of their totals |
| Schedule.SumDurationsConstant | src/algo/AlgoTrader.cpp:555-561 | slicers of equal duration total their count times that duration |
| Schedule.SlicersCoverDuration | src/algo/AlgoTrader.cpp:548-571 | the slice durations add up to exactly the jittered window, the last slice taking the remainder |
| Schedule.Plan | src/algo/AlgoTrader.cpp:515-571 | a TWAP schedule always exists; every schedule ends with the one last slice, its durations fill the window, and the last cumulative target is the instruction's target (TWAP) or the profile's last entry (VWAP) |
| Schedule.PovCap | src/algo/AlgoTrader.cpp:640-644 | a participation cap exists exactly when the rate and the volume since arrival are positive, and it is the truncated share, never above the exact share |
| Schedule.CapBy | src/algo/AlgoTrader.cpp:640-644 | capping never raises the value and gives either the value or the cap |
| Schedule.PerRound | src/algo/AlgoTrader.cpp:722-723 | the per-round share of a non-negative remainder times the round count never exceeds the remainder; no rounds leaves the remainder whole |
| Schedule.QtyAtBest | src/algo/AlgoTrader.cpp:629-636 | without a price limit the at-best quantity is the stub's 0; with one it is at least that |
| Schedule.RoundLot | src/algo/AlgoTrader.cpp:659-662 | the lot bounding the rounds is positive and at least the minimum order |
| Schedule.SliceBand | src/algo/AlgoTrader.cpp:613-666 | the band stays within target minus one minimum order and within the participation cap; take catches up to the lower bound without passing target minus one minimum order; make never takes fills plus at-best past the upper bound; the round count is between 1 and the remaining rounds |
| Schedule.NonFinalSliceNeverCancels | src/algo/AlgoTrader.cpp:618-625 | the excess-cancel step of a non-final slice never cancels, because the best price is excluded and the pending query is stubbed to 0 |
| Schedule.ShareFits | src/algo/AlgoTrader.cpp:722-728 | a share no larger than the per-round quantity still fits the remainder over all rounds |
| Schedule.SplitRound | src/algo/AlgoTrader.cpp:722-762 | make and take never exceed what is left of the target; make is lot-fitted; over all remaining rounds neither exceeds its remainder; making requires fills below the slice target less the pending take, and with taking both must fit the target |
| Schedule.AfterRound | src/algo/AlgoTrader.cpp:742-760 | a placed make or take is deducted from its remainder and the round's time from the remaining time; nothing else changes |
| Schedule.RoundDurations | src/algo/AlgoTrader.cpp:667-671 | counting the rounds down gives one duration per round |
| Schedule.RoundsShareTimeEqually | src/algo/AlgoTrader.cpp:667-671 | counting down the rounds, each taking remaining time over remaining rounds, gives every round exactly an equal share |
| Schedule.LastSliceBand | src/algo/AlgoTrader.cpp:683-699 | take is the capped cumulative target less all requested; make is the target less fills and at-best only when passive orders fill over 80%, else 0; rounds between 1 and the remaining rounds |
| Schedule.LastSliceRound | src/algo/AlgoTrader.cpp:811-846 | a passive order exactly when the make policy allows and the lot-fitted share is positive; otherwise a crossing order exactly when the impact-capped share is positive; the take policy is not consulted |
| Schedule.LastSliceCleanup | src/algo/AlgoTrader.cpp:790-806 | the final quantity is the target capped at the volume cap plus 200, less what is already traded: lot-fitted for a buy and raw for a sell; it never exceeds the remainder nor the cap plus 200, and the price covers it at rate 0.1 |
| Schedule.FirstCoverFrom | src/algo/AlgoTrader.cpp:908-918 | the first level at or after k that is quoted and whose cumulative volume times the rate exceeds the quantity, or none exactly when no such level exists |
| Schedule.LastQuotedBefore | src/algo/AlgoTrader.cpp:908-916 | the last level before k with a positive price, or none exactly when no such level exists |
| Schedule.CoverWalkFrom | src/algo/AlgoTrader.cpp:896-936 | the walk as written, carrying the running volume and price, agrees with the reference definition (the first covering level, else the last quoted level, else level 1) |
| Schedule.WalkStep | src/algo/AlgoTrader.cpp:908-918 | one step of the walk either stops at a covering level or continues with the volume and price carried |
| Schedule.EffectiveCoverRate | src/algo/AlgoTrader.cpp:898 | a cover rate of 0 stands for the default rate |
| Schedule.PriceCover4Take | src/algo/AlgoTrader.cpp:896-936 | the cover price on the opposite side is the reference price: the first covering level, else the last quoted level, else level 1 |
| Schedule.QtyShrinkImpact | src/algo/AlgoTrader.cpp:938-954 | a take exceeding the impact limit by at least a minimum order is cut to the limit; the result is lot-fitted, fits again unchanged, and never exceeds the request |
| Schedule.Price4Make | src/algo/AlgoTrader.cpp:956-971 | the passive price is the own side's level 2 when passive orders fill over 80%, and level 1 otherwise |
| Schedule.MakePriceIsPassive | src/algo/AlgoTrader.cpp:956-971 | on an uncrossed book with ordered ladders the passive price is counted as a maker order by the performance record |
| Trader.FitEnd | src/algo/AlgoTrader.cpp:134-139 | the fitted end is never after the closing auction nor inside the lunch break, and an end already satisfying both is kept |
| Trader.MinQtyPerOrder | src/algo/AlgoTrader.cpp:146 | 0 without a positive lower limit; otherwise the largest whole quantity whose value at the lower limit stays within the minimum amount |
| Trader.PreStartCheck | src/algo/AlgoTrader.cpp:49-159 | each check fails with its own error in the source's order: empty target or account, no security record, suspended, invalid side, buy below one minimum order, start not before end without a duration, start after the closing auction, live start not today, live end not after now; passing them all is accepted, with the fitted window measured by the market duration, the minimum order size, a live start at most 3 s before now and a backtest cursor at the requested start |
| Trader.EndDateNeverChecked | src/algo/AlgoTrader.cpp:117-120 | the end's date is compared with itself, so a live instruction starting today is never refused as not today, whatever its end |
| Trader.NextDayEndAccepted | src/algo/AlgoTrader.cpp:117-139 | a backtest instruction whose end is the next day is accepted and its end is cut to 14:57 of the start's day |
| Trader.Stop | src/algo/AlgoTrader.cpp:255-311 | a final instruction is left alone; otherwise it becomes Finished when filled, Terminated after a cancel, Error with a given reason, Expired without one, and its snapshots are released |
| Trader.StopIdempotent | src/algo/AlgoTrader.cpp:255-258 | a second stop, with any reason, changes nothing |
| Trader.Cancel | src/algo/AlgoTrader.cpp:313-334 | acts only when the status is not running: it then returns exactly the pending orders and marks the instruction Canceling, or Terminated when none is pending; a running one is untouched |
| Trader.CancelIgnoresRunning | src/algo/AlgoTrader.cpp:317 | because of the inverted test a Running instruction cannot be cancelled |
| Trader.CancelRewritesFinished | src/algo/AlgoTrader.cpp:317-332 | a Finished instruction with nothing pending is rewritten to Terminated by a cancel |
| Trader.CancelThenStop | src/algo/AlgoTrader.cpp:255-334 | a cancel that left orders pending, followed by a stop before the target is filled, ends Terminated with the user-cancel message |
| Trader.ClampPrice | src/algo/AlgoTrader.cpp:337-352 | the sent price is the requested price or one of the limits; it is never below a positive lower limit, never above a positive upper limit (limits ordered), never above the limit for a buy nor below it for a sell |
| Trader.PlaceDecision | src/algo/AlgoTrader.cpp:336-378 | nothing is placed without a positive quantity and price; otherwise an order is placed exactly when the clamped price is not a refused limit price and the requested (not clamped) value reaches the minimum amount |
| Trader.MinAmountUsesRequestedPrice | src/algo/AlgoTrader.cpp:373-377 | a buy requested at 20 and clamped to a limit of 10 passes a minimum amount of 1500 with 100 shares, though it is sent for only 1000 |
| Trader.ChildOrder | src/algo/AlgoTrader.cpp:379-395 | the child order is unsent and unfilled, carries the instruction's account, symbol and side, and the placement's id, quantity and price; it is timed now and quoted at the tick's time |
| Trader.PlaceOrder | src/algo/AlgoTrader.cpp:336-405 | a refused placement changes nothing; a placed one is stored with its clamped price and counted; a book refusal comes back as REJECTED, giving the quantity back and counting a rejection |
| Trader.OnMarketDepth | src/algo/AlgoTrader.cpp:492-509 | live traders never hold the feed; a backtest trader not running is woken; a running one holds the feed exactly when the tick is within 3 s of its cursor or past it |
| Trader.AwaitReplay | src/algo/AlgoTrader.cpp:973-994 | the cursor advances by the market duration, and the trader waits exactly when it is not final and the cursor passed the last quote |
| Trader.CursorMonotone | src/algo/AlgoTrader.cpp:975-979 | outside the lunch break, within the trading day, the replay cursor never moves backward |
| Trader.CursorStepsBackInBreak | src/algo/AlgoTrader.cpp:975-979 | inside the break a sub-second step is measured from 11:30, so the cursor can move backward: 11:30:00.5 plus 0.2 s gives 11:30:00.2 |
| Trader.PlaceOrderAsWritten | src/algo/AlgoTrader.cpp:379-403 | as written, a placement the book refuses stays counted as requested and no rejection is counted, because the stored snapshot is the refused order itself |
| Trader.AsWrittenRejectionUncounted | src/algo/AlgoTrader.cpp:396-403 | for every refused placement the as-written record holds the quantity more and one rejection fewer than the corrected one |
| Placer.FillAt | src/algo/AlgoPlacer.cpp:48-51 | a full fill at one price: status FILLED, every share filled at that average, amount the quantity times the price, nothing else changed |
| Placer.BacktestFill | src/algo/AlgoPlacer.cpp:29-51 | without a replay feed the order is REJECTED with its message; with one it is filled in full at the feed's VWAP as written over the cursor to the cursor plus the execution duration in market time |
| Placer.BacktestFillCorrected | src/algo/AlgoPlacer.cpp:29-51 | with the corrected replay VWAP, the fill is at the VWAP between the first and last quotes inside the window |
| Placer.BacktestFillIsLocal | src/algo/AlgoPlacer.cpp:41-51 | with the corrected VWAP, the backtest fill depends only on the quotes inside the execution window |
| Placer.QtyTarget32 | src/algo/AlgoPlacer.cpp:84 | the wrapper's target is the order quantity as an unsigned 32-bit count, unchanged when it fits |
| Placer.WrapperInstruction | src/algo/AlgoPlacer.cpp:68-93 | a live order becomes a VWAP instruction of the algo category for its account, broker, symbol, side and quantity, carrying its instruction id as client id, with a price limit only when asked for and both guards on |
| Placer.OnProgress | src/algo/AlgoPlacer.cpp:157-186 | fills are copied from the record; Terminated or Expired cancels the rest (partially when anything filled), Error rejects with its message, Finished fills, anything else is NEW |
| Placer.OnProgressFinalIffFinal | src/algo/AlgoPlacer.cpp:157-186 | the order is final exactly when the instruction is; a cancelling instruction's order stays NEW |
| Placer.Track | src/algo/AlgoPlacer.cpp:114-116 | tracking adds the order id; an id already tracked keeps its first wrapper |
| Placer.CancelOne | src/algo/AlgoPlacer.cpp:119-133 | a cancel reaches a wrapper exactly when the order id is tracked, and reaches that order's wrapper |
| Placer.CancelAll | src/algo/AlgoPlacer.cpp:135-148 | every tracked wrapper is signalled and the count returned is the number tracked |
| Placer.PendingCount | src/algo/AlgoPlacer.cpp:150-155 | the pending count is the number cancelAll signals |
| Placer.DuplicateOrderIdUntracked | src/algo/AlgoPlacer.cpp:116-131 | a second wrapper for a tracked order id is never tracked, so a cancel of that order reaches only the first |
| Depth.Levels | src/quote/MarketDepth.cpp:62-83 | a ladder lists its five levels as (price, volume) pairs, best first |
| Depth.AskQuotes | src/quote/MarketDepth.cpp:62-71 | the ask quotes are the five ask levels, ask 1 first |
| Depth.BidQuotes | src/quote/MarketDepth.cpp:73-83 | the bid quotes are the five bid levels, bid 1 first |
| Depth.MidPrice | src/quote/MarketDepth.h:104-108 | the mean of ask 1 and bid 1 when both are positive, else the larger; with an ordered positive spread it lies between them |
| Depth.FirstAt | src/quote/MarketDepth.cpp:85-120 | the first level quoting a price, or none exactly when no level does |
| Depth.PriceToVol | src/quote/MarketDepth.cpp:85-120 | a price is a key exactly when some level quotes it, and its volume is that of the first such level (initialiser lists keep the first duplicate) |
| Depth.SideLevels | src/quote/MarketDepth.cpp:85-120 | the ask side, the bid side, or bids followed by asks |
| Depth.PriceToVolMap | src/quote/MarketDepth.cpp:85-120 | a price is a key exactly when a level of the chosen side quotes it |
| Depth.VolAtPrice | src/quote/MarketDepth.cpp:122-129 | 0 for a price no level quotes; otherwise the first quoting level's volume, bids before asks |
| Depth.FirstAtAppend | src/quote/MarketDepth.cpp:107-118 | a price found among the bids keeps its bid position when the asks are appended |
| Depth.CrossingRun | src/quote/MarketDepth.cpp:135-150 | the leading levels that cross the limit, stopping at the first that does not |
| Depth.FirstReach | src/quote/MarketDepth.cpp:142 | the first level count at which the running fill reaches the quantity, or none exactly when none does |
| Depth.MatchFromStep | src/quote/MarketDepth.cpp:137-146 | a crossing level that does not reach the quantity adds its take to the running take, the fill and the amount |
| Depth.MatchAtContinue | src/quote/MarketDepth.cpp:137-146 | the loop passes a crossing level that does not reach the quantity |
| Depth.MatchAtReach | src/quote/MarketDepth.cpp:142-145 | a crossing level that reaches the quantity stops the loop with exactly the quantity |
| Depth.MatchFromFilled | src/quote/MarketDepth.cpp:130-172 | the loop's fill is the quantity when some crossing prefix reaches it, else the fill after the whole crossing run |
| Depth.CrossingRunFrom | src/quote/MarketDepth.cpp:137-150 | from level i, the levels crossing the limit up to the first that does not |
| Depth.TryMatchWithinPrice | src/quote/MarketDepth.cpp:130-172 | both sides give (0, 0); otherwise the quantity when a crossing prefix reaches it, else the fill over the crossing run; nothing when level 1 does not cross; never more than a non-negative quantity |
| Depth.TryMatchCountsTakesTwice | src/quote/MarketDepth.cpp:139-140 | takes accumulate across levels: two asks of 100 within the limit count 20 + 40 = 60 filled |
| Depth.DeltaSide | src/quote/MarketDepth.cpp:186-197 | a price enters the depth change exactly when it was already there or the side quotes it and the previous snapshot quoted it on that side; its value is the last such level's volume less the previous volume, and other entries keep theirs |
| Depth.LastAt | src/quote/MarketDepth.cpp:186-197 | the last level quoting a price, present exactly when some level quotes it |
| Depth.LastAtTail | src/quote/MarketDepth.cpp:186-197 | the last level at a price in a ladder is the last one in its tail shifted by one, or the head when only the head quotes it |
| Depth.DepthDelta | src/quote/MarketDepth.cpp:186-197 | the depth change has a price exactly when the same side of the previous snapshot also quoted it; a bid price maps to its last bid level's volume less the previous bid volume, and an ask price not overridden by a bid likewise on the ask side |
| Depth.Direction | src/quote/MarketDepth.cpp:198-206 | 1 above the mid, -1 below it, 0 at it, each in both directions |
| Depth.CalDelta | src/quote/MarketDepth.cpp:174-217 | a tick not newer than the previous gets zero direction, deltas and flow and no depth change; a newer one gets the derived deltas and depth change; the symbol, time and ladders are kept |
| Depth.TickDeltas | src/quote/MarketDepth.cpp:178-208 | vendor deltas are kept when non-zero, else derived from the cumulative counters (volume narrowed to 32 bits); with positive deltas the direction compares the average price with the previous mid and the flow is the signed amount; otherwise the direction is 0 and the flow kept |
| BookSim.MaxReal3 | src/orderbook/OrderBookSim.cpp:225 | the freeze price of an unpriced order is the largest of bid 1, ask 1 and the last price, and is one of them |
| BookSim.MarkTo | src/orderbook/OrderBookSim.cpp:246-247 | marking sets the last price and the value as current quantity times that price, and keeps the symbol and quantities |
| BookSim.AddPosition | src/orderbook/OrderBookSim.cpp:151-171 | the position is stored under the account and its own symbol unless an entry exists; an account seen for the first time starts with 5,000,000 of cash |
| BookSim.Refresh | src/orderbook/OrderBookSim.cpp:175-249 | only the order's account cash and its position change, both entries exist afterwards, every other account and position is kept; a position the refresh creates has an empty symbol field |
| BookSim.RejectReleasesFreeze | src/orderbook/OrderBookSim.cpp:185-238 | placing then rejecting an order gives the buyer's cash, or the seller's enabled shares, back to what it was before the placement |
| BookSim.CancelReleasesFreeze | src/orderbook/OrderBookSim.cpp:201-238 | placing then cancelling an unfilled order in full gives the buyer's cash, or the seller's enabled shares, back to what it was before the placement |
| BookSim.Promote | src/orderbook/OrderBookSim.cpp:623-630 | an unacknowledged status becomes NEW and a zero-priced order is REJECTED; nothing else changes |
| BookSim.KnownQueue | src/orderbook/OrderBookSim.cpp:615-621 | a known queue volume is kept; an unknown one becomes the volume quoted at the order price, or stays unknown when none is quoted |
| BookSim.CrossFill | src/orderbook/OrderBookSim.cpp:645-664 | the crossing trade is what the opposite side yields within the order price for the unfilled quantity; the order becomes FILLED exactly when it reaches its quantity and never overfills |
| BookSim.QueueFill | src/orderbook/OrderBookSim.cpp:666-686 | the queue advances by the traded volume; only an overshoot past -100 fills, for at most the unfilled quantity at the order price, restarting the queue at 0; FILLED or PARTIALFILLED accordingly |
| BookSim.Fill | src/orderbook/OrderBookSim.cpp:645-737 | a crossing order is cross-filled, a reachable resting order is queue-filled, any other fills nothing; the filled quantity stays within the order quantity |
| BookSim.MatchStep | src/orderbook/OrderBookSim.cpp:601-742 | the trade of one order against one tick in each of the three cases; a zero-priced order never crosses and is rejected; the amount accumulates, the average price is amount over quantity, the order's identity is kept |
| BookSim.PegFillOnlyPastQueue | src/orderbook/OrderBookSim.cpp:666-675 | a non-crossing order fills only when reachable and more than 100 shares past its queue, and its queue then restarts at 0 |
| BookSim.MatchOrder | src/orderbook/OrderBookSim.cpp:747-765 | the queue volume is stored either way; a newer result is published with the tick time in a backtest and now otherwise, followed by a trade report when it filled; an older one changes no order and no cash |
| BookSim.Publish | src/orderbook/OrderBookSim.cpp:751-755 | the published order replaces the stored one; queue, ticks and flags are kept |
| BookSim.Sweep | src/orderbook/OrderBookSim.cpp:590-597 | a final order leaves the queue, any other stays |
| BookSim.PlaceOrder | src/orderbook/OrderBookSim.cpp:251-328 | a stopped book refuses silently; a duplicate id is refused with a REJECTED update and no change; a new id is admitted |
| BookSim.PlaceNew | src/orderbook/OrderBookSim.cpp:284-321 | a new order is stored, no other order changes; without a tick for its symbol it is queued with unknown volume and nothing is published |
| BookSim.Admit | src/orderbook/OrderBookSim.cpp:285-305 | the order is stored with the tick's quote time, queued with unknown volume, and in a backtest its order and update times are the tick's |
| BookSim.PlaceKeepsQueueUnfinished | src/orderbook/OrderBookSim.cpp:301-318 | placing an unfinished order keeps every queued order known and unfinished |
| BookSim.CancelOrder | src/orderbook/OrderBookSim.cpp:384-440 | a stopped book, an unknown id or a final order is refused with no change; otherwise the order becomes CANCELED (nothing filled) or PARTIALCANCEL, its unfilled rest is cancelled, it leaves the queue and an update is published |
| BookSim.CancelKeepsQueueUnfinished | src/orderbook/OrderBookSim.cpp:392-440 | a cancel keeps every queued order known and unfinished |
| BookSim.CancelTwiceRefused | src/orderbook/OrderBookSim.cpp:403-405 | a second cancel of the same order is refused and changes nothing |
| BookSim.MatchAndSweep | src/orderbook/OrderBookSim.cpp:586-598 | matching one queued order touches only that order, can only remove it from the queue, and keeps the queue unfinished |
| BookSim.MatchAll | src/orderbook/OrderBookSim.cpp:586-598 | matching the queued orders in turn never adds to the queue or the orders and keeps the queue unfinished |
| BookSim.OnMarketDepth | src/orderbook/OrderBookSim.cpp:526-599 | a stopped book ignores the tick; otherwise the tick is stored; outside continuous trading nothing else changes; with no queued order for the symbol, exactly the positions whose own symbol field is the tick's symbol are marked to its price, and orders, queue and every other position are unchanged |
| BookSim.RefreshedPositionNotMarked | src/orderbook/OrderBookSim.cpp:577-582 | a position created by a refresh (line 183, an empty symbol field) keeps the price and value the refresh wrote when a later tick for its symbol finds no queued order |
| BookSim.PreloadedPositionMarked | src/orderbook/OrderBookSim.cpp:577-582 | a position preloaded by addPosition (lines 151-171) is marked to the price of such a tick |
| BookSim.TickKeepsQueueUnfinished | src/orderbook/OrderBookSim.cpp:566-599 | a tick keeps every queued order known and unfinished |
| FeedInternet.Inc | src/quote/QuoteFeedInternet.cpp:59-66 | every symbol's count grows by the number of times the subscription lists it, and the listed symbols become keys |
| FeedInternet.DecOne | src/quote/QuoteFeedInternet.cpp:82-89 | a symbol's count drops by one but not below zero and its entry is erased at zero; other symbols are untouched |
| FeedInternet.Dec | src/quote/QuoteFeedInternet.cpp:81-93 | every symbol's count drops by the number of times the subscription lists it, floored at zero, and an entry survives only while its count stays positive |
| FeedInternet.IncDecRestores | src/quote/QuoteFeedInternet.cpp:59-93 | with positive counts, removing a subscription's symbols undoes adding them |
| FeedInternet.AddCallbacks | src/quote/QuoteFeedInternet.cpp:65 | each listed symbol gains the key among its callbacks; nothing else changes |
| FeedInternet.DropCallbacks | src/quote/QuoteFeedInternet.cpp:90-92 | each listed symbol loses the key from its callbacks; no entry is removed |
| FeedInternet.Subscribe | src/quote/QuoteFeedInternet.cpp:51-72 | returns the key; a key already present changes nothing; a new one is stored, counts every listed symbol and registers its callback |
| FeedInternet.Unsubscribe | src/quote/QuoteFeedInternet.cpp:74-98 | an unknown key changes nothing; a known one is removed, its symbols' counts drop and its callbacks go |
| FeedInternet.CountsStayPositive | src/quote/QuoteFeedInternet.cpp:62-88 | subscribing and unsubscribing keep every stored count positive |
| FeedInternet.SubscribeThenUnsubscribe | src/quote/QuoteFeedInternet.cpp:51-98 | subscribing a new key and unsubscribing it restores the subscriptions and the counts |
| FeedInternet.PollCode | src/quote/QuoteFeedInternet.cpp:200-205 | the poll code is the exchange suffix followed by the six-digit code, and a symbol shorter than seven characters has none (substr throws) |
| FeedInternet.Codes | src/quote/QuoteFeedInternet.cpp:192-209 | the poll codes of all symbols in order, or none exactly when one symbol is too short |
| FeedInternet.Batch | src/quote/QuoteFeedInternet.cpp:199-210 | batches hold at most 500 codes, all but the last exactly 500, and together all codes; the first batch's string starts with a comma |
| FeedInternet.LowerAll | src/quote/QuoteFeedInternet.cpp:211-217 | every batch string is lower-cased and its size kept |
| FeedInternet.BatchCodes | src/quote/QuoteFeedInternet.cpp:186-210 | at least one batch; at most 500 codes each, all but the last full; the sizes add up to the number of codes |
| FeedInternet.DueSymbols | src/quote/QuoteFeedInternet.cpp:192-198 | a symbol is polled exactly when it is counted and has no tick, or its tick is at least two seconds old; each once |
| FeedInternet.GenBatches | src/quote/QuoteFeedInternet.cpp:186-219 | the batches of the due symbols, whose sizes add up to the number due; none exactly when a due symbol is too short |
| FeedInternet.Polls | src/quote/QuoteFeedInternet.cpp:199-217 | the batches of a list of symbols, or none exactly when one is too short |
| FeedInternet.SumSizesLower | src/quote/QuoteFeedInternet.cpp:211-217 | lower-casing the batches keeps their sizes |
| FeedInternet.Store | src/quote/QuoteFeedInternet.cpp:237-262 | a first tick is stored as is; a tick not newer than the stored one is dropped; a newer one is stored with its deltas against the stored one |
| FeedInternet.OnMarketDepth | src/quote/QuoteFeedInternet.cpp:221-305 | only the ticks and the fetch count change; no stored tick goes back in time; the fetch count grows by at most one |
| FeedInternet.StoreAll | src/quote/QuoteFeedInternet.cpp:232-293 | no stored tick goes back in time; the number of new ticks is at most the batch size and positive when the first tick is for a new symbol |
| FeedInternet.StaleTickDropped | src/quote/QuoteFeedInternet.cpp:248-261 | a batch of one tick not newer than the stored one leaves the feed unchanged, the fetch count included |
| FeedInternet.ParseDepth | src/quote/QuoteFeedInternet.cpp:334-351 | fewer than 58 fields give the empty-symbol result; a time field shorter than 8 characters throws; otherwise the fields are decoded |
| FeedInternet.RecordSymbol | src/quote/QuoteFeedInternet.cpp:348-349 | the code with ".SH" when the market field contains "sh", else ".SZ" |
| FeedInternet.VolSize | src/quote/QuoteFeedInternet.cpp:354 | volume is counted in shares (1) for codes starting "68" and in lots of 100 otherwise |
| FeedInternet.DecodeFields | src/quote/QuoteFeedInternet.cpp:343-412 | symbol, prices and ladders come from their fixed fields; an unparsable time falls back to now |
| FeedInternet.FieldLevel | src/quote/QuoteFeedInternet.cpp:389-412 | a level's price comes from its price field and its volume is get_int times 100 in 32-bit arithmetic: in the int range, congruent to the product, and equal to it when that fits |
| FeedInternet.VolumeScale | src/quote/QuoteFeedInternet.cpp:365-384 | the volume is the triple's volume when it compares greater than "0", else field 36, times the lot size in 32-bit int arithmetic and then as an unsigned 64-bit value (the plain product when that fits); the amount is the triple's when greater than "0", else field 57 in ten-thousands |
| FeedInternet.ParseResponse | src/quote/QuoteFeedInternet.cpp:307-331 | every tick kept has a symbol |
| FeedInternet.ParseRecords | src/quote/QuoteFeedInternet.cpp:316-327 | short records are skipped and records without a symbol dropped, so at most one tick per record; the parse fails exactly when a long record throws |
| FeedReplay.LowerBound | src/quote/QuoteFeedReplay.cpp:205 | the first recorded frame at or after the begin time: every frame before it is earlier, every frame from it on is not |
| FeedReplay.UpperBound | src/quote/QuoteFeedReplay.cpp:206 | the first recorded frame after the end time: every frame before it is at or before the end, every frame from it on is later |
| FeedReplay.Window | src/quote/QuoteFeedReplay.cpp:205-206 | the window holds exactly the recorded frames whose time lies between the begin and end times |
| FeedReplay.Wrap64 | src/quote/QuoteFeedReplay.cpp:234-235 | the unsigned 64-bit difference: below 2^64, and the plain difference when that is in range |
| FeedReplay.VwapBetween | src/quote/QuoteFeedReplay.cpp:229-238 | 0 unless the amount grew and the volume difference is nonzero; with a grown volume it is the amount difference over the volume difference, and positive |
| FeedReplay.FirstQuote | src/quote/QuoteFeedReplay.cpp:214-220 | the symbol's snapshot in some frame of the run, and none exactly when no frame quotes it |
| FeedReplay.LastQuote | src/quote/QuoteFeedReplay.cpp:221-227 | the symbol's snapshot in some frame of the run, and none exactly when no frame quotes it |
| FeedReplay.GetVwap | src/quote/QuoteFeedReplay.cpp:203-239 | the VWAP between the symbol's first and last snapshots inside the time window |
| FeedReplay.VwapAsWrittenAt | src/quote/QuoteFeedReplay.cpp:212-239 | over index bounds [lo, up): 0 for an empty window; otherwise the VWAP between the first quote in the window and the last quote of the window shifted one frame later, the frame at up included and the one at lo left out |
| FeedReplay.GetVwapAsWritten | src/quote/QuoteFeedReplay.cpp:203-239 | as written: 0 for an empty window; otherwise the as-written VWAP over the frames from the lower bound of the begin time to the upper bound of the end time |
| FeedReplay.ScanBackwardAsWrittenShift | src/quote/QuoteFeedReplay.cpp:221-227 | the backward scan as written covers the frames after the lower bound up to and including the upper-bound frame |
| FeedReplay.WindowIsSlice | src/quote/QuoteFeedReplay.cpp:205-206 | a window whose bounds are in order is the slice of frames between them |
| FeedReplay.ForwardIsFirst | src/quote/QuoteFeedReplay.cpp:214-220 | the forward scan over the window finds the first frame quoting the symbol |
| FeedReplay.BackwardIsLast | src/quote/QuoteFeedReplay.cpp:221-227 | the corrected backward scan, from the window's last frame down to its first, finds the last frame quoting the symbol |
| FeedReplay.VwapIsLocal | src/quote/QuoteFeedReplay.cpp:203-239 | two recordings with the same frames inside the window give the same VWAP |
| FeedReplay.SampleFrames | src/quote/QuoteFeedReplay.cpp:205-206 | a recording of three ordered frames, the last one after the window |
| FeedReplay.SampleBounds | src/quote/QuoteFeedReplay.cpp:205-206 | in the sample, the window for [1000, 2000] is the first two frames |
| FeedReplay.SampleScans | src/quote/QuoteFeedReplay.cpp:214-227 | in the sample, the scan as written returns the snapshot of the frame after the window, and the corrected scan the window's own last snapshot |
| FeedReplay.AsWrittenReadsPastWindow | src/quote/QuoteFeedReplay.cpp:221-227 | in the sample, the VWAP as written is 60.0 where the window's own snapshots give 20.0 |
| FeedReplay.AddKey | src/quote/QuoteFeedReplay.cpp:61-63 | each listed symbol gains the key, entries created when missing; others keep theirs |
| FeedReplay.RemoveKey | src/quote/QuoteFeedReplay.cpp:83-87 | each listed symbol loses the key; entries stay, possibly empty |
| FeedReplay.Subscribe | src/quote/QuoteFeedReplay.cpp:57-69 | a key already present is refused with 0 and nothing changes; a new one is recorded, listed under each of its symbols and returned |
| FeedReplay.Unsubscribe | src/quote/QuoteFeedReplay.cpp:78-90 | an unknown key changes nothing; a known one leaves the key table and its symbols' entries |
| FeedReplay.SubscribeKeepsIndexed | src/quote/QuoteFeedReplay.cpp:57-69 | subscribing keeps the key table and the per-symbol table in agreement |
| FeedReplay.UnsubscribeKeepsIndexed | src/quote/QuoteFeedReplay.cpp:78-90 | unsubscribing keeps the two tables in agreement and the key listed nowhere |
| FeedReplay.SubscribeThenUnsubscribe | src/quote/QuoteFeedReplay.cpp:57-90 | unsubscribing a key just subscribed restores the key table |
| FeedReplay.Stop | src/quote/QuoteFeedReplay.cpp:13-43 | a stopped feed is left alone; a running one stops, dispatches its finish callbacks and clears the per-symbol table, the frames and the callback lists but keeps the key table |
| FeedReplay.StopIdempotent | src/quote/QuoteFeedReplay.cpp:15-17 | stopping twice dispatches nothing the second time |
| FeedReplay.StopLeavesKeyTable | src/quote/QuoteFeedReplay.cpp:29-36 | after stopping, a live subscription stays in the key table but not in the per-symbol table |
| LimitedQueues.NewQueue | src/quote/LimitedQueue.h:10-11 | a new queue has empty windows, no markers, and keeps the queue invariant |
| LimitedQueues.SumFlowAppend | src/quote/LimitedQueue.cpp:20-21 | the flow of a window grows by the flow of the tick appended |
| LimitedQueues.Signed64 | src/quote/LimitedQueue.cpp:29 | an unsigned 64-bit difference stored into a signed 64-bit field: in signed range, and either the value or the value less 2^64 |
| LimitedQueues.Span | src/quote/LimitedQueue.cpp:28-32 | the period between the leaving tick and the newest: amount and volume differences, average price (the last price when no volume), market-time interval |
| LimitedQueues.SpanVolume | src/quote/LimitedQueue.cpp:29 | a volume rise below 2^63 is stored as the plain difference |
| LimitedQueues.Append | src/quote/LimitedQueue.cpp:17-53 | a window with room takes the tick; a full one drops its oldest; markers and sizes are kept; the queue invariant (window sizes, shot flow equal to the shot window's flow) is preserved |
| LimitedQueues.ReferFlowCountsNewTick | src/quote/LimitedQueue.cpp:34-46 | the refer flow adds the entering tick's flow rather than the leaving one's, so it differs from the refer window's own flow |
| LimitedQueues.Release | src/quote/LimitedQueue.cpp:3-15 | both windows are emptied and both markers cleared; the period aggregates and sizes stay |
| LimitedQueues.Size | src/quote/LimitedQueue.h:24 | the number of ticks in the shot window |
| LimitedQueues.ShotAmount | src/quote/LimitedQueue.h:32-36 | the shot amount and its rate over the shot interval, 0 for a non-positive interval |
| LimitedQueues.ReferAmount | src/quote/LimitedQueue.h:38-42 | the refer amount and its rate over the refer interval, 0 for a non-positive interval |
| LimitedQueues.GetItem | src/quote/LimitedQueue.h:55-60 | the tick at an index in the shot window, or an out-of-range error exactly when the index is past the end |
| LimitedQueues.ShotChangeRate | src/quote/LimitedQueue.cpp:55-63 | 0 until the shot window is full; then the percent change of the last price against the first tick's mid price, 0 when that mid is not positive |
| LimitedQueues.ResetLow | src/quote/LimitedQueue.cpp:65-79 | with an empty window the new tick; otherwise the first tick of the window with the highest price |
| LimitedQueues.FirstMax | src/quote/LimitedQueue.cpp:68-74 | the first index holding the highest price of a non-empty window |
| LimitedQueues.ResetLowIsFirstMax | src/quote/LimitedQueue.cpp:65-79 | the "low" marker reset picks the window's first highest-priced tick |
| LimitedQueues.TriggerShotMinMax | src/quote/LimitedQueue.cpp:81-133 | a trigger clears both markers and needs a high marker the tick exceeds after more than the configured market time; with both markers set, a tick above both, later than the low and past that time always triggers; the windows and periods never change |
| Shot.SubTaskCount | src/shot/ShotTrader.cpp:218-219 | the number of sub-instructions is the pool size over the chunk size rounded up: the chunks just cover the pool |
| Shot.SubOrder | src/shot/ShotTrader.cpp:230-234 | a sub-instruction is the parent under a fresh id, pointing at the parent and not itself a parent |
| Shot.Chunk | src/shot/ShotTrader.cpp:225-228 | chunk i holds exactly the pool symbols at positions i * perTask up to the next chunk or the end |
| Shot.CreateSubTasks | src/shot/ShotTrader.cpp:210-237 | one sub-instruction per chunk, in order, with the fresh ids in order; every pool symbol lands in the chunk of its position |
| Shot.ChunkOf | src/shot/ShotTrader.cpp:218-228 | position j lies in chunk j / perTask, which exists |
| Shot.ChunksDisjoint | src/shot/ShotTrader.cpp:225-228 | a position lies in one chunk only |
| Shot.SpawnSubTasks | src/shot/ShotTrader.cpp:243-262 | each worker takes the last waiting sub-instruction; those passing the pre-start check are started; the ones left are the first, beyond the number of workers |
| Shot.AllSpawnedIffEnoughWorkers | src/shot/ShotTrader.cpp:243-262 | nothing is left waiting exactly when there are at least as many workers as sub-instructions |
| Shot.Stop | src/shot/ShotTrader.cpp:318-333 | a final instruction is unchanged; otherwise it becomes final: FINISHED without a reason, TERMINATED for "user stop", ERROR with the reason as message otherwise |
| Shot.StopIdempotent | src/shot/ShotTrader.cpp:319-320 | stopping a second time, for any reason, changes nothing |
| Shot.Cancel | src/shot/ShotTrader.cpp:370-381 | a stopped instruction is unchanged; CANCELING while the placer has orders to cancel; otherwise a user stop |
| Shot.WinRate | src/shot/ShotTrader.cpp:642 | the percentage of winning signals among decided ones, between 0 and 100; 0 with none |
| Shot.ProfitToLoss | src/shot/ShotTrader.cpp:643-648 | 0 unless there are wins and losses; then the average win over the average loss with the sign flipped, positive when the wins made money |
| Shot.SignalQty | src/shot/ShotTrader.cpp:491-500 | a signal is sized only for a positive buy price, no share target and a known security: the amount target over the buy price fitted to the lot size, never above that ratio |
| Shot.TimeInt | src/shot/ShotSignal.cpp:8 | the time of day as hhmmss is below 240000 |
| Shot.ShotId | src/shot/ShotSignal.cpp:8 | the signal id is hhmmss times 10^6 plus the number leading the symbol's first six characters, 64-bit; none when the symbol does not start with a number |
| Shot.ShotIdDecodes | src/shot/ShotSignal.cpp:8 | for a code below 10^6, the time and the code are recovered from the id by division and remainder |
| Shot.Update | src/shot/ShotSignal.cpp:16-29 | a tick always moves the last price; the return in percent of the buy price is recomputed only while the signal is open and bought |
| Service.CategoryOf | src/services/AlgoService.cpp:303-326 | T0, SPREAD, SHOT and HIT get their own category, each in both directions; every other strategy is ALGO |
| Service.CategoryDeterminesStrategy | src/services/AlgoService.cpp:305-326 | a category other than ALGO names exactly one strategy |
| Service.DatePart | src/services/AlgoService.cpp:292-293 | the date part yyyymmdd of a yyyymmddhhmmss value, narrowed to an unsigned 32-bit number |
| Service.OnDateKeepsTimeOfDay | src/services/AlgoService.cpp:330-331 | a requested time placed on a trade date keeps its time of day and carries that date |
| Service.RequestDates | src/services/AlgoService.cpp:292-301 | the trading days between the start and end dates, or the end date alone when there are none |
| Service.RequestSymbols | src/services/AlgoService.cpp:335-343 | an index code (hs300, zz500, zz1000, other) under the ALGO category stands for its constituents; any other symbol for itself |
| Service.MergeParams | src/services/AlgoService.cpp:369-376 | the request's parameters win; a default fills only a key the request lacks |
| Service.MergeParamsIdempotent | src/services/AlgoService.cpp:373-376 | merging the defaults twice is merging them once, and no defaults changes nothing |
| Service.Flag | src/services/AlgoService.cpp:378-386 | a present flag is set exactly when its value lower-cased is "true"; an absent one keeps its current value |
| Service.FlagIgnoresCase | src/services/AlgoService.cpp:379 | a flag's value is read without regard to case |
| Service.Template | src/services/AlgoService.cpp:347-386 | every instruction of a request carries the request's account, broker, strategy and category, targets, limits and client id, the merged parameters and the two flags read from them |
| Service.Instruction | src/services/AlgoService.cpp:349-359 | one instruction differs from the template only in its fresh id, its symbol, and start and end times placed on its trade date |
| Service.Row | src/services/AlgoService.cpp:345 | one trade date paired with each symbol in order |
| Service.Layout | src/services/AlgoService.cpp:328-389 | one instruction slot per trade date and symbol, made only of the given dates and symbols |
| Service.LayoutAt | src/services/AlgoService.cpp:328-345 | slot i holds date i / (number of symbols) and symbol i mod (number of symbols): dates outer, symbols inner |
| Service.LastRowPosition | src/services/AlgoService.cpp:328-345 | a slot in the last row has the last date and its offset in that row as symbol position |
| Service.LayoutFront | src/services/AlgoService.cpp:328-345 | appending a row keeps the slots before it in place |
| Service.Expand | src/services/AlgoService.cpp:345-388 | one instruction per slot, in order, with the fresh ids in turn |
| Service.CreateAlgoOrders | src/services/AlgoService.cpp:275-392 | an unparsable start or end time is an error with nothing created; otherwise one instruction per trade date and requested symbol, dates outer, each the template on its date and symbol under its own id |
| Service.NewAdmission | src/services/AlgoService.cpp:11-13 | a new service has no traders, an empty queue, and is in a valid state |
| Service.RegisterFrame | src/services/AlgoService.cpp:495-497 | registering a trader under a fresh id changes no running count |
| Service.StartCounts | src/services/AlgoService.cpp:463-469 | starting a trader adds one running trader, one running backtest when it is a backtest, and one multi-context backtest when it is a backtest outside ALGO |
| Service.StopCounts | src/services/AlgoService.cpp:512-534 | finishing a trader removes one running trader, one running backtest when it is a backtest, and one multi-context backtest when it is a backtest outside ALGO |
| Service.ModInc | src/services/AlgoService.cpp:463-469 | an increment commutes with the counter's wrap-around |
| Service.ModDec | src/services/AlgoService.cpp:512-534 | a decrement of a positive count commutes with the counter's wrap-around |
| Service.Launch | src/services/AlgoService.cpp:463-471 | launching marks the trader running and keeps the registry, queue and totals |
| Service.LaunchCounted | src/services/AlgoService.cpp:463-469 | launching keeps every counter equal to the number of traders it counts |
| Service.Retire | src/services/AlgoService.cpp:512-534 | retiring marks the trader not running and keeps the registry, queue and totals |
| Service.RetireCounted | src/services/AlgoService.cpp:512-534 | retiring keeps every counter equal to the number of traders it counts |
| Service.Dispatch | src/services/AlgoService.cpp:394-502 | a category other than ALGO or SHOT is an error with no change; success exactly for a new id and an empty error message on entry (the request handler passes an empty one, src/services/AlgoService.cpp:240-244); a duplicate id, whose message is set at 406-410, or a non-empty message answers ORDERCHECK_FAILED (484-491) and starts nothing, a new id being recorded as stopped; a live instruction starts at once; a backtest starts unless a multi-context backtest runs or all workers are busy, when it queues |
| Service.DuplicateReportedAsCheckFailure | src/services/AlgoService.cpp:407-490 | a duplicate id is answered ORDERCHECK_FAILED, not DUPLICATE_ERROR, and the registered trader is kept |
| Service.DispatchKeepsValid | src/services/AlgoService.cpp:394-502 | dispatching keeps the admission state valid: counters exact, queue of waiting distinct backtests, and never a queue with no backtest running |
| Service.RegisterKeepsValid | src/services/AlgoService.cpp:445-497 | registering a trader under a fresh id keeps the state valid |
| Service.LaunchKeepsWaiting | src/services/AlgoService.cpp:463-471 | launching a trader not in the queue keeps the state valid |
| Service.EnqueueKeepsValid | src/services/AlgoService.cpp:451-455 | queueing a backtest when a multi-context backtest runs or all workers are busy keeps the state valid |
| Service.EnqueueWaiting | src/services/AlgoService.cpp:455 | queueing a fresh backtest keeps the queue of waiting distinct backtests |
| Service.SomeBacktestRuns | src/services/AlgoService.cpp:451 | when the counters say a backtest runs, one does |
| Service.IdleServiceStartsBacktest | src/services/AlgoService.cpp:449-472 | an idle service with workers starts a new backtest at once |
| Service.Finish | src/services/AlgoService.cpp:504-559 | the finished trader stops running unless it heads the queue; a finished backtest lets the queue's head start; the counters follow the traders they count |
| Service.FinishKeepsValid | src/services/AlgoService.cpp:504-559 | finishing keeps the admission state valid |
| Service.PopKeepsValid | src/services/AlgoService.cpp:538-548 | starting the queue's head after a retirement keeps the state valid |
| Service.FinishAsWritten | src/services/AlgoService.cpp:504-559 | as written, the queue, running traders and running count are those of the corrected version |
| Service.AsWrittenMiscounts | src/services/AlgoService.cpp:550-552 | the multi-context count as written is right exactly when the finished trader and the started one agree on being ALGO |
| Service.BtOrder | src/services/AlgoService.cpp:449 | a backtest instruction of a given id and category |
| Service.StrandStart | src/services/AlgoService.cpp:449-472 | a valid state with one multi-context backtest running and one ALGO backtest queued |
| Service.StrandFirstFinish | src/services/AlgoService.cpp:528-556 | as written, when the first finishes the ALGO backtest starts but the multi-context count stays at 1 |
| Service.StrandSecondFinish | src/services/AlgoService.cpp:528-556 | as written, when nothing runs any more the multi-context count still says 1 |
| Service.AsWrittenStrandsQueue | src/services/AlgoService.cpp:449-456 | as written, a later backtest is queued although nothing runs, and nothing will ever start it |
| Service.CancelAlgoOrder | src/services/AlgoService.cpp:654-685 | success exactly for a registered trader not yet stopped, which is then cancelled; NOT_EXISTS for an unknown id, ERROR for a stopped trader |
| Service.UpdateRequest | src/services/AlgoService.cpp:561-652 | success exactly for a logged-in account asking to stop its own running trader; ACCT_NOT_LOGIN, ERROR for another action, NOT_EXISTS for an unknown id |
| Service.StopRequestIsCancel | src/services/AlgoService.cpp:600-682 | a logged-in stop request by the owning account answers as a cancel does |
| DataManager.IndexNameTag | src/common/StockDataManager.h:103-119 | hs300, zz500 and zz1000 map to tags 1, 2 and 4 with size hints 300, 500 and 1000; any other name to (-1, 0) |
| DataManager.IndexTagsDistinct | src/common/StockDataManager.h:103-119 | a positive tag names exactly one of the three indexes |
| DataManager.SymbolH5Key | src/common/StockDataManager.cpp:7-15 | a Shenzhen symbol maps to "/SZSE" and its code, a Shanghai symbol to "/SHSE" and its code, anything else to "/" and itself |
| DataManager.SymbolH5KeyInjective | src/common/StockDataManager.cpp:7-15 | two well-formed exchange symbols with the same key are the same symbol |
| DataManager.IndexOf | src/common/StockDataManager.cpp:290 | the calendar entry for a date, or none exactly when the calendar has no entry for it |
| DataManager.NextTradeDate | src/common/StockDataManager.cpp:281-296 | the entry's next trade date, or 0 for a date absent from the calendar |
| DataManager.PreTradeDate | src/common/StockDataManager.cpp:298-310 | the entry's previous trade date, or 0 for a date absent from the calendar |
| DataManager.IndexOfUnique | src/common/StockDataManager.cpp:290 | in an ordered calendar the entry found for a date is the one holding it |
| DataManager.WalkBack | src/common/StockDataManager.cpp:321-327 | the walk back never passes the starting entry |
| DataManager.WalkBackCounts | src/common/StockDataManager.cpp:321-327 | the walk passes at most n trading days, exactly n unless it reaches the calendar's start, and stops on a trading day when it passed n > 0 |
| DataManager.PreTradeDateN | src/common/StockDataManager.cpp:311-332 | 19700101 for an absent date; otherwise the entry n trading days back: its date when it is a trading day, else its previous trade date |
| DataManager.TradeDateInts | src/common/StockDataManager.cpp:354-373 | exactly the trading days of the calendar between the two dates, ascending without repeats |
| DataManager.InitBelowLast | src/common/StockDataManager.cpp:364-370 | in an ordered calendar every trading day before the last entry is earlier than it |
| DataManager.HasTradingDaySnoc | src/common/StockDataManager.cpp:368 | a calendar extended by one entry has that entry's trading day besides its own |
| DataManager.TradeDateIntsSplit | src/common/StockDataManager.cpp:354-373 | the trading days of a range are those of its first part followed by those of the rest |
| DataManager.IndexConstituents | src/common/StockDataManager.cpp:230-279 | an unsupported name gives nothing; an index gives exactly the known securities tagged with it; "other" gives the stocks in none of the three indexes |
| DataManager.ConstituentsDisjoint | src/common/StockDataManager.cpp:236-276 | no security belongs to the constituents of two different names |
| DataManager.BlockInfoByType | src/common/StockDataManager.cpp:72-86 | exactly the entries whose security type is in the set, unchanged |
| DataManager.BlockInfoByTypeCompose | src/common/StockDataManager.cpp:72-86 | filtering by one type set and then another is filtering by their intersection |
| DataManager.SecurityInfoBatch | src/common/StockDataManager.cpp:56-70 | exactly the entries whose symbol is requested, unchanged |
| DataManager.SecurityInfoBatchCompose | src/common/StockDataManager.cpp:56-70 | two successive batch filters are one filter by the intersection of the requested sets |
| Configs.SectionName | src/common/Configs.cpp:34 | the section name is the text after '[' up to the first ']', or the whole rest when there is no ']' |
| Configs.SplitAssignment | src/common/Configs.cpp:37-40 | a line without '=' is no assignment; otherwise the trimmed text before the first '=' is the key and the trimmed rest the value |
| Configs.Classify | src/common/Configs.cpp:29-43 | after trimming, empty lines, comments (';' or '#') and lines with neither '[' first nor '=' are skipped; a '[' line is a section header; the rest are assignments |
| Configs.Apply | src/common/Configs.cpp:33-43 | a header changes the current section only; an assignment sets that key in the current section, creating the section, and changes nothing else |
| Configs.ParseIni | src/common/Configs.cpp:19-48 | a key is set in a section exactly when some line assigned it while that section was current; its value is the last such line's; every section read holds at least one key |
| Configs.LastAssignment | src/common/Configs.cpp:33-43 | the last line assigning a key while a section is current: it does assign it, no later line does, and none exists exactly when no line does |
| Configs.ReadKindsEntry | src/common/Configs.cpp:29-45 | reading classified lines stores a key in a section exactly when some line assigned it there, with the last such line's value |
| Configs.ReadMeaning | src/common/Configs.cpp:19-48 | the reader's state after every line stores exactly the last assignments, and no section without a key |
| Configs.LaterAssignmentWins | src/common/Configs.cpp:41 | a later assignment of a key in the current section overrides any earlier one |
| Configs.KeysComeFromAssignments | src/common/Configs.cpp:37-43 | every stored key and value comes from some assignment line |
| Configs.ApplyKeepsOthers | src/common/Configs.cpp:41 | a line that does not assign a stored key leaves it as it was |
| Configs.SectionsComeFromAssignments | src/common/Configs.cpp:41 | a section appears only when some line assigned in it; a bare header creates nothing |
| Configs.LookupAsWritten | src/common/Configs.h:36-46 | as written: the default when the section is absent or has no key named like the section itself; otherwise the key's value, and an error (std::out_of_range) when the key is missing |
| Configs.Lookup | src/common/Configs.h:36-46 | the value configured for the key in the section, or the default when there is none |
| Configs.LookupAgreement | src/common/Configs.h:36-46 | for a configured key, the lookup as written agrees with the intended one exactly when the section also has a key named like itself or the value equals the default |
| Configs.AsWrittenIgnoresConfiguredFile | src/common/Configs.h:43 | as written, a configured security-info file name under DATACONFIG is ignored in favour of the default |
| Configs.LookupIntAsWritten | src/common/Configs.h:59-69 | the integer lookup as written fails and defaults exactly as the string one does, and reads a found value with get_int |
| Configs.LookupInt | src/common/Configs.h:59-69 | a configured value read with get_int, falling back to the default; a readable number is narrowed to 32 bits |
| Configs.LookupRealAsWritten | src/common/Configs.h:48-58 | the real-number lookup as written fails and defaults exactly as the string one does, and reads a found value with get_double |
| Configs.LookupReal | src/common/Configs.h:48-58 | a configured readable number, or the default |
| Configs.DataDir | src/common/Configs.cpp:74-80 | no directory without a DATACONFIG section; the configured directory, or "D:/gmData/", with a '/' appended when it lacks one |
| Configs.DataDirKeepsSlash | src/common/Configs.cpp:78-80 | a directory already ending in '/' is kept, so normalising twice is normalising once |
| Configs.DataFiles | src/common/Configs.cpp:82-88 | each file is read with the lookup as written: without a key named DATACONFIG, the directory followed by the built-in name whatever is configured; with one, the configured names, and a missing one is the out_of_range error; always prefixed by the directory |
| Configs.DataFilesIgnoreConfiguredName | src/common/Configs.cpp:82-83 | a security-info file name configured under DATACONFIG is ignored: the default D:/gmData/StaticInfo.h5 comes back |
| Configs.AlgoParamMap | src/common/Configs.cpp:150-157 | a category's defaults are the section named after it, empty when there is none |
| Configs.AfterUnderscore | src/common/Configs.cpp:116-118 | the text after the first '_', or none exactly when there is no '_' |
| Configs.BrokerOfSection | src/common/Configs.cpp:116-120 | a section names a broker exactly when it starts with "BrokerConfig", has a '_' and a nonzero number after it; the id is that number as an unsigned 64-bit value |
| Configs.SectionEntries | src/common/Configs.cpp:121-131 | a broker section maps each account whose type name parses, and only those, to its broker |
| Configs.FirstWins | src/common/Configs.cpp:126 | try_emplace keeps a key exactly when some entry has it |
| Configs.FirstEntryKept | src/common/Configs.cpp:126 | the value kept for a key is that of its first entry |
| Configs.BrokerTable | src/common/Configs.cpp:114-135 | the table's keys are exactly the accounts some valid broker section lists |
| Configs.BrokerIdFromAcct | src/common/Configs.cpp:139-148 | the broker listed for the account and type, or 0 when none is |
| Configs.BrokerIdNonzeroIffListed | src/common/Configs.cpp:114-148 | an account's broker is nonzero exactly when a valid broker section lists it |
| Configs.BrokersNonzero | src/common/Configs.cpp:120 | every broker entered is nonzero |
| Configs.FirstIndexOfKey | src/common/Configs.cpp:126 | the value kept for a listed key is one of its entries |
| Configs.KeyIndex | src/common/Configs.cpp:126 | the position of the first entry for a key |
| Framing.EncodeHeader | src/services/TCPSession.cpp:200-210 | the four header bytes are the body length's bytes from most to least significant, and the header size is 4 |
| Framing.DecodeHeader | src/services/TCPSession.h:31 | the length read from the first four bytes as a big-endian unsigned 32-bit number |
| Framing.DecodeReadsFourBytes | src/client/SendContext.h:79-83 | the decoded length depends on the first four bytes only |
| Framing.HeaderRoundTrip | src/services/TCPSession.cpp:200-210 | decoding an encoded header gives back the length modulo 2^32, whatever follows it |
| Framing.EncodePkg | src/client/SendContext.cpp:326-350 | a package is sent as its 4-byte length header followed by its bytes; the size written is 4 plus the body length |
| Framing.SplitFrame | src/services/TCPSession.cpp:44-72 | a frame is complete exactly when the buffer holds 4 + the decoded length bytes; the body is those bytes after the header and the rest stays |
| Framing.FrameRoundTrip | src/client/SendContext.cpp:326-350 | reading back a sent package, whatever follows it, gives the package and leaves the rest |
| Framing.Grow | src/services/TCPSession.cpp:62-72 | a buffer already big enough keeps its capacity; otherwise it grows to a multiple of 1024 above 4 + body by at most 1024 |
| Framing.GrowStep | src/client/SendContext.cpp:209 | the next multiple of 1024 strictly above the size |
| Framing.Push | src/client/SendContext.cpp:181-194 | a package joins the back of the queue, and a write starts exactly when the queue was empty, so one write at most is in flight |
| Framing.Written | src/client/SendContext.cpp:230-238 | a finished write removes the front package, and the next one is written exactly when more are queued |
| Framing.PushesWrittenInOrder | src/client/SendContext.cpp:181-194 | packages pushed one after another are queued in the order pushed, with a write in flight |
| Framing.Register | src/client/SendContext.cpp:183-187 | a sent request always gets a timeout entry; its request id is recorded only when not already outstanding, and each outstanding request stays linked to its own timeout entry |
| Framing.Respond | src/client/SendContext.cpp:483-502 | a response with a positive outstanding request id removes that request and its timeout entry; any other response changes nothing |
| Framing.RespondKeepsLinked | src/client/SendContext.cpp:483-502 | after a response every outstanding request is still linked to its own timeout entry |
| Framing.RegisterThenRespond | src/client/SendContext.cpp:181-502 | a request answered right after being sent leaves the tables as they were |
| Sessions.EmptyManager | src/services/TCPSession.cpp:315-353 | the initial tables agree, and nobody is logged in |
| Sessions.AddSession | src/services/TCPSession.cpp:315-324 | the session joins the connected ones, reporting whether it was new, and logins are unchanged |
| Sessions.Login | src/services/TCPSession.cpp:288-313 | the session is connected and joins the account's sessions; other accounts, the cache and the acknowledgements are unchanged |
| Sessions.LoginKeepsConsistent | src/services/TCPSession.cpp:288-313 | logging in keeps the tables in agreement |
| Sessions.Remove | src/services/TCPSession.cpp:326-353 | the session leaves every table; an account keeps its other sessions and is dropped when none remain; accounts without the session are untouched |
| Sessions.RemoveKeepsConsistent | src/services/TCPSession.cpp:326-353 | removing a session keeps the tables in agreement |
| Sessions.LoginThenRemove | src/services/TCPSession.cpp:281-353 | after a login and the removal of the same session, the account is logged in exactly when it had another session |
| Sessions.Send | src/services/TCPSession.cpp:375-432 | a response goes to its session, a notification to every session of the account and nowhere when it is not logged in; a cached package is appended to the account's cache, which stays in ascending order |
| Sessions.SentOffset | src/services/TCPSession.cpp:434-446 | the account's last acknowledged id becomes the package's, and nothing else changes |
| Sessions.Start | src/services/TCPSession.cpp:455-463 | a positive requested start is used; otherwise the last acknowledged id, or 0 when there is none |
| Sessions.Select | src/services/TCPSession.cpp:465-487 | exactly the cached packages that qualify are chosen, in cache order |
| Sessions.ReSend | src/services/TCPSession.cpp:449-489 | the packages resent are exactly the account's cached order notifications, trade notifications and algo messages from their starts on, in ascending sequence order |
| Sessions.LastAckedResent | src/services/TCPSession.cpp:455-487 | with no starts requested, the last acknowledged notification is sent again |
| Sessions.ReSendFromStart | src/services/TCPSession.cpp:455-487 | with a start requested, nothing older than it is resent |
| HttpResponse.Find | src/third_party/requests/Response.cpp:28 | the first position where the delimiter occurs, or none when it never does |
| HttpResponse.SplitJoin | src/third_party/requests/Response.cpp:28 | joining the tokens with the delimiter gives back the input |
| HttpResponse.SplitTokensFree | src/third_party/requests/Response.cpp:59 | no token contains the delimiter |
| HttpResponse.SplitFirstToken | src/third_party/requests/Response.cpp:28 | text free of a one-character delimiter and followed by it is the first token |
| HttpResponse.SplitLastToken | src/third_party/requests/Response.cpp:28 | text free of the delimiter is a single token |
| HttpResponse.StatusLine | src/third_party/requests/Response.cpp:26-55 | the status line is accepted exactly when it has three space-separated tokens and the middle one is a number within the int range; they give the version, code and message; a number out of range escapes as out_of_range, anything else is the invalid-status-line error |
| HttpResponse.ReasonWithSpaceRejected | src/third_party/requests/Response.cpp:32-35 | a reason phrase containing a space makes four tokens, so the status line is refused |
| HttpResponse.HeaderField | src/third_party/requests/Response.cpp:57-64 | a header line is accepted exactly when it is a name and a value around one ": ", and it is rebuilt from them |
| HttpResponse.Fields | src/third_party/requests/Response.cpp:15-22 | all lines are fields or the whole read fails; the fields are those of the lines in order |
| HttpResponse.FieldNames | src/third_party/requests/Response.cpp:66 | the names entered are exactly those some field gives |
| HttpResponse.LastFieldWins | src/third_party/requests/Response.cpp:66 | a field that no later field renames gives its name's value |
| HttpResponse.ReadHeaders | src/third_party/requests/Response.cpp:15-22 | the header lines are read exactly when each is a field |
| HttpResponse.HeaderNames | src/third_party/requests/Response.cpp:15-22 | the headers are exactly the names the lines give |
| HttpResponse.LastHeaderWins | src/third_party/requests/Response.cpp:66 | a header's value is that of the last line naming it |
| HttpResponse.Parse | src/third_party/requests/Response.cpp:9-24 | a response is built exactly when the status line and every header line after the first are valid, with the status line checked first |
| Numbers.Stoi | src/third_party/requests/Response.cpp:38-44 | a status code is read like std::stoi: optional spaces and sign, then digits, accepted only within 32 bits |
| Numbers.StolDecimalString | src/common/common.h:467-475 | the decimal text of any number below 2^63 reads back as that number |

## Left out

- Asio strands, coroutines, timers and mutexes: each handler is one step function over explicit state, and interleavings are not modelled.
- Network, file and HDF5 I/O and logging: loaded tables, received bytes and configuration text are inputs.
- Protobuf serialization: a package body is an opaque byte sequence, and its serialized size is its length.
- The exact capacity `std::vector::reserve` grants: it is taken to grant exactly what is asked.
- The requests library's splitString is not part of this model. `HttpResponse.Split` takes it as cutting at every occurrence of the delimiter, left to right, keeping empty tokens.
- AlgoConstants.h is not part of this model. `DefaultCoverRate` and `MAXShotImpactVolRate` are parameters.
- std::stod and the date-time parsers are parameters that answer None where the library throws. std::stol, std::stoi and std::stoull are modelled on integers (`Numbers`).
- Allocation.TwapAllocate: the weights are computed exactly rather than in double precision. The properties about the correction are proved for any raw curve, so they also cover the double-rounded one, whose entries can be one lower (i = 29, n = 100, target = 100 gives 28).
- The VWAP volume-profile interpolation: the profile is an input to `Schedule.Curve`.
- `float`-typed fields read with get_float are `real` like the doubles. Their rounding to single precision is not modelled.
- BookSim.CrossFill: a crossing match of zero quantity divides its amount by zero in the source, giving a NaN trade price. The model uses 0.0.
- StockDataManager's lookup of a security block by its special name (the string branch of getSecurityBlockInfo) is not modelled. The lookup by security type is modelled.
- ShotTrader's trading loop around the signal: the coroutine waiting, the order callbacks and the per-signal logging are not modelled. The signal's order size, the sub-task split and start, stop, cancel and the win/loss summary are modelled.
- Shot.SpawnSubTasks: the trader's preStartCheck is a parameter. It stands for ShotTrader::preStartCheck (src/shot/ShotTrader.cpp:36) on the sub-instruction, whose market-cap filters are not modelled.
- DataManager.TradeDateInts: a begin date after the end date walks from lower_bound past upper_bound in the source, which is undefined behaviour; the model answers the empty sequence there.
- Placer.BacktestFill: the source dereferences the frame after a non-empty window even when the window runs to the end of the recording, and walks the map from lower_bound to upper_bound even when the first is past the second; both are undefined behaviour, so the model requires a frame after a non-empty window (`Placer.ReplayDefined`) and bounds in order. `FeedReplay.GetVwapAsWritten` carries the same precondition.
- Performance.SortByPrice: std::sort is not stable, so orders at the same price may come out in any order; the model sorts stably, so `Performance.CancelOrderIds` states the choice for one of the orders std::sort may produce.
- Depth.DeltaSide: the difference of two int volumes is taken on unbounded integers; its 32-bit overflow, possible only for volumes beyond 2^30, is not modelled.
- Arrival-price and other performance summaries that only format numbers for reports are not modelled.
- OrderBookSim's subscription to the quote feed and the asynchronous order and trade callbacks: the callbacks are returned as `Notice` lists in order. addPosition is modelled as one step (`BookSim.AddPosition`); the account entry it dispatches separately is added in the same step.
- Service.CreateAlgoOrders: the source dereferences the parsed start and end date-times of each trade date without checking them (src/services/AlgoService.cpp:356-357), which is undefined behaviour when one does not parse; the model requires every such date-time to parse (`Service.DatesParse`). The request's own start and end times are checked, and their failure is the modelled error.

## Findings

| source | as written | input that shows it | evidently intended | confidence | as-written member | corrected member |
|---|---|---|---|---|---|---|
| src/quote/QuoteFeedReplay.cpp:221-227 | the backward scan for the last quote in the window starts at upper_bound(endTime), so it reads the frame after the window (or past the end) and never reads the lower-bound frame | ticks at 1 s, 2 s and 3 s with cumulative amount 100, 300, 1300 over volume 10, 20, 30; over [1 s, 2 s] the VWAP is 60.0 instead of the 20.0 traded inside the window | the last frame inside the window closes the window | not executed | FeedReplay.GetVwapAsWritten, FeedReplay.AsWrittenReadsPastWindow | FeedReplay.GetVwap, Placer.BacktestFillCorrected |
| src/services/AlgoService.cpp:550-552 | when a finished backtest releases the next queued one, the running count is incremented under the finished instruction's category instead of the started one's | a SHOT backtest finishes while an ALGO backtest is queued; once both have finished the multi-context count is still 1, so the next backtest waits in the queue with nothing running to release it | the started instruction's category is counted | not executed | Service.FinishAsWritten, Service.AsWrittenStrandsQueue | Service.Finish |
| src/common/Configs.h:43 | getConfigOrDefault tests whether the section contains a key named like the section instead of the requested key | DATACONFIG sets SecurityInfoFileName to Static2024.h5 and has no key named DATACONFIG: the lookup gives the default StaticInfo.h5 | the requested key is looked up | not executed | Configs.LookupAsWritten, Configs.AsWrittenIgnoresConfiguredFile | Configs.Lookup |
| src/algo/AlgoTrader.cpp:396-403 | on a rejected placement the REJECTED status is written into the snapshot already stored, so the performance update sees no newer snapshot: the rejection is not counted and the requested quantity is not given back | a child order refused by the order check | the rejected snapshot is a new value compared against the stored one, as the non-rejected path does at 418-422 | not executed | Trader.PlaceOrderAsWritten, Trader.AsWrittenRejectionUncounted | Trader.PlaceOrder |
