# Candle pipeline model

A market-data service receives one-minute (1m) candles from several exchanges.
It combines them per symbol, derives fourteen higher timeframes from them, keeps
24-hour statistics, counts the users behind every exchange stream, and writes
candles to a database in batches. An importer loads history month by month. This
project models the parts of that service in which an incremental, order-dependent
or concurrent form has to agree with a simple definition, and proves that it does,
or exactly when it does not.

| file | content |
|---|---|
| `Candles.dfy`, `MapSums.dfy`, `Gathering.dfy` | the candle record, interval names, sums over maps, contents held by goroutines |
| `TimeWindows.dfy` | the calendar, window starts and lengths, nesting, the second truncation |
| `Folding.dfy` | key sort and accumulator loops, and what a bar means |
| `Streams.dfy`, `InOrderRuns.dfy` | one symbol and interval as a state machine; in-order runs |
| `HistoricalBatch.dfy`, `OutsideWindows.dfy` | agreement with the batch routine, and with candles outside their windows |
| `MergedBars.dfy`, `Nesting.dfy` | merging bars, nested timeframes |
| `Conservation.dfy`, `LateUpdates.dfy` | arbitrary arrivals: conservation, and windows completed more than once |
| `IntervalAggregator.dfy`, `MapKeys.dfy`, `Agreement.dfy` | the aggregator object, its string keys, and the results stated of the object |
| `RealtimeAggregator.dfy` | the cross-exchange aggregator |
| `Stats24h.dfy` | the 24h ring buffer |
| `Subscriptions.dfy`, `BatchWriter.dfy`, `BatchShutdown.dfy` | reference counts, batch writer and its shutdown under every interleaving |
| `Importer.dfy`, `ImportPool.dfy` | month list and worker pool of the importer |
| `RateLimiter.dfy`, `Kraken.dfy` | backoff, subscription batcher, symbol conversion |

`dafny verify dfyconfig.toml` checks everything.

## How the model reads the code

- A decimal is an integer number of units of 10^-16. Sums and comparisons are
  exact; a quotient is rounded to the nearest unit, halves away from zero.
- A time is a number of UTC seconds from 1970-01-01 on. Clock readings, the answer
  of the token bucket, database rows and the room left in a channel are parameters.
- A candle pointer is the candle with its arrival number, so that two equal
  candles remain two candles.
- A loop over a Go map takes its keys in an arbitrary order, and every contract
  holds for all of them.
- Code that runs under a lock is one step; concurrent parts are relations over
  such steps, and their results hold for every interleaving.
- Calls of `Process1mCandle` for one symbol are taken one at a time, in any order
  of arrival. `Process1mCandle` and `ProcessCandleUpdate` are started in goroutines
  of their own (internal/services/aggregator/realtime_candle_aggregator.go:301).
- Backoff is in integer nanoseconds. Multiplying by 1.5 is exact in that range.
  Multiplying by the double nearest to 0.9 differs from nine tenths by less than
  half a unit in the last place, so truncation gives the same integer as `d * 9 / 10`.

## Where the code departs from what it says

- `low.IsZero()` in the streaming loops treats a low of zero as unset, the batch
  loop does not: `Folding.StreamBarExactly` says exactly when they agree and
  `Folding.ZeroLowIsLost` shows when they do not. Nested candles differ in the low
  for the same reason: `MergedBars.MergeExactly`, `Nesting.NestedLowsDiffer`.
- `1M` windows start with the calendar month and always last 30 days, so a candle
  of day 31 falls outside its own window: `InOrderRuns.CompletionExactly`,
  `InOrderRuns.DayThirtyOneBreaks` and, for the emitted candles,
  `OutsideWindows.EmissionExactly`.
- `TruncateToInterval` and `getIntervalOpenTime` never agree on `3d`:
  `TimeWindows.TruncationsCompared`.
- An unsubscribe of an interval that was never subscribed takes a reference from
  another interval: `Subscriptions.UnsubscribeExactly`, `Subscriptions.StrayUnsubscribe`.
- `Stop` flushes the batch once, but a worker that still holds a candle appends it
  afterwards, and nobody empties the channel: `BatchWriter.StrandedExactly`,
  `BatchShutdown.ChannelStranded`, `BatchShutdown.StopIsSafeExactly`.
- Every live revision of a minute goes into the 24h ring
  (internal/services/aggregator/realtime_candle_aggregator.go:296), so its 1440 slots
  are 1440 updates and not 24 hours: `Stats24h.RingIsMinutesExactly`.
- `Stop` returns without waiting for the workers: `BatchShutdown.ReturnIsSafeExactly`.
- A late update opens a window again that has been completed, and the next update
  past its end completes it a second time: `LateUpdates.OnceExactly`.
- The prefix scans meet entries of other symbols when a symbol contains a colon:
  `MapKeys.ScanSelects`, `MapKeys.ColonMisleads`.
- `generateTasks` does not end for every range, and a pool without workers counts
  nothing: `Importer.TerminatesExactly`, `ImportPool.CountedExactly`.
- The trade count of a cross-exchange candle is the number of exchanges; the summed
  trade count is computed and not used.
- Kraken conversion turns plain USD pairs into USDT pairs: `Kraken.RoundTripExactly`.

## Model

| member | source | states |
|---|---|---|
| TimeWindows.CivilOf | internal/services/aggregator/interval_aggregator.go:709-757 | the calendar date of a day number is a valid date with that day number |
| TimeWindows.CivilRoundTrip | internal/services/aggregator/interval_aggregator.go:709-757 | every valid date from 1970 on is recovered from its day number |
| TimeWindows.MonthsInClosedForm | internal/services/aggregator/interval_aggregator.go:709-757 | the months of the calendar start where the closed formula of the Gregorian calendar puts them |
| TimeWindows.OpenTimeIsFloor | internal/services/aggregator/interval_aggregator.go:709-753 | for the 13 fixed-length intervals, truncation by calendar fields equals floor arithmetic from 1970, or from Monday 1970-01-05 for weeks |
| TimeWindows.WindowsPartitionTime | internal/services/aggregator/interval_aggregator.go:709-797 | a time lies in its window, a window contains exactly the times whose window it is, and window starts are monotone |
| TimeWindows.OpenTimeIdempotent | internal/services/aggregator/interval_aggregator.go:709-760 | a window start is its own window start, months included |
| TimeWindows.StartsApart | internal/services/aggregator/interval_aggregator.go:709-797 | different windows of a fixed-length interval start at least one length apart |
| TimeWindows.MonthWindow | internal/services/aggregator/interval_aggregator.go:754-793 | a month window starts on the first of the month, and its 30 days contain the time exactly when the day of month is at most 30 |
| TimeWindows.MonthStartsOrdered | internal/services/aggregator/interval_aggregator.go:754-756 | month starts are monotone |
| TimeWindows.InOwnWindowExactly | internal/services/aggregator/interval_aggregator.go:709-797 | for all 14 intervals, a time lies in its own window exactly unless the interval is 1M and the day is 31 |
| TimeWindows.OpenTimeNotAfter | internal/services/aggregator/interval_aggregator.go:709-760 | no window starts after its times, and for any other interval name every time is its own window start |
| TimeWindows.IntervalList | internal/services/aggregator/interval_aggregator.go:72 | the 14 intervals visited are all the named ones but 1s and 1m, each once |
| TimeWindows.NestedWindow | internal/services/aggregator/interval_aggregator.go:709-797 | for nesting intervals the fine window of a time lies inside its coarse window |
| TimeWindows.NestedTogether | internal/services/aggregator/interval_aggregator.go:709-797 | times that share a fine window share the coarse one |
| TimeWindows.NestingPairs | internal/services/aggregator/interval_aggregator.go:709-797 | 5m, 15m, 1h, 4h and 1d nest in turn, 1d nests in 1w and 3d; 3m does not nest in 5m, nor 3d in 1w |
| TimeWindows.TruncationsCompared | internal/models/candle.go:68-111 | the two truncations agree for all times on every fixed-length interval except 3d, and on 3d for no time |
| TimeWindows.TruncatesToMultiple | internal/models/candle.go:108-111 | truncation goes back to the last multiple of the length counted from year 1, for every interval |
| MapKeys.LengthsAsNamed | internal/models/candle.go:68-105 | both duration tables give every named interval the length its name says, a month 30 days and an unknown name a minute |
| Folding.InsertionSort | internal/services/aggregator/interval_aggregator.go:222-230 | the in-place loop leaves the insertion-sorted sequence in the slice |
| Folding.InsertionSortSorts | internal/services/aggregator/interval_aggregator.go:222-230 | that sequence is ordered and a permutation of the input |
| Folding.SortedMinuteKeys | internal/services/aggregator/interval_aggregator.go:215-230 | the sorted keys are the unique increasing order of the map's keys, for every iteration order |
| Folding.IncreasingIsUnique | internal/services/aggregator/interval_aggregator.go:222-230 | an increasing sequence is determined by its elements |
| Folding.BuildBar | internal/services/aggregator/interval_aggregator.go:321-353 | sort and fold give the streaming fold in time order, for every iteration order of the map |
| Folding.BatchBarSummarises | internal/services/aggregator/interval_aggregator.go:605-627 | the batch loop yields first open, highest high, lowest low, last close and summed volumes and trades |
| Folding.StreamLow | internal/services/aggregator/interval_aggregator.go:423-466 | the streaming loop differs from the batch loop in the low alone, and there only when the minimum is zero and the last low is not |
| Folding.StreamBarExactly | internal/services/aggregator/interval_aggregator.go:232-253 | the streaming loop yields that summary, and equals the batch loop, exactly when no low is zero, some low is negative, or the last low is zero |
| Folding.ZeroLowIsLost | internal/services/aggregator/interval_aggregator.go:345-347 | candles with lows 0 and 5: the streaming loop reports the low 5 |
| Folding.BatchBarConcat | internal/services/aggregator/interval_aggregator.go:605-627 | the bar of a concatenation is the join of the bars |
| Streams.RunExists | internal/services/aggregator/interval_aggregator.go:276-310 | every sequence of updates has a run, so that the results about runs are about something |
| Streams.StreamedReports | internal/services/aggregator/interval_aggregator.go:321-364 | the candle built for a window has its symbol, interval, open time and close time, the open of its first minute, the close of its last, the highest high, the summed volumes and trades, and the lowest low exactly when the lows are sound |
| Streams.RunsAreWellFiled | internal/services/aggregator/interval_aggregator.go:276-408 | in every run, in or out of order, each window is nonempty and holds only updates of the run, under their own minute and window |
| InOrderRuns.InOrderRunState | internal/services/aggregator/interval_aggregator.go:276-408 | after an in-order run, the completed windows are exactly those that ended by the last update, each once, and the building ones exactly those that end later, all with the last revision of every minute |
| InOrderRuns.LastRevisionIsLast | internal/services/aggregator/interval_aggregator.go:409-412 | the last revisions are the last update of every minute, and no others |
| InOrderRuns.AtMostOneBuilding | internal/services/aggregator/interval_aggregator.go:276-310 | an in-order run leaves exactly the window of its last update building |
| InOrderRuns.CompletedInOrder | internal/services/aggregator/interval_aggregator.go:288-377 | an in-order run completes windows in increasing order |
| InOrderRuns.CompletionExactly | internal/services/aggregator/interval_aggregator.go:288-377 | for all intervals, completed windows are at all times the ended ones if and only if every candle lies in its own window |
| InOrderRuns.DayThirtyOneBreaks | internal/services/aggregator/interval_aggregator.go:754-793 | one candle of 1970-01-31 breaks it for 1M |
| InOrderRuns.BuildingEndsLater | internal/services/aggregator/interval_aggregator.go:276-310 | after any run every building window ends after the last update if and only if that update lies in its own window |
| HistoricalBatch.FoldGroup | internal/services/aggregator/interval_aggregator.go:605-627 | the loop over a group computes the batch bar |
| HistoricalBatch.GroupRows | internal/services/aggregator/interval_aggregator.go:587-593 | the groups are the rows of each window in the order given, and no others |
| HistoricalBatch.Group1mCandlesByInterval | internal/services/aggregator/interval_aggregator.go:578-650 | one closed candle per window that has rows, in any order of the windows, with the symbol and open of the window's first row, the close of its last, the highest high, the lowest low, the summed volumes and trades of all its rows, and the window's open and close time |
| HistoricalBatch.BatchReports | internal/services/aggregator/interval_aggregator.go:632-646 | that description, of any result with one batch candle per window |
| HistoricalBatch.GroupOfRows | internal/services/aggregator/interval_aggregator.go:587-593 | the group of a window in time-ordered rows is the time order of the window's minutes |
| HistoricalBatch.StreamingEqualsBatch | internal/services/aggregator/interval_aggregator.go:276-408 | the candles an in-order run emits are exactly those the batch routine builds from the last revision of every minute in windows ended by the last update, if and only if the last revisions of no such window have their lows spoiled by the unset-low rule; each window once, and in increasing order |
| HistoricalBatch.LowsFromRevisions | internal/services/aggregator/interval_aggregator.go:345-347 | whether the completed windows have sound lows is decided by the last revisions and the last time alone |
| HistoricalBatch.NonzeroLowsSuffice | internal/services/aggregator/interval_aggregator.go:345-347 | without a low of zero no window's lows are spoiled, in any run |
| OutsideWindows.EmissionExactly | internal/services/aggregator/interval_aggregator.go:276-408 | for every interval, 1M included, and every in-order run: the emitted candles equal the batch at every point, each window once, if and only if the revisions of no window ended by the last update have spoiled lows and no candle falls outside its own window, except possibly a last one that its window does not notice (in range, same close, no volume or trades) |
| OutsideWindows.DayThirtyOneDiffers | internal/services/aggregator/interval_aggregator.go:754-793 | one 1M candle of 1970-01-31 makes stream and batch differ |
| OutsideWindows.OutsideExactly | internal/services/aggregator/interval_aggregator.go:288-377 | after the first candle outside its window, the windows completed are the ended ones without it, and they equal the batch exactly when it is unnoticed and their lows are sound |
| MergedBars.StreamLowConcat | internal/services/aggregator/interval_aggregator.go:337-350 | the streaming low of two parts: the second decides alone after a zero, or when it reaches zero or below after positive lows, else the lower of the two |
| MergedBars.MergeExactly | internal/services/aggregator/interval_aggregator.go:337-350 | the streaming fold of consecutive groups equals the merge of their bars in every field but the low, and in the low if and only if some low is negative, or none is zero, or the last group with a zero low has itself a zero low only as the last group and no earlier group has a low below those from it on |
| MergedBars.ZeroThenFive | internal/services/aggregator/interval_aggregator.go:345-347 | two groups with the single lows 0 and 5: the whole has the low 5, the merge the low 0 |
| Nesting.MergeIsWhole | internal/services/aggregator/interval_aggregator.go:313-377 | windows that partition a set of minutes merge into the bar of the whole: in every field but the low always, in the low exactly under the condition of `MergedBars.MergeExactly`, and always when the lows of the whole are sound |
| Nesting.NestedTimeframesAgree | internal/services/aggregator/interval_aggregator.go:276-377 | each completed coarse candle of an in-order run is the ordered merge of the completed fine candles inside it, at least one: first open, last close, highest high, summed volumes always, and lowest low if and only if the lows of the fine windows merge |
| Nesting.NestedLowsDiffer | internal/services/aggregator/interval_aggregator.go:276-377 | three updates after which, in every run, the 15m candle has the low 5 and the 5m candles inside it merge to the low 0 |
| Conservation.EveryUpdateHasItsFate | internal/services/aggregator/interval_aggregator.go:288-408 | in every run and on every interval, each update is exactly one of held, superseded by a later revision, or folded into exactly one completed window, as determined by the arrivals after it |
| Conservation.VolumeIsConserved | internal/services/aggregator/interval_aggregator.go:288-408 | completed volume plus building volume is the volume of the updates not superseded, whatever the order of arrival |
| LateUpdates.CompletedTwiceExactly | internal/services/aggregator/interval_aggregator.go:276-377 | for arbitrary arrivals, a window has been completed exactly when an update filled it and a later one came at or after its end, and more than once exactly when updates filled it, ended it, filled it again and ended it again, in that order |
| LateUpdates.OnceExactly | internal/services/aggregator/interval_aggregator.go:276-377 | for arbitrary arrivals, every window is completed at most once exactly when no window goes through that |
| LateUpdates.LateMinuteRepeats | internal/services/aggregator/interval_aggregator.go:276-377 | updates at minutes 0, 5, 1 and 10 complete the first 5m window twice |
| IntervalAggregator.CloseView | internal/services/aggregator/interval_aggregator.go:288-310 | removing expired entries from the flat map closes exactly the expired windows of one symbol and interval and touches no other |
| IntervalAggregator.UpsertView | internal/services/aggregator/interval_aggregator.go:382-408 | storing an update in the flat map stores it in its window of one symbol and interval and touches no other |
| IntervalAggregator.Aggregator.CompleteIntervalNow | internal/services/aggregator/interval_aggregator.go:313-377 | the entry is removed, its window recorded as completed, and the candle published, and stored as last completed under the interval of the scan, is closed and reports the minutes of the window: first open, last close, highest high, lowest low when the lows are sound, sums |
| IntervalAggregator.Aggregator.CloseExpiredIntervals | internal/services/aggregator/interval_aggregator.go:288-310 | for all symbols, exactly the nonempty expired entries that the scans meet are removed; when the scans meet their own entries only, every derived interval of the symbol completes exactly its expired windows and no other symbol or interval changes |
| IntervalAggregator.Aggregator.UpdateIntervalCandle | internal/services/aggregator/interval_aggregator.go:382-491 | the update is stored in its window and the published candle, not closed, reports the minutes of that window in the same sense |
| IntervalAggregator.Aggregator.Process1mCandle | internal/services/aggregator/interval_aggregator.go:276-285 | for all symbols, the entries hit by the scans are removed and the candle is stored on every derived interval; unless a symbol received misleads the scans, every derived interval of the symbol takes one step of its state machine and nothing else changes, so that all intervals stay states their histories lead to |
| IntervalAggregator.Aggregator.GetLastCompletedCandle | internal/services/aggregator/interval_aggregator.go:103-148 | the candle of the last completed window if there is one in memory, else the database row, which is kept |
| IntervalAggregator.LatestBuilding | internal/services/aggregator/interval_aggregator.go:160-177 | for all symbols and every scan order, the scan finds a candle that reports the minutes of an entry it meets with the latest open time, if it meets any with data |
| IntervalAggregator.Aggregator.GetLatestCandle | internal/services/aggregator/interval_aggregator.go:155-200 | that candle, or the last completed one when no entry is met; unless a symbol received misleads the scan, the building window of the symbol and interval with the latest open time |
| IntervalAggregator.MetIsLatest | internal/services/aggregator/interval_aggregator.go:160-177 | when the scan meets its own entries only, the latest entry met is the latest building window of the symbol and interval |
| IntervalAggregator.BuildCandle | internal/services/aggregator/interval_aggregator.go:203-273 | the candle of a map entry reports its minutes in time order: first open, last close, highest high, lowest low when the lows are sound, sums, and the times of the window |
| MapKeys.ScanMeetsExactly | internal/services/aggregator/interval_aggregator.go:290-295 | for all symbols, exactly which entries a prefix meets: those with that prefix, and those whose symbol followed by a colon begins with it |
| MapKeys.ScanSelects | internal/services/aggregator/interval_aggregator.go:290-295 | for all symbols, the scan meets an entry exactly when it has the symbol and interval looked for, or its symbol followed by a colon begins with the prefix, which no symbol without a colon does |
| MapKeys.KeysDiffer | internal/services/aggregator/interval_aggregator.go:388 | for all symbols, two keys are equal exactly when symbol, interval and open time are |
| MapKeys.DecimalInjective | internal/services/aggregator/interval_aggregator.go:388 | different open times are printed differently |
| MapKeys.NumberOfDigits | internal/services/aggregator/interval_aggregator.go:388 | the digits printed for a number stand for it |
| MapKeys.ColonMisleads | internal/services/aggregator/interval_aggregator.go:290-295 | a symbol with a colon is met by the scan of another symbol |
| IntervalAggregator.KeyStringsDiffer | internal/services/aggregator/interval_aggregator.go:388 | entries of derived intervals have the same string only when they are the same |
| IntervalAggregator.ScanIsExact | internal/services/aggregator/interval_aggregator.go:290-295 | the scan of a symbol and interval meets exactly its own entries, among all that given symbols can have, if and only if none of them misleads it |
| IntervalAggregator.ColonFreeNotMisled | internal/services/aggregator/interval_aggregator.go:290-295 | symbols without colons mislead no scan of a derived interval |
| Agreement.AggregatorEqualsBatch | internal/services/aggregator/interval_aggregator.go:276-408 | streaming equals batch, stated of the object after any calls whose scans were not misled |
| Agreement.AggregatorConserves | internal/services/aggregator/interval_aggregator.go:288-408 | fates and volume conservation, stated of the object after any calls whose scans were not misled |
| Agreement.AggregatorBuilds | internal/services/aggregator/interval_aggregator.go:276-310 | building windows of the object are nonempty, hold their own minutes and end after the last update; exactly one for in-order updates |
| RealtimeAggregator.RoundDivNearest | internal/services/aggregator/realtime_candle_aggregator.go:262-265 | the quotient is at most half a unit off, and half a unit only away from zero |
| RealtimeAggregator.AggregateLiveCandle | internal/services/aggregator/realtime_candle_aggregator.go:211-286 | rounded mean open and close, highest high, lowest low and exact volume sums of the entries with an open or a close, whose number is the trade count; nothing when there are none; the data of the exchange itself when there is one |
| RealtimeAggregator.AggregateExists | internal/services/aggregator/realtime_candle_aggregator.go:223-226 | an aggregate exists exactly when some exchange has an open or a close |
| RealtimeAggregator.SingleExchange | internal/services/aggregator/realtime_candle_aggregator.go:211-286 | with a single such exchange the aggregate repeats its open, high, low, close, volumes and closed flag |
| RealtimeAggregator.AggregateIsUnique | internal/services/aggregator/realtime_candle_aggregator.go:211-286 | the aggregate does not depend on the iteration order |
| RealtimeAggregator.AggregateKeepsShape | internal/services/aggregator/realtime_candle_aggregator.go:211-286 | if every usable entry has open and close between low and high, so has the aggregate, despite rounding |
| RealtimeAggregator.DataSinceIsLast | internal/services/aggregator/realtime_candle_aggregator.go:166-185 | the data of a live candle is, field by field, the last update of every exchange for its symbol, interval and open time since the candle was created, and nothing else |
| RealtimeAggregator.LastClosesAreLast | internal/services/aggregator/realtime_candle_aggregator.go:327-336 | the prices of a symbol are the last close of every exchange over the whole run |
| RealtimeAggregator.SumPrices | internal/services/aggregator/realtime_candle_aggregator.go:338-346 | sum and count over the exchanges, for every iteration order |
| RealtimeAggregator.RealtimeCandleAggregator.UpdateLivePrice | internal/services/aggregator/realtime_candle_aggregator.go:327-357 | the price is the rounded mean of the prices per exchange |
| RealtimeAggregator.RealtimeCandleAggregator.ProcessCandleUpdate | internal/services/aggregator/realtime_candle_aggregator.go:152-207 | every live candle holds the from-scratch aggregate of the last update per exchange since its creation, and every price and count those of the last close per exchange; the updated candle carries the fields of the update, keeps its first close time, repeats the update when it is the only exchange, and is queued and kept as latest when closed |
| RealtimeAggregator.RealtimeCandleAggregator.RemoveLive | internal/services/aggregator/realtime_candle_aggregator.go:413-416 | a removal at any time keeps this |
| Stats24h.Symbol24hStats.Fresh | internal/services/candle/streaming_price_calculator.go:85-89 | an empty ring |
| Stats24h.Symbol24hStats.WarmUp | internal/services/candle/streaming_price_calculator.go:223-252 | up to 1440 stored candles fill the ring, with all statistics equal to a recomputation, and to those of the last 24 hours when there is one for every minute |
| Stats24h.Symbol24hStats.RecalculateHighLow | internal/services/candle/streaming_price_calculator.go:132-157 | the scan finds the highest high and lowest low of the filled slots |
| Stats24h.Symbol24hStats.ProcessCandle | internal/services/candle/streaming_price_calculator.go:79-128 | after any run the ring holds the last 1440 candles, and sums, high, low and open equal a recomputation over them; with a candle for every minute they are those of the 24 hours that end with the last minute |
| Stats24h.RingIsLastDay | internal/services/candle/streaming_price_calculator.go:87-100 | with a candle for every minute the ring holds exactly those of the last 86400 seconds, and spans them once 1440 have come |
| Stats24h.LayoutStep | internal/services/candle/streaming_price_calculator.go:95-104 | writing the next slot replaces the oldest candle of a full ring and keeps the layout |
| Stats24h.SumsStep | internal/services/candle/streaming_price_calculator.go:106-115 | subtracting the replaced and adding the new candle gives the sums over the candles then held |
| Stats24h.OpenStep | internal/services/candle/streaming_price_calculator.go:120-124 | the open is that of the oldest candle held, always after a warm start and from the 1440th candle on after a fresh one, zero before |
| Stats24h.ScanIsHeld | internal/services/candle/streaming_price_calculator.go:132-157 | extremes over the slots are extremes over the candles held |
| Stats24h.RingIsMinutesExactly | internal/services/candle/streaming_price_calculator.go:92-118 | the ring holds the last 1440 minutes, each with its last revision, if and only if no two candles held share an open time |
| Stats24h.RevisionsCountTwice | internal/services/candle/streaming_price_calculator.go:106-115 | two revisions of a minute both count in the volume |
| Subscriptions.SubscriptionTable.TrackInterval | internal/services/aggregator/exchange_aggregator.go:333-340 | the first critical section of subscribe |
| Subscriptions.SubscriptionTable.TrackStream | internal/services/aggregator/exchange_aggregator.go:343-352 | the second critical section of subscribe |
| Subscriptions.SubscriptionTable.UntrackInterval | internal/services/aggregator/exchange_aggregator.go:383-393 | the first critical section of unsubscribe, with no zero count and no empty symbol left |
| Subscriptions.SubscriptionTable.UntrackStream | internal/services/aggregator/exchange_aggregator.go:396-411 | the second critical section of unsubscribe |
| Subscriptions.StepKeepsCounts | internal/services/aggregator/exchange_aggregator.go:333-411 | every critical section of every client keeps the counts equal to numbers of clients |
| Subscriptions.CountsAreClients | internal/services/aggregator/exchange_aggregator.go:324-414 | under every interleaving a stream's count is the number of clients past its increment and not past its decrement, the key exists exactly when there is one, and likewise for interval counts and their sums |
| Subscriptions.QuiescentMapsAgree | internal/services/aggregator/exchange_aggregator.go:324-414 | when no call is half-way, a stream's count is the sum of its symbol's interval counts and the key exists exactly when that sum is positive |
| Subscriptions.UnsubscribeExactly | internal/services/aggregator/exchange_aggregator.go:375-414 | an arbitrary unsubscribe keeps the two maps in agreement exactly when the interval was subscribed or the symbol has no stream |
| Subscriptions.StrayUnsubscribe | internal/services/aggregator/exchange_aggregator.go:384-403 | a reachable state in which a stray unsubscribe removes the stream of a subscribed interval |
| BatchWriter.SharedBatch.Append | internal/services/aggregator/exchange_aggregator.go:1146-1149 | the critical section is one step of the protocol, commits the worker exactly when it reports a flush, moves the candle without loss and keeps the bound |
| BatchWriter.SharedBatch.TakeBatch | internal/services/aggregator/exchange_aggregator.go:1163-1171 | the critical section is one step of the protocol, leaves the batch in the hands of the worker that took it, loses nothing and keeps the bound |
| BatchWriter.StepMoves | internal/services/aggregator/exchange_aggregator.go:1136-1180 | every step moves candles from one place to another and loses or copies none |
| BatchWriter.StepKeepsBound | internal/services/aggregator/exchange_aggregator.go:1136-1180 | every step keeps the batch within the size less one plus the number of workers about to flush |
| BatchWriter.ExactlyOnePlace | internal/services/aggregator/exchange_aggregator.go:1136-1180 | under every interleaving each received candle is in exactly one place: channel, a goroutine's hands, current batch, or one written batch |
| BatchWriter.BatchIsBounded | internal/services/aggregator/exchange_aggregator.go:249-251 | under every interleaving and for every size N the batch is at most max(N,1) - 1 plus the workers about to flush, so at most max(N,1) + 4, and below max(N,1) when none is |
| BatchWriter.BoundIsMet | internal/services/aggregator/exchange_aggregator.go:1136-1180 | for every size some run reaches max(N,1) + 4 |
| BatchWriter.ShutdownAccounts | internal/services/aggregator/exchange_aggregator.go:284-319 | after shutdown all candles are written except those in channel and current batch |
| BatchShutdown.StopIsSafeExactly | internal/services/aggregator/exchange_aggregator.go:284-319 | in any state in which `Stop` has just begun, every way in which `Stop` and all workers can return without further arrivals has written everything if and only if the channel is empty and no worker holds a candle or the size is at most one |
| BatchShutdown.ReturnIsSafeExactly | internal/services/aggregator/exchange_aggregator.go:284-319 | in any such state, everything is sure to be written by the time `Stop` itself returns if and only if the channel is empty, no worker has candles in hand, and the current batch is empty or all workers have returned |
| BatchShutdown.ChannelStranded | internal/services/aggregator/exchange_aggregator.go:284-319 | for every size a finished run can leave a candle in the channel, unwritten |
| BatchWriter.StrandedExactly | internal/services/aggregator/exchange_aggregator.go:315 | a finished run can leave candles in the current batch exactly when the size is at least two |
| Importer.GenerateTasks | internal/importer/importer.go:202-228 | the months from start to end in order, ending with end, as many as the month distance plus one |
| Importer.TerminatesExactly | internal/importer/importer.go:208-225 | the loop meets its end exactly when end equals start, or end has a later month of the same year up to 12, or a month from 1 to 12 of a later year |
| Importer.BackwardRunsForever | internal/importer/importer.go:208-225 | from January 2024 the loop never meets December 2023 |
| Importer.EveryMonthOnce | internal/importer/importer.go:202-228 | for calendar months the list holds exactly the months from start to end, strictly increasing |
| ImportPool.AlwaysSound | internal/importer/importer.go:117-175 | under every schedule each item is in one place, counters count the collected results, channels are closed late, and steps taken plus steps left are constant |
| ImportPool.NoSendAfterClose | internal/importer/importer.go:117-158 | nothing is sent on a closed channel |
| ImportPool.NeverBlocks | internal/importer/importer.go:117-175 | a reachable state has no further step exactly when the pool has finished |
| ImportPool.RunLength | internal/importer/importer.go:117-175 | every schedule ends, and with a worker always after the same number of steps |
| ImportPool.CanAlwaysFinish | internal/importer/importer.go:117-175 | every run can be continued to the end |
| ImportPool.EveryTaskCounted | internal/importer/importer.go:155-175 | with a worker, each month is collected exactly once, and succeeded, skipped and failed add up to their number |
| ImportPool.CountedExactly | internal/importer/importer.go:117-175 | they add up under every schedule exactly when there is a worker or nothing to do |
| RateLimiter.ExchangeRateLimiter.Allow | internal/services/aggregator/rate_limiter.go:99-111 | refused during backoff, never for backoff later than five minutes after the last hit |
| RateLimiter.ExchangeRateLimiter.RecordRateLimitHit | internal/services/aggregator/rate_limiter.go:114-130 | the hit is the last one; the backoff is one second at first, then half as much again rounded down, at most five minutes; until that much later every request is refused |
| RateLimiter.HitIsFollowedByRefusal | internal/services/aggregator/rate_limiter.go:99-130 | after a hit requests are refused exactly until the new backoff, between a second and five minutes, has passed |
| RateLimiter.ExchangeRateLimiter.RecordSuccess | internal/services/aggregator/rate_limiter.go:133-152 | no backoff later than five minutes after the last hit, before that a tenth less rounded down, and none below a second |
| RateLimiter.BackoffInRange | internal/services/aggregator/rate_limiter.go:114-152 | after every run of hits and successes the backoff is zero or between one second and five minutes |
| RateLimiter.SuccessesEndBackoff | internal/services/aggregator/rate_limiter.go:133-152 | 55 successes in a row, at any times, end any backoff |
| RateLimiter.FewerDoNot | internal/services/aggregator/rate_limiter.go:133-152 | 54 successes within five minutes of the hit do not end a backoff of five minutes |
| RateLimiter.SubscriptionBatcher.Add | internal/services/aggregator/rate_limiter.go:189-209 | the pending set stays below max(1, size) between calls; a flush happens exactly when a new key fills it, and holds one request per key, and per symbol and interval for intervals without an at sign, added since the previous flush, the first of highest priority |
| RateLimiter.SubscriptionBatcher.FlushLocked | internal/services/aggregator/rate_limiter.go:212-233 | a flush holds that, and empties the set; nothing is flushed when nothing was added |
| RateLimiter.Values | internal/services/aggregator/rate_limiter.go:223-226 | the batch has each key once, for every iteration order |
| RateLimiter.HoldsAppend | internal/services/aggregator/rate_limiter.go:195-203 | replacing only on strictly higher priority keeps the first request of highest priority per key |
| RateLimiter.FirstBestIsUnique | internal/services/aggregator/rate_limiter.go:195-203 | there is one such request |
| RateLimiter.KeysByPair | internal/services/aggregator/rate_limiter.go:193 | keys are equal exactly for the same symbol and interval, for intervals without an at sign |
| RateLimiter.DedupesByPair | internal/services/aggregator/rate_limiter.go:193-209 | deduplicating by key is then deduplicating by symbol and interval |
| Kraken.PairWithSlash | internal/services/aggregator/exchange_handlers.go:43-47 | a symbol without USDT and of more than three letters is sent with a slash before its last three letters |
| Kraken.ShortAsIs | internal/services/aggregator/exchange_handlers.go:43-47 | a symbol of at most three letters is sent as it is |
| Kraken.TetherPair | internal/services/aggregator/exchange_handlers.go:43-47 | a base without USDT, followed by USDT, is sent as base/USD |
| Kraken.TetherBase | internal/services/aggregator/exchange_handlers.go:43-47 | USDT followed by three letters is sent as USD, a slash and those letters |
| Kraken.SlashIgnored | internal/services/aggregator/exchange_handlers.go:79-82 | a slash in a received symbol makes no difference |
| Kraken.Understood | internal/services/aggregator/exchange_handlers.go:79-82 | a received pair without USD is understood without its slash, and base/USD as baseUSDT |
| Kraken.RoundTripExactly | internal/services/aggregator/exchange_handlers.go:43-82 | for every string, conversion and back returns it exactly when it has no slash and each USD in it begins a USDT |
| Kraken.DollarPairBreaks | internal/services/aggregator/exchange_handlers.go:43-82 | BTCUSD does not come back |

## Left out

- Agreement.AggregatorEqualsBatch: asks that no call had its scans misled by the symbols received; `IntervalAggregator.ScanIsExact` is the exact condition for that and `IntervalAggregator.ColonFreeNotMisled` says that symbols without colons meet it.
- Agreement.AggregatorConserves: asks the same.
- Agreement.AggregatorBuilds: asks the same.
- Importer.GenerateTasks: requires a range for which the loop ends; `Importer.TerminatesExactly` says that the source loops forever on all others.
- Stats24h.Symbol24hStats.WarmUp: requires at least one stored candle, since without one the source creates no statistics; more than 1440, which the query never returns, would leave the first 1440 in the ring.
- Subscriptions.UnsubscribeExactly: requires that no zero count is stored, which `Subscriptions.CountsAreClients` establishes for every reachable state.
- Subscriptions.CountsAreClients: does not model the wrap-around of 32-bit reference counts, nor case folding of symbols.
- RealtimeAggregator.RealtimeCandleAggregator.ProcessCandleUpdate: concurrent updates of one live candle are taken one at a time.
- Concurrent calls of `Process1mCandle` for one symbol, sub-second times, times before 1970 and time zones other than UTC.
- Dropped candles when the aggregator's own batch channel is full, its single-goroutine batch writer, and the storing of the last element of a batch result as most recent, which follows map order.
- The periodic historical job, publishing, subscribers' callbacks, and the look-up of live candles by `GetLatestCandle` of the cross-exchange aggregator.
- Blocking in `Wait` and the token bucket itself.
- Downloading and parsing in the importer; the outer loop only adds up the counters of one pool per interval.
- `Get24hStats` percentages, clean-up of stale symbols, mark price, candle cache: simple arithmetic or input and output.
- WebSocket connections, proxies, message parsing, exchange interval tables, database, Redis, gRPC, metrics, dashboard and configuration.
- The symbol manager and its selection strategies: a client that subscribes and never unsubscribes.
- The pending-candle path marked as deprecated, whose map is never filled.
