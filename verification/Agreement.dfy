/** The results about runs, stated of the aggregator object: whatever calls of
    `Process1mCandle` brought it into its state. */
module Agreement {
  import opened Candles
  import opened TimeWindows
  import opened Folding
  import opened Streams
  import opened InOrderRuns
  import opened HistoricalBatch
  import opened Conservation
  import opened IntervalAggregator

  /** When a symbol's updates came in time order, the candles that the object
      has completed on a fixed-length interval are those the batch routine builds
      from the last revision of every minute, each window once and in order, if
      and only if the last revisions of no ended window have spoiled lows. */
  lemma AggregatorEqualsBatch(agg: Aggregator, ch: Channel, result: seq<Candle>, opens: seq<int>)
    requires agg.Valid() && !agg.misled && FixedLength(ch.interval) && TimeOrdered(agg.HistoryOf(ch.symbol))
    requires OnePerWindow(result, opens, InOrder(LastRevision(agg.HistoryOf(ch.symbol))), ch.interval)
    ensures var us, done := agg.HistoryOf(ch.symbol), agg.View(ch).done;
            && OpensIncrease(done)
            && (SameAsBatch(Emitted(done, ch.symbol, ch.interval), result, LastTime(us)) <==>
                ClosedLowsSound(LastRevision(us), LastTime(us), ch.interval))
            && (NonzeroLows(us) ==> ClosedLowsSound(LastRevision(us), LastTime(us), ch.interval))
  {
    hide Reaches, OnePerWindow, ClosedLowsSound, NonzeroLows, SameAsBatch, Emitted, OpenTime;
    StreamingEqualsBatch(agg.HistoryOf(ch.symbol), ch.interval, agg.View(ch), ch.symbol, result, opens);
  }

  /** Whatever the order of arrival, the object neither loses nor duplicates an
      update or its volume, on any derived interval. */
  lemma AggregatorConserves(agg: Aggregator, ch: Channel, i: int)
    requires agg.Valid() && !agg.misled && Derived(ch.interval)
    ensures var us, s := agg.HistoryOf(ch.symbol), agg.View(ch);
            && CompletedVolume(s.done) + BuildingVolume(s.building) == KeptVolume(us, ch.interval, |us|)
            && (0 <= i < |us| ==> MatchesFate(s, Arrival(i, us[i]), ch.interval, FateOf(us, ch.interval, i)))
  {
    hide Reaches, CompletedVolume, BuildingVolume, KeptVolume, MatchesFate, FateOf, OpenTime;
    var us, s := agg.HistoryOf(ch.symbol), agg.View(ch);
    VolumeIsConserved(us, ch.interval, s);
    if 0 <= i < |us| {
      EveryUpdateHasItsFate(us, ch.interval, s, i);
    }
  }

  /** After an update that lies in its own window, every building window of the
      symbol is nonempty, holds only minutes of its own and ends strictly later
      than the update; in-order updates leave exactly one. */
  lemma AggregatorBuilds(agg: Aggregator, ch: Channel)
    requires agg.Valid() && !agg.misled && FixedLength(ch.interval) && |agg.HistoryOf(ch.symbol)| > 0
    ensures var us, s, iv := agg.HistoryOf(ch.symbol), agg.View(ch), ch.interval;
            && WellFiled(s, us, iv)
            && (forall o :: o in s.building ==> o + Duration(iv) > LastTime(us))
            && (TimeOrdered(us) ==> forall o :: o in s.building <==> o == OpenTime(LastTime(us), iv))
  {
    hide Reaches, WellFiled, OpenTime, Duration, TimeOrdered, InOwnWindow;
    var us, s, iv := agg.HistoryOf(ch.symbol), agg.View(ch), ch.interval;
    RunsAreWellFiled(us, iv, s);
    InOwnWindowExactly(LastTime(us), iv);
    BuildingEndsLater(us, iv, s);
    if TimeOrdered(us) {
      AtMostOneBuilding(us, iv, s);
    }
  }
}
