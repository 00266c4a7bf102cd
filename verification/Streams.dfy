/** The life of one symbol and one derived interval inside the interval
    aggregator (internal/services/aggregator/interval_aggregator.go): the windows
    being built and the windows completed, under any sequence of 1m updates. */
module Streams {
  import opened Candles
  import opened TimeWindows
  import opened Folding

  /** A window with the 1m candles it holds, keyed by their open time. */
  datatype Window = Window(openTime: int, minutes: map<int, Arrival>)

  /** The `buildingCandles` entries of the symbol and interval, by open time,
      and the completed windows in order of completion. */
  datatype Stream = Stream(building: map<int, map<int, Arrival>>, done: seq<Window>)

  const EMPTY_STREAM := Stream(map[], [])

  function TimeOf(a: Arrival): nat { a.candle.openTime }

  function WindowOf(a: Arrival, iv: Interval): int { OpenTime(TimeOf(a), iv) }

  function CloseOf(a: Arrival, iv: Interval): int { WindowOf(a, iv) + Duration(iv) }

  /** The candle record built for a window. */
  function AggregateCandle(symbol: string, iv: Interval, o: int, b: Bar, isClosed: bool): Candle {
    Candle(symbol, iv, o, o + Duration(iv), b.open, b.high, b.low, b.close,
           b.volume, b.quoteVolume, b.tradeCount, Aggregated, isClosed)
  }

  /** The candle that `completeIntervalNow` emits for a window. */
  ghost function CompletedCandle(symbol: string, iv: Interval, w: Window): Candle {
    AggregateCandle(symbol, iv, w.openTime, StreamBar(InOrder(w.minutes)), true)
  }

  /** The candle says of the candles cs of window o what it should, but for its
      low: first open, last close, highest high, summed volumes and trades. */
  ghost predicate Reports(c: Candle, symbol: string, iv: Interval, o: int, cs: seq<Candle>, isClosed: bool)
    requires |cs| > 0
  {
    && c.symbol == symbol && c.interval == iv && c.openTime == o && c.closeTime == o + Duration(iv)
    && c.open == cs[0].open && c.close == cs[|cs| - 1].close && IsHighest(c.high, cs)
    && c.volume == Volume(cs) && c.quoteVolume == QuoteVolume(cs) && c.tradeCount == TradeCount(cs)
    && c.source == Aggregated && c.isClosed == isClosed
  }

  /** The candle of a window with the given minutes: its low is the lowest
      exactly when the lows of the minutes are sound. */
  ghost predicate ReportsWindow(c: Candle, symbol: string, iv: Interval, o: int, minutes: map<int, Arrival>,
                                isClosed: bool) {
    var cs := InOrder(minutes);
    minutes != map[] ==>
      && |cs| > 0 && Reports(c, symbol, iv, o, cs, isClosed)
      && (IsLowest(c.low, cs) <==> LowsSound(cs))
  }

  lemma StreamedReports(symbol: string, iv: Interval, o: int, minutes: map<int, Arrival>, isClosed: bool)
    ensures ReportsWindow(AggregateCandle(symbol, iv, o, StreamBar(InOrder(minutes)), isClosed),
                          symbol, iv, o, minutes, isClosed)
  {
    hide StreamBar, BatchBar, InOrder, LowsSound, Duration, IsHighest, IsLowest, Volume, QuoteVolume, TradeCount;
    if minutes != map[] {
      var cs := InOrder(minutes);
      assert |minutes.Keys| > 0;
      StreamLow(cs);
      BatchBarSummarises(cs);
      StreamBarExactly(cs);
    }
  }

  lemma CompletedReports(symbol: string, iv: Interval, w: Window)
    ensures ReportsWindow(CompletedCandle(symbol, iv, w), symbol, iv, w.openTime, w.minutes, true)
  {
    hide ReportsWindow;
    StreamedReports(symbol, iv, w.openTime, w.minutes, true);
  }

  // --------------------------------------------------------------- one step

  /** Whether a 1m candle opening at t completes window o: the test of `closeExpiredIntervals`. */
  predicate Expired(s: Stream, o: int, t: int, iv: Interval) {
    o in s.building && o + Duration(iv) <= t && s.building[o] != map[]
  }

  /** What `closeExpiredIntervals` leaves in the map. */
  function Remaining(s: Stream, t: int, iv: Interval): map<int, map<int, Arrival>> {
    map o | o in s.building && !Expired(s, o, t, iv) :: s.building[o]
  }

  /** An order in which the map iteration may meet the expired windows. */
  ghost predicate ClosingOrder(s: Stream, t: int, iv: Interval, order: seq<int>) {
    && (forall i, j :: 0 <= i < j < |order| ==> order[i] != order[j])
    && (forall i :: 0 <= i < |order| ==> Expired(s, order[i], t, iv))
    && (forall o :: Expired(s, o, t, iv) ==> o in order)
  }

  ghost function Closed(s: Stream, order: seq<int>): (ws: seq<Window>)
    requires forall i :: 0 <= i < |order| ==> order[i] in s.building
    ensures |ws| == |order|
    ensures forall i :: 0 <= i < |order| ==> ws[i] == Window(order[i], s.building[order[i]])
  {
    seq(|order|, i requires 0 <= i < |order| => Window(order[i], s.building[order[i]]))
  }

  /** `updateIntervalCandle` on the map: store the candle under its minute in its window. */
  function Upsert(b: map<int, map<int, Arrival>>, a: Arrival, iv: Interval): map<int, map<int, Arrival>> {
    var o := WindowOf(a, iv);
    b[o := (if o in b then b[o] else map[])[TimeOf(a) := a]]
  }

  /** `Process1mCandle` for one interval: close the expired windows, then upsert. */
  ghost predicate Step(s: Stream, a: Arrival, iv: Interval, s': Stream) {
    && s'.building == Upsert(Remaining(s, TimeOf(a), iv), a, iv)
    && exists order :: ClosingOrder(s, TimeOf(a), iv, order) && s'.done == s.done + Closed(s, order)
  }

  /** The states that the updates `us`, in order of arrival, can lead to. */
  ghost predicate Reaches(us: seq<MinuteCandle>, iv: Interval, s: Stream) {
    if |us| == 0 then s == EMPTY_STREAM
    else exists p :: Reaches(Init(us), iv, p) && Step(p, LastArrival(us), iv, s)
  }

  function Init<T>(us: seq<T>): seq<T>
    requires |us| > 0
  {
    us[..|us| - 1]
  }

  function Last<T>(us: seq<T>): T
    requires |us| > 0
  {
    us[|us| - 1]
  }

  function LastArrival(us: seq<MinuteCandle>): Arrival
    requires |us| > 0
  {
    Arrival(|us| - 1, Last(us))
  }

  ghost predicate OfSymbol(us: seq<MinuteCandle>, symbol: string) {
    forall i :: 0 <= i < |us| ==> us[i].symbol == symbol
  }

  lemma ClosingOrderExists(s: Stream, t: int, iv: Interval) returns (order: seq<int>)
    ensures ClosingOrder(s, t, iv, order)
  {
    var expired := set o | o in s.building && Expired(s, o, t, iv);
    order := Sorted(expired);
    SortedElements(expired);
    assert forall o :: Expired(s, o, t, iv) ==> o in expired;
  }

  /** Every state has a successor: the iteration visits the expired windows in some order. */
  lemma StepExists(s: Stream, a: Arrival, iv: Interval) returns (s': Stream)
    ensures Step(s, a, iv, s')
  {
    var order := ClosingOrderExists(s, TimeOf(a), iv);
    s' := Stream(Upsert(Remaining(s, TimeOf(a), iv), a, iv), s.done + Closed(s, order));
  }

  lemma {:induction false} RunExists(us: seq<MinuteCandle>, iv: Interval) returns (s: Stream)
    ensures Reaches(us, iv, s)
  {
    if |us| == 0 {
      s := EMPTY_STREAM;
    } else {
      var p := RunExists(Init(us), iv);
      s := StepExists(p, LastArrival(us), iv);
    }
  }

  // --------------------------------------------------------------- what every run keeps

  /** The stored candles are updates of the run, filed under their own minute and window. */
  ghost predicate Filed(minutes: map<int, Arrival>, o: int, us: seq<MinuteCandle>, iv: Interval) {
    && minutes != map[]
    && forall k :: k in minutes ==>
         && minutes[k].id < |us| && minutes[k].candle == us[minutes[k].id]
         && TimeOf(minutes[k]) == k && WindowOf(minutes[k], iv) == o
  }

  ghost predicate WellFiled(s: Stream, us: seq<MinuteCandle>, iv: Interval) {
    && (forall o :: o in s.building ==> Filed(s.building[o], o, us, iv))
    && (forall i :: 0 <= i < |s.done| ==> Filed(s.done[i].minutes, s.done[i].openTime, us, iv))
  }

  lemma FiledLater(minutes: map<int, Arrival>, o: int, us: seq<MinuteCandle>, iv: Interval)
    requires |us| > 0 && Filed(minutes, o, Init(us), iv)
    ensures Filed(minutes, o, us, iv)
  {
  }

  lemma FiledUpsert(minutes: map<int, Arrival>, us: seq<MinuteCandle>, iv: Interval)
    requires |us| > 0
    requires minutes == map[] || Filed(minutes, WindowOf(LastArrival(us), iv), us, iv)
    ensures Filed(minutes[TimeOf(LastArrival(us)) := LastArrival(us)], WindowOf(LastArrival(us), iv), us, iv)
  {
    hide OpenTime;
    var m := minutes[TimeOf(LastArrival(us)) := LastArrival(us)];
    assert TimeOf(LastArrival(us)) in m;
  }

  /** In every run, in or out of order, each window is nonempty and holds only
      updates of the run that belong to it. */
  lemma {:induction false} RunsAreWellFiled(us: seq<MinuteCandle>, iv: Interval, s: Stream)
    requires Reaches(us, iv, s)
    ensures WellFiled(s, us, iv)
  {
    if |us| > 0 {
      var a := LastArrival(us);
      var p :| Reaches(Init(us), iv, p) && Step(p, a, iv, s);
      RunsAreWellFiled(Init(us), iv, p);
      StepKeepsFiling(us, iv, p, s);
    }
  }

  lemma StepKeepsFiling(us: seq<MinuteCandle>, iv: Interval, p: Stream, s: Stream)
    requires |us| > 0 && WellFiled(p, Init(us), iv) && Step(p, LastArrival(us), iv, s)
    ensures WellFiled(s, us, iv)
  {
    hide OpenTime;
    var a := LastArrival(us);
    var r := Remaining(p, TimeOf(a), iv);
    forall o | o in p.building ensures Filed(p.building[o], o, us, iv) {
      FiledLater(p.building[o], o, us, iv);
    }
    FiledUpsert(if WindowOf(a, iv) in r then r[WindowOf(a, iv)] else map[], us, iv);
    forall o | o in s.building ensures Filed(s.building[o], o, us, iv) {
      assert o == WindowOf(a, iv) || o in r;
    }
    var order :| ClosingOrder(p, TimeOf(a), iv, order) && s.done == p.done + Closed(p, order);
    forall i | 0 <= i < |s.done| ensures Filed(s.done[i].minutes, s.done[i].openTime, us, iv) {
      if i < |p.done| {
        FiledLater(p.done[i].minutes, p.done[i].openTime, us, iv);
      }
    }
  }
}
