/** The cross-exchange aggregator of
    internal/services/aggregator/realtime_candle_aggregator.go: the last update of
    every exchange per live candle, recombined on every update, and the live
    price of every symbol. Calls are taken one at a time. */
module RealtimeAggregator {
  import opened Candles
  import opened MapSums

  // --------------------------------------------------------------- the rounded quotient

  /** `decimal.Div` by a positive count: to the nearest grid point, halves away from zero. */
  function RoundDiv(x: int, n: int): int
    requires n > 0
  {
    var size := if x < 0 then -x else x;
    var q := if 2 * (size % n) < n then size / n else size / n + 1;
    if x < 0 then -q else q
  }

  /** The quotient is nearest: at most half a unit off, and half a unit only away from zero. */
  lemma RoundDivNearest(x: int, n: int)
    requires n > 0
    ensures -n <= 2 * (n * RoundDiv(x, n) - x) <= n
    ensures x >= 0 ==> -n < 2 * (n * RoundDiv(x, n) - x)
    ensures x <= 0 ==> 2 * (n * RoundDiv(x, n) - x) < n
  {
    var size := if x < 0 then -x else x;
    var q := if 2 * (size % n) < n then size / n else size / n + 1;
    RoundedSize(size, n, q);
    if x < 0 {
      TimesNegated(n, q);
    }
  }

  lemma RoundedSize(size: nat, n: int, q: int)
    requires n > 0 && q == if 2 * (size % n) < n then size / n else size / n + 1
    ensures -n < 2 * (n * q - size) <= n
    ensures size == 0 ==> q == 0
  {
    var k := size / n;
    TimesNext(n, k);
    assert size == n * k + size % n;
  }

  lemma TimesNegated(n: int, q: int)
    ensures n * -q == -(n * q)
  {
  }

  /** A mean of values between lo and hi rounds to a value between lo and hi. */
  lemma RoundDivBetween(x: int, n: int, lo: int, hi: int)
    requires n > 0 && lo * n <= x <= hi * n
    ensures lo <= RoundDiv(x, n) <= hi
  {
    hide RoundDiv;
    RoundDivNearest(x, n);
    GridOrder(RoundDiv(x, n), lo, n);
    GridOrder(hi, RoundDiv(x, n), n);
  }

  // --------------------------------------------------------------- the aggregate of a live candle

  datatype ExchangeData = ExchangeData(
    open: int, high: int, low: int, close: int, volume: int, quoteVolume: int, tradeCount: int, isClosed: bool)

  datatype Exchange = Exchange(name: string)

  type PerExchange = map<Exchange, ExchangeData>

  function DataOf(c: Candle): ExchangeData {
    ExchangeData(c.open, c.high, c.low, c.close, c.volume, c.quoteVolume, c.tradeCount, c.isClosed)
  }

  /** The data of an exchange are the fields of its candle. */
  ghost predicate Carries(d: ExchangeData, c: Candle) {
    && d.open == c.open && d.high == c.high && d.low == c.low && d.close == c.close
    && d.volume == c.volume && d.quoteVolume == c.quoteVolume && d.tradeCount == c.tradeCount
    && d.isClosed == c.isClosed
  }

  /** Data with neither an open nor a close is skipped. */
  predicate IsUsable(d: ExchangeData) {
    !(d.open == 0 && d.close == 0)
  }

  function Usable(m: PerExchange): PerExchange {
    map e | e in m && IsUsable(m[e]) :: m[e]
  }

  function Opens(m: PerExchange): map<Exchange, int> { map e | e in m :: m[e].open }

  function Closes(m: PerExchange): map<Exchange, int> { map e | e in m :: m[e].close }

  function Volumes(m: PerExchange): map<Exchange, int> { map e | e in m :: m[e].volume }

  function QuoteVolumes(m: PerExchange): map<Exchange, int> { map e | e in m :: m[e].quoteVolume }

  ghost predicate HighestOf(x: int, m: PerExchange) {
    (forall e :: e in m ==> m[e].high <= x) && (exists e :: e in m && m[e].high == x)
  }

  ghost predicate LowestOf(x: int, m: PerExchange) {
    (forall e :: e in m ==> x <= m[e].low) && (exists e :: e in m && m[e].low == x)
  }

  ghost predicate AnyClosed(m: PerExchange) {
    exists e :: e in m && m[e].isClosed
  }

  datatype LiveKey = LiveKey(symbol: string, interval: Interval, openTime: int)

  datatype LiveCandle = LiveCandle(
    key: LiveKey, closeTime: int, exchangeData: PerExchange, aggregated: Option<Candle>, isClosed: bool)

  /** What the aggregate of usable entries m is, without reference to an order:
      mean open and close, highest high, lowest low, summed volumes, and the
      number of exchanges as the trade count. */
  ghost predicate Combines(live: LiveCandle, m: PerExchange, c: Candle)
    requires |m| > 0
  {
    && c.symbol == live.key.symbol && c.interval == live.key.interval
    && c.openTime == live.key.openTime && c.closeTime == live.closeTime
    && c.open == RoundDiv(SumOver(Opens(m)), |m|) && c.close == RoundDiv(SumOver(Closes(m)), |m|)
    && HighestOf(c.high, m) && LowestOf(c.low, m)
    && c.volume == SumOver(Volumes(m)) && c.quoteVolume == SumOver(QuoteVolumes(m))
    && c.tradeCount == |m| && c.source == Aggregated
    && (c.isClosed <==> AnyClosed(m))
  }

  /** The result of `aggregateLiveCandle`: nothing when no entry is usable. */
  ghost predicate IsAggregate(live: LiveCandle, r: Option<Candle>) {
    var m := Usable(live.exchangeData);
    if m == map[] then r == None else r.Some? && Combines(live, m, r.value)
  }

  /** The aggregate does not depend on the map's iteration order. */
  lemma AggregateIsUnique(live: LiveCandle, r: Option<Candle>, r': Option<Candle>)
    requires IsAggregate(live, r) && IsAggregate(live, r')
    ensures r == r'
  {
    hide RoundDiv;
    var m := Usable(live.exchangeData);
    if m != map[] {
      var h :| h in m && m[h].high == r.value.high;
      var h' :| h' in m && m[h'].high == r'.value.high;
      var l :| l in m && m[l].low == r.value.low;
      var l' :| l' in m && m[l'].low == r'.value.low;
    }
  }

  /** The exchanges whose data have an open or a close. */
  ghost function Reporting(data: PerExchange): set<Exchange> {
    set e | e in data && (data[e].open != 0 || data[e].close != 0)
  }

  /** There is an aggregate exactly when some exchange reports an open or a close,
      and its trade count is the number of those that do. */
  lemma AggregateExists(live: LiveCandle, r: Option<Candle>)
    requires IsAggregate(live, r)
    ensures r.None? <==> forall e :: e in live.exchangeData ==>
              live.exchangeData[e].open == 0 && live.exchangeData[e].close == 0
    ensures r.Some? ==> r.value.tradeCount == |Reporting(live.exchangeData)|
  {
    hide RoundDiv, SumOver, HighestOf, LowestOf;
    var m := Usable(live.exchangeData);
    assert m.Keys == Reporting(live.exchangeData);
    if m != map[] {
      var e := Pick(m.Keys);
      assert e in live.exchangeData;
    } else {
      forall e | e in live.exchangeData ensures live.exchangeData[e].open == 0 && live.exchangeData[e].close == 0 {
        assert e !in m;
      }
    }
  }

  /** The aggregate candle repeats the candle of one exchange. */
  ghost predicate Mirrors(agg: Candle, d: ExchangeData, key: LiveKey, closeTime: int) {
    && agg.symbol == key.symbol && agg.interval == key.interval
    && agg.openTime == key.openTime && agg.closeTime == closeTime
    && agg.open == d.open && agg.high == d.high && agg.low == d.low && agg.close == d.close
    && agg.volume == d.volume && agg.quoteVolume == d.quoteVolume && agg.tradeCount == 1
    && agg.isClosed == d.isClosed && agg.source == Aggregated
  }

  lemma SumOfOne<K>(m: map<K, int>, k: K)
    requires m.Keys == {k}
    ensures SumOver(m) == m[k]
  {
    SumWithout(m, k);
    assert m - {k} == map[];
  }

  lemma OverOne(x: int)
    ensures RoundDiv(x, 1) == x
  {
    hide RoundDiv;
    RoundDivNearest(x, 1);
  }

  /** With a single exchange that reports, the aggregate repeats its data. */
  lemma SingleExchange(live: LiveCandle, e: Exchange, r: Option<Candle>)
    requires IsAggregate(live, r) && Reporting(live.exchangeData) == {e}
    ensures e in live.exchangeData && r.Some? && Mirrors(r.value, live.exchangeData[e], live.key, live.closeTime)
  {
    hide RoundDiv, SumOver;
    var m := Usable(live.exchangeData);
    assert e in Reporting(live.exchangeData);
    assert m.Keys == {e} && |m| == 1;
    ColumnKeys(m);
    SumOfOne(Opens(m), e);
    SumOfOne(Closes(m), e);
    SumOfOne(Volumes(m), e);
    SumOfOne(QuoteVolumes(m), e);
    OverOne(m[e].open);
    OverOne(m[e].close);
  }

  predicate WellShaped(open: int, high: int, low: int, close: int) {
    low <= open <= high && low <= close <= high
  }

  /** If every usable entry has its open and close between its low and high,
      so does the aggregate, although open and close are rounded quotients. */
  lemma AggregateKeepsShape(live: LiveCandle, r: Option<Candle>)
    requires IsAggregate(live, r) && r.Some?
    requires forall e :: e in live.exchangeData && IsUsable(live.exchangeData[e]) ==>
      var d := live.exchangeData[e]; WellShaped(d.open, d.high, d.low, d.close)
    ensures WellShaped(r.value.open, r.value.high, r.value.low, r.value.close)
  {
    hide RoundDiv;
    var m, c := Usable(live.exchangeData), r.value;
    SumBounds(Opens(m), c.low, c.high);
    SumBounds(Closes(m), c.low, c.high);
    assert Opens(m).Keys == m.Keys && Closes(m).Keys == m.Keys;
    RoundDivBetween(SumOver(Opens(m)), |m|, c.low, c.high);
    RoundDivBetween(SumOver(Closes(m)), |m|, c.low, c.high);
  }

  // --------------------------------------------------------------- the aggregation loop

  datatype Acc = Acc(count: int, totalOpen: int, totalClose: int, totalVolume: int, totalQuoteVolume: int,
                     maxHigh: int, minLow: int, anyClosed: bool)

  /** The accumulators describe the usable entries seen so far. */
  ghost predicate Accumulates(acc: Acc, m: PerExchange) {
    && acc.count == |m|
    && acc.totalOpen == SumOver(Opens(m)) && acc.totalClose == SumOver(Closes(m))
    && acc.totalVolume == SumOver(Volumes(m)) && acc.totalQuoteVolume == SumOver(QuoteVolumes(m))
    && (m != map[] ==> HighestOf(acc.maxHigh, m) && LowestOf(acc.minLow, m))
    && (acc.anyClosed <==> AnyClosed(m))
  }

  function Accumulate(acc: Acc, d: ExchangeData): Acc {
    Acc(acc.count + 1, acc.totalOpen + d.open, acc.totalClose + d.close,
        acc.totalVolume + d.volume, acc.totalQuoteVolume + d.quoteVolume,
        if acc.count == 0 || d.high > acc.maxHigh then d.high else acc.maxHigh,
        if acc.count == 0 || d.low < acc.minLow then d.low else acc.minLow,
        acc.anyClosed || d.isClosed)
  }

  lemma AccumulateSums(m: PerExchange, e: Exchange, d: ExchangeData)
    requires e !in m
    ensures SumOver(Opens(m[e := d])) == SumOver(Opens(m)) + d.open
    ensures SumOver(Closes(m[e := d])) == SumOver(Closes(m)) + d.close
    ensures SumOver(Volumes(m[e := d])) == SumOver(Volumes(m)) + d.volume
    ensures SumOver(QuoteVolumes(m[e := d])) == SumOver(QuoteVolumes(m)) + d.quoteVolume
  {
    hide SumOver, Opens, Closes, Volumes, QuoteVolumes;
    ColumnKeys(m);
    SumUpdate(Opens(m), e, d.open);
    SumUpdate(Closes(m), e, d.close);
    SumUpdate(Volumes(m), e, d.volume);
    SumUpdate(QuoteVolumes(m), e, d.quoteVolume);
    ColumnsUpdate(m, e, d);
  }

  lemma ColumnKeys(m: PerExchange)
    ensures Opens(m).Keys == Closes(m).Keys == Volumes(m).Keys == QuoteVolumes(m).Keys == m.Keys
  {
  }

  lemma ColumnsUpdate(m: PerExchange, e: Exchange, d: ExchangeData)
    ensures Opens(m[e := d]) == Opens(m)[e := d.open]
    ensures Closes(m[e := d]) == Closes(m)[e := d.close]
    ensures Volumes(m[e := d]) == Volumes(m)[e := d.volume]
    ensures QuoteVolumes(m[e := d]) == QuoteVolumes(m)[e := d.quoteVolume]
  {
  }

  lemma AccumulateExtremes(acc: Acc, m: PerExchange, e: Exchange, d: ExchangeData)
    requires e !in m && acc.count == |m| && (m != map[] ==> HighestOf(acc.maxHigh, m) && LowestOf(acc.minLow, m))
    ensures HighestOf(Accumulate(acc, d).maxHigh, m[e := d])
    ensures LowestOf(Accumulate(acc, d).minLow, m[e := d])
  {
    var m' := m[e := d];
    assert e in m' && m'[e] == d;
    if m != map[] {
      var h :| h in m && m[h].high == acc.maxHigh;
      var l :| l in m && m[l].low == acc.minLow;
      assert h in m' && l in m' && m'[h].high == acc.maxHigh && m'[l].low == acc.minLow;
    }
  }

  lemma AccumulateFlags(m: PerExchange, e: Exchange, d: ExchangeData)
    requires e !in m
    ensures AnyClosed(m[e := d]) <==> AnyClosed(m) || d.isClosed
    ensures |m[e := d]| == |m| + 1
  {
    var m' := m[e := d];
    assert m'.Keys == m.Keys + {e};
    assert e in m' && m'[e] == d;
    if AnyClosed(m) {
      var x :| x in m && m[x].isClosed;
      assert x in m' && m'[x].isClosed;
    }
  }

  lemma AccumulateStep(acc: Acc, m: PerExchange, e: Exchange, d: ExchangeData)
    requires e !in m && Accumulates(acc, m)
    ensures Accumulates(Accumulate(acc, d), m[e := d])
  {
    hide SumOver, HighestOf, LowestOf, AnyClosed, Opens, Closes, Volumes, QuoteVolumes;
    AccumulateSums(m, e, d);
    AccumulateExtremes(acc, m, e, d);
    AccumulateFlags(m, e, d);
  }

  /** The usable entries that a partial iteration has met. */
  function Seen(data: PerExchange, todo: set<Exchange>): PerExchange {
    map e | e in data && e !in todo && IsUsable(data[e]) :: data[e]
  }

  lemma SeenStep(data: PerExchange, todo: set<Exchange>, e: Exchange)
    requires e in todo && e in data
    ensures e !in Seen(data, todo)
    ensures Seen(data, todo - {e}) == if IsUsable(data[e]) then Seen(data, todo)[e := data[e]] else Seen(data, todo)
  {
  }

  lemma SeenAll(data: PerExchange)
    ensures Seen(data, data.Keys) == map[] && Seen(data, {}) == Usable(data)
  {
  }

  /** The loop of `aggregateLiveCandle`. */
  method AccumulateAll(data: PerExchange) returns (acc: Acc)
    ensures Accumulates(acc, Usable(data))
  {
    hide Accumulates, Seen, Usable, Accumulate, IsUsable;
    acc := Acc(0, 0, 0, 0, 0, 0, 0, false);
    SeenAll(data);
    NothingAccumulated(acc, Seen(data, data.Keys));
    var todo := data.Keys;
    while todo != {}
      invariant todo <= data.Keys
      invariant Accumulates(acc, Seen(data, todo))
      decreases |todo|
    {
      var e := NextKey(todo);
      SeenStep(data, todo, e);
      if IsUsable(data[e]) {
        AccumulateStep(acc, Seen(data, todo), e, data[e]);
        acc := Accumulate(acc, data[e]);
      }
      todo := todo - {e};
    }
  }

  /** `aggregateLiveCandle` */
  method AggregateLiveCandle(live: LiveCandle) returns (r: Option<Candle>)
    ensures IsAggregate(live, r)
    ensures r.None? <==> forall e :: e in live.exchangeData ==>
              live.exchangeData[e].open == 0 && live.exchangeData[e].close == 0
    ensures r.Some? ==> r.value.tradeCount == |Reporting(live.exchangeData)|
    ensures forall e :: Reporting(live.exchangeData) == {e} ==>
              e in live.exchangeData && r.Some? && Mirrors(r.value, live.exchangeData[e], live.key, live.closeTime)
  {
    hide SumOver, HighestOf, LowestOf, AnyClosed, Usable, Opens, Closes, Volumes, QuoteVolumes, RoundDiv;
    var acc := AccumulateAll(live.exchangeData);
    if acc.count == 0 {
      r := None;
    } else {
      r := Some(Candle(live.key.symbol, live.key.interval, live.key.openTime, live.closeTime,
                       RoundDiv(acc.totalOpen, acc.count), acc.maxHigh, acc.minLow, RoundDiv(acc.totalClose, acc.count),
                       acc.totalVolume, acc.totalQuoteVolume, acc.count, Aggregated, acc.anyClosed));
    }
    AggregateReports(live, r);
  }

  lemma AggregateReports(live: LiveCandle, r: Option<Candle>)
    requires IsAggregate(live, r)
    ensures r.None? <==> forall e :: e in live.exchangeData ==>
              live.exchangeData[e].open == 0 && live.exchangeData[e].close == 0
    ensures r.Some? ==> r.value.tradeCount == |Reporting(live.exchangeData)|
    ensures forall e :: Reporting(live.exchangeData) == {e} ==>
              e in live.exchangeData && r.Some? && Mirrors(r.value, live.exchangeData[e], live.key, live.closeTime)
  {
    hide IsAggregate, Reporting, Mirrors;
    AggregateExists(live, r);
    forall e | Reporting(live.exchangeData) == {e}
      ensures e in live.exchangeData && r.Some? && Mirrors(r.value, live.exchangeData[e], live.key, live.closeTime)
    {
      SingleExchange(live, e, r);
    }
  }

  lemma NothingAccumulated(acc: Acc, m: PerExchange)
    requires m == map[] && acc.count == 0 && !acc.anyClosed
    requires acc.totalOpen == 0 && acc.totalClose == 0 && acc.totalVolume == 0 && acc.totalQuoteVolume == 0
    ensures Accumulates(acc, m)
  {
    ColumnKeys(m);
    assert Opens(m) == map[] && Closes(m) == map[] && Volumes(m) == map[] && QuoteVolumes(m) == map[];
  }

  // --------------------------------------------------------------- runs

  /** What happens to the aggregator: an update from an exchange, or the
      delayed removal of a live candle, which may come at any time. */
  datatype Event = Update(exchange: Exchange, candle: Candle) | Removal(key: LiveKey)

  function KeyOf(c: Candle): LiveKey { LiveKey(c.symbol, c.interval, c.openTime) }

  /** The updates of one live candle since it was last created, by exchange. */
  function DataSince(events: seq<Event>, key: LiveKey): PerExchange {
    if |events| == 0 then map[]
    else
      var before := DataSince(events[..|events| - 1], key);
      match events[|events| - 1]
      case Update(e, c) => if KeyOf(c) == key then before[e := DataOf(c)] else before
      case Removal(k) => if k == key then map[] else before
  }

  /** The close time of a live candle, fixed by the update that created it. */
  function CloseTimeSince(events: seq<Event>, key: LiveKey): int {
    if |events| == 0 then 0
    else
      var before := events[..|events| - 1];
      match events[|events| - 1]
      case Update(_, c) =>
        if KeyOf(c) == key && DataSince(before, key) == map[] then c.closeTime else CloseTimeSince(before, key)
      case Removal(_) => CloseTimeSince(before, key)
  }

  /** The closes of one symbol over the whole run, by exchange. */
  function LastCloses(events: seq<Event>, symbol: string): map<Exchange, int> {
    if |events| == 0 then map[]
    else
      var before := LastCloses(events[..|events| - 1], symbol);
      match events[|events| - 1]
      case Update(e, c) => if c.symbol == symbol then before[e := c.close] else before
      case Removal(k) => before
  }

  predicate Updates(ev: Event, key: LiveKey, e: Exchange) {
    && ev.Update? && ev.exchange == e
    && ev.candle.symbol == key.symbol && ev.candle.interval == key.interval && ev.candle.openTime == key.openTime
  }

  /** Event i is the last update of the live candle by e, with no removal after it. */
  ghost predicate IsLastUpdate(events: seq<Event>, key: LiveKey, e: Exchange, i: int) {
    && 0 <= i < |events| && Updates(events[i], key, e)
    && forall j :: i < j < |events| ==> !Updates(events[j], key, e) && events[j] != Removal(key)
  }

  /** `DataSince` holds the last update of every exchange since the live candle was created, and no others. */
  lemma {:induction false} DataSinceIsLast(events: seq<Event>, key: LiveKey, e: Exchange)
    ensures e in DataSince(events, key) <==> exists i :: IsLastUpdate(events, key, e, i)
    ensures forall i :: IsLastUpdate(events, key, e, i) ==>
              e in DataSince(events, key) && Carries(DataSince(events, key)[e], events[i].candle)
  {
    if |events| > 0 {
      var n := |events| - 1;
      var before := events[..n];
      DataSinceIsLast(before, key, e);
      if Updates(events[n], key, e) {
        assert IsLastUpdate(events, key, e, n);
      } else if events[n] != Removal(key) {
        assert forall i :: 0 <= i < n ==> before[i] == events[i];
        assert forall i :: IsLastUpdate(events, key, e, i) <==> IsLastUpdate(before, key, e, i);
        assert e in DataSince(events, key) <==> e in DataSince(before, key);
        if e in DataSince(before, key) {
          var i :| IsLastUpdate(before, key, e, i);
          assert IsLastUpdate(events, key, e, i);
        }
      }
    }
  }

  /** Event i is the last update of the symbol by e in the whole run. */
  ghost predicate IsLastPrice(events: seq<Event>, symbol: string, e: Exchange, i: int) {
    && 0 <= i < |events| && Prices(events[i], symbol, e)
    && forall j :: i < j < |events| ==> !Prices(events[j], symbol, e)
  }

  predicate Prices(ev: Event, symbol: string, e: Exchange) {
    ev.Update? && ev.exchange == e && ev.candle.symbol == symbol
  }

  lemma {:induction false} LastClosesAreLast(events: seq<Event>, symbol: string, e: Exchange)
    ensures e in LastCloses(events, symbol) <==> exists i :: IsLastPrice(events, symbol, e, i)
    ensures forall i :: IsLastPrice(events, symbol, e, i) ==>
              e in LastCloses(events, symbol) && LastCloses(events, symbol)[e] == events[i].candle.close
  {
    if |events| > 0 {
      var n := |events| - 1;
      var before := events[..n];
      LastClosesAreLast(before, symbol, e);
      if Prices(events[n], symbol, e) {
        assert IsLastPrice(events, symbol, e, n);
      } else {
        assert forall i :: 0 <= i < n ==> before[i] == events[i];
        assert forall i :: IsLastPrice(events, symbol, e, i) <==> IsLastPrice(before, symbol, e, i);
        assert e in LastCloses(events, symbol) <==> e in LastCloses(before, symbol);
      }
    }
  }

  datatype AggregatedPrice = AggregatedPrice(lastPrice: int, exchangeCount: int, exchangePrices: map<Exchange, int>)

  /** Every live candle holds the last update of each exchange and their aggregate. */
  ghost predicate LivesMatch(events: seq<Event>, lives: map<LiveKey, LiveCandle>) {
    forall key ::
      && (key in lives <==> DataSince(events, key) != map[])
      && (key in lives ==>
            && lives[key].key == key && lives[key].exchangeData == DataSince(events, key)
            && lives[key].closeTime == CloseTimeSince(events, key)
            && IsAggregate(lives[key], lives[key].aggregated))
  }

  /** Every live price is the rounded mean of the last close of each exchange. */
  ghost predicate PricesMatch(events: seq<Event>, prices: map<string, AggregatedPrice>) {
    forall symbol ::
      && (symbol in prices <==> LastCloses(events, symbol) != map[])
      && (symbol in prices ==>
            var m := LastCloses(events, symbol);
            && prices[symbol].exchangePrices == m && prices[symbol].exchangeCount == |m|
            && prices[symbol].lastPrice == RoundDiv(SumOver(m), |m|))
  }

  lemma LivesAfterUpdate(events: seq<Event>, lives: map<LiveKey, LiveCandle>, ev: Event, live: LiveCandle)
    requires LivesMatch(events, lives) && ev.Update? && live.key == KeyOf(ev.candle)
    requires live.exchangeData == DataSince(events, live.key)[ev.exchange := DataOf(ev.candle)]
    requires live.closeTime == if live.key in lives then lives[live.key].closeTime else ev.candle.closeTime
    requires IsAggregate(live, live.aggregated)
    ensures LivesMatch(events + [ev], lives[live.key := live])
  {
    hide IsAggregate;
    assert (events + [ev])[..|events|] == events;
    forall key
      ensures DataSince(events + [ev], key) == if key == live.key then live.exchangeData else DataSince(events, key)
    {
    }
    assert ev.exchange in live.exchangeData;
  }

  lemma LivesAfterRemoval(events: seq<Event>, lives: map<LiveKey, LiveCandle>, key: LiveKey)
    requires LivesMatch(events, lives)
    ensures LivesMatch(events + [Removal(key)], lives - {key})
  {
    hide IsAggregate;
    assert (events + [Removal(key)])[..|events|] == events;
  }

  lemma PricesAfterUpdate(events: seq<Event>, prices: map<string, AggregatedPrice>, ev: Event, p: AggregatedPrice)
    requires PricesMatch(events, prices) && ev.Update?
    requires var m := LastCloses(events, ev.candle.symbol)[ev.exchange := ev.candle.close];
             |m| > 0 && p == AggregatedPrice(RoundDiv(SumOver(m), |m|), |m|, m)
    ensures PricesMatch(events + [ev], prices[ev.candle.symbol := p])
  {
    hide RoundDiv, SumOver;
    assert (events + [ev])[..|events|] == events;
    assert ev.exchange in p.exchangePrices;
  }

  lemma PricesAfterRemoval(events: seq<Event>, prices: map<string, AggregatedPrice>, key: LiveKey)
    requires PricesMatch(events, prices)
    ensures PricesMatch(events + [Removal(key)], prices)
  {
    hide RoundDiv, SumOver;
    assert (events + [Removal(key)])[..|events|] == events;
  }

  /** The summing loop of `updateLivePrice`. */
  method SumPrices(prices: map<Exchange, int>) returns (sum: int, count: int)
    ensures sum == SumOver(prices) && count == |prices|
  {
    sum, count := 0, 0;
    var todo := prices.Keys;
    ghost var rest := prices;
    while todo != {}
      invariant todo <= prices.Keys && rest == map e | e in todo :: prices[e]
      invariant sum + SumOver(rest) == SumOver(prices)
      invariant count + |todo| == |prices.Keys|
      decreases |todo|
    {
      hide SumOver;
      var e := NextKey(todo);
      SumWithout(rest, e);
      sum, count := sum + prices[e], count + 1;
      todo := todo - {e};
      rest := rest - {e};
    }
  }

  class RealtimeCandleAggregator {
    var liveCandles: map<LiveKey, LiveCandle>
    var latestCandles: map<Channel, Candle>
    var livePrices: map<string, AggregatedPrice>
    /** Closed candles handed to the batch writer's channel. */
    var queued: seq<Candle>
    ghost var events: seq<Event>

    /** The stored aggregates and prices are those of a recomputation from the run. */
    ghost predicate Valid()
      reads this
    {
      LivesMatch(events, liveCandles) && PricesMatch(events, livePrices)
    }

    constructor ()
      ensures Valid() && events == [] && queued == []
    {
      liveCandles, latestCandles, livePrices, queued := map[], map[], map[], [];
      events := [];
    }

    /** `updateLivePrice` */
    method UpdateLivePrice(symbol: string, exchange: Exchange, price: int) returns (p: AggregatedPrice)
      modifies this`livePrices
      ensures var m := (if symbol in old(livePrices) then old(livePrices)[symbol].exchangePrices
                        else map[])[exchange := price];
              |m| > 0 && p == AggregatedPrice(RoundDiv(SumOver(m), |m|), |m|, m)
      ensures livePrices == old(livePrices)[symbol := p]
    {
      hide SumOver, RoundDiv;
      var m := (if symbol in livePrices then livePrices[symbol].exchangePrices else map[])[exchange := price];
      assert exchange in m;
      var sum, count := SumPrices(m);
      p := AggregatedPrice(RoundDiv(sum, count), count, m);
      livePrices := livePrices[symbol := p];
    }

    /** `handleClosedCandle`, without the delayed removal; `hasRoom` tells
        whether the batch channel accepts the candle or drops it. */
    method HandleClosedCandle(key: LiveKey, aggregated: Option<Candle>, hasRoom: bool)
      modifies this`latestCandles, this`queued
      ensures aggregated.None? ==> latestCandles == old(latestCandles) && queued == old(queued)
      ensures aggregated.Some? ==>
                && latestCandles == old(latestCandles)[Channel(key.symbol, key.interval) := aggregated.value]
                && queued == old(queued) + (if hasRoom then [aggregated.value] else [])
    {
      if aggregated.Some? {
        latestCandles := latestCandles[Channel(key.symbol, key.interval) := aggregated.value];
        if hasRoom {
          queued := queued + [aggregated.value];
        }
      }
    }

    /** `ProcessCandleUpdate` */
    method ProcessCandleUpdate(exchange: Exchange, candle: Candle, hasRoom: bool)
      requires Valid()
      modifies this
      ensures Valid()
      ensures events == old(events) + [Update(exchange, candle)]
      ensures LiveKey(candle.symbol, candle.interval, candle.openTime) in liveCandles
      ensures var key := LiveKey(candle.symbol, candle.interval, candle.openTime);
              var live := liveCandles[key];
              && live.key == key && live.isClosed == candle.isClosed
              && live.closeTime ==
                 (if key in old(liveCandles) then old(liveCandles)[key].closeTime else candle.closeTime)
              && exchange in live.exchangeData && Carries(live.exchangeData[exchange], candle)
              && liveCandles == old(liveCandles)[key := live]
              && (Reporting(live.exchangeData) == {exchange} ==>
                    && live.aggregated.Some?
                    && Mirrors(live.aggregated.value, live.exchangeData[exchange], key, live.closeTime))
      ensures var agg := liveCandles[LiveKey(candle.symbol, candle.interval, candle.openTime)].aggregated;
              && queued == old(queued) + (if candle.isClosed && hasRoom && agg.Some? then [agg.value] else [])
              && latestCandles == if candle.isClosed && agg.Some?
                                  then old(latestCandles)[Channel(candle.symbol, candle.interval) := agg.value]
                                  else old(latestCandles)
    {
      hide IsAggregate, LivesMatch, PricesMatch, DataSince, LastCloses, SumOver, RoundDiv, Reporting, Mirrors;
      var key := KeyOf(candle);
      ghost var ev := Update(exchange, candle);
      LiveEntry(events, liveCandles, key);
      var live := if key in liveCandles then liveCandles[key]
                  else LiveCandle(key, candle.closeTime, map[], None, false);
      live := live.(exchangeData := live.exchangeData[exchange := DataOf(candle)]);
      var aggregated := AggregateLiveCandle(live);
      SameInputs(live, live.(aggregated := aggregated, isClosed := candle.isClosed), aggregated);
      live := live.(aggregated := aggregated, isClosed := candle.isClosed);
      LivesAfterUpdate(events, liveCandles, ev, live);
      liveCandles := liveCandles[key := live];
      PriceEntry(events, livePrices, candle.symbol);
      ghost var prices := livePrices;
      var p := UpdateLivePrice(candle.symbol, exchange, candle.close);
      PricesAfterUpdate(events, prices, ev, p);
      if candle.isClosed {
        HandleClosedCandle(key, aggregated, hasRoom);
      }
      events := events + [ev];
    }

    /** The removal of a live candle after its grace period. */
    method RemoveLive(key: LiveKey)
      requires Valid()
      modifies this`liveCandles, this`events
      ensures Valid()
      ensures events == old(events) + [Removal(key)] && liveCandles == old(liveCandles) - {key}
    {
      hide LivesMatch, PricesMatch;
      LivesAfterRemoval(events, liveCandles, key);
      PricesAfterRemoval(events, livePrices, key);
      liveCandles := liveCandles - {key};
      events := events + [Removal(key)];
    }
  }

  /** The aggregate depends on the key, close time and exchange data only. */
  lemma SameInputs(live: LiveCandle, live': LiveCandle, r: Option<Candle>)
    requires live'.key == live.key && live'.closeTime == live.closeTime && live'.exchangeData == live.exchangeData
    requires IsAggregate(live, r)
    ensures IsAggregate(live', r)
  {
    hide RoundDiv, SumOver, HighestOf, LowestOf, Usable;
  }

  lemma LiveEntry(events: seq<Event>, lives: map<LiveKey, LiveCandle>, key: LiveKey)
    requires LivesMatch(events, lives)
    ensures key in lives ==> lives[key].key == key && lives[key].exchangeData == DataSince(events, key)
    ensures key !in lives ==> DataSince(events, key) == map[]
  {
    hide IsAggregate;
  }

  lemma PriceEntry(events: seq<Event>, prices: map<string, AggregatedPrice>, symbol: string)
    requires PricesMatch(events, prices)
    ensures LastCloses(events, symbol) == if symbol in prices then prices[symbol].exchangePrices else map[]
  {
    hide RoundDiv, SumOver;
  }
}
