/** The batch reconstruction of derived candles from stored 1m candles,
    `group1mCandlesByInterval` of internal/services/aggregator/interval_aggregator.go,
    and its agreement with the streaming aggregator. */
module HistoricalBatch {
  import opened Candles
  import opened TimeWindows
  import opened Folding
  import opened Streams
  import opened InOrderRuns

  /** The rows of window o, in the order given. */
  function Group(rows: seq<MinuteCandle>, o: int, iv: Interval): seq<MinuteCandle> {
    if |rows| == 0 then []
    else
      var rest := Group(Init(rows), o, iv);
      if OpenTime(Last(rows).openTime, iv) == o then rest + [Last(rows)] else rest
  }

  function BatchCandle(group: seq<MinuteCandle>, o: int, iv: Interval): Candle
    requires |group| > 0
  {
    AggregateCandle(group[0].symbol, iv, o, BatchBar(group), true)
  }

  /** `result` holds one candle per window of the rows, in the order `opens`. */
  ghost predicate OnePerWindow(result: seq<Candle>, opens: seq<int>, rows: seq<MinuteCandle>, iv: Interval) {
    && |result| == |opens|
    && (forall i, j :: 0 <= i < j < |opens| ==> opens[i] != opens[j])
    && (forall o :: o in opens <==> Group(rows, o, iv) != [])
    && (forall i :: 0 <= i < |opens| ==>
          Group(rows, opens[i], iv) != [] && result[i] == BatchCandle(Group(rows, opens[i], iv), opens[i], iv))
  }

  /** Each candle of the result reports the rows of its window, with their lowest low. */
  ghost predicate ReportsRows(result: seq<Candle>, opens: seq<int>, rows: seq<MinuteCandle>, iv: Interval) {
    |result| == |opens| &&
    forall i :: 0 <= i < |opens| ==>
      var g := Group(rows, opens[i], iv);
      |g| > 0 && Reports(result[i], g[0].symbol, iv, opens[i], g, true) && IsLowest(result[i].low, g)
  }

  lemma BatchReports(result: seq<Candle>, opens: seq<int>, rows: seq<MinuteCandle>, iv: Interval)
    requires OnePerWindow(result, opens, rows, iv)
    ensures ReportsRows(result, opens, rows, iv)
  {
    hide Group, BatchBar, Duration, IsHighest, IsLowest, Volume, QuoteVolume, TradeCount;
    forall i | 0 <= i < |opens|
      ensures var g := Group(rows, opens[i], iv);
              |g| > 0 && Reports(result[i], g[0].symbol, iv, opens[i], g, true) && IsLowest(result[i].low, g)
    {
      BatchBarSummarises(Group(rows, opens[i], iv));
    }
  }

  lemma GroupStep(rows: seq<MinuteCandle>, n: int, o: int, iv: Interval)
    requires 0 <= n < |rows|
    ensures Group(rows[..n + 1], o, iv) ==
            Group(rows[..n], o, iv) + (if OpenTime(rows[n].openTime, iv) == o then [rows[n]] else [])
  {
    assert Init(rows[..n + 1]) == rows[..n];
  }

  /** The accumulation over one group. */
  method FoldGroup(group: seq<MinuteCandle>) returns (b: Bar)
    ensures b == BatchBar(group)
  {
    var open, high, low, close, volume, quoteVolume, tradeCount := 0, 0, 0, 0, 0, 0, 0;
    for i := 0 to |group|
      invariant Bar(open, high, low, close, volume, quoteVolume, tradeCount) == BatchBar(group[..i])
    {
      var c := group[i];
      assert group[..i + 1][..i] == group[..i];
      if i == 0 {
        open, high, low := c.open, c.high, c.low;
      } else {
        if c.high > high { high := c.high; }
        if c.low < low { low := c.low; }
      }
      close := c.close;
      volume, quoteVolume, tradeCount := volume + c.volume, quoteVolume + c.quoteVolume, tradeCount + c.tradeCount;
    }
    assert group[..|group|] == group;
    b := Bar(open, high, low, close, volume, quoteVolume, tradeCount);
  }

  method BuildGroup(group: seq<MinuteCandle>, o: int, iv: Interval) returns (c: Candle)
    requires |group| > 0
    ensures c == BatchCandle(group, o, iv)
  {
    var b := FoldGroup(group);
    c := AggregateCandle(group[0].symbol, iv, o, b, true);
  }

  /** The first loop: the rows filed under their window. */
  method GroupRows(rows: seq<MinuteCandle>, iv: Interval) returns (groups: map<int, seq<MinuteCandle>>)
    ensures forall o :: o in groups <==> Group(rows, o, iv) != []
    ensures forall o :: o in groups ==> groups[o] == Group(rows, o, iv)
  {
    hide OpenTime;
    groups := map[];
    for n := 0 to |rows|
      invariant forall o :: o in groups <==> Group(rows[..n], o, iv) != []
      invariant forall o :: o in groups ==> groups[o] == Group(rows[..n], o, iv)
    {
      var key := OpenTime(rows[n].openTime, iv);
      forall o
        ensures Group(rows[..n + 1], o, iv) == Group(rows[..n], o, iv) + (if key == o then [rows[n]] else [])
      {
        GroupStep(rows, n, o, iv);
      }
      groups := groups[key := (if key in groups then groups[key] else []) + [rows[n]]];
    }
    assert rows[..|rows|] == rows;
  }

  /** Candles have been built for the windows `built`, in the order `opens`. */
  ghost predicate Built(result: seq<Candle>, opens: seq<int>, rows: seq<MinuteCandle>, iv: Interval, built: set<int>) {
    && |result| == |opens|
    && (forall i, j :: 0 <= i < j < |opens| ==> opens[i] != opens[j])
    && (forall o :: o in opens <==> o in built)
    && (forall i :: 0 <= i < |opens| ==>
          Group(rows, opens[i], iv) != [] && result[i] == BatchCandle(Group(rows, opens[i], iv), opens[i], iv))
  }

  lemma BuiltNext(result: seq<Candle>, opens: seq<int>, rows: seq<MinuteCandle>, iv: Interval, built: set<int>, o: int)
    requires Built(result, opens, rows, iv, built) && o !in built && Group(rows, o, iv) != []
    ensures Built(result + [BatchCandle(Group(rows, o, iv), o, iv)], opens + [o], rows, iv, built + {o})
  {
    hide Group, BatchCandle;
    var opens' := opens + [o];
    forall i, j | 0 <= i < j < |opens'| ensures opens'[i] != opens'[j] {
      var x := opens'[i];
      assert x in opens;
    }
  }

  /** `group1mCandlesByInterval`: the groups are visited in the map's order. */
  method Group1mCandlesByInterval(rows: seq<MinuteCandle>, iv: Interval)
    returns (result: seq<Candle>)
    ensures exists opens :: OnePerWindow(result, opens, rows, iv) && ReportsRows(result, opens, rows, iv)
  {
    hide OpenTime, Group, BatchCandle, Built;
    var groups := GroupRows(rows, iv);
    result := [];
    ghost var opens: seq<int> := [];
    var todo := groups.Keys;
    NoneBuilt(rows, iv);
    assert groups.Keys - todo == {};
    while todo != {}
      invariant todo <= groups.Keys && Built(result, opens, rows, iv, groups.Keys - todo)
      decreases |todo|
    {
      var o := NextKey(todo);
      BuiltNext(result, opens, rows, iv, groups.Keys - todo, o);
      var c := BuildGroup(groups[o], o, iv);
      result, opens := result + [c], opens + [o];
      assert groups.Keys - (todo - {o}) == groups.Keys - todo + {o};
      todo := todo - {o};
    }
    assert groups.Keys - todo == groups.Keys;
    AllBuilt(result, opens, rows, iv, groups.Keys);
    BatchReports(result, opens, rows, iv);
  }

  lemma NoneBuilt(rows: seq<MinuteCandle>, iv: Interval)
    ensures Built([], [], rows, iv, {})
  {
    hide Group, BatchCandle;
  }

  lemma AllBuilt(result: seq<Candle>, opens: seq<int>, rows: seq<MinuteCandle>, iv: Interval, built: set<int>)
    requires Built(result, opens, rows, iv, built) && forall o :: o in built <==> Group(rows, o, iv) != []
    ensures OnePerWindow(result, opens, rows, iv)
  {
    hide Group, BatchCandle;
  }

  // --------------------------------------------------------------- agreement with the stream

  /** Filtering the rows in time order is ordering the filtered rows. */
  lemma {:induction false} GroupOfRows(m: map<int, Arrival>, o: int, iv: Interval)
    requires WellKeyed(m)
    ensures Group(InOrder(m), o, iv) == InOrder(MinutesOf(m, o, iv))
    decreases |m|
  {
    hide OpenTime, InOrder;
    if m == map[] {
      assert MinutesOf(m, o, iv) == map[];
      NoRows();
    } else {
      var x := MaxOf(m.Keys);
      var rest := m - {x};
      assert m == rest[x := m[x]];
      InOrderAppend(rest, x, m[x]);
      GroupAppend(InOrder(rest), m[x].candle, o, iv);
      GroupOfRows(rest, o, iv);
      MinutesAppend(rest, x, m[x], o, iv);
      if WindowOf(m[x], iv) == o {
        InOrderAppend(MinutesOf(rest, o, iv), x, m[x]);
      }
    }
  }

  lemma NoRows()
    ensures InOrder(map[]) == []
  {
  }

  lemma GroupAppend(rows: seq<MinuteCandle>, c: MinuteCandle, o: int, iv: Interval)
    ensures Group(rows + [c], o, iv) == Group(rows, o, iv) + (if OpenTime(c.openTime, iv) == o then [c] else [])
  {
    assert Init(rows + [c]) == rows;
  }

  lemma MinutesAppend(m: map<int, Arrival>, x: int, a: Arrival, o: int, iv: Interval)
    requires x !in m
    ensures MinutesOf(m[x := a], o, iv) ==
            if WindowOf(a, iv) == o then MinutesOf(m, o, iv)[x := a] else MinutesOf(m, o, iv)
  {
    hide OpenTime;
  }

  /** The candles emitted for the completed windows, in order of completion. */
  ghost function Emitted(done: seq<Window>, symbol: string, iv: Interval): (cs: seq<Candle>)
    ensures |cs| == |done| && forall i :: 0 <= i < |done| ==> cs[i] == CompletedCandle(symbol, iv, done[i])
  {
    seq(|done|, i requires 0 <= i < |done| => CompletedCandle(symbol, iv, done[i]))
  }

  lemma {:induction false} RevisionsOfSymbol(us: seq<MinuteCandle>, symbol: string)
    requires OfSymbol(us, symbol)
    ensures forall k :: k in LastRevision(us) ==> LastRevision(us)[k].candle.symbol == symbol
  {
    if |us| > 0 {
      RevisionsOfSymbol(Init(us), symbol);
    }
  }

  lemma FirstInOrder(m: map<int, Arrival>, symbol: string)
    requires m != map[] && forall k :: k in m ==> m[k].candle.symbol == symbol
    ensures |InOrder(m)| > 0 && InOrder(m)[0].symbol == symbol
  {
    SortedElements(m.Keys);
    assert |m.Keys| > 0;
  }

  /** A window's streamed candle is the batch candle of the same rows exactly when its lows are sound. */
  lemma WindowAgrees(m: map<int, Arrival>, o: int, iv: Interval, symbol: string)
    requires WellKeyed(m) && HasWindow(m, o, iv)
    requires forall k :: k in m ==> m[k].candle.symbol == symbol
    ensures Group(InOrder(m), o, iv) != [] && InOrder(MinutesOf(m, o, iv)) != []
    ensures CompletedCandle(symbol, iv, Window(o, MinutesOf(m, o, iv))) == BatchCandle(Group(InOrder(m), o, iv), o, iv)
            <==> LowsSound(InOrder(MinutesOf(m, o, iv)))
  {
    hide OpenTime, Duration, InOrder, StreamBar, BatchBar, Group, LowsSound;
    MinutesNonEmpty(m, o, iv);
    GroupOfRows(m, o, iv);
    FirstInOrder(MinutesOf(m, o, iv), symbol);
    StreamBarExactly(InOrder(MinutesOf(m, o, iv)));
  }

  lemma {:induction false} GroupNonEmpty(m: map<int, Arrival>, o: int, iv: Interval)
    requires WellKeyed(m)
    ensures Group(InOrder(m), o, iv) != [] <==> HasWindow(m, o, iv)
  {
    hide OpenTime, InOrder;
    GroupOfRows(m, o, iv);
    MinutesNonEmpty(m, o, iv);
    if MinutesOf(m, o, iv) == map[] {
      NoRows();
    } else {
      assert |MinutesOf(m, o, iv).Keys| > 0;
    }
  }

  /** The emitted candles are the batch candles of the windows that ended by the last update. */
  ghost predicate SameAsBatch(emitted: seq<Candle>, result: seq<Candle>, t: int) {
    forall c :: c in emitted <==> c in result && c.closeTime <= t
  }

  ghost predicate AllLowsSound(done: seq<Window>) {
    forall i :: 0 <= i < |done| ==> done[i].minutes != map[] && LowsSound(InOrder(done[i].minutes))
  }

  /** The windows of m that ended by t have sound lows. */
  ghost predicate ClosedLowsSound(m: map<int, Arrival>, t: int, iv: Interval) {
    forall o :: IsClosed(m, o, iv, t) ==>
      MinutesOf(m, o, iv) != map[] && LowsSound(InOrder(MinutesOf(m, o, iv)))
  }

  /** For the windows completed from m by t, sound lows are a matter of m and t alone. */
  lemma LowsFromRevisions(done: seq<Window>, m: map<int, Arrival>, t: int, iv: Interval)
    requires CompletedClosedWindows(done, m, t, iv)
    ensures AllLowsSound(done) <==> ClosedLowsSound(m, t, iv)
  {
    hide OpenTime, Duration, LowsSound, MinutesOf, IsClosed;
    if AllLowsSound(done) {
      forall o | IsClosed(m, o, iv, t) ensures MinutesOf(m, o, iv) != map[] && LowsSound(InOrder(MinutesOf(m, o, iv))) {
        assert Completed(done, o);
        var i :| 0 <= i < |done| && done[i].openTime == o;
      }
    }
    if ClosedLowsSound(m, t, iv) {
      forall i | 0 <= i < |done| ensures done[i].minutes != map[] && LowsSound(InOrder(done[i].minutes)) {
        assert IsClosed(m, done[i].openTime, iv, t);
      }
    }
  }

  /** The setting of the agreement theorem: windows `done` completed from the
      revisions m by time t, and a batch result over the same revisions. */
  ghost predicate SameHistory(done: seq<Window>, m: map<int, Arrival>, t: int, iv: Interval, symbol: string,
                              result: seq<Candle>, opens: seq<int>) {
    && WellKeyed(m) && (forall k :: k in m ==> m[k].candle.symbol == symbol)
    && CompletedClosedWindows(done, m, t, iv)
    && OnePerWindow(result, opens, InOrder(m), iv)
  }

  /** A completed window's candle is in the batch result exactly when its lows are sound. */
  lemma EmittedInBatch(done: seq<Window>, m: map<int, Arrival>, t: int, iv: Interval, symbol: string,
                       result: seq<Candle>, opens: seq<int>, i: int)
    requires SameHistory(done, m, t, iv, symbol, result, opens) && 0 <= i < |done|
    ensures done[i].minutes != map[]
    ensures CompletedCandle(symbol, iv, done[i]) in result <==> LowsSound(InOrder(done[i].minutes))
    ensures CompletedCandle(symbol, iv, done[i]).closeTime <= t
  {
    hide OpenTime, Duration, InOrder, StreamBar, BatchBar, Group, LowsSound;
    var o := done[i].openTime;
    assert IsClosed(m, o, iv, t);
    MinutesNonEmpty(m, o, iv);
    assert done[i] == Window(o, MinutesOf(m, o, iv));
    WindowAgrees(m, o, iv, symbol);
    var c := CompletedCandle(symbol, iv, done[i]);
    assert o in opens;
    var j :| 0 <= j < |opens| && opens[j] == o;
    assert result[j] == BatchCandle(Group(InOrder(m), o, iv), o, iv);
    if c in result {
      var k :| 0 <= k < |result| && result[k] == c;
      assert opens[k] == result[k].openTime == o;
      assert k == j;
    }
  }

  /** A batch candle that ended by t is emitted, when the window's lows are sound. */
  lemma BatchIsEmitted(done: seq<Window>, m: map<int, Arrival>, t: int, iv: Interval, symbol: string,
                       result: seq<Candle>, opens: seq<int>, j: int)
    requires SameHistory(done, m, t, iv, symbol, result, opens) && AllLowsSound(done)
    requires 0 <= j < |result| && result[j].closeTime <= t
    ensures result[j] in Emitted(done, symbol, iv)
  {
    hide OpenTime, Duration, InOrder, StreamBar, BatchBar, Group, LowsSound;
    var o := opens[j];
    GroupNonEmpty(m, o, iv);
    assert IsClosed(m, o, iv, t);
    var i :| 0 <= i < |done| && done[i].openTime == o;
    assert done[i] == Window(o, MinutesOf(m, o, iv));
    WindowAgrees(m, o, iv, symbol);
    assert Emitted(done, symbol, iv)[i] == result[j];
  }

  lemma AgreesExactly(done: seq<Window>, m: map<int, Arrival>, t: int, iv: Interval, symbol: string,
                      result: seq<Candle>, opens: seq<int>)
    requires SameHistory(done, m, t, iv, symbol, result, opens)
    ensures SameAsBatch(Emitted(done, symbol, iv), result, t) <==> AllLowsSound(done)
  {
    hide CompletedCandle, LowsSound, OnePerWindow, CompletedClosedWindows;
    var emitted := Emitted(done, symbol, iv);
    forall i | 0 <= i < |done|
      ensures done[i].minutes != map[] && emitted[i].closeTime <= t
      ensures emitted[i] in result <==> LowsSound(InOrder(done[i].minutes))
    {
      EmittedInBatch(done, m, t, iv, symbol, result, opens, i);
    }
    if AllLowsSound(done) {
      forall j | 0 <= j < |result| && result[j].closeTime <= t ensures result[j] in emitted {
        BatchIsEmitted(done, m, t, iv, symbol, result, opens, j);
      }
    } else {
      var i :| 0 <= i < |done| && !LowsSound(InOrder(done[i].minutes));
      assert emitted[i] in emitted && emitted[i] !in result;
    }
  }

  /** Each emitted candle reports the minutes of its window. */
  ghost predicate ReportsDone(emitted: seq<Candle>, done: seq<Window>, symbol: string, iv: Interval) {
    |emitted| == |done| &&
    forall i :: 0 <= i < |done| ==> ReportsWindow(emitted[i], symbol, iv, done[i].openTime, done[i].minutes, true)
  }

  lemma EmittedReports(done: seq<Window>, symbol: string, iv: Interval)
    ensures ReportsDone(Emitted(done, symbol, iv), done, symbol, iv)
  {
    hide ReportsWindow, CompletedCandle;
    forall i | 0 <= i < |done|
      ensures ReportsWindow(Emitted(done, symbol, iv)[i], symbol, iv, done[i].openTime, done[i].minutes, true)
    {
      CompletedReports(symbol, iv, done[i]);
    }
  }

  /** Streaming equals batch. For every in-order run and every interval whose
      windows contain its candles (all but 1M on day 31), the emitted candles are
      exactly those the batch routine builds from the last revision of every
      minute in windows that ended by the last update, if and only if the last
      revisions of no such window have their lows spoiled by the unset-low rule;
      lows other than zero suffice. For a fixed-length interval they come in
      increasing order, each window once. */
  lemma StreamingEqualsBatch(us: seq<MinuteCandle>, iv: Interval, s: Stream, symbol: string,
                             result: seq<Candle>, opens: seq<int>)
    requires Reaches(us, iv, s) && TimeOrdered(us) && OfSymbol(us, symbol)
    requires FixedLength(iv) || AllInOwnWindow(us, iv)
    requires OnePerWindow(result, opens, InOrder(LastRevision(us)), iv)
    ensures SameAsBatch(Emitted(s.done, symbol, iv), result, LastTime(us)) <==>
            ClosedLowsSound(LastRevision(us), LastTime(us), iv)
    ensures NonzeroLows(us) ==> ClosedLowsSound(LastRevision(us), LastTime(us), iv)
    ensures ReportsDone(Emitted(s.done, symbol, iv), s.done, symbol, iv)
    ensures forall i, j :: 0 <= i < j < |s.done| ==> s.done[i].openTime != s.done[j].openTime
    ensures FixedLength(iv) ==> OpensIncrease(s.done)
  {
    hide OpenTime, LowsSound, OnePerWindow, Emitted, Reaches, NonzeroLows, AllLowsSound, ClosedLowsSound, ReportsDone;
    if FixedLength(iv) {
      FixedLengthOwnWindow(us, iv);
      CompletedInOrder(us, iv, s);
    }
    InOrderRunState(us, iv, s);
    EmittedReports(s.done, symbol, iv);
    LastRevisionKeyed(us);
    RevisionsOfSymbol(us, symbol);
    AgreesExactly(s.done, LastRevision(us), LastTime(us), iv, symbol, result, opens);
    LowsFromRevisions(s.done, LastRevision(us), LastTime(us), iv);
    if NonzeroLows(us) {
      NonzeroLowsSuffice(us, iv, s);
    }
  }

  predicate NonzeroLows(us: seq<MinuteCandle>) {
    forall i :: 0 <= i < |us| ==> us[i].low != 0
  }

  lemma WindowLows(minutes: map<int, Arrival>, o: int, us: seq<MinuteCandle>, iv: Interval)
    requires Filed(minutes, o, us, iv) && NonzeroLows(us)
    ensures |InOrder(minutes)| > 0 && forall i :: 0 <= i < |InOrder(minutes)| ==> InOrder(minutes)[i].low != 0
  {
    hide OpenTime;
    SortedElements(minutes.Keys);
    assert |minutes.Keys| > 0;
  }

  lemma NonzeroLowsSuffice(us: seq<MinuteCandle>, iv: Interval, s: Stream)
    requires Reaches(us, iv, s) && NonzeroLows(us)
    ensures AllLowsSound(s.done)
  {
    hide OpenTime, InOrder, Reaches, NonzeroLows;
    RunsAreWellFiled(us, iv, s);
    forall i | 0 <= i < |s.done| ensures s.done[i].minutes != map[] && LowsSound(InOrder(s.done[i].minutes)) {
      WindowLows(s.done[i].minutes, s.done[i].openTime, us, iv);
    }
  }
}
