/** Candles that fall outside their own window, as day 31 does for 1M: exactly
    when the emitted candles still equal those of the batch routine. */
module OutsideWindows {
  import opened Candles
  import opened TimeWindows
  import opened Folding
  import opened Streams
  import opened InOrderRuns
  import opened HistoricalBatch

  /** The state emits what the batch routine builds from the same updates, each window once. */
  ghost predicate AgreesNow(us: seq<MinuteCandle>, iv: Interval, s: Stream, symbol: string, result: seq<Candle>) {
    SameAsBatch(Emitted(s.done, symbol, iv), result, LastTime(us)) && EachOnce(s.done)
  }

  /** At every point of every run over us the emitted candles equal the batch. */
  ghost predicate AlwaysAgrees(us: seq<MinuteCandle>, iv: Interval, symbol: string) {
    forall n, s, result, opens ::
      0 <= n <= |us| && Reaches(us[..n], iv, s) && OnePerWindow(result, opens, InOrder(LastRevision(us[..n])), iv) ==>
        AgreesNow(us[..n], iv, s, symbol, result)
  }

  /** A candle after the minutes m that changes nothing in the bar of window o:
      the window has candles, and this one stays within their range, repeats
      their close and brings no volume and no trades. */
  ghost predicate Unnoticed(m: map<int, Arrival>, c: Candle, o: int, iv: Interval) {
    && HasWindow(m, o, iv)
    && var b := BatchBar(InOrder(MinutesOf(m, o, iv)));
       && c.high <= b.high && b.low <= c.low && c.close == b.close
       && c.volume == 0 && c.quoteVolume == 0 && c.tradeCount == 0
  }

  // --------------------------------------------------------------- a batch result exists

  lemma {:induction false} WindowSet(rows: seq<MinuteCandle>, iv: Interval) returns (all: set<int>)
    ensures forall o :: o in all <==> Group(rows, o, iv) != []
  {
    hide OpenTime;
    if |rows| == 0 {
      all := {};
    } else {
      var before := WindowSet(Init(rows), iv);
      all := before + {OpenTime(Last(rows).openTime, iv)};
    }
  }

  lemma BatchFor(rows: seq<MinuteCandle>, iv: Interval, opens: seq<int>) returns (result: seq<Candle>)
    requires Increasing(opens) && forall o :: o in opens <==> Group(rows, o, iv) != []
    ensures OnePerWindow(result, opens, rows, iv)
  {
    hide OpenTime, Group, BatchCandle;
    forall i | 0 <= i < |opens| ensures Group(rows, opens[i], iv) != [] {
      var o := opens[i];
      assert o in opens;
    }
    result := seq(|opens|, i requires 0 <= i < |opens| => BatchCandle(Group(rows, opens[i], iv), opens[i], iv));
  }

  lemma BatchExists(rows: seq<MinuteCandle>, iv: Interval) returns (result: seq<Candle>, opens: seq<int>)
    ensures OnePerWindow(result, opens, rows, iv)
  {
    hide OpenTime, Group, OnePerWindow;
    var all := WindowSet(rows, iv);
    opens := Sorted(all);
    result := BatchFor(rows, iv, opens);
  }

  // --------------------------------------------------------------- the first candle outside

  lemma ClosedWindowThen(s: Stream, m: map<int, Arrival>, t: int, t': int, iv: Interval, order: seq<int>, i: int)
    requires Describes(s, m, t, iv) && ClosingOrder(s, t', iv, order) && t <= t'
    requires 0 <= i < |s.done| + |order|
    ensures var w := (s.done + Closed(s, order))[i];
            IsClosed(m, w.openTime, iv, t') && w.minutes == MinutesOf(m, w.openTime, iv)
  {
    hide OpenTime, Duration, MinutesOf, HasWindow, Completed;
    if i < |s.done| {
      assert IsClosed(m, s.done[i].openTime, iv, t);
    } else {
      assert Expired(s, order[i - |s.done|], t', iv);
    }
  }

  lemma ClosedOrExpired(s: Stream, m: map<int, Arrival>, t: int, t': int, iv: Interval, o: int)
    requires BuildsOpenWindows(s, m, t, iv) && t <= t' && IsClosed(m, o, iv, t')
    ensures IsClosed(m, o, iv, t) || Expired(s, o, t', iv)
  {
    hide OpenTime, Duration, MinutesOf, HasWindow;
    MinutesNonEmpty(m, o, iv);
  }

  /** Without storing anything, a later time completes the windows ended by then. */
  lemma ClosedByThen(s: Stream, m: map<int, Arrival>, t: int, a: Arrival, iv: Interval, order: seq<int>)
    requires Describes(s, m, t, iv) && ClosingOrder(s, TimeOf(a), iv, order) && t <= TimeOf(a)
    ensures CompletedClosedWindows(s.done + Closed(s, order), m, TimeOf(a), iv)
  {
    hide OpenTime, Duration, MinutesOf, IsClosed, BuildsOpenWindows, Completed;
    var done := s.done + Closed(s, order);
    DistinctStep(s, m, t, a, iv, order);
    forall i | 0 <= i < |done|
      ensures IsClosed(m, done[i].openTime, iv, TimeOf(a)) && done[i].minutes == MinutesOf(m, done[i].openTime, iv)
    {
      ClosedWindowThen(s, m, t, TimeOf(a), iv, order, i);
    }
    forall o | IsClosed(m, o, iv, TimeOf(a)) ensures Completed(done, o) {
      ClosedOrExpired(s, m, t, TimeOf(a), iv, o);
      CompletedAfter(s, o, order);
    }
  }

  /** The streamed bar of cs is the true bar with a further candle exactly when
      the lows are sound and the candle is unnoticed. */
  lemma JoinUnchanged(cs: seq<Candle>, c: Candle)
    requires |cs| > 0
    ensures StreamBar(cs) == BatchBar(cs + [c]) <==>
            && LowsSound(cs)
            && c.high <= BatchBar(cs).high && BatchBar(cs).low <= c.low && c.close == BatchBar(cs).close
            && c.volume == 0 && c.quoteVolume == 0 && c.tradeCount == 0
  {
    hide LowsSound;
    StreamLow(cs);
    StreamBarExactly(cs);
    BatchBarConcat(cs, [c]);
    assert BatchBar([c]) == BarOf(c);
  }

  /** The setting: minutes m of one symbol, and a later candle a of the same symbol. */
  ghost predicate Later(m: map<int, Arrival>, a: Arrival, symbol: string) {
    && WellKeyed(m) && a.candle.symbol == symbol
    && forall k :: k in m ==> k < TimeOf(a) && m[k].candle.symbol == symbol
  }

  lemma RowsOfWindow(m: map<int, Arrival>, a: Arrival, symbol: string, x: int, iv: Interval)
    requires Later(m, a, symbol)
    ensures var m' := m[TimeOf(a) := a];
            Group(InOrder(m'), x, iv) ==
            InOrder(MinutesOf(m, x, iv)) + if x == WindowOf(a, iv) then [a.candle] else []
  {
    hide OpenTime, InOrder, Group;
    GroupOfRows(m, x, iv);
    InOrderAppend(m, TimeOf(a), a);
    GroupAppend(InOrder(m), a.candle, x, iv);
  }

  lemma WindowRows(m: map<int, Arrival>, a: Arrival, symbol: string, x: int, iv: Interval)
    requires Later(m, a, symbol) && HasWindow(m, x, iv)
    ensures var cs := InOrder(MinutesOf(m, x, iv)); |cs| > 0 && cs[0].symbol == symbol
  {
    hide OpenTime;
    MinutesNonEmpty(m, x, iv);
    FirstInOrder(MinutesOf(m, x, iv), symbol);
  }

  /** The candle emitted for a window of m against the batch candle with a included. */
  lemma SameCandle(m: map<int, Arrival>, a: Arrival, symbol: string, x: int, iv: Interval)
    requires Later(m, a, symbol) && HasWindow(m, x, iv)
    ensures var g := Group(InOrder(m[TimeOf(a) := a]), x, iv);
            && g != [] && |InOrder(MinutesOf(m, x, iv))| > 0
            && (CompletedCandle(symbol, iv, Window(x, MinutesOf(m, x, iv))) == BatchCandle(g, x, iv) <==>
                LowsSound(InOrder(MinutesOf(m, x, iv))) && (x == WindowOf(a, iv) ==> Unnoticed(m, a.candle, x, iv)))
  {
    hide OpenTime, Duration, InOrder, StreamBar, BatchBar, Group, Later, HasWindow, MinutesOf, LowsSound;
    var cs := InOrder(MinutesOf(m, x, iv));
    RowsOfWindow(m, a, symbol, x, iv);
    WindowRows(m, a, symbol, x, iv);
    JoinUnchanged(cs, a.candle);
    StreamBarExactly(cs);
    assert cs + [] == cs && (cs + [a.candle])[0] == cs[0];
  }

  /** The windows done from m by the time of a, against a batch that includes a. */
  ghost predicate Setting(done: seq<Window>, m: map<int, Arrival>, a: Arrival, iv: Interval, symbol: string,
                          result: seq<Candle>, opens: seq<int>) {
    && Later(m, a, symbol) && WindowOf(a, iv) + Duration(iv) <= TimeOf(a)
    && CompletedClosedWindows(done, m, TimeOf(a), iv)
    && OnePerWindow(result, opens, InOrder(m[TimeOf(a) := a]), iv)
  }

  lemma OpensOfBatch(m: map<int, Arrival>, a: Arrival, iv: Interval, symbol: string, result: seq<Candle>,
                     opens: seq<int>, x: int)
    requires Later(m, a, symbol) && OnePerWindow(result, opens, InOrder(m[TimeOf(a) := a]), iv)
    ensures x in opens <==> HasWindow(m, x, iv) || x == WindowOf(a, iv)
  {
    hide OpenTime, InOrder, Group;
    var m' := m[TimeOf(a) := a];
    GroupNonEmpty(m', x, iv);
    WindowsAfterUpdate(m, a, x, iv);
  }

  /** The batch candle of the window of a is emitted only if a is unnoticed. */
  lemma EqualOnlyUnnoticed(done: seq<Window>, m: map<int, Arrival>, a: Arrival, iv: Interval, symbol: string,
                           result: seq<Candle>, opens: seq<int>)
    requires Setting(done, m, a, iv, symbol, result, opens)
    requires SameAsBatch(Emitted(done, symbol, iv), result, TimeOf(a))
    ensures Unnoticed(m, a.candle, WindowOf(a, iv), iv)
  {
    hide OpenTime, Duration, InOrder, StreamBar, BatchBar, Group, Later, HasWindow, MinutesOf, Unnoticed;
    var o, emitted := WindowOf(a, iv), Emitted(done, symbol, iv);
    OpensOfBatch(m, a, iv, symbol, result, opens, o);
    var j :| 0 <= j < |opens| && opens[j] == o;
    assert result[j] in result && result[j].closeTime <= TimeOf(a);
    var i :| 0 <= i < |emitted| && emitted[i] == result[j];
    assert done[i].openTime == o && IsClosed(m, o, iv, TimeOf(a));
    assert done[i] == Window(o, MinutesOf(m, o, iv));
    SameCandle(m, a, symbol, o, iv);
  }

  /** A completed window's candle is in the batch only if its lows are sound. */
  lemma EqualOnlySound(done: seq<Window>, m: map<int, Arrival>, a: Arrival, iv: Interval, symbol: string,
                       result: seq<Candle>, opens: seq<int>, i: int)
    requires Setting(done, m, a, iv, symbol, result, opens) && 0 <= i < |done|
    requires Emitted(done, symbol, iv)[i] in result
    ensures done[i].minutes != map[] && LowsSound(InOrder(done[i].minutes))
  {
    hide OpenTime, Duration, InOrder, StreamBar, BatchBar, Group, Later, HasWindow, MinutesOf, Unnoticed, LowsSound;
    var x := done[i].openTime;
    assert IsClosed(m, x, iv, TimeOf(a)) && done[i] == Window(x, MinutesOf(m, x, iv));
    MinutesNonEmpty(m, x, iv);
    SameCandle(m, a, symbol, x, iv);
    var j :| 0 <= j < |result| && result[j] == Emitted(done, symbol, iv)[i];
    assert opens[j] == result[j].openTime == x;
  }

  lemma EmittedIsBatch(done: seq<Window>, m: map<int, Arrival>, a: Arrival, iv: Interval, symbol: string,
                       result: seq<Candle>, opens: seq<int>, i: int)
    requires Setting(done, m, a, iv, symbol, result, opens) && Unnoticed(m, a.candle, WindowOf(a, iv), iv)
    requires 0 <= i < |done| && AllLowsSound(done)
    ensures Emitted(done, symbol, iv)[i] in result && Emitted(done, symbol, iv)[i].closeTime <= TimeOf(a)
  {
    hide OpenTime, Duration, InOrder, StreamBar, BatchBar, Group, Later, HasWindow, MinutesOf, Unnoticed, LowsSound;
    var x := done[i].openTime;
    assert IsClosed(m, x, iv, TimeOf(a)) && done[i] == Window(x, MinutesOf(m, x, iv));
    SameCandle(m, a, symbol, x, iv);
    OpensOfBatch(m, a, iv, symbol, result, opens, x);
    var j :| 0 <= j < |opens| && opens[j] == x;
    assert result[j] == Emitted(done, symbol, iv)[i];
  }

  lemma UnnoticedHasWindow(m: map<int, Arrival>, c: Candle, o: int, iv: Interval)
    requires Unnoticed(m, c, o, iv)
    ensures HasWindow(m, o, iv)
  {
  }

  lemma BatchWasEmitted(done: seq<Window>, m: map<int, Arrival>, a: Arrival, iv: Interval, symbol: string,
                        result: seq<Candle>, opens: seq<int>, j: int)
    requires Setting(done, m, a, iv, symbol, result, opens) && Unnoticed(m, a.candle, WindowOf(a, iv), iv)
    requires 0 <= j < |result| && result[j].closeTime <= TimeOf(a) && AllLowsSound(done)
    ensures result[j] in Emitted(done, symbol, iv)
  {
    hide OpenTime, Duration, InOrder, StreamBar, BatchBar, Group, Later, HasWindow, MinutesOf, Unnoticed, LowsSound;
    var x := opens[j];
    assert x in opens;
    OpensOfBatch(m, a, iv, symbol, result, opens, x);
    UnnoticedHasWindow(m, a.candle, WindowOf(a, iv), iv);
    assert IsClosed(m, x, iv, TimeOf(a));
    var i :| 0 <= i < |done| && done[i].openTime == x;
    assert done[i] == Window(x, MinutesOf(m, x, iv));
    SameCandle(m, a, symbol, x, iv);
    assert Emitted(done, symbol, iv)[i] == result[j];
  }

  lemma SettingExactly(done: seq<Window>, m: map<int, Arrival>, a: Arrival, iv: Interval, symbol: string,
                       result: seq<Candle>, opens: seq<int>)
    requires Setting(done, m, a, iv, symbol, result, opens)
    ensures SameAsBatch(Emitted(done, symbol, iv), result, TimeOf(a)) <==>
            Unnoticed(m, a.candle, WindowOf(a, iv), iv) && AllLowsSound(done)
  {
    hide Setting, Unnoticed, CompletedCandle, LowsSound;
    var emitted := Emitted(done, symbol, iv);
    if SameAsBatch(emitted, result, TimeOf(a)) {
      EqualOnlyUnnoticed(done, m, a, iv, symbol, result, opens);
      forall i | 0 <= i < |done| ensures done[i].minutes != map[] && LowsSound(InOrder(done[i].minutes)) {
        assert emitted[i] in emitted;
        EqualOnlySound(done, m, a, iv, symbol, result, opens, i);
      }
    }
    if Unnoticed(m, a.candle, WindowOf(a, iv), iv) && AllLowsSound(done) {
      forall i | 0 <= i < |done| ensures emitted[i] in result && emitted[i].closeTime <= TimeOf(a) {
        EmittedIsBatch(done, m, a, iv, symbol, result, opens, i);
      }
      forall j | 0 <= j < |result| && result[j].closeTime <= TimeOf(a) ensures result[j] in emitted {
        BatchWasEmitted(done, m, a, iv, symbol, result, opens, j);
      }
    }
  }

  // --------------------------------------------------------------- runs

  lemma {:induction false} RevisionTimes(us: seq<MinuteCandle>)
    ensures forall k :: k in LastRevision(us) ==> exists i :: 0 <= i < |us| && us[i].openTime == k
  {
    if |us| > 0 {
      RevisionTimes(Init(us));
      var m, m' := LastRevision(Init(us)), LastRevision(us);
      forall k | k in m' ensures exists i :: 0 <= i < |us| && us[i].openTime == k {
        if k in m {
          var i :| 0 <= i < |Init(us)| && Init(us)[i].openTime == k;
          assert us[i].openTime == k;
        } else {
          assert us[|us| - 1].openTime == k;
        }
      }
    }
  }

  /** A run whose last candle, and no other, falls outside its own window. */
  ghost predicate LastOutside(us: seq<MinuteCandle>, iv: Interval) {
    |us| > 0 && AllInOwnWindow(Init(us), iv) && !InOwnWindow(LastTime(us), iv)
  }

  lemma LastIsLater(us: seq<MinuteCandle>, iv: Interval, symbol: string)
    requires LastOutside(us, iv) && TimeOrdered(us) && OfSymbol(us, symbol)
    ensures Later(LastRevision(Init(us)), LastArrival(us), symbol)
    ensures CloseOf(LastArrival(us), iv) <= LastTime(us)
  {
    hide OpenTime, Duration;
    RevisionTimes(Init(us));
    assert OfSymbol(Init(us), symbol);
    RevisionsOfSymbol(Init(us), symbol);
    LastRevisionKeyed(Init(us));
    OrderedPrefix(us);
    LastRevisionTimes(Init(us));
    OpenTimeNotAfter(LastTime(us), iv);
    forall k | k in LastRevision(Init(us)) ensures k != LastTime(us) {
      var i :| 0 <= i < |Init(us)| && Init(us)[i].openTime == k;
      assert InOwnWindow(k, iv);
    }
  }

  /** What such a run has completed, and when that equals the batch. */
  lemma OutsideExactly(us: seq<MinuteCandle>, iv: Interval, s: Stream, symbol: string, result: seq<Candle>,
                       opens: seq<int>)
    requires LastOutside(us, iv) && TimeOrdered(us) && OfSymbol(us, symbol) && Reaches(us, iv, s)
    requires OnePerWindow(result, opens, InOrder(LastRevision(us)), iv)
    ensures CompletedClosedWindows(s.done, LastRevision(Init(us)), LastTime(us), iv)
    ensures WindowOf(LastArrival(us), iv) in s.building && s.building[WindowOf(LastArrival(us), iv)] != map[]
    ensures AgreesNow(us, iv, s, symbol, result) <==>
            && Unnoticed(LastRevision(Init(us)), Last(us), WindowOf(LastArrival(us), iv), iv)
            && ClosedLowsSound(LastRevision(Init(us)), LastTime(us), iv)
  {
    hide OpenTime, Duration, OnePerWindow, AllLowsSound, ClosedLowsSound, SameAsBatch, Emitted, Unnoticed,
        Describes, Later, TimeOrdered,
         OfSymbol, AllInOwnWindow, InOrder;
    var m, a := LastRevision(Init(us)), LastArrival(us);
    var p :| Reaches(Init(us), iv, p) && Step(p, a, iv, s);
    PrefixState(us, iv, p);
    LastIsLater(us, iv, symbol);
    var order :| ClosingOrder(p, TimeOf(a), iv, order) && s.done == p.done + Closed(p, order);
    ClosedByThen(p, m, LastTime(Init(us)), a, iv, order);
    SettingExactly(s.done, m, a, iv, symbol, result, opens);
    LowsFromRevisions(s.done, m, TimeOf(a), iv);
    assert TimeOf(a) in s.building[WindowOf(a, iv)];
  }

  lemma PrefixState(us: seq<MinuteCandle>, iv: Interval, p: Stream)
    requires LastOutside(us, iv) && TimeOrdered(us) && Reaches(Init(us), iv, p)
    ensures Describes(p, LastRevision(Init(us)), LastTime(Init(us)), iv) && LastTime(Init(us)) <= LastTime(us)
  {
    hide OpenTime, Duration, Reaches, Describes;
    OrderedPrefix(us);
    InOrderRunState(Init(us), iv, p);
  }

  /** One more update completes the window of the outside candle a second time. */
  lemma TwiceNext(us: seq<MinuteCandle>, iv: Interval, p: Stream, s: Stream, o: int)
    requires |us| > 0 && Step(p, LastArrival(us), iv, s) && o + Duration(iv) <= LastTime(us)
    requires o in p.building && p.building[o] != map[] && Completed(p.done, o)
    ensures !EachOnce(s.done)
  {
    hide OpenTime, Duration, Upsert, Remaining;
    var t := LastTime(us);
    var order :| ClosingOrder(p, t, iv, order) && s.done == p.done + Closed(p, order);
    assert Expired(p, o, t, iv);
    var i :| 0 <= i < |p.done| && p.done[i].openTime == o;
    var j :| 0 <= j < |order| && order[j] == o;
    assert s.done[i].openTime == s.done[|p.done| + j].openTime;
  }

  /** Where the candles outside their windows are: at most one, the last, and unnoticed. */
  ghost predicate OnlyLastUnnoticed(us: seq<MinuteCandle>, iv: Interval) {
    forall i :: 0 <= i < |us| && !InOwnWindow(us[i].openTime, iv) ==>
      i == |us| - 1 && Unnoticed(LastRevision(us[..i]), us[i], OpenTime(us[i].openTime, iv), iv)
  }

  lemma PrefixKeeps(us: seq<MinuteCandle>, n: int, symbol: string)
    requires 0 <= n <= |us| && TimeOrdered(us) && OfSymbol(us, symbol)
    ensures TimeOrdered(us[..n]) && OfSymbol(us[..n], symbol)
  {
  }

  lemma AgreesInside(us: seq<MinuteCandle>, iv: Interval, symbol: string, s: Stream, result: seq<Candle>,
                     opens: seq<int>)
    requires TimeOrdered(us) && OfSymbol(us, symbol) && AllInOwnWindow(us, iv)
    requires Reaches(us, iv, s) && OnePerWindow(result, opens, InOrder(LastRevision(us)), iv)
    ensures AgreesNow(us, iv, s, symbol, result) <==> ClosedLowsSound(LastRevision(us), LastTime(us), iv)
  {
    hide OpenTime, Duration, Reaches, OnePerWindow, SameAsBatch, Emitted, InOrder, TimeOrdered, OfSymbol,
         AllInOwnWindow, LastRevision, ClosedLowsSound;
    StreamingEqualsBatch(us, iv, s, symbol, result, opens);
  }

  lemma PrefixInside(us: seq<MinuteCandle>, iv: Interval, n: int)
    requires OnlyLastUnnoticed(us, iv) && 0 <= n < |us|
    ensures AllInOwnWindow(us[..n], iv)
  {
    hide OpenTime, InOwnWindow, Unnoticed, LastRevision;
  }

  lemma LastUnnoticed(us: seq<MinuteCandle>, iv: Interval)
    requires OnlyLastUnnoticed(us, iv) && |us| > 0 && !AllInOwnWindow(us, iv)
    ensures LastOutside(us, iv) && Unnoticed(LastRevision(Init(us)), Last(us), WindowOf(LastArrival(us), iv), iv)
  {
    hide OpenTime, InOwnWindow, Unnoticed, LastRevision;
    PrefixInside(us, iv, |us| - 1);
    assert us[..|us| - 1] == Init(us);
  }

  /** The revisions that windows are completed from: a last update outside its
      own window comes too late to be among them. */
  function Completing(us: seq<MinuteCandle>, iv: Interval): map<int, Arrival> {
    if |us| > 0 && !InOwnWindow(LastTime(us), iv) then LastRevision(Init(us)) else LastRevision(us)
  }

  /** The windows that ended by the last update have sound lows, as far as they are completed. */
  ghost predicate LowsSoundSoFar(us: seq<MinuteCandle>, iv: Interval) {
    ClosedLowsSound(Completing(us, iv), LastTime(us), iv)
  }

  /** What one more update completes adds to what was completed before. */
  lemma SoundEarlier(us: seq<MinuteCandle>, iv: Interval)
    requires |us| > 0 && TimeOrdered(us) && AllInOwnWindow(Init(us), iv) && LowsSoundSoFar(us, iv)
    ensures LowsSoundSoFar(Init(us), iv)
  {
    hide OpenTime, Duration, LowsSound, MinutesOf, TimeOrdered;
    OrderedPrefix(us);
    LastRevisionKeyed(Init(us));
    var m, t, a := LastRevision(Init(us)), LastTime(Init(us)), LastArrival(us);
    InsideLast(Init(us), iv);
    forall o | IsClosed(m, o, iv, t) ensures MinutesOf(m, o, iv) != map[] && LowsSound(InOrder(MinutesOf(m, o, iv))) {
      assert IsClosed(m, o, iv, TimeOf(a));
      if InOwnWindow(LastTime(us), iv) {
        ClosedStaysClosed(m, o, a, iv);
      }
    }
  }

  lemma InsideLast(us: seq<MinuteCandle>, iv: Interval)
    requires AllInOwnWindow(us, iv)
    ensures |us| > 0 ==> InOwnWindow(LastTime(us), iv)
    ensures Completing(us, iv) == LastRevision(us)
  {
    hide OpenTime, Duration;
  }

  lemma {:induction false} SoundThroughout(us: seq<MinuteCandle>, iv: Interval, n: int)
    requires 0 <= n <= |us| && TimeOrdered(us) && (|us| > 0 ==> AllInOwnWindow(Init(us), iv)) && LowsSoundSoFar(us, iv)
    ensures LowsSoundSoFar(us[..n], iv)
    decreases |us|
  {
    hide LowsSoundSoFar, InOwnWindow;
    if n == |us| {
      assert us[..n] == us;
    } else {
      SoundEarlier(us, iv);
      OrderedPrefix(us);
      assert Init(us)[..n] == us[..n];
      assert |us| > 1 ==> AllInOwnWindow(Init(Init(us)), iv);
      SoundThroughout(Init(us), iv, n);
    }
  }

  /** Agreement at the point n of a run. */
  lemma AgreesAt(us: seq<MinuteCandle>, iv: Interval, symbol: string, n: int, s: Stream, result: seq<Candle>,
                 opens: seq<int>)
    requires TimeOrdered(us) && OfSymbol(us, symbol) && OnlyLastUnnoticed(us, iv)
    requires 0 <= n <= |us| && Reaches(us[..n], iv, s)
    requires OnePerWindow(result, opens, InOrder(LastRevision(us[..n])), iv)
    ensures AgreesNow(us[..n], iv, s, symbol, result) <==> LowsSoundSoFar(us[..n], iv)
  {
    hide OpenTime, Duration, Reaches, OnePerWindow, AgreesNow, Unnoticed, InOrder, TimeOrdered, OfSymbol,
         AllInOwnWindow, OnlyLastUnnoticed, LastRevision, InOwnWindow, CompletedClosedWindows, ClosedLowsSound;
    PrefixKeeps(us, n, symbol);
    var vs := us[..n];
    if n < |us| {
      PrefixInside(us, iv, n);
      InsideLast(vs, iv);
      AgreesInside(vs, iv, symbol, s, result, opens);
    } else {
      assert vs == us;
      if AllInOwnWindow(us, iv) {
        InsideLast(us, iv);
        AgreesInside(us, iv, symbol, s, result, opens);
      } else {
        SomeUpdate(us, iv);
        LastUnnoticed(us, iv);
        OutsideExactly(us, iv, s, symbol, result, opens);
      }
    }
  }

  lemma SomeUpdate(us: seq<MinuteCandle>, iv: Interval)
    requires !AllInOwnWindow(us, iv)
    ensures |us| > 0
  {
  }

  /** Agreement at the end of the run needs sound lows. */
  lemma NeedsSound(us: seq<MinuteCandle>, iv: Interval, symbol: string)
    requires TimeOrdered(us) && OfSymbol(us, symbol) && AlwaysAgrees(us, iv, symbol) && OnlyLastUnnoticed(us, iv)
    ensures LowsSoundSoFar(us, iv)
  {
    hide OpenTime, Duration, Reaches, OnePerWindow, AgreesNow, InOrder, TimeOrdered, OfSymbol,
         OnlyLastUnnoticed, LastRevision, LowsSoundSoFar;
    assert us[..|us|] == us;
    var s := RunExists(us, iv);
    var result, opens := BatchExists(InOrder(LastRevision(us)), iv);
    assert AgreesNow(us[..|us|], iv, s, symbol, result);
    AgreesAt(us, iv, symbol, |us|, s, result, opens);
  }

  lemma OutsideOnlyLast(us: seq<MinuteCandle>, iv: Interval)
    requires OnlyLastUnnoticed(us, iv) && |us| > 0
    ensures AllInOwnWindow(Init(us), iv)
  {
    hide OpenTime, Unnoticed, LastRevision, InOwnWindow;
  }

  /** The first candle outside its window must be unnoticed and the last. */
  lemma Necessary(us: seq<MinuteCandle>, iv: Interval, symbol: string, i: int)
    requires TimeOrdered(us) && OfSymbol(us, symbol) && AlwaysAgrees(us, iv, symbol)
    requires 0 <= i < |us| && AllInOwnWindow(us[..i], iv) && !InOwnWindow(us[i].openTime, iv)
    ensures i == |us| - 1 && Unnoticed(LastRevision(us[..i]), us[i], OpenTime(us[i].openTime, iv), iv)
  {
    hide OpenTime, Duration, OnePerWindow, SameAsBatch, Emitted, Unnoticed, InOrder, TimeOrdered, OfSymbol,
         LastRevision, Step;
    var vs := us[..i + 1];
    assert Init(vs) == us[..i] && Last(vs) == us[i];
    PrefixKeeps(us, i + 1, symbol);
    var s := RunExists(vs, iv);
    var result, opens := BatchExists(InOrder(LastRevision(vs)), iv);
    assert AgreesNow(vs, iv, s, symbol, result);
    OutsideExactly(vs, iv, s, symbol, result, opens);
    if i + 1 < |us| {
      LastIsLater(vs, iv, symbol);
      NotTwice(us, iv, symbol, i, s);
    }
  }

  lemma NotTwice(us: seq<MinuteCandle>, iv: Interval, symbol: string, i: int, s: Stream)
    requires TimeOrdered(us) && 0 <= i < |us| - 1 && Reaches(us[..i + 1], iv, s)
    requires CompletedClosedWindows(s.done, LastRevision(us[..i]), us[i].openTime, iv)
    requires Unnoticed(LastRevision(us[..i]), us[i], OpenTime(us[i].openTime, iv), iv)
    requires var o := OpenTime(us[i].openTime, iv);
             o in s.building && s.building[o] != map[] && o + Duration(iv) <= us[i].openTime
    ensures !AlwaysAgrees(us, iv, symbol)
  {
    hide OpenTime, Duration, OnePerWindow, SameAsBatch, Emitted, InOrder, LastRevision, Step;
    var ws := us[..i + 2];
    assert Init(ws) == us[..i + 1];
    var next := StepExists(s, LastArrival(ws), iv);
    assert Reaches(ws, iv, next);
    var o := OpenTime(us[i].openTime, iv);
    assert IsClosed(LastRevision(us[..i]), o, iv, us[i].openTime);
    TwiceNext(ws, iv, s, next, o);
    var result, opens := BatchExists(InOrder(LastRevision(ws)), iv);
    assert !AgreesNow(ws, iv, next, symbol, result);
  }

  lemma NecessaryForm(us: seq<MinuteCandle>, iv: Interval, symbol: string)
    requires TimeOrdered(us) && OfSymbol(us, symbol) && AlwaysAgrees(us, iv, symbol)
    ensures OnlyLastUnnoticed(us, iv)
  {
    hide OpenTime, Reaches, AlwaysAgrees, Unnoticed, TimeOrdered, OfSymbol, LastRevision, InOwnWindow;
    if !AllInOwnWindow(us, iv) {
      assert us[..|us|] == us;
      var i := FirstOutside(us, iv, |us|);
      Necessary(us, iv, symbol, i);
      assert forall k :: 0 <= k < i ==> us[..i][k] == us[k];
    }
  }

  /** Streaming equals batch at every point of every in-order run, for every
      interval, if and only if no candle falls outside its own window, except
      possibly a last one that its window does not notice, and the revisions of
      no window ended by the last update have their lows spoiled by the
      unset-low rule. */
  lemma EmissionExactly(us: seq<MinuteCandle>, iv: Interval, symbol: string)
    requires TimeOrdered(us) && OfSymbol(us, symbol)
    ensures AlwaysAgrees(us, iv, symbol) <==> OnlyLastUnnoticed(us, iv) && LowsSoundSoFar(us, iv)
  {
    hide OpenTime, Reaches, OnePerWindow, AgreesNow, Unnoticed, InOrder, TimeOrdered, OfSymbol, LastRevision,
        InOwnWindow,
         LowsSoundSoFar, OnlyLastUnnoticed, AllInOwnWindow;
    if OnlyLastUnnoticed(us, iv) && LowsSoundSoFar(us, iv) {
      if |us| > 0 {
        OutsideOnlyLast(us, iv);
      }
      forall n, s, result, opens |
        0 <= n <= |us| && Reaches(us[..n], iv, s) && OnePerWindow(result, opens, InOrder(LastRevision(us[..n])), iv)
        ensures AgreesNow(us[..n], iv, s, symbol, result)
      {
        SoundThroughout(us, iv, n);
        AgreesAt(us, iv, symbol, n, s, result, opens);
      }
    }
    if AlwaysAgrees(us, iv, symbol) {
      NecessaryForm(us, iv, symbol);
      NeedsSound(us, iv, symbol);
    }
  }

  /** One 1M candle of 1970-01-31 already breaks it: the batch has a candle for
      January and the stream has emitted none. */
  lemma DayThirtyOneDiffers(c: MinuteCandle)
    requires c.openTime == 30 * DAY
    ensures !AlwaysAgrees([c], Mo1, c.symbol)
  {
    hide OpenTime, Duration, AlwaysAgrees, InOrder, CivilOf;
    var us := [c];
    CivilRoundTrip(Civil(1970, 1, 31));
    InOwnWindowExactly(c.openTime, Mo1);
    assert TimeOrdered(us) && OfSymbol(us, c.symbol);
    EmissionExactly(us, Mo1, c.symbol);
    assert us[0] == c && us[..0] == [] && LastRevision(us[..0]) == map[];
    assert !HasWindow(LastRevision(us[..0]), OpenTime(c.openTime, Mo1), Mo1);
    assert !InOwnWindow(us[0].openTime, Mo1);
  }

  lemma {:induction false} FirstOutside(us: seq<MinuteCandle>, iv: Interval, n: nat) returns (i: int)
    requires n <= |us| && !AllInOwnWindow(us[..n], iv)
    ensures 0 <= i < n && AllInOwnWindow(us[..i], iv) && !InOwnWindow(us[i].openTime, iv)
    decreases n
  {
    hide InOwnWindow;
    assert us[..n][..n - 1] == us[..n - 1];
    if AllInOwnWindow(us[..n - 1], iv) {
      i := n - 1;
      assert forall k :: 0 <= k < n - 1 ==> us[..n - 1][k] == us[k] == us[..n][k];
    } else {
      i := FirstOutside(us, iv, n - 1);
    }
  }
}
