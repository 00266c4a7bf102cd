/** Timeframes that nest, as 5m in 15m or 1d in 1w: a completed coarse candle
    is the ordered merge of the completed fine candles inside it. */
module Nesting {
  import opened Candles
  import opened TimeWindows
  import opened Folding
  import opened MergedBars
  import opened Streams
  import opened InOrderRuns
  import opened HistoricalBatch

  /** The completed windows that start at or after lo and before hi, in order of completion. */
  function Inside(done: seq<Window>, lo: int, hi: int): seq<Window> {
    if |done| == 0 then []
    else
      var rest := Inside(Init(done), lo, hi);
      if lo <= Last(done).openTime < hi then rest + [Last(done)] else rest
  }

  /** The candles of each window in time order. */
  ghost function GroupsOf(ws: seq<Window>): (gs: seq<seq<Candle>>)
    ensures |gs| == |ws| && forall i :: 0 <= i < |gs| ==> gs[i] == InOrder(ws[i].minutes)
  {
    seq(|ws|, i requires 0 <= i < |ws| => InOrder(ws[i].minutes))
  }

  /** The windows hold the minutes of m, each under its own fine window. */
  ghost predicate Covers(ws: seq<Window>, m: map<int, Arrival>, fine: Interval) {
    && (forall i :: 0 <= i < |ws| ==>
          ws[i].minutes != map[] && ws[i].minutes == MinutesOf(m, ws[i].openTime, fine))
    && (forall k :: k in m ==> Completed(ws, WindowOf(m[k], fine)))
  }

  lemma InOrderConcat(a: map<int, Arrival>, b: map<int, Arrival>)
    requires forall j, k :: j in a && k in b ==> j < k
    ensures InOrder(a + b) == InOrder(a) + InOrder(b)
  {
    hide Lookup, Sorted;
    assert (a + b).Keys == a.Keys + b.Keys;
    SortedSplit(a.Keys, b.Keys);
    SortedElements(a.Keys);
    SortedElements(b.Keys);
    LookupConcat(a, b, Sorted(a.Keys), Sorted(b.Keys));
  }

  lemma LookupConcat(a: map<int, Arrival>, b: map<int, Arrival>, s: seq<int>, t: seq<int>)
    requires a.Keys !! b.Keys
    requires (forall i :: 0 <= i < |s| ==> s[i] in a) && (forall i :: 0 <= i < |t| ==> t[i] in b)
    ensures Lookup(a + b, s + t) == Lookup(a, s) + Lookup(b, t)
  {
  }

  /** Minutes of earlier windows come before minutes of later ones. */
  lemma WindowOrder(m: map<int, Arrival>, fine: Interval, j: int, k: int)
    requires FixedLength(fine) && WellKeyed(m) && j in m && k in m
    requires WindowOf(m[j], fine) < WindowOf(m[k], fine)
    ensures j < k
  {
    hide OpenTime;
    WindowsPartitionTime(TimeOf(m[k]), TimeOf(m[j]), fine);
  }

  /** The minutes of m outside its last window. */
  function Earlier(m: map<int, Arrival>, o: int, fine: Interval): map<int, Arrival> {
    map k | k in m && WindowOf(m[k], fine) != o :: m[k]
  }

  lemma EarlierWindow(m: map<int, Arrival>, o: int, fine: Interval, p: int)
    requires p != o
    ensures MinutesOf(Earlier(m, o, fine), p, fine) == MinutesOf(m, p, fine)
  {
    hide OpenTime;
  }

  lemma EarlierCompleted(ws: seq<Window>, o: int)
    requires |ws| > 0 && Completed(ws, o) && o != Last(ws).openTime
    ensures Completed(Init(ws), o)
  {
    var i :| 0 <= i < |ws| && ws[i].openTime == o;
    assert Init(ws)[i].openTime == o;
  }

  lemma CoversEarlier(ws: seq<Window>, m: map<int, Arrival>, fine: Interval)
    requires |ws| > 0 && OpensIncrease(ws) && Covers(ws, m, fine)
    ensures Covers(Init(ws), Earlier(m, Last(ws).openTime, fine), fine)
  {
    hide OpenTime, MinutesOf, Completed;
    var o := Last(ws).openTime;
    var e := Earlier(m, o, fine);
    forall i | 0 <= i < |ws| - 1 ensures ws[i].minutes == MinutesOf(e, ws[i].openTime, fine) {
      EarlierWindow(m, o, fine, ws[i].openTime);
    }
    forall k | k in e ensures Completed(Init(ws), WindowOf(e[k], fine)) {
      EarlierCompleted(ws, WindowOf(m[k], fine));
    }
  }

  lemma SplitLastWindow(ws: seq<Window>, m: map<int, Arrival>, fine: Interval)
    requires |ws| > 0 && OpensIncrease(ws) && Covers(ws, m, fine) && WellKeyed(m) && FixedLength(fine)
    ensures InOrder(m) == InOrder(Earlier(m, Last(ws).openTime, fine)) + InOrder(Last(ws).minutes)
  {
    hide OpenTime, InOrder;
    var o := Last(ws).openTime;
    var e := Earlier(m, o, fine);
    assert m == e + Last(ws).minutes;
    forall j, k | j in e && k in Last(ws).minutes ensures j < k {
      var i :| 0 <= i < |ws| && ws[i].openTime == WindowOf(m[j], fine);
      WindowOrder(m, fine, j, k);
    }
    InOrderConcat(e, Last(ws).minutes);
  }

  /** Windows that partition the minutes of m hold its candles in order. */
  lemma {:induction false} GroupsAreWhole(ws: seq<Window>, m: map<int, Arrival>, fine: Interval)
    requires OpensIncrease(ws) && Covers(ws, m, fine) && WellKeyed(m) && FixedLength(fine)
    ensures InOrder(m) == Whole(GroupsOf(ws))
    decreases |ws|
  {
    hide OpenTime, InOrder;
    if |ws| == 0 {
      NothingEarlier(m, fine);
    } else {
      var w := Last(ws);
      CoversEarlier(ws, m, fine);
      SplitLastWindow(ws, m, fine);
      GroupsAreWhole(Init(ws), Earlier(m, w.openTime, fine), fine);
      assert GroupsOf(ws)[..|ws| - 1] == GroupsOf(Init(ws));
    }
  }

  lemma GroupsNonEmpty(ws: seq<Window>, m: map<int, Arrival>, fine: Interval)
    requires Covers(ws, m, fine)
    ensures AllNonEmpty(GroupsOf(ws))
  {
    hide OpenTime, MinutesOf, Completed;
    forall i | 0 <= i < |ws| ensures GroupsOf(ws)[i] != [] {
      assert |ws[i].minutes.Keys| > 0;
    }
  }

  /** The bar of m against the merge of the windows that partition it: equal in
      every field but the low, and in the low exactly when the windows' lows merge. */
  lemma MergeIsWhole(ws: seq<Window>, m: map<int, Arrival>, fine: Interval)
    requires |ws| > 0 && OpensIncrease(ws) && Covers(ws, m, fine) && WellKeyed(m) && FixedLength(fine)
    ensures MergesInto(ws, m)
  {
    hide OpenTime, InOrder, StreamBar, LowsSound, LowsMerge, Merge, Covers;
    var gs := GroupsOf(ws);
    GroupsAreWhole(ws, m, fine);
    GroupsNonEmpty(ws, m, fine);
    MergeExactly(gs);
    if LowsSound(InOrder(m)) {
      SoundLowsMerge(gs);
    }
  }

  ghost predicate MergesInto(ws: seq<Window>, m: map<int, Arrival>)
    requires |ws| > 0
  {
    var gs, b := GroupsOf(ws), StreamBar(InOrder(m));
    && |InOrder(m)| > 0
    && b == Merge(gs).(low := b.low)
    && (b == Merge(gs) <==> LowsMerge(gs))
    && (LowsSound(InOrder(m)) ==> LowsMerge(gs))
  }

  lemma NothingEarlier(e: map<int, Arrival>, fine: Interval)
    requires Covers([], e, fine)
    ensures InOrder(e) == []
  {
    hide OpenTime, InOrder;
    if e != map[] {
      var k := Pick(e.Keys);
      assert false;
    }
    NoRows();
  }

  // --------------------------------------------------------------- the windows inside a coarse one

  lemma {:induction false} InsideIncreases(done: seq<Window>, lo: int, hi: int)
    requires OpensIncrease(done)
    ensures OpensIncrease(Inside(done, lo, hi))
    ensures forall w :: w in Inside(done, lo, hi) <==> w in done && lo <= w.openTime < hi
  {
    if |done| > 0 {
      var init, w := Init(done), Last(done);
      assert done == init + [w];
      InsideIncreases(init, lo, hi);
      var rest := Inside(init, lo, hi);
      forall i | 0 <= i < |rest| ensures rest[i].openTime < w.openTime {
        var x := rest[i];
        assert x in rest && x in init;
      }
    }
  }

  /** A fine window that starts inside coarse window o holds only minutes of o. */
  lemma SameCoarse(t: nat, u: nat, fine: Interval, coarse: Interval)
    requires Nests(fine, coarse)
    requires OpenTime(u, coarse) <= OpenTime(t, fine) < OpenTime(u, coarse) + Duration(coarse)
    ensures OpenTime(t, coarse) == OpenTime(u, coarse)
  {
    hide OpenTime, Duration;
    NestedWindow(t, fine, coarse);
    if OpenTime(t, coarse) < OpenTime(u, coarse) {
      StartsApart(t, u, coarse);
    } else if OpenTime(u, coarse) < OpenTime(t, coarse) {
      StartsApart(u, t, coarse);
    }
  }

  lemma FineWindowInside(m: map<int, Arrival>, p: int, o: int, fine: Interval, coarse: Interval)
    requires Nests(fine, coarse) && HasWindow(m, o, coarse) && o <= p < o + Duration(coarse)
    ensures MinutesOf(MinutesOf(m, o, coarse), p, fine) == MinutesOf(m, p, fine)
  {
    hide OpenTime, Duration, Nests, MinutesOf;
    var k0 :| k0 in m && WindowOf(m[k0], coarse) == o;
    forall k | k in m && WindowOf(m[k], fine) == p ensures WindowOf(m[k], coarse) == o {
      SameCoarse(TimeOf(m[k]), TimeOf(m[k0]), fine, coarse);
    }
    FilterInside(m, p, o, fine, coarse);
  }

  lemma FilterInside(m: map<int, Arrival>, p: int, o: int, fine: Interval, coarse: Interval)
    requires forall k :: k in m && WindowOf(m[k], fine) == p ==> WindowOf(m[k], coarse) == o
    ensures MinutesOf(MinutesOf(m, o, coarse), p, fine) == MinutesOf(m, p, fine)
  {
    hide OpenTime;
    var a, b := MinutesOf(MinutesOf(m, o, coarse), p, fine), MinutesOf(m, p, fine);
    assert forall k :: k in b ==> k in MinutesOf(m, o, coarse);
    assert a.Keys == b.Keys;
  }

  lemma CompletedWindow(done: seq<Window>, m: map<int, Arrival>, t: int, iv: Interval, w: Window)
    requires CompletedClosedWindows(done, m, t, iv) && w in done
    ensures w.minutes != map[] && w.minutes == MinutesOf(m, w.openTime, iv)
  {
    hide OpenTime, Duration, MinutesOf;
    var i :| 0 <= i < |done| && done[i] == w;
    MinutesNonEmpty(m, w.openTime, iv);
  }

  /** Every minute of a closed coarse window lies in a completed fine window inside it. */
  lemma FineWindowCompleted(m: map<int, Arrival>, t: int, k: int, o: int, fine: Interval, coarse: Interval,
                            done: seq<Window>)
    requires Nests(fine, coarse) && CompletedClosedWindows(done, m, t, fine) && OpensIncrease(done)
    requires k in m && WindowOf(m[k], coarse) == o && o + Duration(coarse) <= t
    ensures Completed(Inside(done, o, o + Duration(coarse)), WindowOf(m[k], fine))
  {
    hide OpenTime, Duration, Nests;
    var p := WindowOf(m[k], fine);
    NestedWindow(TimeOf(m[k]), fine, coarse);
    assert IsClosed(m, p, fine, t);
    var i :| 0 <= i < |done| && done[i].openTime == p;
    assert Duration(fine) >= MINUTE;
    InsideIncreases(done, o, o + Duration(coarse));
    var w := done[i];
    assert w in Inside(done, o, o + Duration(coarse));
  }

  lemma InsideCovers(m: map<int, Arrival>, t: int, o: int, fine: Interval, coarse: Interval, done: seq<Window>)
    requires Nests(fine, coarse) && CompletedClosedWindows(done, m, t, fine) && OpensIncrease(done)
    requires IsClosed(m, o, coarse, t)
    ensures Covers(Inside(done, o, o + Duration(coarse)), MinutesOf(m, o, coarse), fine)
    ensures |Inside(done, o, o + Duration(coarse))| > 0
  {
    hide OpenTime, Duration, Nests, Inside, MinutesOf, Completed, CompletedClosedWindows;
    var ws := Inside(done, o, o + Duration(coarse));
    InsideIncreases(done, o, o + Duration(coarse));
    forall i | 0 <= i < |ws|
      ensures ws[i].minutes != map[] && ws[i].minutes == MinutesOf(MinutesOf(m, o, coarse), ws[i].openTime, fine)
    {
      var w := ws[i];
      assert w in ws;
      CompletedWindow(done, m, t, fine, w);
      FineWindowInside(m, w.openTime, o, fine, coarse);
    }
    forall k | k in m && WindowOf(m[k], coarse) == o ensures Completed(ws, WindowOf(m[k], fine)) {
      FineWindowCompleted(m, t, k, o, fine, coarse, done);
    }
    CoversFromMinutes(m, o, fine, coarse, ws);
  }

  lemma CoversFromMinutes(m: map<int, Arrival>, o: int, fine: Interval, coarse: Interval, ws: seq<Window>)
    requires HasWindow(m, o, coarse)
    requires forall i :: 0 <= i < |ws| ==>
      ws[i].minutes != map[] && ws[i].minutes == MinutesOf(MinutesOf(m, o, coarse), ws[i].openTime, fine)
    requires forall k :: k in m && WindowOf(m[k], coarse) == o ==> Completed(ws, WindowOf(m[k], fine))
    ensures Covers(ws, MinutesOf(m, o, coarse), fine) && |ws| > 0
  {
    hide OpenTime;
    var k0 :| k0 in m && WindowOf(m[k0], coarse) == o;
    assert Completed(ws, WindowOf(m[k0], fine));
  }

  /** The coarse window's bar is the merge of the completed fine windows inside
      it, which are at least one and in increasing order: in every field but the
      low always, and in the low exactly when the fine windows' lows merge, which
      sound lows do. */
  ghost predicate MergesInside(done: seq<Window>, w: Window, coarse: Interval) {
    var ws := Inside(done, w.openTime, w.openTime + Duration(coarse));
    |ws| > 0 && OpensIncrease(ws) && MergesInto(ws, w.minutes)
  }

  /** Nested timeframes agree: in an in-order run, every completed coarse candle
      is the merge, in order, of the completed fine candles inside its window, of
      which there is at least one. Only the unset-low rule can make the lows
      differ, exactly as `LowsMerge` says; without a low of zero they agree. */
  lemma NestedTimeframesAgree(us: seq<MinuteCandle>, fine: Interval, coarse: Interval, sf: Stream, sc: Stream, i: int)
    requires Nests(fine, coarse) && TimeOrdered(us)
    requires Reaches(us, fine, sf) && Reaches(us, coarse, sc) && 0 <= i < |sc.done|
    ensures MergesInside(sf.done, sc.done[i], coarse)
    ensures NonzeroLows(us) ==> LowsSound(InOrder(sc.done[i].minutes))
  {
    hide OpenTime, Duration, Reaches, InOrder, Inside, NonzeroLows, LowsSound, LastRevision, MinutesOf,
         BuildsOpenWindows, OpensIncrease, TimeOrdered, AllInOwnWindow, LowsMerge, Merge, StreamBar;
    var m, t, o := LastRevision(us), LastTime(us), sc.done[i].openTime;
    FixedLengthOwnWindow(us, fine);
    FixedLengthOwnWindow(us, coarse);
    InOrderRunState(us, fine, sf);
    InOrderRunState(us, coarse, sc);
    CompletedInOrder(us, fine, sf);
    LastRevisionKeyed(us);
    MergeInside(m, t, o, fine, coarse, sf.done);
    assert sc.done[i] == Window(o, MinutesOf(m, o, coarse));
    if NonzeroLows(us) {
      NonzeroLowsSuffice(us, coarse, sc);
    }
  }

  lemma MinutesKept(m: map<int, Arrival>, o: int, iv: Interval)
    requires WellKeyed(m)
    ensures WellKeyed(MinutesOf(m, o, iv))
  {
    hide OpenTime;
  }

  lemma MergeInside(m: map<int, Arrival>, t: int, o: int, fine: Interval, coarse: Interval, done: seq<Window>)
    requires Nests(fine, coarse) && WellKeyed(m)
    requires CompletedClosedWindows(done, m, t, fine) && OpensIncrease(done) && IsClosed(m, o, coarse, t)
    ensures MergesInside(done, Window(o, MinutesOf(m, o, coarse)), coarse)
  {
    hide OpenTime, Duration, Inside, MinutesOf, Covers, OpensIncrease, CompletedClosedWindows, MergesInto;
    var ws := Inside(done, o, o + Duration(coarse));
    InsideCovers(m, t, o, fine, coarse, done);
    InsideIncreases(done, o, o + Duration(coarse));
    MinutesKept(m, o, coarse);
    MergeIsWhole(ws, MinutesOf(m, o, coarse), fine);
  }

  // --------------------------------------------------------------- a run in which the lows differ

  lemma TwoMinutes(a: Arrival, b: Arrival)
    requires TimeOf(a) == 0 && TimeOf(b) == 300
    ensures InOrder(map[0 := a]) == [a.candle] && InOrder(map[300 := b]) == [b.candle]
    ensures InOrder(map[0 := a, 300 := b]) == [a.candle, b.candle]
  {
    hide InOrder;
    NoRows();
    var none: map<int, Arrival> := map[];
    InOrderAppend(none, 0, a);
    InOrderAppend(none, 300, b);
    InOrderAppend(map[0 := a], 300, b);
    assert none[0 := a] == map[0 := a] && none[300 := b] == map[300 := b];
    assert map[0 := a][300 := b] == map[0 := a, 300 := b];
  }

  /** The revisions of the run, and the windows they make up. */
  lemma ThreeUpdates(us: seq<MinuteCandle>)
    requires |us| == 3 && us[0].openTime == 0 && us[1].openTime == 300 && us[2].openTime == 900
    ensures TimeOrdered(us) && LastTime(us) == 900
    ensures LastRevision(us) == map[0 := Arrival(0, us[0]), 300 := Arrival(1, us[1]), 900 := Arrival(2, us[2])]
  {
    assert us[..2][..1] == us[..1] && us[..1][..0] == [];
    assert LastRevision(us[..1]) == map[0 := Arrival(0, us[0])];
    assert LastRevision(us[..2]) == map[0 := Arrival(0, us[0]), 300 := Arrival(1, us[1])];
  }

  /** Minute t of m makes up window t of the run, closed at 900. */
  lemma ClosedWindow(m: map<int, Arrival>, t: nat, o: int, iv: Interval, done: seq<Window>)
    requires t in m && WindowOf(m[t], iv) == o && o + Duration(iv) <= 900
    requires CompletedClosedWindows(done, m, 900, iv)
    ensures Completed(done, o)
  {
    hide OpenTime, Duration;
    assert IsClosed(m, o, iv, 900);
  }

  lemma OpensDiffer(done: seq<Window>, m: map<int, Arrival>, iv: Interval, i: int, j: int)
    requires CompletedClosedWindows(done, m, 900, iv)
    ensures 0 <= i < j < |done| ==> done[i].openTime != done[j].openTime
  {
    hide OpenTime, Duration;
  }

  lemma CoarseWindow(m: map<int, Arrival>, a: Arrival, b: Arrival, e: Arrival, iv: Interval, done: seq<Window>)
    requires TimeOf(a) == 0 && TimeOf(b) == 300 && TimeOf(e) == 900 && m == map[0 := a, 300 := b, 900 := e]
    requires iv == M15 && CompletedClosedWindows(done, m, 900, iv)
    ensures done == [Window(0, map[0 := a, 300 := b])]
  {
    hide OpenTime;
    WindowAt(0, iv, 0);
    WindowAt(300, iv, 0);
    WindowAt(900, iv, 1);
    assert MinutesOf(m, 0, iv) == map[0 := a, 300 := b];
    ClosedWindow(m, 0, 0, iv, done);
    forall i | 0 <= i < |done| ensures done[i].openTime == 0 {
      assert IsClosed(m, done[i].openTime, iv, 900);
    }
    OpensDiffer(done, m, iv, 0, 1);
  }

  lemma OpensRise(done: seq<Window>, i: int, j: int)
    requires OpensIncrease(done)
    ensures 0 <= i < j < |done| ==> done[i].openTime < done[j].openTime
  {
  }

  /** Increasing open times that are exactly 0 and 300. */
  lemma TwoOpens(done: seq<Window>)
    requires OpensIncrease(done) && Completed(done, 0) && Completed(done, 300)
    requires forall i :: 0 <= i < |done| ==> done[i].openTime == 0 || done[i].openTime == 300
    ensures |done| == 2 && done[0].openTime == 0 && done[1].openTime == 300
  {
    OpensRise(done, 0, 1);
    OpensRise(done, 1, 2);
  }

  lemma FineOpens(m: map<int, Arrival>, a: Arrival, b: Arrival, e: Arrival, iv: Interval, done: seq<Window>)
    requires TimeOf(a) == 0 && TimeOf(b) == 300 && TimeOf(e) == 900 && m == map[0 := a, 300 := b, 900 := e]
    requires iv == M5 && CompletedClosedWindows(done, m, 900, iv)
    ensures Completed(done, 0) && Completed(done, 300)
    ensures forall i :: 0 <= i < |done| ==> done[i].openTime == 0 || done[i].openTime == 300
    ensures MinutesOf(m, 0, iv) == map[0 := a] && MinutesOf(m, 300, iv) == map[300 := b]
  {
    hide OpenTime;
    WindowAt(0, iv, 0);
    WindowAt(300, iv, 1);
    WindowAt(900, iv, 3);
    ClosedWindow(m, 0, 0, iv, done);
    ClosedWindow(m, 300, 300, iv, done);
    forall i | 0 <= i < |done| ensures done[i].openTime == 0 || done[i].openTime == 300 {
      assert IsClosed(m, done[i].openTime, iv, 900);
    }
    assert MinutesOf(m, 0, iv) == map[0 := a];
    assert MinutesOf(m, 300, iv) == map[300 := b];
  }

  lemma FineWindows(m: map<int, Arrival>, a: Arrival, b: Arrival, e: Arrival, iv: Interval, done: seq<Window>)
    requires TimeOf(a) == 0 && TimeOf(b) == 300 && TimeOf(e) == 900 && m == map[0 := a, 300 := b, 900 := e]
    requires iv == M5 && CompletedClosedWindows(done, m, 900, iv) && OpensIncrease(done)
    ensures done == [Window(0, map[0 := a]), Window(300, map[300 := b])]
  {
    hide OpenTime, MinutesOf, IsClosed, Completed, Duration, OpensIncrease;
    FineOpens(m, a, b, e, iv, done);
    TwoOpens(done);
  }

  /** The only completed coarse candle has the low 5, the merge of the two
      completed fine candles inside it the low 0. */
  ghost predicate FiveAgainstZero(sf: Stream, sc: Stream, length: int) {
    && |sc.done| == 1 && sc.done[0].openTime == 0
    && StreamBar(InOrder(sc.done[0].minutes)).low == 5
    && var ws := Inside(sf.done, 0, length);
       |ws| == 2 && Merge(GroupsOf(ws)).low == 0
  }

  /** Every run of three updates, of which the first 5m window has the single low
      0 and the second the single low 5, ends with different lows. */
  lemma NestedLowsDiffer(us: seq<MinuteCandle>, sf: Stream, sc: Stream)
    requires |us| == 3 && us[0].openTime == 0 && us[1].openTime == 300 && us[2].openTime == 900
    requires us[0].low == 0 && us[1].low == 5
    requires Reaches(us, M5, sf) && Reaches(us, M15, sc)
    ensures TimeOrdered(us) && FiveAgainstZero(sf, sc, Duration(M15))
  {
    hide OpenTime, Reaches, InOrder, StreamBar, Merge, LastRevision, BuildsOpenWindows;
    ThreeUpdates(us);
    FixedLengthOwnWindow(us, M5);
    FixedLengthOwnWindow(us, M15);
    InOrderRunState(us, M5, sf);
    InOrderRunState(us, M15, sc);
    CompletedInOrder(us, M5, sf);
    var a, b, e := Arrival(0, us[0]), Arrival(1, us[1]), Arrival(2, us[2]);
    CoarseWindow(LastRevision(us), a, b, e, M15, sc.done);
    FineWindows(LastRevision(us), a, b, e, M5, sf.done);
    TwoMinutes(a, b);
    ZeroLowIsLost(us[0], us[1]);
    ZeroThenFive(us[0], us[1]);
    assert Inside(sf.done, 0, 900) == sf.done by { BothInside(sf.done); }
    var gs: Groups := [[us[0]], [us[1]]];
    assert GroupsOf(sf.done) == gs;
  }

  lemma BothInside(done: seq<Window>)
    requires |done| == 2 && done[0].openTime == 0 && done[1].openTime == 300
    ensures Inside(done, 0, 900) == done
  {
    assert Init(done) == [done[0]] && Init(Init(done)) == [];
    assert Inside(Init(done), 0, 900) == [] + [done[0]];
    assert done == [done[0]] + [done[1]];
  }
}
