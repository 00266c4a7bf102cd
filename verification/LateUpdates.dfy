/** Updates that arrive late: for arbitrary arrivals, exactly when every window
    is completed at most once. */
module LateUpdates {
  import opened Candles
  import opened TimeWindows
  import opened Folding
  import opened Streams
  import opened InOrderRuns

  ghost predicate Twice(done: seq<Window>, o: int) {
    exists i, j :: 0 <= i < j < |done| && done[i].openTime == o && done[j].openTime == o
  }

  /** Update i belongs to window o. */
  predicate Fills(us: seq<MinuteCandle>, iv: Interval, o: int, i: int) {
    0 <= i < |us| && OpenTime(us[i].openTime, iv) == o
  }

  /** Update i comes at or after the end of window o. */
  predicate Ends(us: seq<MinuteCandle>, iv: Interval, o: int, i: int) {
    0 <= i < |us| && us[i].openTime >= o + Duration(iv)
  }

  ghost predicate Opened(us: seq<MinuteCandle>, iv: Interval, o: int) {
    exists i :: Fills(us, iv, o, i)
  }

  ghost predicate Ended(us: seq<MinuteCandle>, iv: Interval, o: int) {
    exists i, j :: i < j && Fills(us, iv, o, i) && Ends(us, iv, o, j)
  }

  ghost predicate Reopened(us: seq<MinuteCandle>, iv: Interval, o: int) {
    exists i, j, l :: i < j <= l && Fills(us, iv, o, i) && Ends(us, iv, o, j) && Fills(us, iv, o, l)
  }

  /** An update opens window o, a later one ends it, a late one opens it again
      (the ending one itself, if it falls outside its own window), and a further
      one ends it again. */
  ghost predicate EndedAgain(us: seq<MinuteCandle>, iv: Interval, o: int) {
    exists i, j, l, k :: i < j <= l < k &&
      Fills(us, iv, o, i) && Ends(us, iv, o, j) && Fills(us, iv, o, l) && Ends(us, iv, o, k)
  }

  // --------------------------------------------------------------- the phases of a window

  /** 0: never opened, 1: open, 2: ended, 3: open again, 4: ended again. */
  function WindowPhase(us: seq<MinuteCandle>, iv: Interval, o: int): (p: int)
    ensures 0 <= p <= 4
  {
    if |us| == 0 then 0
    else NextPhase(WindowPhase(Init(us), iv, o), Ends(us, iv, o, |us| - 1), Fills(us, iv, o, |us| - 1))
  }

  /** An update ends an open window and then opens one that it fills. */
  function NextPhase(p: int, ends: bool, fills: bool): (q: int)
    requires 0 <= p <= 4
    ensures 0 <= q <= 4
  {
    var r := if ends && (p == 1 || p == 3) then p + 1 else p;
    if fills && (r == 0 || r == 2) then r + 1 else r
  }

  lemma FillsPrefix(us: seq<MinuteCandle>, iv: Interval, o: int, i: int)
    requires |us| > 0
    ensures i != |us| - 1 ==> (Fills(us, iv, o, i) <==> Fills(Init(us), iv, o, i))
    ensures i != |us| - 1 ==> (Ends(us, iv, o, i) <==> Ends(Init(us), iv, o, i))
    ensures Fills(us, iv, o, |us| - 1) <==> OpenTime(Last(us).openTime, iv) == o
    ensures Ends(us, iv, o, |us| - 1) <==> Last(us).openTime >= o + Duration(iv)
  {
    hide OpenTime, Duration;
  }

  lemma OpenedNext(us: seq<MinuteCandle>, iv: Interval, o: int)
    requires |us| > 0
    ensures Opened(us, iv, o) <==> Opened(Init(us), iv, o) || Fills(us, iv, o, |us| - 1)
  {
    hide Fills, Ends;
    if i :| Fills(Init(us), iv, o, i) {
      InPrefix(us, iv, o, i);
      FillsPrefix(us, iv, o, i);
    }
    if i :| Fills(us, iv, o, i) && i != |us| - 1 {
      FillsPrefix(us, iv, o, i);
    }
  }

  lemma InPrefix(us: seq<MinuteCandle>, iv: Interval, o: int, i: int)
    requires |us| > 0
    ensures Fills(Init(us), iv, o, i) || Ends(Init(us), iv, o, i) ==> 0 <= i < |us| - 1
    ensures Fills(us, iv, o, i) || Ends(us, iv, o, i) ==> 0 <= i < |us|
  {
    hide OpenTime, Duration;
  }

  lemma EndedNext(us: seq<MinuteCandle>, iv: Interval, o: int)
    requires |us| > 0
    ensures Ended(us, iv, o) <==>
            Ended(Init(us), iv, o) || (Opened(Init(us), iv, o) && Ends(us, iv, o, |us| - 1))
  {
    hide Fills, Ends;
    var n := |us| - 1;
    if Ended(us, iv, o) {
      var i, j :| i < j && Fills(us, iv, o, i) && Ends(us, iv, o, j);
      InPrefix(us, iv, o, j);
      FillsPrefix(us, iv, o, i);
      FillsPrefix(us, iv, o, j);
      assert Fills(Init(us), iv, o, i);
    }
    if Ended(Init(us), iv, o) {
      var i, j :| i < j && Fills(Init(us), iv, o, i) && Ends(Init(us), iv, o, j);
      InPrefix(us, iv, o, j);
      FillsPrefix(us, iv, o, i);
      FillsPrefix(us, iv, o, j);
      assert Fills(us, iv, o, i) && Ends(us, iv, o, j);
    }
    if i :| Fills(Init(us), iv, o, i) {
      InPrefix(us, iv, o, i);
      FillsPrefix(us, iv, o, i);
      assert Ends(us, iv, o, n) ==> Ended(us, iv, o);
    }
  }

  lemma ReopenedAt(us: seq<MinuteCandle>, iv: Interval, o: int, i: int, j: int, l: int)
    requires i < j <= l && Fills(us, iv, o, i) && Ends(us, iv, o, j) && Fills(us, iv, o, l)
    ensures Reopened(us, iv, o)
  {
    hide Fills, Ends;
  }

  lemma ReopenedIndices(us: seq<MinuteCandle>, iv: Interval, o: int) returns (i: int, j: int, l: int)
    requires Reopened(us, iv, o)
    ensures i < j <= l && Fills(us, iv, o, i) && Ends(us, iv, o, j) && Fills(us, iv, o, l)
  {
    hide Fills, Ends;
    i, j, l :| i < j <= l && Fills(us, iv, o, i) && Ends(us, iv, o, j) && Fills(us, iv, o, l);
  }

  lemma EndedAt(us: seq<MinuteCandle>, iv: Interval, o: int, i: int, j: int)
    requires i < j && Fills(us, iv, o, i) && Ends(us, iv, o, j)
    ensures Ended(us, iv, o)
  {
    hide Fills, Ends;
  }

  lemma ReopenedSplit(us: seq<MinuteCandle>, iv: Interval, o: int)
    requires |us| > 0 && Reopened(us, iv, o)
    ensures Reopened(Init(us), iv, o) || (Ended(us, iv, o) && Fills(us, iv, o, |us| - 1))
  {
    hide Fills, Ends, Reopened, Ended;
    var i, j, l := ReopenedIndices(us, iv, o);
    InPrefix(us, iv, o, l);
    FillsPrefix(us, iv, o, i);
    FillsPrefix(us, iv, o, j);
    FillsPrefix(us, iv, o, l);
    EndedAt(us, iv, o, i, j);
    if l < |us| - 1 {
      ReopenedAt(Init(us), iv, o, i, j, l);
    }
  }

  lemma ReopenedBefore(us: seq<MinuteCandle>, iv: Interval, o: int)
    requires |us| > 0 && Reopened(Init(us), iv, o)
    ensures Reopened(us, iv, o)
  {
    hide Fills, Ends, Reopened;
    var i, j, l := ReopenedIndices(Init(us), iv, o);
    InPrefix(us, iv, o, l);
    FillsPrefix(us, iv, o, i);
    FillsPrefix(us, iv, o, j);
    FillsPrefix(us, iv, o, l);
    ReopenedAt(us, iv, o, i, j, l);
  }

  lemma ReopenedNow(us: seq<MinuteCandle>, iv: Interval, o: int)
    requires |us| > 0 && Ended(us, iv, o) && Fills(us, iv, o, |us| - 1)
    ensures Reopened(us, iv, o)
  {
    hide Fills, Ends, Reopened;
    var i, j :| i < j && Fills(us, iv, o, i) && Ends(us, iv, o, j);
    InPrefix(us, iv, o, j);
    ReopenedAt(us, iv, o, i, j, |us| - 1);
  }

  lemma ReopenedNext(us: seq<MinuteCandle>, iv: Interval, o: int)
    requires |us| > 0
    ensures Reopened(us, iv, o) <==> Reopened(Init(us), iv, o) || (Ended(us, iv, o) && Fills(us, iv, o, |us| - 1))
  {
    hide Reopened, Ended, Fills;
    if Reopened(us, iv, o) {
      ReopenedSplit(us, iv, o);
    }
    if Reopened(Init(us), iv, o) {
      ReopenedBefore(us, iv, o);
    }
    if Ended(us, iv, o) && Fills(us, iv, o, |us| - 1) {
      ReopenedNow(us, iv, o);
    }
  }

  lemma EndedAgainAt(us: seq<MinuteCandle>, iv: Interval, o: int, i: int, j: int, l: int, k: int)
    requires i < j <= l < k && Fills(us, iv, o, i) && Ends(us, iv, o, j) && Fills(us, iv, o, l) && Ends(us, iv, o, k)
    ensures EndedAgain(us, iv, o)
  {
    hide Fills, Ends;
  }

  lemma EndedAgainIndices(us: seq<MinuteCandle>, iv: Interval, o: int) returns (i: int, j: int, l: int, k: int)
    requires EndedAgain(us, iv, o)
    ensures i < j <= l < k && Fills(us, iv, o, i) && Ends(us, iv, o, j) && Fills(us, iv, o, l) && Ends(us, iv, o, k)
  {
    hide Fills, Ends;
    i, j, l, k :| i < j <= l < k &&
      Fills(us, iv, o, i) && Ends(us, iv, o, j) && Fills(us, iv, o, l) && Ends(us, iv, o, k);
  }

  lemma EndedAgainSplit(us: seq<MinuteCandle>, iv: Interval, o: int)
    requires |us| > 0 && EndedAgain(us, iv, o)
    ensures EndedAgain(Init(us), iv, o) || (Reopened(Init(us), iv, o) && Ends(us, iv, o, |us| - 1))
  {
    hide Fills, Ends, EndedAgain, Reopened;
    var i, j, l, k := EndedAgainIndices(us, iv, o);
    InPrefix(us, iv, o, k);
    FillsPrefix(us, iv, o, i);
    FillsPrefix(us, iv, o, j);
    FillsPrefix(us, iv, o, l);
    FillsPrefix(us, iv, o, k);
    ReopenedAt(Init(us), iv, o, i, j, l);
    if k < |us| - 1 {
      EndedAgainAt(Init(us), iv, o, i, j, l, k);
    }
  }

  lemma EndedAgainBefore(us: seq<MinuteCandle>, iv: Interval, o: int)
    requires |us| > 0 && EndedAgain(Init(us), iv, o)
    ensures EndedAgain(us, iv, o)
  {
    hide Fills, Ends, EndedAgain;
    var i, j, l, k := EndedAgainIndices(Init(us), iv, o);
    InPrefix(us, iv, o, k);
    FillsPrefix(us, iv, o, i);
    FillsPrefix(us, iv, o, j);
    FillsPrefix(us, iv, o, l);
    FillsPrefix(us, iv, o, k);
    EndedAgainAt(us, iv, o, i, j, l, k);
  }

  lemma EndedAgainNow(us: seq<MinuteCandle>, iv: Interval, o: int)
    requires |us| > 0 && Reopened(Init(us), iv, o) && Ends(us, iv, o, |us| - 1)
    ensures EndedAgain(us, iv, o)
  {
    hide Fills, Ends, EndedAgain, Reopened;
    var i, j, l := ReopenedIndices(Init(us), iv, o);
    InPrefix(us, iv, o, l);
    FillsPrefix(us, iv, o, i);
    FillsPrefix(us, iv, o, j);
    FillsPrefix(us, iv, o, l);
    EndedAgainAt(us, iv, o, i, j, l, |us| - 1);
  }

  lemma EndedAgainNext(us: seq<MinuteCandle>, iv: Interval, o: int)
    requires |us| > 0
    ensures EndedAgain(us, iv, o) <==>
            EndedAgain(Init(us), iv, o) || (Reopened(Init(us), iv, o) && Ends(us, iv, o, |us| - 1))
  {
    hide EndedAgain, Reopened, Ends;
    if EndedAgain(us, iv, o) {
      EndedAgainSplit(us, iv, o);
    }
    if EndedAgain(Init(us), iv, o) {
      EndedAgainBefore(us, iv, o);
    }
    if Reopened(Init(us), iv, o) && Ends(us, iv, o, |us| - 1) {
      EndedAgainNow(us, iv, o);
    }
  }

  /** The phase of a window, told by the order of the updates that fill and end it. */
  lemma {:induction false} PhaseExactly(us: seq<MinuteCandle>, iv: Interval, o: int)
    ensures WindowPhase(us, iv, o) >= 1 <==> Opened(us, iv, o)
    ensures WindowPhase(us, iv, o) >= 2 <==> Ended(us, iv, o)
    ensures WindowPhase(us, iv, o) >= 3 <==> Reopened(us, iv, o)
    ensures WindowPhase(us, iv, o) >= 4 <==> EndedAgain(us, iv, o)
  {
    hide Opened, Ended, Reopened, EndedAgain, Fills, Ends;
    if |us| == 0 {
      NothingYet(us, iv, o);
    } else {
      PhaseExactly(Init(us), iv, o);
      OpenedNext(us, iv, o);
      EndedNext(us, iv, o);
      ReopenedNext(us, iv, o);
      EndedAgainNext(us, iv, o);
    }
  }

  lemma NothingYet(us: seq<MinuteCandle>, iv: Interval, o: int)
    requires |us| == 0
    ensures !Opened(us, iv, o) && !Ended(us, iv, o) && !Reopened(us, iv, o) && !EndedAgain(us, iv, o)
  {
    hide OpenTime, Duration;
  }

  // --------------------------------------------------------------- the state

  /** What the phase of a window says about the state. */
  ghost predicate InPhase(s: Stream, o: int, p: int) {
    && ((p == 1 || p == 3) ==> o in s.building)
    && ((p == 0 || p == 2) ==> o !in s.building)
    && (p >= 2 <==> Completed(s.done, o))
    && (p >= 4 <==> Twice(s.done, o))
  }

  lemma CompletedNext(s: Stream, o: int, t: int, iv: Interval, order: seq<int>)
    requires ClosingOrder(s, t, iv, order)
    ensures Completed(s.done + Closed(s, order), o) <==> Completed(s.done, o) || Expired(s, o, t, iv)
  {
    hide OpenTime, Duration;
    var done := s.done + Closed(s, order);
    if Completed(s.done, o) || o in order {
      CompletedAfter(s, o, order);
    }
    if Completed(done, o) {
      var i :| 0 <= i < |done| && done[i].openTime == o;
      FromOrder(s, o, order, i);
    }
  }

  lemma TwiceNow(s: Stream, o: int, t: int, iv: Interval, order: seq<int>)
    requires ClosingOrder(s, t, iv, order)
    requires Twice(s.done, o) || (Completed(s.done, o) && Expired(s, o, t, iv))
    ensures Twice(s.done + Closed(s, order), o)
  {
    hide OpenTime, Duration;
    var done := s.done + Closed(s, order);
    if Twice(s.done, o) {
      var i, j :| 0 <= i < j < |s.done| && s.done[i].openTime == o && s.done[j].openTime == o;
      assert done[i].openTime == o && done[j].openTime == o;
    } else {
      var i :| 0 <= i < |s.done| && s.done[i].openTime == o;
      var j :| 0 <= j < |order| && order[j] == o;
      assert done[i].openTime == o && done[|s.done| + j].openTime == o;
    }
  }

  lemma TwiceFrom(s: Stream, o: int, t: int, iv: Interval, order: seq<int>)
    requires ClosingOrder(s, t, iv, order) && Twice(s.done + Closed(s, order), o)
    ensures Twice(s.done, o) || (Completed(s.done, o) && Expired(s, o, t, iv))
  {
    hide OpenTime, Duration;
    var done := s.done + Closed(s, order);
    var i, j :| 0 <= i < j < |done| && done[i].openTime == o && done[j].openTime == o;
    FromOrder(s, o, order, i);
    FromOrder(s, o, order, j);
    DistinctPair(order, i - |s.done|, j - |s.done|);
  }

  lemma TwiceNext(s: Stream, o: int, t: int, iv: Interval, order: seq<int>)
    requires ClosingOrder(s, t, iv, order)
    ensures Twice(s.done + Closed(s, order), o) <==>
            Twice(s.done, o) || (Completed(s.done, o) && Expired(s, o, t, iv))
  {
    hide Twice, Completed, Duration;
    if Twice(s.done + Closed(s, order), o) {
      TwiceFrom(s, o, t, iv, order);
    }
    if Twice(s.done, o) || (Completed(s.done, o) && Expired(s, o, t, iv)) {
      TwiceNow(s, o, t, iv, order);
    }
  }

  lemma FromOrder(s: Stream, o: int, order: seq<int>, i: int)
    requires forall i :: 0 <= i < |order| ==> order[i] in s.building
    requires 0 <= i < |s.done| + |order| && (s.done + Closed(s, order))[i].openTime == o
    ensures i < |s.done| ==> s.done[i].openTime == o
    ensures i >= |s.done| ==> order[i - |s.done|] == o
  {
  }

  lemma PhaseStep(us: seq<MinuteCandle>, iv: Interval, p: Stream, s: Stream, o: int)
    requires |us| > 0 && WellFiled(p, Init(us), iv) && Step(p, LastArrival(us), iv, s)
    requires InPhase(p, o, WindowPhase(Init(us), iv, o))
    ensures InPhase(s, o, WindowPhase(us, iv, o))
  {
    hide OpenTime, Duration, Completed, Twice, Filed;
    var t := LastTime(us);
    var order :| ClosingOrder(p, t, iv, order) && s.done == p.done + Closed(p, order);
    CompletedNext(p, o, t, iv, order);
    TwiceNext(p, o, t, iv, order);
    StillOpen(us, iv, p, s, o);
  }

  lemma StillOpen(us: seq<MinuteCandle>, iv: Interval, p: Stream, s: Stream, o: int)
    requires |us| > 0 && WellFiled(p, Init(us), iv) && Step(p, LastArrival(us), iv, s)
    ensures Expired(p, o, LastTime(us), iv) <==> o in p.building && o + Duration(iv) <= LastTime(us)
    ensures o in s.building <==>
            (o in p.building && o + Duration(iv) > LastTime(us)) || OpenTime(LastTime(us), iv) == o
  {
    hide OpenTime, Duration;
  }

  lemma {:induction false} RunInPhase(us: seq<MinuteCandle>, iv: Interval, s: Stream, o: int)
    requires Reaches(us, iv, s)
    ensures InPhase(s, o, WindowPhase(us, iv, o))
    decreases |us|
  {
    if |us| > 0 {
      hide OpenTime, Step, InPhase, WindowPhase;
      var p :| Reaches(Init(us), iv, p) && Step(p, LastArrival(us), iv, s);
      RunInPhase(Init(us), iv, p, o);
      RunsAreWellFiled(Init(us), iv, p);
      PhaseStep(us, iv, p, s, o);
    }
  }

  /** After any run, in whatever order the updates arrive, a window has been
      completed more than once exactly when updates opened it, ended it, opened it
      again and ended it again, in that order. */
  lemma CompletedTwiceExactly(us: seq<MinuteCandle>, iv: Interval, s: Stream, o: int)
    requires Reaches(us, iv, s)
    ensures Twice(s.done, o) <==> EndedAgain(us, iv, o)
    ensures Completed(s.done, o) <==> Ended(us, iv, o)
  {
    hide Reaches, WindowPhase, EndedAgain, Ended, Opened, Reopened, Twice, Completed;
    RunInPhase(us, iv, s, o);
    PhaseExactly(us, iv, o);
  }

  /** Every window is completed at most once exactly when no window is ended,
      opened again by a late update and ended again. */
  lemma OnceExactly(us: seq<MinuteCandle>, iv: Interval, s: Stream)
    requires Reaches(us, iv, s)
    ensures EachOnce(s.done) <==> forall o :: !EndedAgain(us, iv, o)
  {
    hide Reaches, EndedAgain, Ended, Completed;
    forall o ensures Twice(s.done, o) <==> EndedAgain(us, iv, o) {
      CompletedTwiceExactly(us, iv, s, o);
    }
    if !EachOnce(s.done) {
      var i, j :| 0 <= i < j < |s.done| && s.done[i].openTime == s.done[j].openTime;
      assert Twice(s.done, s.done[i].openTime);
    }
  }

  lemma FillsAt(us: seq<MinuteCandle>, iv: Interval, i: nat, q: int)
    requires i < |us| && FixedLength(iv) && Phase(iv) == 0
    requires q * Duration(iv) <= us[i].openTime < q * Duration(iv) + Duration(iv)
    ensures Fills(us, iv, q * Duration(iv), i)
  {
    hide OpenTime, Duration;
    WindowAt(us[i].openTime, iv, q);
  }

  /** Updates at minutes 0, 5, 1 and 10: the first 5m window is completed twice. */
  lemma LateMinuteRepeats(us: seq<MinuteCandle>, iv: Interval, s: Stream)
    requires |us| == 4 && us[0].openTime == 0 && us[1].openTime == 300 && us[2].openTime == 60 && us[3].openTime == 600
    requires iv == M5 && Reaches(us, iv, s)
    ensures !EachOnce(s.done)
  {
    hide OpenTime, Reaches, EndedAgain, Fills, EachOnce;
    FillsAt(us, iv, 0, 0);
    FillsAt(us, iv, 2, 0);
    EndedAgainAt(us, iv, 0, 0, 1, 2, 3);
    OnceExactly(us, iv, s);
  }
}
