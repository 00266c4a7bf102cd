/** Runs whose updates arrive with non-decreasing open times: which windows the
    aggregator completes, with which contents and in which order, and exactly
    which candles break this. */
module InOrderRuns {
  import opened Candles
  import opened TimeWindows
  import opened Folding
  import opened Streams

  ghost predicate TimeOrdered(us: seq<MinuteCandle>) {
    forall i, j :: 0 <= i < j < |us| ==> us[i].openTime <= us[j].openTime
  }

  predicate AllInOwnWindow(us: seq<MinuteCandle>, iv: Interval) {
    forall i :: 0 <= i < |us| ==> InOwnWindow(us[i].openTime, iv)
  }

  /** The open time of the last update; 0 before the first. */
  function LastTime(us: seq<MinuteCandle>): nat {
    if |us| == 0 then 0 else Last(us).openTime
  }

  /** The last revision received of every minute. */
  function LastRevision(us: seq<MinuteCandle>): map<int, Arrival> {
    if |us| == 0 then map[]
    else LastRevision(Init(us))[Last(us).openTime := LastArrival(us)]
  }

  // --------------------------------------------------------------- windows of a set of minutes

  /** Keyed by the candle's own open time. */
  predicate WellKeyed(m: map<int, Arrival>) {
    forall k :: k in m ==> TimeOf(m[k]) == k
  }

  /** Some minute of m belongs to window o. */
  ghost predicate HasWindow(m: map<int, Arrival>, o: int, iv: Interval) {
    exists k :: k in m && WindowOf(m[k], iv) == o
  }

  function MinutesOf(m: map<int, Arrival>, o: int, iv: Interval): map<int, Arrival> {
    map k | k in m && WindowOf(m[k], iv) == o :: m[k]
  }

  lemma WindowsAfterUpdate(m: map<int, Arrival>, a: Arrival, o: int, iv: Interval)
    requires WellKeyed(m)
    ensures HasWindow(m[TimeOf(a) := a], o, iv) <==> HasWindow(m, o, iv) || o == WindowOf(a, iv)
  {
    hide OpenTime;
    var m' := m[TimeOf(a) := a];
    if HasWindow(m, o, iv) {
      var k :| k in m && WindowOf(m[k], iv) == o;
      assert k in m' && WindowOf(m'[k], iv) == o;
    }
    assert TimeOf(a) in m' && m'[TimeOf(a)] == a;
  }

  lemma MinutesAfterUpdate(m: map<int, Arrival>, a: Arrival, o: int, iv: Interval)
    requires WellKeyed(m)
    ensures MinutesOf(m[TimeOf(a) := a], o, iv) ==
            if o == WindowOf(a, iv) then MinutesOf(m, o, iv)[TimeOf(a) := a] else MinutesOf(m, o, iv)
  {
    hide OpenTime;
  }

  lemma MinutesNonEmpty(m: map<int, Arrival>, o: int, iv: Interval)
    ensures HasWindow(m, o, iv) <==> MinutesOf(m, o, iv) != map[]
  {
    hide OpenTime;
    var ms := MinutesOf(m, o, iv);
    if ms != map[] {
      var k := Pick(ms.Keys);
      assert k in m && WindowOf(m[k], iv) == o;
    }
    if HasWindow(m, o, iv) {
      var k :| k in m && WindowOf(m[k], iv) == o;
      assert k in ms;
    }
  }

  // --------------------------------------------------------------- the state after an in-order run

  /** The windows still building are those of m that end after t, with all their minutes. */
  ghost predicate BuildsOpenWindows(s: Stream, m: map<int, Arrival>, t: int, iv: Interval) {
    && (forall o :: o in s.building <==> HasWindow(m, o, iv) && o + Duration(iv) > t)
    && (forall o :: o in s.building ==> s.building[o] == MinutesOf(m, o, iv))
  }

  /** Window o of m has ended at time t. */
  ghost predicate IsClosed(m: map<int, Arrival>, o: int, iv: Interval, t: int) {
    HasWindow(m, o, iv) && o + Duration(iv) <= t
  }

  ghost predicate EachOnce(done: seq<Window>) {
    forall i, j :: 0 <= i < j < |done| ==> done[i].openTime != done[j].openTime
  }

  ghost predicate Completed(done: seq<Window>, o: int) {
    exists i :: 0 <= i < |done| && done[i].openTime == o
  }

  /** The windows completed are those of m that end at or before t, each once, with all their minutes. */
  ghost predicate CompletedClosedWindows(done: seq<Window>, m: map<int, Arrival>, t: int, iv: Interval) {
    && (forall i, j :: 0 <= i < j < |done| ==> done[i].openTime != done[j].openTime)
    && (forall i :: 0 <= i < |done| ==>
          && IsClosed(m, done[i].openTime, iv, t)
          && done[i].minutes == MinutesOf(m, done[i].openTime, iv))
    && (forall o :: IsClosed(m, o, iv, t) ==> Completed(done, o))
  }

  lemma RemainingWindows(s: Stream, m: map<int, Arrival>, t: int, t': int, iv: Interval)
    requires BuildsOpenWindows(s, m, t, iv) && t <= t'
    ensures forall o :: o in Remaining(s, t', iv) <==> HasWindow(m, o, iv) && o + Duration(iv) > t'
    ensures forall o :: o in Remaining(s, t', iv) ==> Remaining(s, t', iv)[o] == MinutesOf(m, o, iv)
  {
    hide OpenTime;
    forall o ensures o in Remaining(s, t', iv) <==> HasWindow(m, o, iv) && o + Duration(iv) > t' {
      MinutesNonEmpty(m, o, iv);
    }
  }

  lemma UpsertWindow(r: map<int, map<int, Arrival>>, m: map<int, Arrival>, a: Arrival, o: int, iv: Interval)
    requires WellKeyed(m) && InOwnWindow(TimeOf(a), iv)
    requires forall o :: o in r <==> HasWindow(m, o, iv) && o + Duration(iv) > TimeOf(a)
    requires forall o :: o in r ==> r[o] == MinutesOf(m, o, iv)
    ensures o in Upsert(r, a, iv) <==> HasWindow(m[TimeOf(a) := a], o, iv) && o + Duration(iv) > TimeOf(a)
    ensures o in Upsert(r, a, iv) ==> Upsert(r, a, iv)[o] == MinutesOf(m[TimeOf(a) := a], o, iv)
  {
    hide OpenTime;
    WindowsAfterUpdate(m, a, o, iv);
    MinutesAfterUpdate(m, a, o, iv);
    MinutesNonEmpty(m, o, iv);
  }

  lemma BuildsStep(s: Stream, m: map<int, Arrival>, t: int, a: Arrival, iv: Interval, s': Stream)
    requires WellKeyed(m) && BuildsOpenWindows(s, m, t, iv)
    requires s'.building == Upsert(Remaining(s, TimeOf(a), iv), a, iv)
    requires t <= TimeOf(a) && InOwnWindow(TimeOf(a), iv)
    ensures BuildsOpenWindows(s', m[TimeOf(a) := a], TimeOf(a), iv)
  {
    hide OpenTime;
    RemainingWindows(s, m, t, TimeOf(a), iv);
    var r := Remaining(s, TimeOf(a), iv);
    forall o
      ensures o in s'.building <==> HasWindow(m[TimeOf(a) := a], o, iv) && o + Duration(iv) > TimeOf(a)
      ensures o in s'.building ==> s'.building[o] == MinutesOf(m[TimeOf(a) := a], o, iv)
    {
      UpsertWindow(r, m, a, o, iv);
    }
  }

  lemma ClosedStaysClosed(m: map<int, Arrival>, o: int, a: Arrival, iv: Interval)
    requires WellKeyed(m) && InOwnWindow(TimeOf(a), iv) && IsClosed(m, o, iv, TimeOf(a))
    ensures IsClosed(m[TimeOf(a) := a], o, iv, TimeOf(a))
    ensures MinutesOf(m[TimeOf(a) := a], o, iv) == MinutesOf(m, o, iv)
  {
    hide OpenTime;
    WindowsAfterUpdate(m, a, o, iv);
    MinutesAfterUpdate(m, a, o, iv);
  }

  lemma CompletesStep(s: Stream, m: map<int, Arrival>, t: int, a: Arrival, iv: Interval, order: seq<int>)
    requires WellKeyed(m) && BuildsOpenWindows(s, m, t, iv) && CompletedClosedWindows(s.done, m, t, iv)
    requires ClosingOrder(s, TimeOf(a), iv, order)
    requires t <= TimeOf(a) && InOwnWindow(TimeOf(a), iv)
    ensures CompletedClosedWindows(s.done + Closed(s, order), m[TimeOf(a) := a], TimeOf(a), iv)
  {
    hide OpenTime;
    var m', t' := m[TimeOf(a) := a], TimeOf(a);
    var done := s.done + Closed(s, order);
    forall i | 0 <= i < |done|
      ensures IsClosed(m', done[i].openTime, iv, t') && done[i].minutes == MinutesOf(m', done[i].openTime, iv)
    {
      ClosedStaysClosed(m, done[i].openTime, a, iv);
    }
    forall o | IsClosed(m', o, iv, t') ensures Completed(done, o) {
      CompletedOrClosing(s, m, t, a, iv, o);
      CompletedAfter(s, o, order);
    }
    DistinctStep(s, m, t, a, iv, order);
  }

  lemma CompletedAfter(s: Stream, o: int, order: seq<int>)
    requires forall i :: 0 <= i < |order| ==> order[i] in s.building
    requires Completed(s.done, o) || o in order
    ensures Completed(s.done + Closed(s, order), o)
  {
    var done := s.done + Closed(s, order);
    if Completed(s.done, o) {
      var i :| 0 <= i < |s.done| && s.done[i].openTime == o;
      assert done[i].openTime == o;
    } else {
      var j :| 0 <= j < |order| && order[j] == o;
      assert done[|s.done| + j].openTime == o;
    }
  }

  lemma DistinctStep(s: Stream, m: map<int, Arrival>, t: int, a: Arrival, iv: Interval, order: seq<int>)
    requires BuildsOpenWindows(s, m, t, iv) && CompletedClosedWindows(s.done, m, t, iv)
    requires ClosingOrder(s, TimeOf(a), iv, order)
    ensures var done := s.done + Closed(s, order);
            forall i, j :: 0 <= i < j < |done| ==> done[i].openTime != done[j].openTime
  {
    hide OpenTime;
  }

  lemma CompletedOrClosing(s: Stream, m: map<int, Arrival>, t: int, a: Arrival, iv: Interval, o: int)
    requires WellKeyed(m) && BuildsOpenWindows(s, m, t, iv)
    requires t <= TimeOf(a) && InOwnWindow(TimeOf(a), iv)
    requires IsClosed(m[TimeOf(a) := a], o, iv, TimeOf(a))
    ensures IsClosed(m, o, iv, t) || Expired(s, o, TimeOf(a), iv)
  {
    hide OpenTime;
    WindowsAfterUpdate(m, a, o, iv);
    MinutesNonEmpty(m, o, iv);
  }

  /** Update i is the last of its minute. */
  ghost predicate IsLastOfMinute(us: seq<MinuteCandle>, i: int) {
    0 <= i < |us| && forall j :: i < j < |us| ==> us[j].openTime != us[i].openTime
  }

  /** The last revisions are the last update of every minute, and no others. */
  lemma {:induction false} LastRevisionIsLast(us: seq<MinuteCandle>, k: int)
    ensures k in LastRevision(us) <==> exists i :: IsLastOfMinute(us, i) && us[i].openTime == k
    ensures forall i :: IsLastOfMinute(us, i) && us[i].openTime == k ==>
              k in LastRevision(us) && LastRevision(us)[k] == Arrival(i, us[i])
  {
    if |us| > 0 {
      var n := |us| - 1;
      LastRevisionIsLast(Init(us), k);
      assert forall i :: 0 <= i < n ==> Init(us)[i] == us[i];
      if us[n].openTime == k {
        assert IsLastOfMinute(us, n);
      } else {
        assert forall i :: IsLastOfMinute(us, i) && us[i].openTime == k <==>
                           IsLastOfMinute(Init(us), i) && Init(us)[i].openTime == k;
        if k in LastRevision(Init(us)) {
          var i :| IsLastOfMinute(Init(us), i) && Init(us)[i].openTime == k;
          assert IsLastOfMinute(us, i);
        }
      }
    }
  }

  lemma {:induction false} LastRevisionKeyed(us: seq<MinuteCandle>)
    ensures WellKeyed(LastRevision(us))
  {
    if |us| > 0 {
      LastRevisionKeyed(Init(us));
    }
  }

  ghost predicate Describes(s: Stream, m: map<int, Arrival>, t: int, iv: Interval) {
    BuildsOpenWindows(s, m, t, iv) && CompletedClosedWindows(s.done, m, t, iv)
  }

  lemma DescribesStep(s: Stream, m: map<int, Arrival>, t: int, a: Arrival, iv: Interval, s': Stream)
    requires WellKeyed(m) && Describes(s, m, t, iv) && Step(s, a, iv, s')
    requires t <= TimeOf(a) && InOwnWindow(TimeOf(a), iv)
    ensures Describes(s', m[TimeOf(a) := a], TimeOf(a), iv)
  {
    hide OpenTime;
    BuildsStep(s, m, t, a, iv, s');
    var order :| ClosingOrder(s, TimeOf(a), iv, order) && s'.done == s.done + Closed(s, order);
    CompletesStep(s, m, t, a, iv, order);
  }

  lemma NothingReceived(iv: Interval)
    ensures Describes(EMPTY_STREAM, map[], 0, iv)
  {
  }

  lemma OrderedPrefix(us: seq<MinuteCandle>)
    requires |us| > 0 && TimeOrdered(us)
    ensures TimeOrdered(Init(us)) && LastTime(Init(us)) <= TimeOf(LastArrival(us)) == LastTime(us)
  {
  }

  lemma OwnWindowPrefix(us: seq<MinuteCandle>, iv: Interval)
    requires |us| > 0 && AllInOwnWindow(us, iv)
    ensures AllInOwnWindow(Init(us), iv) && InOwnWindow(TimeOf(LastArrival(us)), iv)
  {
  }

  /** After an in-order run in which every candle lies in its own window, the
      windows completed are exactly the closed ones and the windows building are
      exactly the open ones, with the last revision of every minute. */
  lemma {:induction false} InOrderRunState(us: seq<MinuteCandle>, iv: Interval, s: Stream)
    requires Reaches(us, iv, s) && TimeOrdered(us) && AllInOwnWindow(us, iv)
    ensures Describes(s, LastRevision(us), LastTime(us), iv)
  {
    if |us| == 0 {
      NothingReceived(iv);
    } else {
      var p :| Reaches(Init(us), iv, p) && Step(p, LastArrival(us), iv, s);
      OrderedPrefix(us);
      OwnWindowPrefix(us, iv);
      InOrderRunState(Init(us), iv, p);
      LastRevisionKeyed(Init(us));
      DescribesStep(p, LastRevision(Init(us)), LastTime(Init(us)), LastArrival(us), iv, s);
    }
  }

  // --------------------------------------------------------------- fixed-length intervals: order

  ghost predicate OpensIncrease(done: seq<Window>) {
    forall i, j :: 0 <= i < j < |done| ==> done[i].openTime < done[j].openTime
  }

  lemma FixedLengthOwnWindow(us: seq<MinuteCandle>, iv: Interval)
    requires FixedLength(iv)
    ensures AllInOwnWindow(us, iv)
  {
    forall i | 0 <= i < |us| ensures InOwnWindow(us[i].openTime, iv) {
      WindowsPartitionTime(us[i].openTime, us[i].openTime, iv);
    }
  }

  lemma {:induction false} LastRevisionTimes(us: seq<MinuteCandle>)
    requires TimeOrdered(us)
    ensures forall k :: k in LastRevision(us) ==> 0 <= k <= LastTime(us)
  {
    if |us| > 0 {
      OrderedPrefix(us);
      LastRevisionTimes(Init(us));
    }
  }

  lemma OnlyCurrentWindow(s: Stream, m: map<int, Arrival>, t: nat, iv: Interval)
    requires FixedLength(iv) && WellKeyed(m) && BuildsOpenWindows(s, m, t, iv)
    requires forall k :: k in m ==> k <= t
    ensures forall o :: o in s.building ==> o == OpenTime(t, iv)
  {
    hide OpenTime;
    forall o | o in s.building ensures o == OpenTime(t, iv) {
      var k :| k in m && WindowOf(m[k], iv) == o;
      WindowsPartitionTime(TimeOf(m[k]), t, iv);
    }
  }

  /** In-order runs leave at most one window building, the one of the last update. */
  lemma AtMostOneBuilding(us: seq<MinuteCandle>, iv: Interval, s: Stream)
    requires Reaches(us, iv, s) && TimeOrdered(us) && FixedLength(iv)
    ensures forall o :: o in s.building ==> o == OpenTime(LastTime(us), iv)
    ensures |us| > 0 ==> OpenTime(LastTime(us), iv) in s.building
  {
    hide OpenTime;
    FixedLengthOwnWindow(us, iv);
    InOrderRunState(us, iv, s);
    LastRevisionKeyed(us);
    LastRevisionTimes(us);
    OnlyCurrentWindow(s, LastRevision(us), LastTime(us), iv);
  }

  lemma DistinctPair(order: seq<int>, i: int, j: int)
    requires forall i, j :: 0 <= i < j < |order| ==> order[i] != order[j]
    ensures 0 <= i < j < |order| ==> order[i] != order[j]
  {
  }

  lemma OrderedStep(s: Stream, m: map<int, Arrival>, t: nat, iv: Interval, t': int, order: seq<int>)
    requires Describes(s, m, t, iv) && OpensIncrease(s.done) && ClosingOrder(s, t', iv, order)
    requires forall o :: o in s.building ==> o == OpenTime(t, iv)
    ensures OpensIncrease(s.done + Closed(s, order))
  {
    hide OpenTime;
    DistinctPair(order, 0, 1);
  }

  /** In-order runs complete the windows of a fixed-length interval in increasing order. */
  lemma {:induction false} CompletedInOrder(us: seq<MinuteCandle>, iv: Interval, s: Stream)
    requires Reaches(us, iv, s) && TimeOrdered(us) && FixedLength(iv)
    ensures OpensIncrease(s.done)
  {
    hide OpenTime, TimeOrdered, AllInOwnWindow, Describes;
    if |us| > 0 {
      var p :| Reaches(Init(us), iv, p) && Step(p, LastArrival(us), iv, s);
      OrderedPrefix(us);
      CompletedInOrder(Init(us), iv, p);
      FixedLengthOwnWindow(Init(us), iv);
      InOrderRunState(Init(us), iv, p);
      AtMostOneBuilding(Init(us), iv, p);
      var t := TimeOf(LastArrival(us));
      var order :| ClosingOrder(p, t, iv, order) && s.done == p.done + Closed(p, order);
      OrderedStep(p, LastRevision(Init(us)), LastTime(Init(us)), iv, t, order);
    }
  }

  // --------------------------------------------------------------- exactly which candles break this

  /** At every point of every run over us, the completed windows are the closed ones. */
  ghost predicate AlwaysCompletesClosed(us: seq<MinuteCandle>, iv: Interval) {
    forall n, s :: 0 <= n <= |us| && Reaches(us[..n], iv, s) ==>
      CompletedClosedWindows(s.done, LastRevision(us[..n]), LastTime(us[..n]), iv)
  }

  lemma ClosedAtOnce(m: map<int, Arrival>, a: Arrival, iv: Interval)
    requires TimeOf(a) in m && m[TimeOf(a)] == a && !InOwnWindow(TimeOf(a), iv)
    ensures IsClosed(m, WindowOf(a, iv), iv, TimeOf(a))
  {
    hide OpenTime;
    OpenTimeNotAfter(TimeOf(a), iv);
  }

  /** Completing window o with all its minutes would include the last update. */
  lemma NotYetCompleted(us: seq<MinuteCandle>, iv: Interval, p: Stream, s: Stream, m: map<int, Arrival>, o: int, t: int)
    requires |us| > 0 && Reaches(Init(us), iv, p) && Step(p, LastArrival(us), iv, s)
    requires o == WindowOf(LastArrival(us), iv) && IsClosed(m, o, iv, t)
    requires TimeOf(LastArrival(us)) in m && m[TimeOf(LastArrival(us))] == LastArrival(us)
    ensures !CompletedClosedWindows(s.done, m, t, iv)
  {
    hide OpenTime, Duration, Step, Reaches;
    assert TimeOf(LastArrival(us)) in MinutesOf(m, o, iv);
    if CompletedClosedWindows(s.done, m, t, iv) {
      var i :| 0 <= i < |s.done| && s.done[i].openTime == o;
      CompletedEarlier(us, iv, p, s, i);
      assert false;
    }
  }

  /** A candle outside its own window makes the completed windows wrong at once. */
  lemma OutsideOwnWindow(us: seq<MinuteCandle>, iv: Interval) returns (s: Stream)
    requires |us| > 0 && !InOwnWindow(LastTime(us), iv)
    ensures Reaches(us, iv, s)
    ensures !CompletedClosedWindows(s.done, LastRevision(us), LastTime(us), iv)
  {
    hide OpenTime;
    s := RunExists(us, iv);
    var p :| Reaches(Init(us), iv, p) && Step(p, LastArrival(us), iv, s);
    ClosedAtOnce(LastRevision(us), LastArrival(us), iv);
    NotYetCompleted(us, iv, p, s, LastRevision(us), WindowOf(LastArrival(us), iv), LastTime(us));
  }

  /** What a step completes was received before it. */
  lemma CompletedEarlier(us: seq<MinuteCandle>, iv: Interval, p: Stream, s: Stream, i: int)
    requires |us| > 0 && Reaches(Init(us), iv, p) && Step(p, LastArrival(us), iv, s)
    requires 0 <= i < |s.done|
    ensures Filed(s.done[i].minutes, s.done[i].openTime, Init(us), iv)
  {
    hide OpenTime;
    RunsAreWellFiled(Init(us), iv, p);
    var order :| ClosingOrder(p, TimeOf(LastArrival(us)), iv, order) && s.done == p.done + Closed(p, order);
  }

  lemma PrefixOrdered(us: seq<MinuteCandle>, n: int)
    requires 0 <= n <= |us| && TimeOrdered(us)
    ensures TimeOrdered(us[..n])
  {
  }

  /** Over in-order runs, and for every interval, the completed windows are at
      all times the closed ones if and only if every candle lies in its own
      window; by `InOwnWindowExactly` that excludes day 31 for 1M and nothing else. */
  lemma CompletionExactly(us: seq<MinuteCandle>, iv: Interval)
    requires TimeOrdered(us)
    ensures AlwaysCompletesClosed(us, iv) <==> AllInOwnWindow(us, iv)
  {
    hide OpenTime;
    if AllInOwnWindow(us, iv) {
      forall n, s | 0 <= n <= |us| && Reaches(us[..n], iv, s)
        ensures CompletedClosedWindows(s.done, LastRevision(us[..n]), LastTime(us[..n]), iv)
      {
        PrefixOrdered(us, n);
        InOrderRunState(us[..n], iv, s);
      }
    } else {
      var i :| 0 <= i < |us| && !InOwnWindow(us[i].openTime, iv);
      var s := OutsideOwnWindow(us[..i + 1], iv);
    }
  }

  /** A single 1M candle on 1970-01-31 already breaks it. */
  lemma DayThirtyOneBreaks(c: MinuteCandle)
    requires c.openTime == 30 * DAY
    ensures DayOfMonth(c.openTime) == 31
    ensures !AlwaysCompletesClosed([c], Mo1)
  {
    CivilRoundTrip(Civil(1970, 1, 31));
    InOwnWindowExactly(c.openTime, Mo1);
    CompletionExactly([c], Mo1);
    assert !InOwnWindow([c][0].openTime, Mo1);
  }

  lemma StepEndsLater(us: seq<MinuteCandle>, a: Arrival, iv: Interval, p: Stream, s: Stream)
    requires WellFiled(p, us, iv) && s.building == Upsert(Remaining(p, TimeOf(a), iv), a, iv)
    ensures forall o :: o in s.building && o != WindowOf(a, iv) ==> o + Duration(iv) > TimeOf(a)
    ensures WindowOf(a, iv) in s.building
  {
    hide OpenTime, Duration;
    var r := Remaining(p, TimeOf(a), iv);
    assert forall o :: o in s.building && o != WindowOf(a, iv) ==> o in r;
  }

  /** After any run, in order or not, every building window ends strictly after
      the last update if and only if that update lies in its own window. */
  lemma BuildingEndsLater(us: seq<MinuteCandle>, iv: Interval, s: Stream)
    requires |us| > 0 && Reaches(us, iv, s)
    ensures (forall o :: o in s.building ==> o + Duration(iv) > LastTime(us)) <==> InOwnWindow(LastTime(us), iv)
  {
    hide OpenTime, Duration, Upsert, Remaining;
    var a := LastArrival(us);
    var p :| Reaches(Init(us), iv, p) && Step(p, a, iv, s);
    RunsAreWellFiled(Init(us), iv, p);
    StepEndsLater(Init(us), a, iv, p, s);
    OpenTimeNotAfter(TimeOf(a), iv);
    if WindowOf(a, iv) + Duration(iv) > TimeOf(a) {
      assert InOwnWindow(LastTime(us), iv);
    } else {
      assert !InOwnWindow(LastTime(us), iv);
    }
  }
}
