/** Where every update goes, for arbitrary arrivals, out of order included, and
    for every interval: nothing is lost or counted twice. */
module Conservation {
  import opened Candles
  import opened TimeWindows
  import opened Folding
  import opened Streams
  import opened InOrderRuns
  import opened MapSums

  /** Still in its building window, replaced there by a later revision of its
      minute, or folded into a completed candle. */
  datatype Fate = Held | Superseded | Folded

  /** The fate of update i, told from the arrival sequence alone: the first
      later update that either reaches the end of its window or has its minute
      decides it. */
  function FateOf(us: seq<MinuteCandle>, iv: Interval, i: int): Fate
    requires 0 <= i < |us|
    decreases |us|
  {
    if i == |us| - 1 then Held
    else
      var f := FateOf(Init(us), iv, i);
      if f != Held then f
      else if Last(us).openTime >= OpenTime(us[i].openTime, iv) + Duration(iv) then Folded
      else if Last(us).openTime == us[i].openTime then Superseded
      else Held
  }

  ghost predicate IsHeld(b: map<int, map<int, Arrival>>, a: Arrival, iv: Interval) {
    WindowOf(a, iv) in b && TimeOf(a) in b[WindowOf(a, iv)] && b[WindowOf(a, iv)][TimeOf(a)] == a
  }

  ghost predicate FoldedAt(done: seq<Window>, a: Arrival, j: int) {
    0 <= j < |done| && TimeOf(a) in done[j].minutes && done[j].minutes[TimeOf(a)] == a
  }

  ghost predicate IsFolded(done: seq<Window>, a: Arrival) {
    exists j :: FoldedAt(done, a, j)
  }

  ghost predicate FoldedOnce(done: seq<Window>, a: Arrival) {
    forall j, k :: FoldedAt(done, a, j) && FoldedAt(done, a, k) ==> j == k
  }

  // --------------------------------------------------------------- one step

  lemma HeldAfterClosing(p: Stream, t: int, iv: Interval, a: Arrival)
    ensures IsHeld(Remaining(p, t, iv), a, iv) <==> IsHeld(p.building, a, iv) && t < CloseOf(a, iv)
  {
    hide OpenTime, Duration;
  }

  lemma HeldAfterUpsert(r: map<int, map<int, Arrival>>, b: Arrival, iv: Interval, a: Arrival)
    requires a != b
    ensures IsHeld(Upsert(r, b, iv), a, iv) <==> IsHeld(r, a, iv) && TimeOf(a) != TimeOf(b)
  {
    hide OpenTime, Duration;
  }

  /** A window being closed contains a exactly when a was held in it. */
  lemma FoldedByClosing(p: Stream, us: seq<MinuteCandle>, t: int, iv: Interval, order: seq<int>, a: Arrival, j: int)
    requires WellFiled(p, us, iv) && ClosingOrder(p, t, iv, order)
    ensures FoldedAt(Closed(p, order), a, j) ==>
            order[j] == WindowOf(a, iv) && IsHeld(p.building, a, iv) && CloseOf(a, iv) <= t
    ensures 0 <= j < |order| && order[j] == WindowOf(a, iv) && IsHeld(p.building, a, iv) ==>
            FoldedAt(Closed(p, order), a, j)
  {
    hide OpenTime, Duration;
  }

  lemma FoldedSplit(done: seq<Window>, more: seq<Window>, a: Arrival, j: int)
    ensures FoldedAt(done + more, a, j) <==> FoldedAt(done, a, j) || FoldedAt(more, a, j - |done|)
  {
    hide OpenTime;
  }

  lemma FoldedAfterStep(p: Stream, us: seq<MinuteCandle>, t: int, iv: Interval, order: seq<int>, a: Arrival)
    requires WellFiled(p, us, iv) && ClosingOrder(p, t, iv, order)
    ensures IsFolded(p.done + Closed(p, order), a) <==>
            IsFolded(p.done, a) || (IsHeld(p.building, a, iv) && CloseOf(a, iv) <= t)
  {
    hide OpenTime, Duration, FoldedAt, Closed, WellFiled;
    var more, n := Closed(p, order), |p.done|;
    if IsFolded(p.done, a) {
      var j :| FoldedAt(p.done, a, j);
      FoldedSplit(p.done, more, a, j);
    } else if IsHeld(p.building, a, iv) && CloseOf(a, iv) <= t {
      assert Expired(p, WindowOf(a, iv), t, iv);
      var j :| 0 <= j < |order| && order[j] == WindowOf(a, iv);
      FoldedByClosing(p, us, t, iv, order, a, j);
      FoldedSplit(p.done, more, a, n + j);
    } else if IsFolded(p.done + more, a) {
      var j :| FoldedAt(p.done + more, a, j);
      FoldedSplit(p.done, more, a, j);
      FoldedByClosing(p, us, t, iv, order, a, j - n);
    }
  }

  lemma FoldedOnceAfterStep(p: Stream, us: seq<MinuteCandle>, t: int, iv: Interval, order: seq<int>, a: Arrival)
    requires WellFiled(p, us, iv) && ClosingOrder(p, t, iv, order)
    requires FoldedOnce(p.done, a) && !(IsFolded(p.done, a) && IsHeld(p.building, a, iv))
    ensures FoldedOnce(p.done + Closed(p, order), a)
  {
    hide OpenTime, Duration, WellFiled, Closed, IsHeld;
    var more, n := Closed(p, order), |p.done|;
    forall j, k | FoldedAt(p.done + more, a, j) && FoldedAt(p.done + more, a, k) ensures j == k {
      FoldedSplit(p.done, more, a, j);
      FoldedSplit(p.done, more, a, k);
      FoldedByClosing(p, us, t, iv, order, a, j - n);
      FoldedByClosing(p, us, t, iv, order, a, k - n);
    }
  }

  // --------------------------------------------------------------- every run

  ghost predicate MatchesFate(s: Stream, a: Arrival, iv: Interval, f: Fate) {
    && (IsHeld(s.building, a, iv) <==> f == Held)
    && (IsFolded(s.done, a) <==> f == Folded)
    && FoldedOnce(s.done, a)
  }

  lemma FateStep(p: Stream, us: seq<MinuteCandle>, b: Arrival, iv: Interval, s: Stream, a: Arrival, f: Fate)
    requires WellFiled(p, us, iv) && Step(p, b, iv, s) && a != b && MatchesFate(p, a, iv, f)
    ensures MatchesFate(s, a, iv, if f != Held then f
                                  else if TimeOf(b) >= CloseOf(a, iv) then Folded
                                  else if TimeOf(b) == TimeOf(a) then Superseded else Held)
  {
    hide OpenTime, Duration, WellFiled, IsHeld, IsFolded, FoldedOnce, Upsert, Remaining, Closed;
    HeldAfterClosing(p, TimeOf(b), iv, a);
    HeldAfterUpsert(Remaining(p, TimeOf(b), iv), b, iv, a);
    var order :| ClosingOrder(p, TimeOf(b), iv, order) && s.done == p.done + Closed(p, order);
    FoldedAfterStep(p, us, TimeOf(b), iv, order, a);
    FoldedOnceAfterStep(p, us, TimeOf(b), iv, order, a);
  }

  lemma NewlyHeld(us: seq<MinuteCandle>, iv: Interval, p: Stream, s: Stream)
    requires |us| > 0 && Reaches(Init(us), iv, p) && Step(p, LastArrival(us), iv, s)
    ensures MatchesFate(s, LastArrival(us), iv, Held)
  {
    hide OpenTime, Duration, Reaches;
    forall j ensures !FoldedAt(s.done, LastArrival(us), j) {
      if 0 <= j < |s.done| {
        CompletedEarlier(us, iv, p, s, j);
      }
    }
  }

  /** Every update of every run is exactly one of held, superseded or folded
      into exactly one completed window, as its fate says. */
  lemma {:induction false} EveryUpdateHasItsFate(us: seq<MinuteCandle>, iv: Interval, s: Stream, i: int)
    requires Reaches(us, iv, s) && 0 <= i < |us|
    ensures MatchesFate(s, Arrival(i, us[i]), iv, FateOf(us, iv, i))
  {
    hide OpenTime, Duration, MatchesFate, Step;
    var p :| Reaches(Init(us), iv, p) && Step(p, LastArrival(us), iv, s);
    if i == |us| - 1 {
      NewlyHeld(us, iv, p, s);
    } else {
      EveryUpdateHasItsFate(Init(us), iv, p, i);
      RunsAreWellFiled(Init(us), iv, p);
      FateStep(p, Init(us), LastArrival(us), iv, s, Arrival(i, us[i]), FateOf(Init(us), iv, i));
    }
  }

  // --------------------------------------------------------------- volumes

  /** The volume that the bar of a window reports. */
  ghost function WindowVolume(minutes: map<int, Arrival>): int {
    StreamBar(InOrder(minutes)).volume
  }

  function Volumes(minutes: map<int, Arrival>): map<int, int> {
    map k | k in minutes :: minutes[k].candle.volume
  }

  lemma BarVolume(cs: seq<Candle>)
    ensures StreamBar(cs).volume == Volume(cs)
  {
    if |cs| > 0 {
      StreamLow(cs);
      BatchBarSummarises(cs);
    }
  }

  lemma {:induction false} OrderedVolume(minutes: map<int, Arrival>)
    ensures Volume(InOrder(minutes)) == SumOver(Volumes(minutes))
    decreases |minutes|
  {
    hide InOrder;
    if minutes == map[] {
      assert |minutes.Keys| == 0;
      assert Volumes(minutes) == map[];
    } else {
      var x := MaxOf(minutes.Keys);
      var rest := minutes - {x};
      assert minutes == rest[x := minutes[x]];
      InOrderAppend(rest, x, minutes[x]);
      SumsOfAppend(InOrder(rest), minutes[x].candle);
      OrderedVolume(rest);
      SumWithout(Volumes(minutes), x);
      assert Volumes(minutes) - {x} == Volumes(rest);
    }
  }

  lemma WindowVolumeIsSum(minutes: map<int, Arrival>)
    ensures WindowVolume(minutes) == SumOver(Volumes(minutes))
  {
    hide InOrder;
    BarVolume(InOrder(minutes));
    OrderedVolume(minutes);
  }

  /** Storing a minute replaces the volume of its previous revision. */
  lemma WindowVolumeUpdate(minutes: map<int, Arrival>, t: int, a: Arrival)
    ensures WindowVolume(minutes[t := a]) ==
            WindowVolume(minutes) - (if t in minutes then minutes[t].candle.volume else 0) + a.candle.volume
  {
    hide InOrder, StreamBar, WindowVolume;
    WindowVolumeIsSum(minutes);
    WindowVolumeIsSum(minutes[t := a]);
    SumUpdate(Volumes(minutes), t, a.candle.volume);
    assert Volumes(minutes[t := a]) == Volumes(minutes)[t := a.candle.volume];
  }

  ghost function WindowVolumes(b: map<int, map<int, Arrival>>): map<int, int> {
    map o | o in b :: WindowVolume(b[o])
  }

  /** The volume of the windows being built. */
  ghost function BuildingVolume(b: map<int, map<int, Arrival>>): int {
    SumOver(WindowVolumes(b))
  }

  /** The volume of the completed candles. */
  ghost function CompletedVolume(done: seq<Window>): int {
    if |done| == 0 then 0 else CompletedVolume(Init(done)) + WindowVolume(Last(done).minutes)
  }

  lemma {:induction false} CompletedVolumeConcat(a: seq<Window>, b: seq<Window>)
    ensures CompletedVolume(a + b) == CompletedVolume(a) + CompletedVolume(b)
  {
    if |b| == 0 {
      assert a + b == a;
    } else {
      CompletedVolumeConcat(a, Init(b));
      assert Init(a + b) == a + Init(b);
    }
  }

  lemma BuildingWithout(b: map<int, map<int, Arrival>>, o: int)
    requires o in b
    ensures BuildingVolume(b) == BuildingVolume(b - {o}) + WindowVolume(b[o])
  {
    hide WindowVolume, SumOver;
    SumWithout(WindowVolumes(b), o);
    assert WindowVolumes(b) - {o} == WindowVolumes(b - {o});
  }

  /** Moving windows from the map to the completed list moves their volume. */
  lemma {:induction false} ClosingMovesVolume(b: map<int, map<int, Arrival>>, order: seq<int>)
    requires forall i, j :: 0 <= i < j < |order| ==> order[i] != order[j]
    requires forall i :: 0 <= i < |order| ==> order[i] in b
    ensures BuildingVolume(b) ==
            BuildingVolume(b - (set o | o in order)) + CompletedVolume(Closed(Stream(b, []), order))
  {
    hide WindowVolume, SumOver, StreamBar, InOrder;
    if |order| == 0 {
      assert b - (set o | o in order) == b;
    } else {
      var init, o := Init(order), Last(order);
      ClosingMovesVolume(b, init);
      var rest := b - (set o | o in init);
      assert o !in init;
      assert rest - {o} == b - (set o | o in order);
      BuildingWithout(rest, o);
      var s := Stream(b, []);
      assert Init(Closed(s, order)) == Closed(s, init);
    }
  }

  lemma RemainingIs(p: Stream, t: int, iv: Interval, order: seq<int>)
    requires ClosingOrder(p, t, iv, order)
    ensures Remaining(p, t, iv) == p.building - (set o | o in order)
  {
    hide Duration;
  }

  lemma ClosingConserves(p: Stream, t: int, iv: Interval, order: seq<int>)
    requires ClosingOrder(p, t, iv, order)
    ensures BuildingVolume(Remaining(p, t, iv)) + CompletedVolume(p.done + Closed(p, order)) ==
            BuildingVolume(p.building) + CompletedVolume(p.done)
  {
    hide OpenTime, Duration, WindowVolume, SumOver, BuildingVolume, CompletedVolume;
    ClosingMovesVolume(p.building, order);
    assert Remaining(p, t, iv) == p.building - (set o | o in order) by { RemainingIs(p, t, iv, order); }
    assert Closed(Stream(p.building, []), order) == Closed(p, order);
    CompletedVolumeConcat(p.done, Closed(p, order));
  }

  /** The volume of the revision that a new candle replaces. */
  function ReplacedVolume(r: map<int, map<int, Arrival>>, a: Arrival, iv: Interval): int {
    var o := WindowOf(a, iv);
    if o in r && TimeOf(a) in r[o] then r[o][TimeOf(a)].candle.volume else 0
  }

  lemma UpsertVolume(r: map<int, map<int, Arrival>>, a: Arrival, iv: Interval)
    ensures BuildingVolume(Upsert(r, a, iv)) == BuildingVolume(r) - ReplacedVolume(r, a, iv) + a.candle.volume
  {
    hide OpenTime, WindowVolume, SumOver;
    var o := WindowOf(a, iv);
    var before := if o in r then r[o] else map[];
    WindowVolumeUpdate(before, TimeOf(a), a);
    EmptyVolume();
    SumUpdate(WindowVolumes(r), o, WindowVolume(before[TimeOf(a) := a]));
    assert WindowVolumes(Upsert(r, a, iv)) == WindowVolumes(r)[o := WindowVolume(before[TimeOf(a) := a])];
  }

  lemma EmptyVolume()
    ensures WindowVolume(map[]) == 0
  {
    WindowVolumeIsSum(map[]);
    assert Volumes(map[]) == map[];
  }

  // --------------------------------------------------------------- conservation

  /** The volume of the first n updates that are not superseded. */
  function KeptVolume(us: seq<MinuteCandle>, iv: Interval, n: int): int
    requires 0 <= n <= |us|
  {
    if n == 0 then 0
    else KeptVolume(us, iv, n - 1) + (if FateOf(us, iv, n - 1) == Superseded then 0 else us[n - 1].volume)
  }

  /** The update that the last one supersedes, or -1. */
  ghost function SupersededBy(r: map<int, map<int, Arrival>>, b: Arrival, iv: Interval): int {
    var o := WindowOf(b, iv);
    if o in r && TimeOf(b) in r[o] then r[o][TimeOf(b)].id else -1
  }

  /** The last update supersedes that one update and no other. */
  lemma SupersedesOne(us: seq<MinuteCandle>, iv: Interval, p: Stream, i: int)
    requires |us| > 0 && Reaches(Init(us), iv, p) && 0 <= i < |us| - 1
    ensures var r := Remaining(p, LastTime(us), iv);
            FateOf(us, iv, i) == Superseded <==>
            FateOf(Init(us), iv, i) == Superseded || i == SupersededBy(r, LastArrival(us), iv)
    ensures i == SupersededBy(Remaining(p, LastTime(us), iv), LastArrival(us), iv) ==>
            FateOf(Init(us), iv, i) != Superseded
  {
    hide OpenTime, Duration, Reaches;
    var a, b := Arrival(i, us[i]), LastArrival(us);
    EveryUpdateHasItsFate(Init(us), iv, p, i);
    HeldAfterClosing(p, TimeOf(b), iv, a);
    RunsAreWellFiled(Init(us), iv, p);
    var r := Remaining(p, TimeOf(b), iv);
    if i == SupersededBy(r, b, iv) {
      assert r[WindowOf(b, iv)][TimeOf(b)] == a;
    }
  }

  lemma {:induction false} KeptVolumeStep(us: seq<MinuteCandle>, iv: Interval, p: Stream, n: int, x: int)
    requires |us| > 0 && Reaches(Init(us), iv, p) && 0 <= n <= |us| - 1
    requires x == SupersededBy(Remaining(p, LastTime(us), iv), LastArrival(us), iv)
    ensures KeptVolume(us, iv, n) ==
            KeptVolume(Init(us), iv, n) - (if 0 <= x < n then us[x].volume else 0)
  {
    hide OpenTime, Duration, Reaches, SupersededBy, FateOf;
    if n > 0 {
      KeptVolumeStep(us, iv, p, n - 1, x);
      SupersedesOne(us, iv, p, n - 1);
    }
  }

  /** The replaced volume is that of the superseded update. */
  lemma ReplacedIsSuperseded(us: seq<MinuteCandle>, iv: Interval, p: Stream)
    requires |us| > 0 && Reaches(Init(us), iv, p)
    ensures var r := Remaining(p, LastTime(us), iv);
            var x := SupersededBy(r, LastArrival(us), iv);
            -1 <= x < |us| - 1 &&
            ReplacedVolume(r, LastArrival(us), iv) == if x >= 0 then us[x].volume else 0
  {
    hide OpenTime, Duration, Reaches;
    RunsAreWellFiled(Init(us), iv, p);
  }

  lemma LastKept(us: seq<MinuteCandle>, iv: Interval)
    requires |us| > 0
    ensures KeptVolume(us, iv, |us|) == KeptVolume(us, iv, |us| - 1) + Last(us).volume
  {
  }

  lemma VolumeStep(us: seq<MinuteCandle>, iv: Interval, p: Stream, s: Stream)
    requires |us| > 0 && Reaches(Init(us), iv, p) && Step(p, LastArrival(us), iv, s)
    ensures CompletedVolume(s.done) + BuildingVolume(s.building) - KeptVolume(us, iv, |us|) ==
            CompletedVolume(p.done) + BuildingVolume(p.building) - KeptVolume(Init(us), iv, |us| - 1)
  {
    hide OpenTime, Duration, Reaches, BuildingVolume, CompletedVolume, KeptVolume, SupersededBy, ReplacedVolume,
         Upsert, Remaining, Closed;
    var b := LastArrival(us);
    var order :| ClosingOrder(p, TimeOf(b), iv, order) && s.done == p.done + Closed(p, order);
    var r := Remaining(p, TimeOf(b), iv);
    ClosingConserves(p, TimeOf(b), iv, order);
    UpsertVolume(r, b, iv);
    ReplacedIsSuperseded(us, iv, p);
    KeptVolumeStep(us, iv, p, |us| - 1, SupersededBy(r, b, iv));
    LastKept(us, iv);
  }

  /** Volume is conserved: for every run and interval, the volume of the
      completed candles plus the volume being built is the volume of the updates
      that no later revision superseded. */
  lemma {:induction false} VolumeIsConserved(us: seq<MinuteCandle>, iv: Interval, s: Stream)
    requires Reaches(us, iv, s)
    ensures CompletedVolume(s.done) + BuildingVolume(s.building) == KeptVolume(us, iv, |us|)
  {
    hide OpenTime, BuildingVolume, Step, FateOf;
    if |us| == 0 {
      NothingBuilding();
    } else {
      var p :| Reaches(Init(us), iv, p) && Step(p, LastArrival(us), iv, s);
      VolumeIsConserved(Init(us), iv, p);
      VolumeStep(us, iv, p, s);
    }
  }

  lemma NothingBuilding()
    ensures BuildingVolume(map[]) == 0
  {
    assert WindowVolumes(map[]) == map[];
  }
}
