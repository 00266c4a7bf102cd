/** What `Stop` of internal/services/aggregator/exchange_aggregator.go saves: the
    runs of the batch writer after shutdown has begun. */
module BatchShutdown {
  import opened Candles
  import opened BatchWriter
  import opened Gathering

  /** s' is reached from s in k steps, with nothing entering the channel. */
  ghost predicate LeadsTo(size: int, s: State, s': State, k: nat)
    decreases k
  {
    if k == 0 then s' == s
    else exists p, act: Action :: LeadsTo(size, s, p, k - 1) && !act.Enqueue? && Step(size, p, act, s')
  }

  lemma Continue(size: int, s: State, p: State, k: nat, act: Action, s': State)
    requires LeadsTo(size, s, p, k) && !act.Enqueue? && Step(size, p, act, s')
    ensures LeadsTo(size, s, s', k + 1)
  {
  }

  // --------------------------------------------------------------- when nothing is lost

  ghost predicate NoneHolding(ws: seq<Worker>) {
    forall w :: 0 <= w < |ws| ==> !ws[w].Holding?
  }

  ghost predicate SomeCommitted(s: State) {
    s.stopper.Committed? || exists w :: 0 <= w < |s.workers| && s.workers[w].Committed?
  }

  /** Everything received will be written: nothing is queued, a held candle makes
      its worker flush, and somebody is about to flush the current batch. */
  ghost predicate Draining(size: int, s: State) {
    && s.channel == []
    && (size <= 1 || NoneHolding(s.workers))
    && (s.current != [] ==> SomeCommitted(s))
  }

  lemma DrainingStep(size: int, s: State, act: Action, s': State)
    requires Draining(size, s) && !act.Enqueue? && Step(size, s, act, s')
    ensures Draining(size, s')
  {
    if act.AppendHeld? {
      assert s'.workers[act.w].Committed?;
    } else if s'.current != [] && s.current != [] && !s'.stopper.Committed? {
      var w :| 0 <= w < |s.workers| && s.workers[w].Committed?;
      assert s'.workers[w].Committed?;
    }
  }

  lemma {:induction false} DrainingRun(size: int, s: State, s': State, k: nat)
    requires Draining(size, s) && LeadsTo(size, s, s', k)
    ensures Draining(size, s')
    decreases k
  {
    hide Draining, Step;
    if k > 0 {
      var p, act: Action :| LeadsTo(size, s, p, k - 1) && !act.Enqueue? && Step(size, p, act, s');
      DrainingRun(size, s, p, k - 1);
      DrainingStep(size, p, act, s');
    }
  }

  /** A run that continues a run is a run. */
  lemma {:induction false} StillReachable(size: int, s: State, n: nat, s': State, k: nat)
    requires Reachable(size, s, n) && LeadsTo(size, s, s', k)
    ensures Reachable(size, s', n + k)
    decreases k
  {
    hide Reachable, Step;
    if k > 0 {
      var p, act: Action :| LeadsTo(size, s, p, k - 1) && !act.Enqueue? && Step(size, p, act, s');
      StillReachable(size, s, n, p, k - 1);
      Extends(size, p, n + k - 1, act, s');
    }
  }

  // --------------------------------------------------------------- runs to the end

  /** How far a worker is from returning. */
  function Rank(w: Worker): nat {
    match w
    case Holding(_) => 4
    case Committed => 3
    case Writing(_) => 2
    case Idle => 1
    case Stopped => 0
  }

  /** The next step of a worker on its way to return, receiving nothing. */
  lemma NextMove(size: int, s: State, w: nat) returns (act: Action, s': State)
    requires w < |s.workers| && !s.workers[w].Stopped? && !s.stopper.Idle?
    ensures !act.Enqueue? && Step(size, s, act, s')
    ensures s'.channel == s.channel && s'.stopper == s.stopper && s'.workers == s.workers[w := s'.workers[w]]
    ensures Rank(s'.workers[w]) < Rank(s.workers[w])
  {
    match s.workers[w] {
      case Holding(c) =>
        var current := s.current + [c];
        act := AppendHeld(w);
        s' := Move(s, w, if IsFull(current, size) then Committed else Idle).(current := current);
      case Committed =>
        act := Take(w);
        s' := Move(s, w, AfterTake(s.current, Idle)).(current := []);
      case Writing(batch) =>
        act := Write(w);
        s' := Move(s, w, Idle).(written := s.written + [batch]);
      case Idle =>
        act := Exit(w);
        s' := Move(s, w, Stopped);
    }
  }

  lemma {:induction false} Settle(size: int, s0: State, s: State, k: nat, w: nat) returns (s': State, k': nat)
    requires LeadsTo(size, s0, s, k) && w < |s.workers| && !s.stopper.Idle?
    ensures LeadsTo(size, s0, s', k')
    ensures s'.channel == s.channel && s'.stopper == s.stopper && s'.workers == s.workers[w := Stopped]
    decreases Rank(s.workers[w])
  {
    hide LeadsTo, Step;
    if s.workers[w].Stopped? {
      s', k' := s, k;
    } else {
      var act, p := NextMove(size, s, w);
      Continue(size, s0, s, k, act, p);
      s', k' := Settle(size, s0, p, k + 1, w);
    }
  }

  /** All workers from w on but one return. */
  lemma {:induction false} SettleBut(size: int, s0: State, s: State, k: nat, w: nat, but: int)
      returns (s': State, k': nat)
    requires LeadsTo(size, s0, s, k) && w <= |s.workers| && !s.stopper.Idle?
    ensures LeadsTo(size, s0, s', k')
    ensures s'.channel == s.channel && s'.stopper == s.stopper && |s'.workers| == |s.workers|
    ensures forall v :: 0 <= v < |s.workers| ==> s'.workers[v] == if v < w || v == but then s.workers[v] else Stopped
    decreases |s.workers| - w
  {
    hide LeadsTo;
    if w == |s.workers| {
      s', k' := s, k;
    } else if w == but {
      s', k' := SettleBut(size, s0, s, k, w + 1, but);
    } else {
      var p, j := Settle(size, s0, s, k, w);
      s', k' := SettleBut(size, s0, p, j, w + 1, but);
    }
  }

  lemma StopperFinishes(size: int, s0: State, s: State, k: nat) returns (s': State, k': nat)
    requires LeadsTo(size, s0, s, k) && s.stopper.Committed?
    ensures LeadsTo(size, s0, s', k')
    ensures s'.channel == s.channel && s'.workers == s.workers && s'.current == [] && s'.stopper == Stopped
  {
    hide LeadsTo;
    var p := s.(stopper := AfterTake(s.current, Stopped), current := []);
    Continue(size, s0, s, k, StopperTakes, p);
    if p.stopper.Stopped? {
      s', k' := p, k + 1;
    } else {
      s' := p.(stopper := Stopped, written := p.written + [p.stopper.batch]);
      k' := k + 2;
      Continue(size, s0, p, k + 1, StopperWrites, s');
    }
  }

  /** From a channel that is not empty a finished run can leave its candles there. */
  lemma ChannelLeft(size: int, s: State) returns (s': State, k: nat)
    requires s.stopper.Committed? && s.channel != []
    ensures LeadsTo(size, s, s', k) && Finished(s') && s'.channel == s.channel
  {
    hide LeadsTo;
    Start(size, s);
    var p, j := SettleBut(size, s, s, 0, 0, -1);
    s', k := StopperFinishes(size, s, p, j);
  }

  lemma Start(size: int, s: State)
    ensures LeadsTo(size, s, s, 0)
  {
  }

  /** A worker that holds a candle can append it after the last flush. */
  lemma BatchLeft(size: int, s: State, w: nat) returns (s': State, k: nat)
    requires s.stopper.Committed? && w < |s.workers| && s.workers[w].Holding? && size >= 2
    ensures LeadsTo(size, s, s', k) && Finished(s') && s'.current != []
  {
    hide LeadsTo;
    Start(size, s);
    var p, j := SettleBut(size, s, s, 0, 0, w);
    var q, i := StopperFinishes(size, s, p, j);
    var r := Move(q, w, Idle).(current := [q.workers[w].c]);
    Continue(size, s, q, i, AppendHeld(w), r);
    s', k := Move(r, w, Stopped), i + 2;
    Continue(size, s, r, i + 1, Exit(w), s');
  }

  // --------------------------------------------------------------- exactly

  /** Every way in which a run can end from here has written all it received. */
  ghost predicate LosesNothing(size: int, s: State) {
    forall s', k :: LeadsTo(size, s, s', k) && Finished(s') ==> multiset(s'.received) == All(s'.written)
  }

  /** When `Stop` begins, and nothing more is received, everything received is
      sure to be written exactly when the channel is empty and either no worker
      holds a candle or the batch size is at most one. */
  lemma StopIsSafeExactly(size: int, s: State, n: nat)
    requires Reachable(size, s, n) && s.stopper.Committed?
    ensures LosesNothing(size, s) <==> s.channel == [] && (size <= 1 || NoneHolding(s.workers))
  {
    hide Reachable, LeadsTo, All;
    if s.channel == [] && (size <= 1 || NoneHolding(s.workers)) {
      forall s', k | LeadsTo(size, s, s', k) && Finished(s') ensures multiset(s'.received) == All(s'.written) {
        DrainingRun(size, s, s', k);
        StillReachable(size, s, n, s', k);
        ShutdownAccounts(size, s', n + k);
      }
    } else if s.channel != [] {
      var s', k := ChannelLeft(size, s);
      StillReachable(size, s, n, s', k);
      ShutdownAccounts(size, s', n + k);
    } else {
      var w :| 0 <= w < |s.workers| && s.workers[w].Holding?;
      var s', k := BatchLeft(size, s, w);
      StillReachable(size, s, n, s', k);
      ShutdownAccounts(size, s', n + k);
    }
  }

  /** A candle that arrives just before `Stop` can stay in the channel. */
  lemma ArrivesLast(size: int, s0: State, n0: nat, c: MinuteCandle) returns (s: State, n: nat)
    requires Reachable(size, s0, n0) && s0.stopper.Idle?
    ensures Reachable(size, s, n) && Finished(s) && s.channel != []
    ensures multiset(s.received) != All(s.written)
  {
    hide Reachable, LeadsTo, All;
    var a := Arrival(|s0.received|, c);
    var s1 := s0.(received := s0.received + [a], channel := s0.channel + [a]);
    Extends(size, s0, n0, Enqueue(c), s1);
    var s2 := s1.(stopper := Committed);
    Extends(size, s1, n0 + 1, BeginStop, s2);
    var p, k := ChannelLeft(size, s2);
    s, n := p, n0 + 2 + k;
    StillReachable(size, s2, n0 + 2, s, k);
    ShutdownAccounts(size, s, n);
  }

  /** For every size a finished run can leave a candle in the channel. */
  lemma ChannelStranded(size: int, c: MinuteCandle) returns (s: State, n: nat)
    ensures Reachable(size, s, n) && Finished(s) && s.channel != []
    ensures multiset(s.received) != All(s.written)
  {
    hide All;
    var s0 := INITIAL;
    assert Reachable(size, s0, 0);
    s, n := ArrivesLast(size, s0, 0, c);
  }

  // --------------------------------------------------------------- when Stop returns

  /** Nobody but `Stop` has candles in hand. */
  ghost predicate EmptyHands(ws: seq<Worker>) {
    forall w :: 0 <= w < |ws| ==> InHand(ws[w]) == multiset{}
  }

  ghost predicate AllReturned(ws: seq<Worker>) {
    forall w :: 0 <= w < |ws| ==> ws[w].Stopped?
  }

  /** Everything received has been handed to the database. */
  ghost predicate AllWritten(s: State) {
    multiset(s.received) == All(s.written)
  }

  lemma HandCounts(ws: seq<Worker>, w: nat)
    requires w < |ws| && InHand(ws[w]) != multiset{}
    ensures |Gathered(ws, InHand)| > 0
  {
    hide Gathered, InHand;
    GatheredUpdate(ws, InHand, w, Idle);
    IdleHand();
    assert Gathered(ws, InHand) == Gathered(ws[w := Idle], InHand) + InHand(ws[w]) by {
      NothingAdded(Gathered(ws, InHand));
    }
    NonEmptySize(InHand(ws[w]));
  }

  lemma IdleHand()
    ensures InHand(Idle) == multiset{}
  {
  }

  lemma NothingAdded(a: multiset<Arrival>)
    ensures a + multiset{} == a
  {
  }

  lemma NonEmptySize(a: multiset<Arrival>)
    requires a != multiset{}
    ensures |a| > 0
  {
  }

  /** Everything is written exactly when every other place is empty. */
  lemma WrittenExactly(s: State)
    requires Conserved(s)
    ensures AllWritten(s) <==>
            s.channel == [] && EmptyHands(s.workers) && InHand(s.stopper) == multiset{} && s.current == []
  {
    hide Gathered, All, InHand;
    var hands, stopper := Gathered(s.workers, InHand), InHand(s.stopper);
    var rest := multiset(s.channel) + hands + stopper + multiset(s.current);
    assert |rest| == |s.channel| + |hands| + |stopper| + |s.current|;
    assert multiset(s.received) == All(s.written) + rest;
    if EmptyHands(s.workers) {
      NothingGathered(s.workers, InHand);
    } else {
      var w :| 0 <= w < |s.workers| && InHand(s.workers[w]) != multiset{};
      HandCounts(s.workers, w);
    }
    if stopper != multiset{} {
      NonEmptySize(stopper);
    }
    RestDecides(multiset(s.received), All(s.written), rest);
  }

  lemma RestDecides(all: multiset<Arrival>, written: multiset<Arrival>, rest: multiset<Arrival>)
    requires all == written + rest
    ensures all == written <==> |rest| == 0
  {
    assert |all| == |written| + |rest|;
    if |rest| == 0 {
      assert rest == multiset{};
    }
  }

  /** Only `Stop` can still write anything. */
  ghost predicate OnlyStopWrites(s: State) {
    && s.channel == [] && EmptyHands(s.workers)
    && (s.current != [] ==> s.stopper.Committed? && AllReturned(s.workers))
  }

  lemma OnlyStopWritesStep(size: int, s: State, act: Action, s': State)
    requires OnlyStopWrites(s) && !act.Enqueue? && Step(size, s, act, s')
    ensures OnlyStopWrites(s')
  {
  }

  lemma {:induction false} OnlyStopWritesRun(size: int, s: State, s': State, k: nat)
    requires OnlyStopWrites(s) && LeadsTo(size, s, s', k)
    ensures OnlyStopWrites(s')
    decreases k
  {
    hide OnlyStopWrites, Step;
    if k > 0 {
      var p, act: Action :| LeadsTo(size, s, p, k - 1) && !act.Enqueue? && Step(size, p, act, s');
      OnlyStopWritesRun(size, s, p, k - 1);
      OnlyStopWritesStep(size, p, act, s');
    }
  }

  /** A worker with empty hands can take the batch before `Stop` does. */
  lemma WorkerTakes(size: int, s: State, w: nat) returns (s': State, k: nat)
    requires s.stopper.Committed? && s.current != [] && w < |s.workers| && !s.workers[w].Stopped?
    requires InHand(s.workers[w]) == multiset{}
    ensures LeadsTo(size, s, s', k) && s'.stopper.Committed? && w < |s'.workers| && InHand(s'.workers[w]) != multiset{}
  {
    hide LeadsTo;
    Start(size, s);
    var p, j := s, 0;
    if s.workers[w].Writing? {
      p := Move(s, w, Idle).(written := s.written + [s.workers[w].batch]);
      Continue(size, s, s, 0, Write(w), p);
      j := 1;
    }
    assert p.workers[w].Idle? || p.workers[w].Committed?;
    if p.workers[w].Idle? {
      var q := Move(p, w, Committed);
      Continue(size, s, p, j, Tick(w), q);
      p, j := q, j + 1;
    }
    s', k := Move(p, w, AfterTake(p.current, Idle)).(current := []), j + 1;
    Continue(size, s, p, j, Take(w), s');
    assert s.current[0] in InHand(s'.workers[w]);
  }

  /** Whatever the schedule, everything received has been written by the time `Stop` returns. */
  ghost predicate WrittenOnReturn(size: int, s: State) {
    forall s', k :: LeadsTo(size, s, s', k) && s'.stopper.Stopped? ==> AllWritten(s')
  }

  lemma ReturnsWithRest(size: int, s: State, n: nat, p: State, j: nat) returns (s': State, k: nat)
    requires Reachable(size, s, n) && LeadsTo(size, s, p, j) && p.stopper.Committed?
    requires p.channel != [] || !EmptyHands(p.workers)
    ensures LeadsTo(size, s, s', k) && s'.stopper.Stopped? && !AllWritten(s')
  {
    hide Reachable, LeadsTo, Conserved, AllWritten;
    s', k := StopperFinishes(size, s, p, j);
    StillReachable(size, s, n, s', k);
    AlwaysSafe(size, s', n + k);
    WrittenExactly(s');
  }

  /** When `Stop` begins, and nothing more is received, everything received is
      sure to be written by the time `Stop` returns, which does not wait for the
      workers, exactly when the channel is empty, no worker has candles in hand,
      and the current batch is empty or all workers have returned. */
  lemma ReturnIsSafeExactly(size: int, s: State, n: nat)
    requires Reachable(size, s, n) && s.stopper.Committed?
    ensures WrittenOnReturn(size, s) <==>
            s.channel == [] && EmptyHands(s.workers) && (s.current == [] || AllReturned(s.workers))
  {
    hide Reachable, LeadsTo, Conserved, AllWritten, InHand;
    if s.channel == [] && EmptyHands(s.workers) && (s.current == [] || AllReturned(s.workers)) {
      forall s', k | LeadsTo(size, s, s', k) && s'.stopper.Stopped? ensures AllWritten(s') {
        OnlyStopWritesRun(size, s, s', k);
        StillReachable(size, s, n, s', k);
        AlwaysSafe(size, s', n + k);
        StoppedHand(s'.stopper);
        WrittenExactly(s');
      }
    } else if s.channel != [] || !EmptyHands(s.workers) {
      Start(size, s);
      var s', k := ReturnsWithRest(size, s, n, s, 0);
    } else {
      var w :| 0 <= w < |s.workers| && !s.workers[w].Stopped?;
      var p, j := WorkerTakes(size, s, w);
      var s', k := ReturnsWithRest(size, s, n, p, j);
    }
  }

  lemma StoppedHand(w: Worker)
    requires w.Stopped?
    ensures InHand(w) == multiset{}
  {
  }
}
