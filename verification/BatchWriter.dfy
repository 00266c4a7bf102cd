/** The batch writer of internal/services/aggregator/exchange_aggregator.go: five
    workers move candles from one channel into one shared batch and hand full
    batches to the database. The batch is guarded by a lock, so a run is an
    interleaving of the critical sections below. */
module BatchWriter {
  import opened Candles
  import opened Gathering

  const WORKERS := 5

  type Batch = seq<Arrival>

  // --------------------------------------------------------------- the critical sections

  class SharedBatch {
    var currentBatch: Batch
    const batchWriteSize: int

    constructor (size: int)
      ensures currentBatch == [] && batchWriteSize == size
    {
      currentBatch, batchWriteSize := [], size;
    }

    /** The worker's critical section on receiving a candle: one step of the
        protocol below, which loses nothing and keeps the bound. */
    method Append(c: Arrival, ghost s: State, ghost w: nat) returns (shouldFlush: bool, ghost s': State)
      requires s.current == currentBatch && w < |s.workers| && s.workers[w] == Holding(c)
      modifies this`currentBatch
      ensures Step(batchWriteSize, s, AppendHeld(w), s') && s'.current == currentBatch
      ensures shouldFlush <==> s'.workers[w].Committed?
      ensures Places(s') == Places(s)
      ensures Bounded(batchWriteSize, s) ==> Bounded(batchWriteSize, s')
    {
      hide Places, Bounded;
      currentBatch := currentBatch + [c];
      shouldFlush := |currentBatch| >= batchWriteSize;
      s' := Move(s, w, if shouldFlush then Committed else Idle).(current := currentBatch);
      StepMoves(batchWriteSize, s, AppendHeld(w), s');
      if Bounded(batchWriteSize, s) {
        StepKeepsBound(batchWriteSize, s, AppendHeld(w), s');
      }
    }

    /** The critical section of `flushBatch` in a worker: one step of the protocol. */
    method TakeBatch(ghost s: State, ghost w: nat) returns (batch: Option<Batch>, ghost s': State)
      requires s.current == currentBatch && w < |s.workers| && s.workers[w] == Committed
      modifies this`currentBatch
      ensures Step(batchWriteSize, s, Take(w), s') && s'.current == currentBatch
      ensures s'.workers[w] == if batch.Some? then Writing(batch.value) else Idle
      ensures Places(s') == Places(s)
      ensures Bounded(batchWriteSize, s) ==> Bounded(batchWriteSize, s')
    {
      hide Places, Bounded;
      if |currentBatch| == 0 {
        batch := None;
      } else {
        batch := Some(currentBatch);
        currentBatch := [];
      }
      s' := Move(s, w, if batch.Some? then Writing(batch.value) else Idle).(current := currentBatch);
      StepMoves(batchWriteSize, s, Take(w), s');
      if Bounded(batchWriteSize, s) {
        StepKeepsBound(batchWriteSize, s, Take(w), s');
      }
    }
  }

  predicate IsFull(batch: Batch, size: int) { |batch| >= size }

  function Taken(batch: Batch): Option<Batch> {
    if batch == [] then None else Some(batch)
  }

  // --------------------------------------------------------------- runs

  /** Where a goroutine is: at its `select`, with a received candle, about to
      flush, with a batch on its way to the database, or returned. */
  datatype Worker = Idle | Holding(c: Arrival) | Committed | Writing(batch: Batch) | Stopped

  /** `stopper` is the goroutine running `Stop`, Idle until it is called;
      `written` lists the batches handed to `BatchCreateCandles`; `received` lists
      all candles that entered the channel. */
  datatype State = State(
    received: Batch,
    channel: Batch,
    workers: seq<Worker>,
    current: Batch,
    written: seq<Batch>,
    stopper: Worker)

  const INITIAL := State([], [], [Idle, Idle, Idle, Idle, Idle], [], [], Idle)

  datatype Action =
    | Enqueue(c: MinuteCandle)
    | Receive(w: nat)
    | AppendHeld(w: nat)
    | Tick(w: nat)
    | Take(w: nat)
    | Write(w: nat)
    | Exit(w: nat)
    | BeginStop
    | StopperTakes
    | StopperWrites

  /** After the critical section of `flushBatch`. */
  function AfterTake(current: Batch, done: Worker): Worker {
    match Taken(current)
    case None => done
    case Some(batch) => Writing(batch)
  }

  function Move(s: State, w: nat, position: Worker): State
    requires w < |s.workers|
  {
    s.(workers := s.workers[w := position])
  }

  ghost predicate Step(size: int, s: State, act: Action, s': State) {
    match act
    case Enqueue(c) =>
      var a := Arrival(|s.received|, c);
      s' == s.(received := s.received + [a], channel := s.channel + [a])
    case Receive(w) =>
      && w < |s.workers| && s.workers[w].Idle? && s.channel != []
      && s' == Move(s, w, Holding(s.channel[0])).(channel := s.channel[1..])
    case AppendHeld(w) =>
      && w < |s.workers| && s.workers[w].Holding?
      && var current := s.current + [s.workers[w].c];
         s' == Move(s, w, if IsFull(current, size) then Committed else Idle).(current := current)
    case Tick(w) =>
      && w < |s.workers| && s.workers[w].Idle?
      && s' == Move(s, w, Committed)
    case Take(w) =>
      && w < |s.workers| && s.workers[w].Committed?
      && s' == Move(s, w, AfterTake(s.current, Idle)).(current := [])
    case Write(w) =>
      && w < |s.workers| && s.workers[w].Writing?
      && s' == Move(s, w, Idle).(written := s.written + [s.workers[w].batch])
    case Exit(w) =>
      && !s.stopper.Idle?
      && w < |s.workers| && s.workers[w].Idle?
      && s' == Move(s, w, Stopped)
    case BeginStop =>
      && s.stopper.Idle?
      && s' == s.(stopper := Committed)
    case StopperTakes =>
      && s.stopper.Committed?
      && s' == s.(stopper := AfterTake(s.current, Stopped), current := [])
    case StopperWrites =>
      && s.stopper.Writing?
      && s' == s.(stopper := Stopped, written := s.written + [s.stopper.batch])
  }

  /** The states reachable in n steps, in any interleaving. */
  ghost predicate Reachable(size: int, s: State, n: nat)
    decreases n
  {
    if n == 0 then s == INITIAL
    else exists p, act :: Reachable(size, p, n - 1) && Step(size, p, act, s)
  }

  lemma Extends(size: int, p: State, n: nat, act: Action, s: State)
    requires Reachable(size, p, n) && Step(size, p, act, s)
    ensures Reachable(size, s, n + 1)
  {
  }

  // --------------------------------------------------------------- conservation

  /** The candles in a goroutine's hands. */
  function InHand(w: Worker): multiset<Arrival> {
    match w
    case Holding(c) => multiset{c}
    case Writing(batch) => multiset(batch)
    case _ => multiset{}
  }

  ghost function All(batches: seq<Batch>): multiset<Arrival> {
    if batches == [] then multiset{} else All(batches[..|batches| - 1]) + multiset(batches[|batches| - 1])
  }

  /** The contents of every place a candle can be in. */
  ghost function Places(s: State): multiset<Arrival> {
    multiset(s.channel) + Gathered(s.workers, InHand) + InHand(s.stopper) + multiset(s.current) + All(s.written)
  }

  ghost predicate Conserved(s: State) {
    && Places(s) == multiset(s.received)
    && (forall i :: 0 <= i < |s.received| ==> s.received[i].id == i)
  }

  lemma AllAppend(batches: seq<Batch>, b: Batch)
    ensures All(batches + [b]) == All(batches) + multiset(b)
  {
    assert (batches + [b])[..|batches|] == batches;
  }

  lemma EnqueueKeeps(size: int, s: State, act: Action, s': State)
    requires act.Enqueue? && Conserved(s) && Step(size, s, act, s')
    ensures Conserved(s')
  {
    hide Gathered, All;
  }

  /** A candle leaves the channel for a worker's hands. */
  lemma ReceiveMoves(size: int, s: State, act: Action, s': State)
    requires act.Receive? && Step(size, s, act, s')
    ensures Places(s') == Places(s)
  {
    hide Gathered, All;
    GatheredUpdate(s.workers, InHand, act.w, s'.workers[act.w]);
    var c := s.channel[0];
    assert s.channel == [c] + s'.channel;
    Shifted(multiset(s.channel), multiset(s'.channel), Gathered(s.workers, InHand), Gathered(s'.workers, InHand),
            multiset{c});
  }

  /** A candle leaves a worker's hands for the batch. */
  lemma AppendMoves(size: int, s: State, act: Action, s': State)
    requires act.AppendHeld? && Step(size, s, act, s')
    ensures Places(s') == Places(s)
  {
    hide Gathered, All;
    GatheredUpdate(s.workers, InHand, act.w, s'.workers[act.w]);
    var c := s.workers[act.w].c;
    Shifted(Gathered(s.workers, InHand), Gathered(s'.workers, InHand), multiset(s.current), multiset(s'.current),
            multiset{c});
  }

  /** The batch moves into a worker's hands. */
  lemma TakeMoves(size: int, s: State, act: Action, s': State)
    requires act.Take? && Step(size, s, act, s')
    ensures Places(s') == Places(s)
  {
    hide Gathered, All;
    var m := multiset(s.current);
    GatheredUpdate(s.workers, InHand, act.w, s'.workers[act.w]);
    assert InHand(s'.workers[act.w]) == m && InHand(s.workers[act.w]) == multiset{};
    WithNothing(Gathered(s'.workers, InHand));
    Shifted(m, multiset(s'.current), Gathered(s.workers, InHand), Gathered(s'.workers, InHand), m);
  }

  /** The batch moves from a worker's hands to the database. */
  lemma WriteMoves(size: int, s: State, act: Action, s': State)
    requires act.Write? && Step(size, s, act, s')
    ensures Places(s') == Places(s)
  {
    hide Gathered, All;
    var batch := s.workers[act.w].batch;
    GatheredUpdate(s.workers, InHand, act.w, s'.workers[act.w]);
    assert InHand(s.workers[act.w]) == multiset(batch) && InHand(s'.workers[act.w]) == multiset{};
    WithNothing(Gathered(s.workers, InHand));
    AllAppend(s.written, batch);
    Shifted(Gathered(s.workers, InHand), Gathered(s'.workers, InHand), All(s.written), All(s'.written),
            multiset(batch));
  }

  lemma EmptyHandedMoves(size: int, s: State, act: Action, s': State)
    requires (act.Tick? || act.Exit?) && Step(size, s, act, s')
    ensures Places(s') == Places(s)
  {
    hide Gathered, All;
    GatheredUpdate(s.workers, InHand, act.w, s'.workers[act.w]);
    assert InHand(s.workers[act.w]) == multiset{} && InHand(s'.workers[act.w]) == multiset{};
    Cancel(Gathered(s'.workers, InHand), Gathered(s.workers, InHand), multiset{});
  }

  lemma WithNothing(a: multiset<Arrival>)
    ensures a + multiset{} == a
  {
  }

  lemma StopBegins(size: int, s: State, s': State)
    requires Step(size, s, BeginStop, s')
    ensures Places(s') == Places(s)
  {
    hide Gathered, All;
  }

  lemma StopperTakesMoves(size: int, s: State, s': State)
    requires Step(size, s, StopperTakes, s')
    ensures Places(s') == Places(s)
  {
    hide Gathered, All;
    assert InHand(s'.stopper) == multiset(s.current);
  }

  lemma StopperWritesMoves(size: int, s: State, s': State)
    requires Step(size, s, StopperWrites, s')
    ensures Places(s') == Places(s)
  {
    hide Gathered, All;
    AllAppend(s.written, s.stopper.batch);
    assert InHand(s'.stopper) == multiset{} && InHand(s.stopper) == multiset(s.stopper.batch);
  }

  /** What leaves one place enters another. */
  lemma StepMoves(size: int, s: State, act: Action, s': State)
    requires !act.Enqueue? && Step(size, s, act, s')
    ensures s'.received == s.received && Places(s') == Places(s)
  {
    hide Places;
    if act.Receive? {
      ReceiveMoves(size, s, act, s');
    } else if act.AppendHeld? {
      AppendMoves(size, s, act, s');
    } else if act.BeginStop? {
      StopBegins(size, s, s');
    } else if act.StopperTakes? {
      StopperTakesMoves(size, s, s');
    } else if act.StopperWrites? {
      StopperWritesMoves(size, s, s');
    } else if act.Tick? || act.Exit? {
      EmptyHandedMoves(size, s, act, s');
    } else if act.Take? {
      TakeMoves(size, s, act, s');
    } else {
      WriteMoves(size, s, act, s');
    }
  }

  // --------------------------------------------------------------- the bound

  /** The number of workers that will flush before they receive again. */
  ghost function Commits(ws: seq<Worker>): nat {
    if ws == [] then 0 else Commits(ws[..|ws| - 1]) + if ws[|ws| - 1].Committed? then 1 else 0
  }

  lemma {:induction false} CommitsUpdate(ws: seq<Worker>, w: nat, x: Worker)
    requires w < |ws|
    ensures Commits(ws[w := x]) + (if ws[w].Committed? then 1 else 0) == Commits(ws) + if x.Committed? then 1 else 0
    decreases |ws|
  {
    var n := |ws| - 1;
    var ws' := ws[w := x];
    if w == n {
      assert ws'[..n] == ws[..n];
    } else {
      assert ws'[..n] == ws[..n][w := x];
      CommitsUpdate(ws[..n], w, x);
    }
  }

  lemma CommitsAtMost(ws: seq<Worker>)
    ensures Commits(ws) <= |ws|
  {
  }

  /** The largest batch nobody is about to flush; sizes below one act like one. */
  function Slack(size: int): nat { Max(size, 1) - 1 }

  ghost predicate Bounded(size: int, s: State) {
    && |s.workers| == WORKERS
    && |s.current| <= Slack(size) + Commits(s.workers)
  }

  lemma StepKeepsBound(size: int, s: State, act: Action, s': State)
    requires Bounded(size, s) && Step(size, s, act, s')
    ensures Bounded(size, s')
  {
    hide Commits;
    if 0 <= Performer(act) < |s.workers| {
      CommitsUpdate(s.workers, Performer(act), s'.workers[Performer(act)]);
    }
  }

  function Performer(act: Action): int {
    if act.Enqueue? || act.BeginStop? || act.StopperTakes? || act.StopperWrites? then -1 else act.w
  }

  // --------------------------------------------------------------- over every interleaving

  ghost predicate Safe(size: int, s: State) {
    Conserved(s) && Bounded(size, s)
  }

  lemma InitiallySafe(size: int, s: State)
    requires s.received == s.channel == s.current == [] && s.written == [] && s.stopper == Idle
    requires |s.workers| == WORKERS && forall w :: 0 <= w < |s.workers| ==> s.workers[w] == Idle
    ensures Safe(size, s)
  {
    NothingGathered(s.workers, InHand);
  }

  lemma {:induction false} AlwaysSafe(size: int, s: State, n: nat)
    requires Reachable(size, s, n)
    ensures Safe(size, s)
    decreases n
  {
    hide Conserved, Bounded, Step;
    if n == 0 {
      InitiallySafe(size, s);
    } else {
      var p, act :| Reachable(size, p, n - 1) && Step(size, p, act, s);
      AlwaysSafe(size, p, n - 1);
      StepKeepsBound(size, p, act, s);
      if act.Enqueue? {
        EnqueueKeeps(size, p, act, s);
      } else {
        assert Conserved(s) by {
          StepMoves(size, p, act, s);
          ConservedMoves(p, s);
        }
      }
    }
  }

  lemma ConservedMoves(s: State, s': State)
    requires Conserved(s) && s'.received == s.received && Places(s') == Places(s)
    ensures Conserved(s')
  {
  }

  /** In every reachable state each received candle is in exactly one place: the
      channel, a goroutine's hands, the current batch or one written batch. */
  lemma ExactlyOnePlace(size: int, s: State, n: nat, c: Arrival)
    requires Reachable(size, s, n)
    ensures Places(s)[c] == if c in s.received then 1 else 0
  {
    hide Places, Reachable;
    AlwaysSafe(size, s, n);
    OncePerId(s.received, c);
  }

  lemma {:induction false} OncePerId(b: Batch, c: Arrival)
    requires forall i :: 0 <= i < |b| ==> b[i].id == i
    ensures multiset(b)[c] == if c in b then 1 else 0
    decreases |b|
  {
    if b != [] {
      var rest := b[..|b| - 1];
      OncePerId(rest, c);
      assert b == rest + [b[|b| - 1]];
    }
  }

  /** The current batch never exceeds what is allowed by the workers about to
      flush, and so never max(size, 1) + 4. */
  lemma BatchIsBounded(size: int, s: State, n: nat)
    requires Reachable(size, s, n)
    ensures |s.current| <= Slack(size) + Commits(s.workers)
    ensures |s.current| <= Max(size, 1) + 4
    ensures Commits(s.workers) == 0 ==> !IsFull(s.current, Max(size, 1))
  {
    AlwaysSafe(size, s, n);
    CommitsAtMost(s.workers);
  }

  // --------------------------------------------------------------- the bound is met

  /** The first k workers are committed, the others idle, and nothing is queued. */
  ghost predicate PiledUp(s: State, k: nat, len: nat) {
    && k <= |s.workers| == WORKERS
    && s.channel == []
    && |s.current| == len
    && (forall w :: 0 <= w < k ==> s.workers[w] == Committed)
    && (forall w :: k <= w < |s.workers| ==> s.workers[w] == Idle)
  }

  /** An idle worker takes one more candle in three steps. */
  lemma OneMore(size: int, s: State, n: nat, w: nat, c: MinuteCandle) returns (s': State)
    requires Reachable(size, s, n)
    requires w < |s.workers| && s.workers[w] == Idle && s.channel == []
    ensures Reachable(size, s', n + 3)
    ensures s'.channel == [] && |s'.current| == |s.current| + 1
    ensures s'.workers == s.workers[w := if IsFull(s'.current, size) then Committed else Idle]
  {
    hide Reachable;
    var a := Arrival(|s.received|, c);
    var s1 := s.(received := s.received + [a], channel := [a]);
    Extends(size, s, n, Enqueue(c), s1);
    var s2 := Move(s1, w, Holding(a)).(channel := []);
    Extends(size, s1, n + 1, Receive(w), s2);
    var current := s.current + [a];
    s' := Move(s2, w, if IsFull(current, size) then Committed else Idle).(current := current);
    Extends(size, s2, n + 2, AppendHeld(w), s');
  }

  lemma {:induction false} FillUp(size: int, len: nat, s0: State, c: MinuteCandle) returns (s: State, n: nat)
    requires Reachable(size, s0, 0) && PiledUp(s0, 0, 0) && len <= Slack(size)
    ensures Reachable(size, s, n) && PiledUp(s, 0, len)
    decreases len
  {
    hide Reachable;
    if len == 0 {
      s, n := s0, 0;
      return;
    }
    var p, m := FillUp(size, len - 1, s0, c);
    s := OneMore(size, p, m, 0, c);
    n := m + 3;
  }

  lemma {:induction false} PileUp(size: int, k: nat, s0: State, c: MinuteCandle) returns (s: State, n: nat)
    requires Reachable(size, s0, 0) && PiledUp(s0, 0, 0) && k <= WORKERS
    ensures Reachable(size, s, n) && PiledUp(s, k, Slack(size) + k)
    decreases k
  {
    hide Reachable;
    if k == 0 {
      s, n := FillUp(size, Slack(size), s0, c);
      return;
    }
    var p, m := PileUp(size, k - 1, s0, c);
    s := OneMore(size, p, m, k - 1, c);
    n := m + 3;
  }

  /** For every configured size some run reaches the bound exactly. */
  lemma BoundIsMet(size: int, c: MinuteCandle) returns (s: State, n: nat)
    ensures Reachable(size, s, n) && |s.current| == Max(size, 1) + 4
  {
    var s0 := INITIAL;
    assert Reachable(size, s0, 0);
    s, n := PileUp(size, WORKERS, s0, c);
  }

  // --------------------------------------------------------------- shutdown

  /** `Stop` and all workers have returned. */
  ghost predicate Finished(s: State) {
    s.stopper.Stopped? && forall w :: 0 <= w < |s.workers| ==> s.workers[w].Stopped?
  }

  /** After shutdown every candle was handed to the database except those still
      in the channel or the current batch, so nothing is lost exactly when both
      are empty. */
  lemma ShutdownAccounts(size: int, s: State, n: nat)
    requires Reachable(size, s, n) && Finished(s)
    ensures multiset(s.received) == All(s.written) + multiset(s.channel) + multiset(s.current)
    ensures multiset(s.received) == All(s.written) <==> s.channel == [] && s.current == []
  {
    hide Reachable;
    AlwaysSafe(size, s, n);
    NothingGathered(s.workers, InHand);
    var rest := multiset(s.channel) + multiset(s.current);
    assert |rest| == |s.channel| + |s.current|;
    assert multiset(s.received) == All(s.written) + rest;
    assert |multiset(s.received)| == |All(s.written)| + |rest|;
  }

  /** Workers k and up are idle, the ones below have returned. */
  ghost predicate Leaving(s: State, k: nat) {
    && k <= |s.workers| == WORKERS
    && !s.stopper.Idle?
    && (forall w :: 0 <= w < k ==> s.workers[w] == Stopped)
    && (forall w :: k <= w < WORKERS ==> s.workers[w] == Idle)
  }

  lemma {:induction false} AllLeave(size: int, s: State, n: nat, k: nat) returns (s': State, n': nat)
    requires Reachable(size, s, n) && Leaving(s, k)
    ensures Reachable(size, s', n') && Leaving(s', WORKERS)
    ensures s'.current == s.current && s'.stopper == s.stopper
    decreases WORKERS - k
  {
    hide Reachable;
    if k == WORKERS {
      s', n' := s, n;
    } else {
      var next := Move(s, k, Stopped);
      Extends(size, s, n, Exit(k), next);
      s', n' := AllLeave(size, next, n + 1, k + 1);
    }
  }

  /** A worker that holds a candle while `Stop` flushes appends it afterwards. */
  lemma LateAppend(size: int, s: State, n: nat, c: MinuteCandle) returns (s': State, n': nat)
    requires Reachable(size, s, n) && PiledUp(s, 0, 0) && s.stopper.Idle? && size >= 2
    ensures Reachable(size, s', n') && Finished(s') && s'.current != []
  {
    hide Reachable;
    var a := Arrival(|s.received|, c);
    var s1 := s.(received := s.received + [a], channel := [a]);
    Extends(size, s, n, Enqueue(c), s1);
    var s2 := Move(s1, 0, Holding(a)).(channel := []);
    Extends(size, s1, n + 1, Receive(0), s2);
    var s3 := s2.(stopper := Committed);
    Extends(size, s2, n + 2, BeginStop, s3);
    var s4 := s3.(stopper := Stopped, current := []);
    Extends(size, s3, n + 3, StopperTakes, s4);
    var s5 := Move(s4, 0, Idle).(current := [a]);
    Extends(size, s4, n + 4, AppendHeld(0), s5);
    s', n' := AllLeave(size, s5, n + 5, 0);
  }

  /** A finished run can leave candles in the current batch exactly when the
      configured batch size is at least two. */
  lemma StrandedExactly(size: int, c: MinuteCandle)
    ensures (exists s, n :: Reachable(size, s, n) && Finished(s) && s.current != []) <==> size >= 2
  {
    if size >= 2 {
      var s0 := INITIAL;
      assert Reachable(size, s0, 0);
      var s, n := LateAppend(size, s0, 0, c);
    } else {
      forall s, n | Reachable(size, s, n) && Finished(s) ensures s.current == [] {
        hide Reachable;
        AlwaysSafe(size, s, n);
        NoCommits(s.workers);
      }
    }
  }

  lemma {:induction false} NoCommits(ws: seq<Worker>)
    requires forall w :: 0 <= w < |ws| ==> ws[w].Stopped?
    ensures Commits(ws) == 0
    decreases |ws|
  {
    if ws != [] {
      NoCommits(ws[..|ws| - 1]);
    }
  }
}
