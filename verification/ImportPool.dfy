/** The worker pool of `Import` (internal/importer/importer.go) for one interval:
    the main goroutine sends the tasks and closes the channel of tasks, each worker
    fetches, processes and reports until that channel is drained, a further
    goroutine closes the result channel once all workers have returned, and the
    main goroutine counts the results. Both channels have room for all tasks. */
module ImportPool {
  import opened Importer
  import opened Gathering

  /** How `processMonth` ended: with an error, skipped, or with candles stored. */
  datatype Outcome = Succeeded | Skipped | Failed

  datatype Result = Result(task: Task, outcome: Outcome)

  datatype Worker = Fetching | Working(task: Task) | Reporting(result: Result) | Done

  datatype Counters = Counters(succeeded: int, skipped: int, failed: int)

  function Counted(n: Counters, outcome: Outcome): Counters {
    match outcome
    case Failed => n.(failed := n.failed + 1)
    case Skipped => n.(skipped := n.skipped + 1)
    case Succeeded => n.(succeeded := n.succeeded + 1)
  }

  datatype State = State(
    toSend: seq<Task>,
    taskChan: seq<Task>,
    tasksClosed: bool,
    workers: seq<Worker>,
    resultChan: seq<Result>,
    resultsClosed: bool,
    collected: seq<Result>,
    counters: Counters,
    finished: bool)

  ghost predicate Initial(tasks: seq<Task>, workers: nat, s: State) {
    && s.toSend == tasks && s.taskChan == [] && !s.tasksClosed
    && |s.workers| == workers && (forall w :: 0 <= w < workers ==> s.workers[w] == Fetching)
    && s.resultChan == [] && !s.resultsClosed
    && s.collected == [] && s.counters == Counters(0, 0, 0) && !s.finished
  }

  datatype Action =
    | Send | CloseTasks
    | Fetch(w: nat) | Process(w: nat, outcome: Outcome) | Report(w: nat) | Exit(w: nat)
    | CloseResults
    | Collect | Finish

  ghost predicate AllDone(ws: seq<Worker>) {
    forall w :: 0 <= w < |ws| ==> ws[w].Done?
  }

  function Move(s: State, w: nat, position: Worker): State
    requires w < |s.workers|
  {
    s.(workers := s.workers[w := position])
  }

  /** One step; `room` is the capacity of both channels. A send that finds its
      channel full waits, so it is not enabled. */
  ghost predicate Step(room: nat, s: State, act: Action, s': State) {
    match act
    case Send =>
      && s.toSend != [] && |s.taskChan| < room
      && s' == s.(toSend := s.toSend[1..], taskChan := s.taskChan + [s.toSend[0]])
    case CloseTasks =>
      && s.toSend == [] && !s.tasksClosed
      && s' == s.(tasksClosed := true)
    case Fetch(w) =>
      && w < |s.workers| && s.workers[w].Fetching? && s.taskChan != []
      && s' == Move(s, w, Working(s.taskChan[0])).(taskChan := s.taskChan[1..])
    case Process(w, outcome) =>
      && w < |s.workers| && s.workers[w].Working?
      && s' == Move(s, w, Reporting(Result(s.workers[w].task, outcome)))
    case Report(w) =>
      && w < |s.workers| && s.workers[w].Reporting? && |s.resultChan| < room
      && s' == Move(s, w, Fetching).(resultChan := s.resultChan + [s.workers[w].result])
    case Exit(w) =>
      && w < |s.workers| && s.workers[w].Fetching? && s.taskChan == [] && s.tasksClosed
      && s' == Move(s, w, Done)
    case CloseResults =>
      && s.tasksClosed && AllDone(s.workers) && !s.resultsClosed
      && s' == s.(resultsClosed := true)
    case Collect =>
      && s.tasksClosed && s.resultChan != []
      && s' == s.(resultChan := s.resultChan[1..], collected := s.collected + [s.resultChan[0]],
                  counters := Counted(s.counters, s.resultChan[0].outcome))
    case Finish =>
      && s.tasksClosed && s.resultChan == [] && s.resultsClosed && !s.finished
      && s' == s.(finished := true)
  }

  /** The states reachable in n steps under any schedule. */
  ghost predicate Reachable(tasks: seq<Task>, workers: nat, s: State, n: nat)
    decreases n
  {
    if n == 0 then Initial(tasks, workers, s)
    else exists p, act :: Reachable(tasks, workers, p, n - 1) && Step(|tasks|, p, act, s)
  }

  lemma Extends(tasks: seq<Task>, workers: nat, p: State, n: nat, act: Action, s: State)
    requires Reachable(tasks, workers, p, n) && Step(|tasks|, p, act, s)
    ensures Reachable(tasks, workers, s, n + 1)
  {
  }

  // --------------------------------------------------------------- where the tasks are

  function InHand(w: Worker): multiset<Task> {
    match w
    case Working(task) => multiset{task}
    case Reporting(result) => multiset{result.task}
    case _ => multiset{}
  }

  ghost function TasksOf(rs: seq<Result>): multiset<Task> {
    if rs == [] then multiset{} else multiset{rs[0].task} + TasksOf(rs[1..])
  }

  ghost function Places(s: State): multiset<Task> {
    multiset(s.toSend) + multiset(s.taskChan) + Gathered(s.workers, InHand) + TasksOf(s.resultChan) +
        TasksOf(s.collected)
  }

  lemma {:induction false} TasksOfAppend(rs: seq<Result>, r: Result)
    ensures TasksOf(rs + [r]) == TasksOf(rs) + multiset{r.task}
    decreases |rs|
  {
    if rs != [] {
      TasksOfAppend(rs[1..], r);
      assert (rs + [r])[1..] == rs[1..] + [r];
    }
  }

  lemma SendMoves(room: nat, s: State, s': State)
    requires Step(room, s, Send, s')
    ensures Places(s') == Places(s)
  {
    hide Gathered, TasksOf;
    var t := s.toSend[0];
    assert s.toSend == [t] + s'.toSend;
    Shifted(multiset(s.toSend), multiset(s'.toSend), multiset(s.taskChan), multiset(s'.taskChan), multiset{t});
  }

  lemma FetchMoves(room: nat, s: State, act: Action, s': State)
    requires act.Fetch? && Step(room, s, act, s')
    ensures Places(s') == Places(s)
  {
    hide Gathered, TasksOf;
    GatheredUpdate(s.workers, InHand, act.w, s'.workers[act.w]);
    var t := s.taskChan[0];
    assert s.taskChan == [t] + s'.taskChan;
    Shifted(multiset(s.taskChan), multiset(s'.taskChan), Gathered(s.workers, InHand), Gathered(s'.workers, InHand),
            multiset{t});
  }

  lemma ReportMoves(room: nat, s: State, act: Action, s': State)
    requires act.Report? && Step(room, s, act, s')
    ensures Places(s') == Places(s)
  {
    hide Gathered, TasksOf;
    GatheredUpdate(s.workers, InHand, act.w, s'.workers[act.w]);
    var r := s.workers[act.w].result;
    TasksOfAppend(s.resultChan, r);
    Shifted(Gathered(s.workers, InHand), Gathered(s'.workers, InHand), TasksOf(s.resultChan),
            TasksOf(s'.resultChan), multiset{r.task});
  }

  lemma WorkerKeeps(room: nat, s: State, act: Action, s': State)
    requires (act.Process? || act.Exit?) && Step(room, s, act, s')
    ensures Places(s') == Places(s)
  {
    hide Gathered, TasksOf;
    var m := InHand(s.workers[act.w]);
    assert InHand(s'.workers[act.w]) == m;
    GatheredUpdate(s.workers, InHand, act.w, s'.workers[act.w]);
    Cancel(Gathered(s.workers, InHand), Gathered(s'.workers, InHand), m);
  }

  lemma CollectMoves(room: nat, s: State, s': State)
    requires Step(room, s, Collect, s')
    ensures Places(s') == Places(s)
  {
    hide Gathered, TasksOf;
    var r := s.resultChan[0];
    TasksOfAppend(s.collected, r);
    FirstTask(s.resultChan);
    Shifted(TasksOf(s.resultChan), TasksOf(s'.resultChan), TasksOf(s.collected), TasksOf(s'.collected),
            multiset{r.task});
  }

  lemma FirstTask(rs: seq<Result>)
    requires rs != []
    ensures TasksOf(rs) == TasksOf(rs[1..]) + multiset{rs[0].task}
  {
  }

  lemma StepMoves(room: nat, s: State, act: Action, s': State)
    requires Step(room, s, act, s')
    ensures Places(s') == Places(s)
  {
    match act {
      case Send => SendMoves(room, s, s');
      case Fetch(_) => FetchMoves(room, s, act, s');
      case Report(_) => ReportMoves(room, s, act, s');
      case Process(_, _) => WorkerKeeps(room, s, act, s');
      case Exit(_) => WorkerKeeps(room, s, act, s');
      case Collect => CollectMoves(room, s, s');
      case _ =>
    }
  }

  // --------------------------------------------------------------- how far the run is

  /** Steps a worker still takes with what it holds. */
  function Left(w: Worker): nat {
    match w
    case Fetching => 1
    case Working(_) => 4
    case Reporting(_) => 3
    case Done => 0
  }

  ghost function LeftAll(ws: seq<Worker>): nat {
    if ws == [] then 0 else LeftAll(ws[..|ws| - 1]) + Left(ws[|ws| - 1])
  }

  function One(b: bool): nat { if b then 0 else 1 }

  /** The number of steps until the run is over. */
  ghost function Remaining(s: State): nat {
    5 * |s.toSend| + 4 * |s.taskChan| + LeftAll(s.workers) + |s.resultChan|
    + One(s.tasksClosed) + One(s.resultsClosed) + One(s.finished)
  }

  lemma {:induction false} LeftUpdate(ws: seq<Worker>, w: nat, x: Worker)
    requires w < |ws|
    ensures LeftAll(ws[w := x]) + Left(ws[w]) == LeftAll(ws) + Left(x)
    decreases |ws|
  {
    hide Left;
    var n := |ws| - 1;
    var ws' := ws[w := x];
    if w == n {
      assert ws'[..n] == ws[..n];
    } else {
      assert ws'[..n] == ws[..n][w := x];
      LeftUpdate(ws[..n], w, x);
    }
  }

  lemma {:induction false} LeftInitially(ws: seq<Worker>)
    requires forall w :: 0 <= w < |ws| ==> ws[w] == Fetching
    ensures LeftAll(ws) == |ws|
    decreases |ws|
  {
    if ws != [] {
      LeftInitially(ws[..|ws| - 1]);
    }
  }

  /** Every step brings the end one step closer. */
  lemma StepProgress(room: nat, s: State, act: Action, s': State)
    requires Step(room, s, act, s')
    ensures Remaining(s) == Remaining(s') + 1
  {
    hide LeftAll;
    if act.Fetch? || act.Process? || act.Report? || act.Exit? {
      LeftUpdate(s.workers, act.w, s'.workers[act.w]);
    }
  }

  // --------------------------------------------------------------- the invariant

  ghost function CountOf(rs: seq<Result>, outcome: Outcome): nat {
    if rs == [] then 0
    else CountOf(rs[..|rs| - 1], outcome) + if rs[|rs| - 1].outcome == outcome then 1 else 0
  }

  /** The counters count the collected results. */
  ghost predicate Tallied(s: State) {
    s.counters == Counters(CountOf(s.collected, Succeeded), CountOf(s.collected, Skipped), CountOf(s.collected, Failed))
  }

  /** A channel is closed only when nothing can be sent on it any more. */
  ghost predicate ClosedLate(s: State) {
    && (s.tasksClosed ==> s.toSend == [])
    && (forall w :: 0 <= w < |s.workers| && s.workers[w].Done? ==> s.tasksClosed && s.taskChan == [])
    && (s.resultsClosed ==> s.tasksClosed && AllDone(s.workers))
    && (s.finished ==> s.resultsClosed && s.resultChan == [])
  }

  ghost predicate Sound(tasks: seq<Task>, workers: nat, s: State) {
    && |s.workers| == workers
    && Places(s) == multiset(tasks)
    && Tallied(s)
    && ClosedLate(s)
  }

  lemma StepTallies(room: nat, s: State, act: Action, s': State)
    requires Tallied(s) && Step(room, s, act, s')
    ensures Tallied(s')
  {
    hide CountOf;
    if act.Collect? {
      var r := s.resultChan[0];
      CountOfAppend(s.collected, r, Succeeded);
      CountOfAppend(s.collected, r, Skipped);
      CountOfAppend(s.collected, r, Failed);
    }
  }

  lemma CountOfAppend(rs: seq<Result>, r: Result, outcome: Outcome)
    ensures CountOf(rs + [r], outcome) == CountOf(rs, outcome) + if r.outcome == outcome then 1 else 0
  {
    assert (rs + [r])[..|rs|] == rs;
  }

  lemma StepClosesLate(room: nat, s: State, act: Action, s': State)
    requires ClosedLate(s) && Step(room, s, act, s')
    ensures ClosedLate(s')
  {
    if act.Fetch? || act.Process? || act.Report? || act.Exit? {
      var w := act.w;
      assert !s.workers[w].Done?;
      assert !s.resultsClosed;
    }
  }

  /** Under every schedule the invariant holds, and the number of steps taken and
      the number of steps left add up to the same total. */
  lemma {:induction false} AlwaysSound(tasks: seq<Task>, workers: nat, s: State, n: nat)
    requires Reachable(tasks, workers, s, n)
    ensures Sound(tasks, workers, s)
    ensures n + Remaining(s) == 5 * |tasks| + workers + 3
    decreases n
  {
    hide Step, Places, Tallied, ClosedLate, Remaining;
    if n == 0 {
      InitiallySound(tasks, workers, s);
    } else {
      var p, act :| Reachable(tasks, workers, p, n - 1) && Step(|tasks|, p, act, s);
      AlwaysSound(tasks, workers, p, n - 1);
      StepMoves(|tasks|, p, act, s);
      StepTallies(|tasks|, p, act, s);
      StepClosesLate(|tasks|, p, act, s);
      StepProgress(|tasks|, p, act, s);
      assert |s.workers| == |p.workers| by { SameWorkers(|tasks|, p, act, s); }
    }
  }

  lemma SameWorkers(room: nat, s: State, act: Action, s': State)
    requires Step(room, s, act, s')
    ensures |s'.workers| == |s.workers|
  {
  }

  lemma InitiallySound(tasks: seq<Task>, workers: nat, s: State)
    requires Initial(tasks, workers, s)
    ensures Sound(tasks, workers, s)
    ensures Remaining(s) == 5 * |tasks| + workers + 3
  {
    LeftInitially(s.workers);
    NothingGathered(s.workers, InHand);
  }

  // --------------------------------------------------------------- main results

  /** Nothing is sent on a closed channel: while a worker still holds a task or a
      result the result channel is open, and the channel of tasks is
      open while some are unsent. */
  lemma NoSendAfterClose(tasks: seq<Task>, workers: nat, s: State, n: nat, w: nat)
    requires Reachable(tasks, workers, s, n)
    ensures s.toSend != [] ==> !s.tasksClosed
    ensures w < |s.workers| && !s.workers[w].Done? ==> !s.resultsClosed
  {
    hide Reachable, Places, Tallied;
    AlwaysSound(tasks, workers, s, n);
  }

  /** The pool never blocks: until it has finished some step is possible. */
  lemma NeverBlocks(tasks: seq<Task>, workers: nat, s: State, n: nat)
    requires Reachable(tasks, workers, s, n)
    ensures s.finished <==> !exists act, s' :: Step(|tasks|, s, act, s')
  {
    AlwaysSound(tasks, workers, s, n);
    if s.finished {
      forall act, s' ensures !Step(|tasks|, s, act, s') {
        FinishedIsStuck(|tasks|, s, act, s');
      }
    } else {
      var act, s' := SomeStep(tasks, workers, s);
    }
  }

  lemma FinishedIsStuck(room: nat, s: State, act: Action, s': State)
    requires ClosedLate(s) && s.finished
    ensures !Step(room, s, act, s')
  {
  }

  lemma SomeStep(tasks: seq<Task>, workers: nat, s: State) returns (act: Action, s': State)
    requires Sound(tasks, workers, s) && !s.finished
    ensures Step(|tasks|, s, act, s')
  {
    hide Places, Tallied;
    if s.toSend != [] {
      RoomToSend(tasks, s);
      act := Send;
      s' := s.(toSend := s.toSend[1..], taskChan := s.taskChan + [s.toSend[0]]);
    } else if !s.tasksClosed {
      act, s' := CloseTasks, s.(tasksClosed := true);
    } else if w :| 0 <= w < |s.workers| && !s.workers[w].Done? {
      act, s' := WorkerStep(tasks, s, w);
    } else if !s.resultsClosed {
      act, s' := CloseResults, s.(resultsClosed := true);
    } else if s.resultChan == [] {
      act, s' := Finish, s.(finished := true);
    } else {
      act := Collect;
      s' := s.(resultChan := s.resultChan[1..], collected := s.collected + [s.resultChan[0]],
               counters := Counted(s.counters, s.resultChan[0].outcome));
    }
  }

  lemma WorkerStep(tasks: seq<Task>, s: State, w: nat) returns (act: Action, s': State)
    requires Places(s) == multiset(tasks) && s.tasksClosed
    requires w < |s.workers| && !s.workers[w].Done?
    ensures Step(|tasks|, s, act, s')
  {
    hide Places;
    match s.workers[w] {
      case Fetching =>
        if s.taskChan == [] {
          act, s' := Exit(w), Move(s, w, Done);
        } else {
          act, s' := Fetch(w), Move(s, w, Working(s.taskChan[0])).(taskChan := s.taskChan[1..]);
        }
      case Working(t) =>
        act, s' := Process(w, Succeeded), Move(s, w, Reporting(Result(t, Succeeded)));
      case Reporting(r) =>
        RoomToReport(tasks, s, w);
        act, s' := Report(w), Move(s, w, Fetching).(resultChan := s.resultChan + [r]);
    }
  }

  lemma RoomToSend(tasks: seq<Task>, s: State)
    requires Places(s) == multiset(tasks) && s.toSend != []
    ensures |s.taskChan| < |tasks|
  {
    hide Gathered, TasksOf;
    PlacesSize(s);
    assert |multiset(tasks)| == |tasks|;
  }

  lemma PlacesSize(s: State)
    ensures |Places(s)| == |s.toSend| + |s.taskChan| + |Gathered(s.workers, InHand)| + |s.resultChan| + |s.collected|
  {
    hide Gathered, TasksOf;
    TasksOfSize(s.resultChan);
    TasksOfSize(s.collected);
  }

  lemma {:induction false} TasksOfSize(rs: seq<Result>)
    ensures |TasksOf(rs)| == |rs|
    decreases |rs|
  {
    if rs != [] {
      TasksOfSize(rs[1..]);
    }
  }

  lemma RoomToReport(tasks: seq<Task>, s: State, w: nat)
    requires Places(s) == multiset(tasks) && w < |s.workers| && s.workers[w].Reporting?
    ensures |s.resultChan| < |tasks|
  {
    hide Gathered, TasksOf, Places;
    PlacesSize(s);
    assert |multiset(tasks)| == |tasks|;
    GatheredUpdate(s.workers, InHand, w, Done);
    var task := s.workers[w].result.task;
    assert Gathered(s.workers, InHand) == Gathered(s.workers[w := Done], InHand) + multiset{task};
  }

  /** A run of the pool has exactly 5 steps per task, one per worker and three
      more, whatever the schedule, and a longer run is impossible. */
  lemma RunLength(tasks: seq<Task>, workers: nat, s: State, n: nat)
    requires Reachable(tasks, workers, s, n)
    ensures n <= 5 * |tasks| + workers + 3
    ensures s.finished && workers > 0 ==> n == 5 * |tasks| + workers + 3
  {
    hide Reachable, Places, Tallied;
    AlwaysSound(tasks, workers, s, n);
    if s.finished && workers > 0 {
      assert s.workers[0].Done?;
      NothingLeft(s.workers);
    }
  }

  lemma {:induction false} NothingLeft(ws: seq<Worker>)
    requires AllDone(ws)
    ensures LeftAll(ws) == 0
    decreases |ws|
  {
    if ws != [] {
      NothingLeft(ws[..|ws| - 1]);
    }
  }

  lemma {:induction false} CountsAddUp(rs: seq<Result>)
    ensures CountOf(rs, Succeeded) + CountOf(rs, Skipped) + CountOf(rs, Failed) == |rs|
    decreases |rs|
  {
    if rs != [] {
      CountsAddUp(rs[..|rs| - 1]);
    }
  }

  function Sum(n: Counters): int { n.succeeded + n.skipped + n.failed }

  /** With at least one worker, under every schedule each task is counted exactly
      once by the time the pool has finished. */
  lemma EveryTaskCounted(tasks: seq<Task>, workers: nat, s: State, n: nat)
    requires Reachable(tasks, workers, s, n) && s.finished && workers > 0
    ensures TasksOf(s.collected) == multiset(tasks)
    ensures Sum(s.counters) == |tasks|
  {
    hide Reachable, CountOf;
    AlwaysSound(tasks, workers, s, n);
    assert s.workers[0].Done?;
    NothingGathered(s.workers, InHand);
    TasksOfSize(s.collected);
    CountsAddUp(s.collected);
    assert |multiset(tasks)| == |tasks|;
  }

  /** Every run can be continued until the pool has finished. */
  lemma {:induction false} CanAlwaysFinish(tasks: seq<Task>, workers: nat, s: State, n: nat)
      returns (s': State, n': nat)
    requires Reachable(tasks, workers, s, n)
    ensures Reachable(tasks, workers, s', n') && s'.finished
    decreases Remaining(s)
  {
    hide Reachable, Step, Sound, Remaining;
    AlwaysSound(tasks, workers, s, n);
    if s.finished {
      s', n' := s, n;
    } else {
      var act, next := SomeStep(tasks, workers, s);
      StepProgress(|tasks|, s, act, next);
      Extends(tasks, workers, s, n, act, next);
      s', n' := CanAlwaysFinish(tasks, workers, next, n + 1);
    }
  }

  ghost predicate Silent(s: State) {
    s.workers == [] && s.resultChan == [] && s.collected == [] && Sum(s.counters) == 0
  }

  lemma StepStaysSilent(room: nat, s: State, act: Action, s': State)
    requires Silent(s) && Step(room, s, act, s')
    ensures Silent(s')
  {
  }

  /** Without workers nothing is ever reported. */
  lemma {:induction false} NoWorkersNoResults(tasks: seq<Task>, workers: nat, s: State, n: nat)
    requires Reachable(tasks, workers, s, n) && workers == 0
    ensures Silent(s)
    decreases n
  {
    hide Silent, Step;
    if n == 0 {
      StartsSilent(tasks, workers, s);
    } else {
      var p, act :| Reachable(tasks, workers, p, n - 1) && Step(|tasks|, p, act, s);
      NoWorkersNoResults(tasks, workers, p, n - 1);
      StepStaysSilent(|tasks|, p, act, s);
    }
  }

  lemma StartsSilent(tasks: seq<Task>, workers: nat, s: State)
    requires Initial(tasks, workers, s) && workers == 0
    ensures Silent(s)
  {
  }

  /** The counters of a finished pool add up to the number of tasks under every
      schedule exactly when there is a worker or nothing to do. */
  lemma CountedExactly(tasks: seq<Task>, workers: nat)
    ensures (forall s, n :: Reachable(tasks, workers, s, n) && s.finished ==> Sum(s.counters) == |tasks|) <==>
            workers > 0 || tasks == []
  {
    hide Reachable;
    if workers > 0 {
      forall s, n | Reachable(tasks, workers, s, n) && s.finished ensures Sum(s.counters) == |tasks| {
        EveryTaskCounted(tasks, workers, s, n);
      }
    } else {
      forall s, n | Reachable(tasks, workers, s, n) ensures Sum(s.counters) == 0 {
        NoWorkersNoResults(tasks, workers, s, n);
      }
      var s0 := Start(tasks, workers);
      var s, n := CanAlwaysFinish(tasks, workers, s0, 0);
    }
  }

  lemma Start(tasks: seq<Task>, workers: nat) returns (s: State)
    ensures Reachable(tasks, workers, s, 0)
  {
    s := State(tasks, [], false, seq(workers, _ => Fetching), [], false, [], Counters(0, 0, 0), false);
    assert Initial(tasks, workers, s);
  }
}
