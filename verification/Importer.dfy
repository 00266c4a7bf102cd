/** The bulk importer of internal/importer/importer.go: the list of months to
    import, and the worker pool that imports them. */
module Importer {
  import opened Candles

  datatype Month = Month(year: int, month: int)

  datatype Task = Task(symbol: string, interval: Interval, month: Month)

  // --------------------------------------------------------------- the months of a job

  /** One turn of the loop in `generateTasks`. */
  function Next(m: Month): Month {
    if m.month + 1 > 12 then Month(m.year + 1, 1) else Month(m.year, m.month + 1)
  }

  function Later(m: Month, k: nat): Month
    decreases k
  {
    if k == 0 then m else Next(Later(m, k - 1))
  }

  /** The ranges for which the loop ends; any integers may be given. */
  predicate CanFinish(start: Month, end: Month) {
    || end == start
    || (end.year == start.year && start.month <= end.month <= 12)
    || (end.year > start.year && 1 <= end.month <= 12)
  }

  /** The number of turns before the last; a start month above 12 acts like December. */
  function Distance(start: Month, end: Month): int {
    if end == start then 0
    else 12 * (end.year - start.year) + end.month - Min(start.month, 12)
  }

  lemma NextIsCloser(m: Month, end: Month)
    requires CanFinish(m, end) && m != end
    ensures CanFinish(Next(m), end)
    ensures Distance(m, end) == Distance(Next(m), end) + 1
  {
  }

  lemma DistanceNonnegative(m: Month, end: Month)
    requires CanFinish(m, end)
    ensures Distance(m, end) >= 0
    ensures Distance(m, end) == 0 <==> m == end
  {
  }

  method GenerateTasks(symbol: string, interval: Interval, start: Month, end: Month) returns (tasks: seq<Task>)
    requires CanFinish(start, end)
    ensures |tasks| == Distance(start, end) + 1
    ensures forall i :: 0 <= i < |tasks| ==> tasks[i] == Task(symbol, interval, Later(start, i))
    ensures tasks[|tasks| - 1].month == end
  {
    hide CanFinish, Distance;
    tasks := [];
    var current := start;
    while true
      invariant CanFinish(current, end)
      invariant current == Later(start, |tasks|)
      invariant |tasks| + Distance(current, end) == Distance(start, end)
      invariant forall i :: 0 <= i < |tasks| ==> tasks[i] == Task(symbol, interval, Later(start, i))
      decreases Distance(current, end)
    {
      DistanceNonnegative(current, end);
      tasks := tasks + [Task(symbol, interval, current)];
      if current == end {
        break;
      }
      NextIsCloser(current, end);
      DistanceNonnegative(Next(current), end);
      current := if current.month + 1 > 12 then Month(current.year + 1, 1) else Month(current.year, current.month + 1);
    }
  }

  lemma {:induction false} FinishesAt(start: Month, end: Month)
    requires CanFinish(start, end)
    ensures Distance(start, end) >= 0 && Later(start, Distance(start, end)) == end
    decreases Distance(start, end)
  {
    DistanceNonnegative(start, end);
    if start != end {
      NextIsCloser(start, end);
      DistanceNonnegative(Next(start), end);
      FinishesAt(Next(start), end);
      LaterFromNext(start, Distance(Next(start), end));
    }
  }

  lemma {:induction false} LaterFromNext(m: Month, k: nat)
    ensures Later(m, k + 1) == Later(Next(m), k)
    decreases k
  {
    if k > 0 {
      LaterFromNext(m, k - 1);
    }
  }

  lemma {:induction false} LaterInRange(m: Month, k: nat)
    ensures CanFinish(m, Later(m, k))
    decreases k
  {
    if k > 0 {
      LaterInRange(m, k - 1);
    }
  }

  /** The loop of `generateTasks` meets its end, after Distance turns, exactly for
      the ranges of CanFinish; for all others it runs forever. */
  lemma TerminatesExactly(start: Month, end: Month)
    ensures (exists k: nat :: Later(start, k) == end) <==> CanFinish(start, end)
  {
    if CanFinish(start, end) {
      FinishesAt(start, end);
    }
    forall k: nat | Later(start, k) == end ensures CanFinish(start, end) {
      LaterInRange(start, k);
    }
  }

  /** An end before its start is never met. */
  lemma BackwardRunsForever(k: nat)
    ensures Later(Month(2024, 1), k) != Month(2023, 12)
  {
    TerminatesExactly(Month(2024, 1), Month(2023, 12));
    assert !CanFinish(Month(2024, 1), Month(2023, 12));
  }

  // --------------------------------------------------------------- every month once and in order

  predicate Calendar(m: Month) { 1 <= m.month <= 12 }

  function Ordinal(m: Month): int { 12 * m.year + m.month }

  lemma {:induction false} OrdinalLater(m: Month, k: nat)
    requires Calendar(m)
    ensures Calendar(Later(m, k)) && Ordinal(Later(m, k)) == Ordinal(m) + k
    decreases k
  {
    if k > 0 {
      OrdinalLater(m, k - 1);
    }
  }

  lemma OrdinalInjective(a: Month, b: Month)
    requires Calendar(a) && Calendar(b) && Ordinal(a) == Ordinal(b)
    ensures a == b
  {
  }

  /** For calendar months the k-th task is the k-th month, and the months of the
      tasks are exactly the months from start to end. */
  lemma EveryMonthOnce(start: Month, end: Month, m: Month)
    requires Calendar(start) && Calendar(end) && Ordinal(start) <= Ordinal(end) && Calendar(m)
    ensures CanFinish(start, end)
    ensures (exists k: nat :: k <= Distance(start, end) && Later(start, k) == m) <==>
            Ordinal(start) <= Ordinal(m) <= Ordinal(end)
    ensures forall i: nat, j: nat :: i < j ==> Ordinal(Later(start, i)) < Ordinal(Later(start, j))
  {
    assert Distance(start, end) == Ordinal(end) - Ordinal(start);
    forall k: nat | k <= Distance(start, end) && Later(start, k) == m
      ensures Ordinal(start) <= Ordinal(m) <= Ordinal(end)
    {
      OrdinalLater(start, k);
    }
    if Ordinal(start) <= Ordinal(m) <= Ordinal(end) {
      var k: nat := Ordinal(m) - Ordinal(start);
      OrdinalLater(start, k);
      OrdinalInjective(Later(start, k), m);
    }
    forall i: nat, j: nat | i < j ensures Ordinal(Later(start, i)) < Ordinal(Later(start, j)) {
      OrdinalLater(start, i);
      OrdinalLater(start, j);
    }
  }
}
