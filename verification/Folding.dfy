/** Folding 1m candles into one bar: the key sort and the accumulator loop that
    internal/services/aggregator/interval_aggregator.go repeats in
    `buildCurrentCandle`, `completeIntervalNow` and `updateIntervalCandle`, and
    the accumulator of `group1mCandlesByInterval`. */
module Folding {
  import opened Candles

  // --------------------------------------------------------------- sorted keys

  ghost predicate Increasing(s: seq<int>) {
    forall i, j :: 0 <= i < j < |s| ==> s[i] < s[j]
  }

  ghost function MaxOf(s: set<int>): (x: int)
    requires |s| > 0
    ensures x in s
    ensures forall y :: y in s ==> y <= x
  {
    var z := Pick(s);
    var rest := s - {z};
    assert s == rest + {z};
    if |rest| == 0 then z else Max(z, MaxOf(rest))
  }

  /** The elements of s in increasing order. */
  ghost function Sorted(s: set<int>): (r: seq<int>)
    ensures Increasing(r)
    ensures forall x :: x in r <==> x in s
    ensures |r| == |s|
  {
    if |s| == 0 then [] else
    var m := MaxOf(s);
    Sorted(s - {m}) + [m]
  }

  lemma SortedElements(s: set<int>)
    ensures forall i :: 0 <= i < |Sorted(s)| ==> Sorted(s)[i] in s
  {
    var r := Sorted(s);
    forall i | 0 <= i < |r| ensures r[i] in s {
      var x := r[i];
      assert x in r;
    }
  }

  /** An increasing sequence is determined by its elements. */
  lemma {:induction false} IncreasingIsUnique(a: seq<int>, b: seq<int>)
    requires Increasing(a) && Increasing(b) && (forall x :: x in a <==> x in b)
    ensures a == b
  {
    if |a| == 0 || |b| == 0 {
      var x, y := if |a| > 0 then a[0] else 0, if |b| > 0 then b[0] else 0;
      assert (|a| > 0 ==> x in a) && (|b| > 0 ==> y in b);
    } else {
      var a', b' := a[..|a| - 1], b[..|b| - 1];
      LastIsMax(a);
      LastIsMax(b);
      var x := a[|a| - 1];
      var y := b[|b| - 1];
      assert y in a && x in b;
      assert forall z :: z in a' <==> z in a && z != x;
      assert forall z :: z in b' <==> z in b && z != x;
      IncreasingIsUnique(a', b');
    }
  }

  lemma LastIsMax(a: seq<int>)
    requires Increasing(a) && |a| > 0
    ensures forall z :: z in a ==> z <= a[|a| - 1]
    ensures a == a[..|a| - 1] + [a[|a| - 1]] && Increasing(a[..|a| - 1])
    ensures a[|a| - 1] !in a[..|a| - 1]
  {
  }

  lemma SortedIsTheOrder(s: set<int>, r: seq<int>)
    requires Increasing(r) && (forall x :: x in r <==> x in s)
    ensures r == Sorted(s)
  {
    IncreasingIsUnique(r, Sorted(s));
  }

  /** Sorting a set that splits into a lower and an upper part. */
  lemma SortedSplit(lo: set<int>, hi: set<int>)
    requires forall x, y :: x in lo && y in hi ==> x < y
    ensures Sorted(lo + hi) == Sorted(lo) + Sorted(hi)
  {
    hide Sorted;
    var a, b := Sorted(lo), Sorted(hi);
    forall i, j | 0 <= i < j < |a + b| ensures (a + b)[i] < (a + b)[j] {
      if i < |a| <= j {
        assert a[i] in lo && b[j - |a|] in hi;
      }
    }
    assert forall x :: x in a + b <==> x in a || x in b;
    SortedIsTheOrder(lo + hi, a + b);
  }

  // --------------------------------------------------------------- insertion sort

  ghost predicate NonDecreasing(s: seq<int>) {
    forall i, j :: 0 <= i < j < |s| ==> s[i] <= s[j]
  }

  /** Insert x into s from the right: past every larger element. */
  function Inserted(s: seq<int>, x: int): seq<int> {
    if s == [] || s[|s| - 1] <= x then s + [x]
    else Inserted(s[..|s| - 1], x) + [s[|s| - 1]]
  }

  /** What the insertion sort leaves in the slice. */
  function InsertionSorted(s: seq<int>): seq<int> {
    if s == [] then [] else Inserted(InsertionSorted(s[..|s| - 1]), s[|s| - 1])
  }

  lemma {:induction false} InsertedPermutes(s: seq<int>, x: int)
    ensures multiset(Inserted(s, x)) == multiset(s) + multiset{x}
  {
    if s != [] && s[|s| - 1] > x {
      var init, last := s[..|s| - 1], s[|s| - 1];
      assert s == init + [last];
      InsertedPermutes(init, x);
    }
  }

  lemma {:induction false} InsertedOrdered(s: seq<int>, x: int)
    requires NonDecreasing(s)
    ensures NonDecreasing(Inserted(s, x))
  {
    if s != [] && s[|s| - 1] > x {
      var init, last := s[..|s| - 1], s[|s| - 1];
      InsertedOrdered(init, x);
      InsertedPermutes(init, x);
      AppendUpper(Inserted(init, x), last);
    }
  }

  lemma AppendUpper(s: seq<int>, last: int)
    requires NonDecreasing(s)
    requires forall z :: z in multiset(s) ==> z <= last
    ensures NonDecreasing(s + [last])
  {
    assert forall i :: 0 <= i < |s| ==> s[i] in multiset(s);
  }

  /** Insertion sort yields an ordered permutation of its input. */
  lemma {:induction false} InsertionSortSorts(s: seq<int>)
    ensures NonDecreasing(InsertionSorted(s))
    ensures multiset(InsertionSorted(s)) == multiset(s)
  {
    if s != [] {
      var init, last := s[..|s| - 1], s[|s| - 1];
      assert s == init + [last];
      InsertionSortSorts(init);
      InsertedPermutes(InsertionSorted(init), last);
      InsertedOrdered(InsertionSorted(init), last);
    }
  }

  lemma {:induction false} InsertedPosition(s: seq<int>, x: int, p: int)
    requires 0 <= p <= |s|
    requires forall k :: p <= k < |s| ==> s[k] > x
    requires p == 0 || s[p - 1] <= x
    ensures Inserted(s, x) == s[..p] + [x] + s[p..]
  {
    if p < |s| {
      var init := s[..|s| - 1];
      InsertedPosition(init, x, p);
      assert init[..p] == s[..p] && init[p..] + [s[|s| - 1]] == s[p..];
    }
  }

  /** Move a[i] left past the larger elements of the prefix before it. */
  method InsertAt(a: array<int>, i: int)
    requires 0 <= i < a.Length
    modifies a
    ensures a[..i + 1] == Inserted(old(a[..i]), old(a[i]))
    ensures a[i + 1..] == old(a[i + 1..])
  {
    hide Inserted;
    var key := a[i];
    ghost var was := a[..i];
    var j := i - 1;
    while j >= 0 && a[j] > key
      invariant -1 <= j < i
      invariant forall k :: 0 <= k <= j ==> a[k] == was[k]
      invariant forall k :: j + 1 < k <= i ==> a[k] == was[k - 1]
      invariant forall k :: i < k < a.Length ==> a[k] == old(a[k])
      invariant forall k :: j < k < i ==> was[k] > key
    {
      a[j + 1] := a[j];
      j := j - 1;
    }
    a[j + 1] := key;
    InsertedPosition(was, key, j + 1);
    MovedPast(a[..i + 1], was, key, j + 1);
  }

  lemma MovedPast(r: seq<int>, was: seq<int>, key: int, p: int)
    requires 0 <= p <= |was| && |r| == |was| + 1 && r[p] == key
    requires forall k :: 0 <= k < p ==> r[k] == was[k]
    requires forall k :: p < k < |r| ==> r[k] == was[k - 1]
    ensures r == was[..p] + [key] + was[p..]
  {
  }

  /** The insertion sort of the minute keys, in place. */
  method InsertionSort(a: array<int>)
    modifies a
    ensures a[..] == InsertionSorted(old(a[..]))
  {
    if a.Length == 0 { return; }
    ghost var was := a[..];
    assert was[..1] == [was[0]] && was[..1][..0] == [];
    for i := 1 to a.Length
      invariant a[..i] == InsertionSorted(was[..i])
      invariant a[i..] == was[i..]
    {
      assert a[i] == a[i..][0] == was[i];
      assert was[..i + 1][..i] == was[..i];
      ghost var tail := a[i + 1..];
      assert tail == a[i..][1..] == was[i + 1..];
      InsertAt(a, i);
    }
    assert a[..] == a[..a.Length] && was == was[..a.Length];
  }

  // --------------------------------------------------------------- bars

  /** The accumulators of the aggregation loops. */
  datatype Bar = Bar(open: int, high: int, low: int, close: int, volume: int, quoteVolume: int, tradeCount: int)

  const EMPTY_BAR := Bar(0, 0, 0, 0, 0, 0, 0)

  function BarOf(c: Candle): Bar {
    Bar(c.open, c.high, c.low, c.close, c.volume, c.quoteVolume, c.tradeCount)
  }

  /** One round of the streaming loop: a low of zero counts as unset. */
  function Extend(b: Bar, c: Candle): Bar {
    Bar(b.open,
        if c.high > b.high then c.high else b.high,
        if c.low < b.low || b.low == 0 then c.low else b.low,
        c.close,
        b.volume + c.volume, b.quoteVolume + c.quoteVolume, b.tradeCount + c.tradeCount)
  }

  /** The streaming loop over candles in time order. */
  function StreamBar(cs: seq<Candle>): Bar {
    if |cs| == 0 then EMPTY_BAR
    else if |cs| == 1 then BarOf(cs[0])
    else Extend(StreamBar(cs[..|cs| - 1]), cs[|cs| - 1])
  }

  /** Two bars, one after the other in time. */
  function Join(a: Bar, b: Bar): Bar {
    Bar(a.open, Max(a.high, b.high), Min(a.low, b.low), b.close,
        a.volume + b.volume, a.quoteVolume + b.quoteVolume, a.tradeCount + b.tradeCount)
  }

  /** The batch loop over candles in time order. */
  function BatchBar(cs: seq<Candle>): Bar {
    if |cs| == 0 then EMPTY_BAR
    else if |cs| == 1 then BarOf(cs[0])
    else Join(BatchBar(cs[..|cs| - 1]), BarOf(cs[|cs| - 1]))
  }

  // --------------------------------------------------------------- what a bar means

  function Volume(cs: seq<Candle>): int {
    if |cs| == 0 then 0 else cs[0].volume + Volume(cs[1..])
  }

  function QuoteVolume(cs: seq<Candle>): int {
    if |cs| == 0 then 0 else cs[0].quoteVolume + QuoteVolume(cs[1..])
  }

  function TradeCount(cs: seq<Candle>): int {
    if |cs| == 0 then 0 else cs[0].tradeCount + TradeCount(cs[1..])
  }

  ghost predicate IsHighest(x: int, cs: seq<Candle>) {
    && (forall i :: 0 <= i < |cs| ==> cs[i].high <= x)
    && (exists i :: 0 <= i < |cs| && cs[i].high == x)
  }

  ghost predicate IsLowest(x: int, cs: seq<Candle>) {
    && (forall i :: 0 <= i < |cs| ==> x <= cs[i].low)
    && (exists i :: 0 <= i < |cs| && cs[i].low == x)
  }

  /** First open, highest high, lowest low, last close, summed volumes and trades. */
  ghost predicate Summarises(b: Bar, cs: seq<Candle>)
    requires |cs| > 0
  {
    && b.open == cs[0].open && b.close == cs[|cs| - 1].close
    && IsHighest(b.high, cs) && IsLowest(b.low, cs)
    && b.volume == Volume(cs) && b.quoteVolume == QuoteVolume(cs) && b.tradeCount == TradeCount(cs)
  }

  lemma SummaryIsUnique(a: Bar, b: Bar, cs: seq<Candle>)
    requires |cs| > 0 && Summarises(a, cs) && Summarises(b, cs)
    ensures a == b
  {
  }

  lemma {:induction false} SumsOfAppend(cs: seq<Candle>, c: Candle)
    ensures Volume(cs + [c]) == Volume(cs) + c.volume
    ensures QuoteVolume(cs + [c]) == QuoteVolume(cs) + c.quoteVolume
    ensures TradeCount(cs + [c]) == TradeCount(cs) + c.tradeCount
  {
    if |cs| == 0 {
      assert cs + [c] == [c];
    } else {
      assert (cs + [c])[1..] == cs[1..] + [c];
      SumsOfAppend(cs[1..], c);
    }
  }

  lemma ExtremesOfAppend(b: Bar, cs: seq<Candle>, c: Candle)
    requires IsHighest(b.high, cs) && IsLowest(b.low, cs)
    ensures IsHighest(Max(b.high, c.high), cs + [c]) && IsLowest(Min(b.low, c.low), cs + [c])
  {
    var i :| 0 <= i < |cs| && cs[i].high == b.high;
    var j :| 0 <= j < |cs| && cs[j].low == b.low;
    var all := cs + [c];
    assert all[i] == cs[i] && all[j] == cs[j] && all[|cs|] == c;
  }

  /** The batch loop computes the summary of the candles it is given. */
  lemma {:induction false} BatchBarSummarises(cs: seq<Candle>)
    requires |cs| > 0
    ensures Summarises(BatchBar(cs), cs)
  {
    if |cs| == 1 {
      assert Volume(cs[1..]) == 0 && QuoteVolume(cs[1..]) == 0 && TradeCount(cs[1..]) == 0;
      assert cs[0].high == cs[0].high && cs[0].low == cs[0].low;
    } else {
      var init, c := cs[..|cs| - 1], cs[|cs| - 1];
      assert cs == init + [c];
      BatchBarSummarises(init);
      SumsOfAppend(init, c);
      ExtremesOfAppend(BatchBar(init), init, c);
    }
  }

  /** Whether the unset-low rule of the streaming loop does no harm: no low is
      zero, or some low is negative, or the last one is zero. */
  ghost predicate LowsSound(cs: seq<Candle>)
    requires |cs| > 0
  {
    || (forall i :: 0 <= i < |cs| ==> cs[i].low != 0)
    || (exists i :: 0 <= i < |cs| && cs[i].low < 0)
    || cs[|cs| - 1].low == 0
  }

  /** The two loops differ in the low alone, by the sign of the true minimum and the last low. */
  lemma {:induction false} StreamLow(cs: seq<Candle>)
    requires |cs| > 0
    ensures StreamBar(cs) == BatchBar(cs).(low := StreamBar(cs).low)
    ensures BatchBar(cs).low <= StreamBar(cs).low
    ensures BatchBar(cs).low != 0 ==> StreamBar(cs).low == BatchBar(cs).low
    ensures BatchBar(cs).low == 0 ==> (StreamBar(cs).low == 0 <==> cs[|cs| - 1].low == 0)
  {
    if |cs| > 1 {
      StreamLow(cs[..|cs| - 1]);
    }
  }

  /** Exactly when the streaming loop computes the summary, hence agrees with the batch loop. */
  lemma StreamBarExactly(cs: seq<Candle>)
    requires |cs| > 0
    ensures Summarises(StreamBar(cs), cs) <==> LowsSound(cs)
    ensures StreamBar(cs) == BatchBar(cs) <==> LowsSound(cs)
  {
    StreamLow(cs);
    BatchBarSummarises(cs);
    var i :| 0 <= i < |cs| && cs[i].low == BatchBar(cs).low;
    if Summarises(StreamBar(cs), cs) {
      SummaryIsUnique(StreamBar(cs), BatchBar(cs), cs);
    }
  }

  /** Lows of 0 and 5: the streaming loop reports 5. */
  lemma ZeroLowIsLost(c: Candle, d: Candle)
    requires c.low == 0 && d.low == 5
    ensures StreamBar([c, d]).low == 5 && BatchBar([c, d]).low == 0
    ensures !LowsSound([c, d]) && !Summarises(StreamBar([c, d]), [c, d])
  {
    var cs := [c, d];
    assert cs[..1] == [c];
    assert cs[0].low == 0;
    StreamBarExactly(cs);
  }

  /** The batch loop over a concatenation joins the bars of its parts. */
  lemma {:induction false} BatchBarConcat(a: seq<Candle>, b: seq<Candle>)
    requires |a| > 0 && |b| > 0
    ensures BatchBar(a + b) == Join(BatchBar(a), BatchBar(b))
  {
    var init := b[..|b| - 1];
    assert (a + b)[..|a + b| - 1] == a + init;
    if |b| == 1 {
      assert a + init == a;
    } else {
      BatchBarConcat(a, init);
    }
  }

  // --------------------------------------------------------------- building a window

  /** The stored candles of a window in time order. */
  ghost function InOrder(m: map<int, Arrival>): (cs: seq<MinuteCandle>)
    ensures |cs| == |m.Keys|
  {
    SortedElements(m.Keys);
    Lookup(m, Sorted(m.Keys))
  }

  /** The keys of a map in the order a range loop visits them. */
  method MinuteKeys(m: map<int, Arrival>) returns (times: seq<int>)
    ensures multiset(times) == multiset(m.Keys)
  {
    times := [];
    var todo := m.Keys;
    while todo != {}
      invariant todo <= m.Keys
      invariant multiset(times) + multiset(todo) == multiset(m.Keys)
      decreases |todo|
    {
      var t := NextKey(todo);
      todo := todo - {t};
      times := times + [t];
    }
  }

  /** The sorted key slice: the same for every order the map yields its keys in. */
  method SortedMinuteKeys(m: map<int, Arrival>) returns (times: seq<int>)
    ensures times == Sorted(m.Keys)
  {
    var keys := MinuteKeys(m);
    var a := new int[|keys|](i requires 0 <= i < |keys| => keys[i]);
    assert a[..] == keys;
    InsertionSort(a);
    SortedKeyArray(m, keys);
    times := a[..];
  }

  /** The body that `buildCurrentCandle`, `completeIntervalNow` and
      `updateIntervalCandle` share: whatever order the map yields its keys in,
      the result is the streaming fold in time order. */
  method BuildBar(m: map<int, Arrival>) returns (b: Bar)
    ensures b == StreamBar(InOrder(m))
  {
    var times := SortedMinuteKeys(m);
    SortedElements(m.Keys);
    b := FoldAt(m, times);
    assert InOrder(m) == Lookup(m, times);
  }

  ghost function Lookup(m: map<int, Arrival>, times: seq<int>): (cs: seq<MinuteCandle>)
    requires forall i :: 0 <= i < |times| ==> times[i] in m
    ensures |cs| == |times| && forall i :: 0 <= i < |cs| ==> cs[i] == m[times[i]].candle
  {
    seq(|times|, i requires 0 <= i < |times| => m[times[i]].candle)
  }

  method FoldAt(m: map<int, Arrival>, times: seq<int>) returns (b: Bar)
    requires forall i :: 0 <= i < |times| ==> times[i] in m
    ensures b == StreamBar(Lookup(m, times))
  {
    ghost var cs := Lookup(m, times);
    b := EMPTY_BAR;
    for n := 0 to |times|
      invariant b == StreamBar(cs[..n])
    {
      StreamBarStep(cs, n);
      var c := m[times[n]].candle;
      b := if n == 0 then BarOf(c) else Extend(b, c);
    }
    assert cs[..|times|] == cs;
  }

  lemma StreamBarStep(cs: seq<Candle>, n: int)
    requires 0 <= n < |cs|
    ensures StreamBar(cs[..n + 1]) == if n == 0 then BarOf(cs[n]) else Extend(StreamBar(cs[..n]), cs[n])
  {
    assert cs[..n + 1][..n] == cs[..n];
  }

  lemma CountedTwice(s: seq<int>, i: int, j: int)
    requires 0 <= i < j < |s|
    ensures s[i] == s[j] ==> multiset(s)[s[i]] >= 2
  {
    assert s == s[..i] + [s[i]] + s[i + 1..j] + [s[j]] + s[j + 1..];
  }

  /** Insertion sort puts distinct keys into their unique increasing order. */
  lemma SortedKeyArray(m: map<int, Arrival>, times: seq<int>)
    requires multiset(times) == multiset(m.Keys)
    ensures InsertionSorted(times) == Sorted(m.Keys)
  {
    InsertionSortSorts(times);
    var s := InsertionSorted(times);
    forall i, j | 0 <= i < j < |s| ensures s[i] < s[j] {
      CountedTwice(s, i, j);
    }
    forall x ensures x in s <==> x in m.Keys {
      assert x in s <==> x in multiset(s);
    }
    SortedIsTheOrder(m.Keys, s);
  }

  /** A minute later than all others comes last. */
  lemma InOrderAppend(m: map<int, Arrival>, t: int, a: Arrival)
    requires forall k :: k in m ==> k < t
    ensures InOrder(m[t := a]) == InOrder(m) + [a.candle]
  {
    hide Lookup, Sorted;
    SortedAppend(m.Keys, t);
    SortedElements(m.Keys);
    assert m[t := a].Keys == m.Keys + {t};
    LookupAppend(m, Sorted(m.Keys), t, a);
  }

  lemma SortedAppend(s: set<int>, t: int)
    requires forall k :: k in s ==> k < t
    ensures Sorted(s + {t}) == Sorted(s) + [t]
  {
    SortedSplit(s, {t});
    SortedIsTheOrder({t}, [t]);
  }

  lemma LookupAppend(m: map<int, Arrival>, times: seq<int>, t: int, a: Arrival)
    requires t !in m && forall i :: 0 <= i < |times| ==> times[i] in m
    ensures Lookup(m[t := a], times + [t]) == Lookup(m, times) + [a.candle]
  {
  }
}
