/** The 24h statistics of one symbol, `Symbol24hStats` of
    internal/services/candle/streaming_price_calculator.go: a ring of the last
    1440 one-minute candles with incrementally kept sums, fresh or warmed up from
    stored candles. */
module Stats24h {
  import opened Candles
  import opened Folding

  const CAPACITY: int := 1440

  type Slots = seq<Option<Candle>>

  /** The last 1440 candles, or all if there are fewer. */
  function Recent(cs: seq<Candle>): seq<Candle> {
    if |cs| <= CAPACITY then cs else cs[|cs| - CAPACITY..]
  }

  /** The ring holds `held`, oldest first, and `next` is the slot to write:
      the first empty one, or the oldest once the ring is full. */
  ghost predicate Layout(slots: Slots, next: int, held: seq<Candle>) {
    && |slots| == CAPACITY && 0 <= next < CAPACITY && |held| <= CAPACITY
    && if |held| < CAPACITY then
         && next == |held|
         && (forall i :: 0 <= i < |held| ==> slots[i] == Some(held[i]))
         && (forall i :: |held| <= i < CAPACITY ==> slots[i] == None)
       else
         && (forall i :: next <= i < CAPACITY ==> slots[i] == Some(held[i - next]))
         && (forall i :: 0 <= i < next ==> slots[i] == Some(held[i + CAPACITY - next]))
  }

  /** Writing the next slot drops the oldest candle of a full ring. */
  function Pushed(held: seq<Candle>, c: Candle): seq<Candle> {
    (if |held| < CAPACITY then held else held[1..]) + [c]
  }

  lemma LayoutStep(slots: Slots, next: int, held: seq<Candle>, c: Candle)
    requires Layout(slots, next, held)
    ensures slots[next] == if |held| < CAPACITY then None else Some(held[0])
    ensures Layout(slots[next := Some(c)], (next + 1) % CAPACITY, Pushed(held, c))
  {
  }

  lemma LayoutStart(slots: Slots, stored: seq<Candle>)
    requires |slots| == CAPACITY && 0 < |stored| <= CAPACITY
    requires forall k :: 0 <= k < |stored| ==> slots[k] == Some(stored[k])
    requires forall k :: |stored| <= k < CAPACITY ==> slots[k] == None
    ensures Layout(slots, |stored| % CAPACITY, stored)
  {
  }

  /** A ring filled with the stored candles, and the extremes of a scan over it. */
  lemma WarmStart(slots: Slots, stored: seq<Candle>, high: int, low: int)
    requires |slots| == CAPACITY && 0 < |stored| <= CAPACITY
    requires forall k :: 0 <= k < |stored| ==> slots[k] == Some(stored[k])
    requires forall k :: |stored| <= k < CAPACITY ==> slots[k] == None
    requires ScanHighest(slots, CAPACITY, high) && ScanLowest(slots, CAPACITY, low)
    ensures Holds(slots, |stored| % CAPACITY, |stored| >= CAPACITY, stored)
    ensures Agrees(Volume(stored), QuoteVolume(stored), high, low, stored)
    ensures OpenTracksOldest(stored[0].open, Recent(stored), true) && |Recent(stored)| > 0
  {
    hide Layout, ScanHighest, ScanLowest, Volume, QuoteVolume;
    LayoutStart(slots, stored);
    ScanIsHeld(slots, |stored| % CAPACITY, stored, high, low);
  }

  lemma RecentStep(cs: seq<Candle>, c: Candle)
    ensures Recent(cs + [c]) == Pushed(Recent(cs), c)
  {
  }

  lemma SumsStep(held: seq<Candle>, c: Candle)
    ensures Volume(Pushed(held, c)) == Volume(held) - (if |held| < CAPACITY then 0 else held[0].volume) + c.volume
    ensures QuoteVolume(Pushed(held, c)) ==
            QuoteVolume(held) - (if |held| < CAPACITY then 0 else held[0].quoteVolume) + c.quoteVolume
  {
    SumsOfAppend(if |held| < CAPACITY then held else held[1..], c);
  }

  lemma NoSums()
    ensures forall cs: seq<Candle> :: |cs| == 0 ==> Volume(cs) == 0 && QuoteVolume(cs) == 0
  {
  }

  // --------------------------------------------------------------- the high/low scan

  ghost predicate ScanHighest(slots: Slots, n: int, x: int)
    requires 0 <= n <= |slots|
  {
    && (forall i :: 0 <= i < n && slots[i].Some? ==> slots[i].value.high <= x)
    && (exists i :: 0 <= i < n && slots[i].Some? && slots[i].value.high == x)
  }

  ghost predicate ScanLowest(slots: Slots, n: int, x: int)
    requires 0 <= n <= |slots|
  {
    && (forall i :: 0 <= i < n && slots[i].Some? ==> x <= slots[i].value.low)
    && (exists i :: 0 <= i < n && slots[i].Some? && slots[i].value.low == x)
  }

  /** The slot of the ring that holds candle k. */
  function SlotOf(next: int, size: int, k: int): int {
    if size < CAPACITY then k else if next + k < CAPACITY then next + k else next + k - CAPACITY
  }

  /** The candle that a filled slot of the ring holds. */
  function HeldAt(next: int, size: int, slot: int): int {
    if size < CAPACITY then slot else if slot >= next then slot - next else slot + CAPACITY - next
  }

  lemma ScanIsHeld(slots: Slots, next: int, held: seq<Candle>, high: int, low: int)
    requires Layout(slots, next, held) && ScanHighest(slots, CAPACITY, high) && ScanLowest(slots, CAPACITY, low)
    ensures IsHighest(high, held) && IsLowest(low, held)
  {
    forall k | 0 <= k < |held| ensures held[k].high <= high && low <= held[k].low {
      assert slots[SlotOf(next, |held|, k)] == Some(held[k]);
    }
    var i :| 0 <= i < CAPACITY && slots[i].Some? && slots[i].value.high == high;
    var j :| 0 <= j < CAPACITY && slots[j].Some? && slots[j].value.low == low;
    assert held[HeldAt(next, |held|, i)].high == high && held[HeldAt(next, |held|, j)].low == low;
  }

  /** The ring holds the last 1440 candles received. */
  ghost predicate Holds(slots: Slots, next: int, isFull: bool, received: seq<Candle>) {
    Layout(slots, next, Recent(received)) && (isFull <==> |Recent(received)| == CAPACITY)
  }

  /** The statistics equal a recomputation over the last 1440 candles received. */
  ghost predicate Agrees(volume: int, quoteVolume: int, high: int, low: int, received: seq<Candle>) {
    var held := Recent(received);
    && volume == Volume(held) && quoteVolume == QuoteVolume(held)
    && (|held| > 0 ==> IsHighest(high, held) && IsLowest(low, held))
  }

  class Symbol24hStats {
    var candles: array<Option<Candle>>
    var nextIndex: int
    var isFull: bool
    var open24h: int
    var high24h: int
    var low24h: int
    var volume24h: int
    var quoteVolume24h: int
    var isWarm: bool
    /** All candles taken in, warm-up first. */
    ghost var received: seq<Candle>
    /** Whether the ring started from stored candles. */
    ghost var warmStart: bool

    /** The ring and every statistic equal a recomputation over the last 1440 candles. */
    ghost predicate Valid()
      reads this, candles
    {
      && candles.Length == CAPACITY
      && Holds(candles[..], nextIndex, isFull, received)
      && Agrees(volume24h, quoteVolume24h, high24h, low24h, received)
      && OpenTracksOldest(open24h, Recent(received), warmStart)
      && (warmStart ==> |Recent(received)| > 0)
      && (isWarm <==> |Recent(received)| > 0)
    }

    /** A fresh ring, as `ProcessCandle` creates it. */
    constructor Fresh()
      ensures Valid() && fresh(candles)
      ensures received == [] && !warmStart
    {
      candles := new Option<Candle>[CAPACITY](_ => None);
      nextIndex, isFull, isWarm := 0, false, false;
      open24h, high24h, low24h, volume24h, quoteVolume24h := 0, 0, 0, 0, 0;
      received, warmStart := [], false;
    }

    /** `warmupSymbol` with the stored candles of the last 24h, oldest first. The
        query asks for at most 1440; more would leave the first 1440 in the ring. */
    constructor WarmUp(stored: seq<Candle>)
      requires |stored| > 0
      ensures fresh(candles) && candles.Length == CAPACITY && warmStart
      ensures |stored| <= 1440 ==> Valid() && received == stored
      ensures |stored| <= 1440 && EveryMinute(stored) ==>
                DayStatistics(open24h, high24h, low24h, volume24h, quoteVolume24h, warmStart, stored)
      ensures |stored| > 1440 ==>
                && (forall i :: 0 <= i < 1440 ==> candles[i] == Some(stored[i]))
                && nextIndex == |stored| % 1440 && volume24h == Volume(stored[..1440])
    {
      hide Volume, QuoteVolume, Recent, Holds, Agrees, OpenTracksOldest, ScanHighest, ScanLowest,
           DayStatistics, EveryMinute;
      candles := new Option<Candle>[CAPACITY](_ => None);
      nextIndex, isFull, isWarm := |stored| % CAPACITY, |stored| >= CAPACITY, true;
      open24h, high24h, low24h, volume24h, quoteVolume24h := stored[0].open, 0, 0, 0, 0;
      received, warmStart := stored, true;
      new;
      Populate(stored, if |stored| < CAPACITY then |stored| else CAPACITY);
      RecalculateHighLow();
      if |stored| <= CAPACITY {
        assert stored[..|stored|] == stored;
        WarmStart(candles[..], stored, high24h, low24h);
        if EveryMinute(stored) {
          DayFromRing(open24h, high24h, low24h, volume24h, quoteVolume24h, warmStart, stored);
        }
      }
    }

    /** The loop that fills the ring with the first n stored candles. */
    method Populate(stored: seq<Candle>, n: int)
      requires 0 < n <= |stored| && n <= CAPACITY == candles.Length
      requires volume24h == 0 && quoteVolume24h == 0 && forall k :: 0 <= k < CAPACITY ==> candles[k] == None
      modifies this`volume24h, this`quoteVolume24h, candles
      ensures forall k :: 0 <= k < n ==> candles[k] == Some(stored[k])
      ensures forall k :: n <= k < CAPACITY ==> candles[k] == None
      ensures volume24h == Volume(stored[..n]) && quoteVolume24h == QuoteVolume(stored[..n])
      ensures exists k :: 0 <= k < CAPACITY && candles[k].Some?
    {
      hide Volume, QuoteVolume;
      NoSums();
      for i := 0 to n
        invariant forall k :: 0 <= k < i ==> candles[k] == Some(stored[k])
        invariant forall k :: i <= k < CAPACITY ==> candles[k] == None
        invariant volume24h == Volume(stored[..i]) && quoteVolume24h == QuoteVolume(stored[..i])
      {
        SumsOfAppend(stored[..i], stored[i]);
        assert stored[..i + 1] == stored[..i] + [stored[i]];
        candles[i] := Some(stored[i]);
        volume24h := volume24h + stored[i].volume;
        quoteVolume24h := quoteVolume24h + stored[i].quoteVolume;
      }
      assert candles[0].Some?;
    }

    /** `recalculateHighLow` */
    method RecalculateHighLow()
      requires candles.Length == CAPACITY && exists i :: 0 <= i < CAPACITY && candles[i].Some?
      modifies this`high24h, this`low24h
      ensures ScanHighest(candles[..], CAPACITY, high24h) && ScanLowest(candles[..], CAPACITY, low24h)
    {
      ghost var slots := candles[..];
      var maxHigh, minLow, first := 0, 0, true;
      for i := 0 to candles.Length
        invariant first ==> forall k :: 0 <= k < i ==> slots[k].None?
        invariant !first ==> ScanHighest(slots, i, maxHigh) && ScanLowest(slots, i, minLow)
      {
        assert candles[i] == slots[i];
        if candles[i].Some? {
          var c := candles[i].value;
          if first {
            maxHigh, minLow, first := c.high, c.low, false;
          } else {
            if c.high > maxHigh { maxHigh := c.high; }
            if c.low < minLow { minLow := c.low; }
          }
        }
      }
      high24h, low24h := maxHigh, minLow;
    }

    /** Write the candle into the ring and hand back what it replaces. */
    method Store(c: Candle) returns (oldCandle: Option<Candle>)
      requires candles.Length == CAPACITY && 0 <= nextIndex < CAPACITY
      modifies this`nextIndex, this`isFull, candles
      ensures oldCandle == old(candles[nextIndex])
      ensures candles[..] == old(candles[..])[old(nextIndex) := Some(c)]
      ensures nextIndex == (old(nextIndex) + 1) % CAPACITY
      ensures isFull == (old(isFull) || nextIndex == 0)
      ensures exists i :: 0 <= i < CAPACITY && candles[i].Some?
    {
      oldCandle := candles[nextIndex];
      candles[nextIndex] := Some(c);
      assert candles[nextIndex].Some?;
      nextIndex := (nextIndex + 1) % CAPACITY;
      if nextIndex == 0 { isFull := true; }
    }

    /** The incremental update of the sums. */
    method AdjustSums(oldCandle: Option<Candle>, c: Candle)
      modifies this`volume24h, this`quoteVolume24h
      ensures volume24h == old(volume24h) - (if oldCandle.Some? then oldCandle.value.volume else 0) + c.volume
      ensures quoteVolume24h ==
              old(quoteVolume24h) - (if oldCandle.Some? then oldCandle.value.quoteVolume else 0) + c.quoteVolume
    {
      if oldCandle.Some? {
        volume24h := volume24h - oldCandle.value.volume;
        quoteVolume24h := quoteVolume24h - oldCandle.value.quoteVolume;
      }
      volume24h := volume24h + c.volume;
      quoteVolume24h := quoteVolume24h + c.quoteVolume;
    }

    /** Ring, sums and extremes after a 1m candle. */
    method Push(c: Candle)
      requires candles.Length == CAPACITY && 0 <= nextIndex < CAPACITY
      requires Holds(candles[..], nextIndex, isFull, received)
      requires Agrees(volume24h, quoteVolume24h, high24h, low24h, received)
      modifies this`nextIndex, this`isFull, this`volume24h, this`quoteVolume24h, this`high24h, this`low24h, candles
      ensures candles[..] == old(candles[..])[old(nextIndex) := Some(c)]
      ensures nextIndex == (old(nextIndex) + 1) % CAPACITY
      ensures Holds(candles[..], nextIndex, isFull, received + [c])
      ensures Agrees(volume24h, quoteVolume24h, high24h, low24h, received + [c])
    {
      hide Holds, Agrees, ScanHighest, ScanLowest;
      ghost var slots, next := candles[..], nextIndex;
      RingStep(slots, next, isFull, received, c);
      var oldCandle := Store(c);
      assert oldCandle == slots[next];
      AdjustSums(oldCandle, c);
      RecalculateHighLow();
      StatisticsStep(slots, next, old(isFull), received, c, old(volume24h), old(quoteVolume24h),
                     old(high24h), old(low24h), high24h, low24h);
    }

    /** The body of `ProcessCandle` for a 1m candle. */
    method Add(c: Candle)
      requires Valid()
      modifies this, candles
      ensures Valid() && candles == old(candles) && warmStart == old(warmStart)
      ensures received == old(received) + [c]
    {
      hide Holds, Agrees, Recent, OpenTracksOldest;
      RingStep(candles[..], nextIndex, isFull, received, c);
      OpenStep(open24h, candles[..], nextIndex, isFull, received, c, warmStart);
      Push(c);
      assert candles[nextIndex] == candles[..][nextIndex];
      if candles[nextIndex].Some? {
        open24h := candles[nextIndex].value.open;
      }
      isWarm := true;
      received := received + [c];
    }

    /** `ProcessCandle` on the statistics of the candle's symbol: only 1m candles count. */
    method ProcessCandle(c: Candle)
      requires Valid()
      modifies this, candles
      ensures Valid() && candles == old(candles) && warmStart == old(warmStart)
      ensures received == old(received) + (if c.interval == M1 then [c] else [])
      ensures received != [] && EveryMinute(received) ==>
                DayStatistics(open24h, high24h, low24h, volume24h, quoteVolume24h, warmStart, received)
    {
      hide Holds, Agrees, OpenTracksOldest, DayStatistics, EveryMinute, Recent;
      if c.interval == M1 {
        Add(c);
      }
      if received != [] && EveryMinute(received) {
        DayFromRing(open24h, high24h, low24h, volume24h, quoteVolume24h, warmStart, received);
      }
    }
  }

  /** One push keeps the ring. */
  lemma RingStep(slots: Slots, next: int, isFull: bool, received: seq<Candle>, c: Candle)
    requires Holds(slots, next, isFull, received)
    ensures 0 <= next < CAPACITY == |slots|
    ensures var next' := (next + 1) % CAPACITY;
            Holds(slots[next := Some(c)], next', isFull || next' == 0, received + [c])
    ensures |Recent(received + [c])| > 0
  {
    hide Layout, Recent, Pushed;
    var held := Recent(received);
    LayoutBounds(slots, next, held, c);
    LayoutStep(slots, next, held, c);
    RecentStep(received, c);
  }

  /** One push keeps the statistics, given the extremes of a new scan. */
  lemma StatisticsStep(slots: Slots, next: int, isFull: bool, received: seq<Candle>, c: Candle,
                       volume: int, quoteVolume: int, high: int, low: int, high': int, low': int)
    requires Holds(slots, next, isFull, received) && Agrees(volume, quoteVolume, high, low, received)
    requires 0 <= next < |slots| == CAPACITY
    requires ScanHighest(slots[next := Some(c)], CAPACITY, high') && ScanLowest(slots[next := Some(c)], CAPACITY, low')
    ensures var oldVolume := if slots[next].Some? then slots[next].value.volume else 0;
            var oldQuoteVolume := if slots[next].Some? then slots[next].value.quoteVolume else 0;
            Agrees(volume - oldVolume + c.volume, quoteVolume - oldQuoteVolume + c.quoteVolume, high', low',
                   received + [c])
  {
    hide Layout, Recent, Pushed, Volume, QuoteVolume, ScanHighest, ScanLowest, IsHighest, IsLowest;
    var held := Recent(received);
    LayoutBounds(slots, next, held, c);
    LayoutStep(slots, next, held, c);
    RecentStep(received, c);
    SumsStep(held, c);
    ScanIsHeld(slots[next := Some(c)], (next + 1) % CAPACITY, Pushed(held, c), high', low');
  }

  lemma LayoutBounds(slots: Slots, next: int, held: seq<Candle>, c: Candle)
    requires Layout(slots, next, held)
    ensures |slots| == CAPACITY && 0 <= next < CAPACITY && |held| <= CAPACITY
    ensures |Pushed(held, c)| == if |held| < CAPACITY then |held| + 1 else CAPACITY
    ensures (next + 1) % CAPACITY == 0 && |held| < CAPACITY ==> |held| == CAPACITY - 1
    ensures |held| == CAPACITY - 1 ==> (next + 1) % CAPACITY == 0
  {
  }

  /** After a push the open is read from the slot that is written next, if filled. */
  lemma OpenStep(open24h: int, slots: Slots, next: int, isFull: bool, received: seq<Candle>, c: Candle, warmStart: bool)
    requires Holds(slots, next, isFull, received) && 0 <= next < |slots| == CAPACITY
    requires OpenTracksOldest(open24h, Recent(received), warmStart) && (warmStart ==> |Recent(received)| > 0)
    ensures var oldest := slots[next := Some(c)][(next + 1) % CAPACITY];
            OpenTracksOldest(if oldest.Some? then oldest.value.open else open24h, Recent(received + [c]), warmStart)
  {
    hide Recent;
    RecentStep(received, c);
  }

  /** The 24h open is the open of the oldest candle held: always after a warm
      start, and from the 1440th candle on after a fresh one, zero before. */
  ghost predicate OpenTracksOldest(open24h: int, held: seq<Candle>, warmStart: bool) {
    open24h == if |held| > 0 && (warmStart || |held| == CAPACITY) then held[0].open else 0
  }

  // --------------------------------------------------------------- a day of minutes

  /** A candle for every minute, in order. */
  ghost predicate EveryMinute(cs: seq<Candle>) {
    forall i :: 0 <= i < |cs| - 1 ==> cs[i + 1].openTime == cs[i].openTime + 60
  }

  /** The candles that open at t or later. */
  function Since(cs: seq<Candle>, t: int): seq<Candle> {
    if cs == [] then []
    else if cs[0].openTime >= t then [cs[0]] + Since(cs[1..], t)
    else Since(cs[1..], t)
  }

  /** The candles of the 24 hours that end with the last minute. */
  function LastDay(cs: seq<Candle>): seq<Candle> {
    if cs == [] then [] else Since(cs, cs[|cs| - 1].openTime + 60 - 86400)
  }

  lemma {:induction false} MinutesApart(cs: seq<Candle>, i: int, j: int)
    requires EveryMinute(cs) && 0 <= i <= j < |cs|
    ensures cs[j].openTime == cs[i].openTime + 60 * (j - i)
    decreases j
  {
    if i < j {
      MinutesApart(cs, i, j - 1);
      assert cs[j - 1 + 1].openTime == cs[j - 1].openTime + 60;
    }
  }

  lemma {:induction false} SinceIsEnd(cs: seq<Candle>, t: int, k: nat)
    requires k <= |cs| && (forall i :: 0 <= i < k ==> cs[i].openTime < t)
    requires forall i :: k <= i < |cs| ==> cs[i].openTime >= t
    ensures Since(cs, t) == cs[k..]
    decreases |cs|
  {
    if cs != [] {
      SinceIsEnd(cs[1..], t, if k > 0 then k - 1 else 0);
      assert k == 0 ==> cs[0..] == [cs[0]] + cs[1..];
    }
  }

  lemma DayBoundary(cs: seq<Candle>, k: nat, i: int)
    requires EveryMinute(cs) && 0 <= i < |cs| && k < |cs|
    requires k == if |cs| <= 1440 then 0 else |cs| - 1440
    ensures cs[i].openTime >= cs[|cs| - 1].openTime + 60 - 86400 <==> i >= k
  {
    hide EveryMinute;
    MinutesApart(cs, i, |cs| - 1);
  }

  /** When there is a candle for every minute, the ring holds exactly the last
      24 hours: 1440 candles that span a day, once there are that many. */
  lemma RingIsLastDay(cs: seq<Candle>)
    requires EveryMinute(cs) && cs != []
    ensures Recent(cs) == LastDay(cs) && |LastDay(cs)| > 0
    ensures |cs| >= 1440 ==>
              && |LastDay(cs)| == 1440
              && LastDay(cs)[1439].openTime + 60 - LastDay(cs)[0].openTime == 86400
  {
    hide EveryMinute, Since;
    var k := if |cs| <= 1440 then 0 else |cs| - 1440;
    var t := cs[|cs| - 1].openTime + 60 - 86400;
    forall i | 0 <= i < k ensures cs[i].openTime < t {
      DayBoundary(cs, k, i);
    }
    forall i | k <= i < |cs| ensures cs[i].openTime >= t {
      DayBoundary(cs, k, i);
    }
    SinceIsEnd(cs, t, k);
    assert cs[k..] == Recent(cs);
    MinutesApart(cs, k, |cs| - 1);
  }

  /** The statistics are those of the last 24 hours. The open is zero until a
      fresh ring has seen a whole day. */
  ghost predicate DayStatistics(open: int, high: int, low: int, volume: int, quoteVolume: int, warmStart: bool,
                                received: seq<Candle>) {
    var day := LastDay(received);
    && |day| > 0 && volume == Volume(day) && quoteVolume == QuoteVolume(day)
    && IsHighest(high, day) && IsLowest(low, day)
    && open == if warmStart || |received| >= 1440 then day[0].open else 0
  }

  lemma DayFromRing(open: int, high: int, low: int, volume: int, quoteVolume: int, warmStart: bool,
                    received: seq<Candle>)
    requires received != [] && EveryMinute(received)
    requires Agrees(volume, quoteVolume, high, low, received) && OpenTracksOldest(open, Recent(received), warmStart)
    ensures DayStatistics(open, high, low, volume, quoteVolume, warmStart, received)
  {
    hide Volume, QuoteVolume, IsHighest, IsLowest, LastDay, EveryMinute;
    RingIsLastDay(received);
  }

  // --------------------------------------------------------------- updates and minutes

  ghost predicate Revised(cs: seq<Candle>, t: int) {
    exists i :: 0 <= i < |cs| && cs[i].openTime == t
  }

  /** The last revision of every minute, in order of arrival. */
  ghost function LastRevisions(cs: seq<Candle>): seq<Candle> {
    if cs == [] then []
    else if Revised(cs[1..], cs[0].openTime) then LastRevisions(cs[1..])
    else [cs[0]] + LastRevisions(cs[1..])
  }

  ghost predicate OnePerMinute(cs: seq<Candle>) {
    forall i, j :: 0 <= i < j < |cs| ==> cs[i].openTime != cs[j].openTime
  }

  lemma {:induction false} RevisionsKeepMinutes(cs: seq<Candle>, t: int)
    ensures Revised(LastRevisions(cs), t) ==> Revised(cs, t)
  {
    if cs != [] {
      RevisionsKeepMinutes(cs[1..], t);
      var r, rest := LastRevisions(cs), LastRevisions(cs[1..]);
      if Revised(r, t) {
        var i :| 0 <= i < |r| && r[i].openTime == t;
        if r == rest || i > 0 {
          assert Revised(rest, t) by { assert rest[if r == rest then i else i - 1].openTime == t; }
          var k :| 0 <= k < |cs[1..]| && cs[1..][k].openTime == t;
          assert cs[k + 1].openTime == t;
        } else {
          assert cs[0].openTime == t;
        }
      }
    }
  }

  lemma {:induction false} RevisionsOnePerMinute(cs: seq<Candle>)
    ensures OnePerMinute(LastRevisions(cs))
  {
    if cs != [] {
      RevisionsOnePerMinute(cs[1..]);
      var rest := LastRevisions(cs[1..]);
      RevisionsKeepMinutes(cs[1..], cs[0].openTime);
      assert forall j :: 0 <= j < |rest| && rest[j].openTime == cs[0].openTime ==> Revised(rest, cs[0].openTime);
    }
  }

  lemma {:induction false} NothingRevised(cs: seq<Candle>)
    requires OnePerMinute(cs)
    ensures LastRevisions(cs) == cs
  {
    if cs != [] {
      NothingRevised(cs[1..]);
      assert forall i :: 0 <= i < |cs[1..]| ==> cs[1..][i] == cs[i + 1];
      assert cs == [cs[0]] + cs[1..];
    }
  }

  /** The last revisions of a run end with those of its last part. */
  lemma {:induction false} RevisionsEnd(a: seq<Candle>, b: seq<Candle>) returns (p: seq<Candle>)
    ensures LastRevisions(a + b) == p + LastRevisions(b)
    ensures a == [] ==> p == []
  {
    hide LastRevisions, Revised;
    if a == [] {
      assert a + b == b;
      p := [];
    } else {
      var q := RevisionsEnd(a[1..], b);
      var cs := a + b;
      assert cs[0] == a[0] && cs[1..] == a[1..] + b;
      RevisionsFirst(cs);
      p := if Revised(cs[1..], cs[0].openTime) then q else [a[0]] + q;
      assert [a[0]] + (q + LastRevisions(b)) == [a[0]] + q + LastRevisions(b);
    }
  }

  lemma RevisionsFirst(cs: seq<Candle>)
    requires cs != []
    ensures LastRevisions(cs) ==
            if Revised(cs[1..], cs[0].openTime) then LastRevisions(cs[1..]) else [cs[0]] + LastRevisions(cs[1..])
  {
  }

  /** The ring holds the last 1440 minutes received exactly when no two candles
      held are revisions of one minute. */
  lemma RingIsMinutesExactly(received: seq<Candle>)
    ensures Recent(received) == Recent(LastRevisions(received)) <==> OnePerMinute(Recent(received))
  {
    hide LastRevisions, Recent, OnePerMinute;
    RevisionsOnePerMinute(received);
    RecentOnePerMinute(LastRevisions(received));
    var held := Recent(received);
    var before := EarlierThanRecent(received);
    if OnePerMinute(held) {
      NothingRevised(held);
      var p := RevisionsEnd(before, held);
      RecentEnd(p, held);
    }
  }

  lemma EarlierThanRecent(cs: seq<Candle>) returns (before: seq<Candle>)
    ensures cs == before + Recent(cs)
    ensures before == [] || |Recent(cs)| == CAPACITY
    ensures |Recent(cs)| <= CAPACITY
  {
    before := cs[..|cs| - |Recent(cs)|];
  }

  lemma RecentEnd(p: seq<Candle>, held: seq<Candle>)
    requires |held| <= CAPACITY && (p == [] || |held| == CAPACITY)
    ensures Recent(p + held) == held
  {
  }

  lemma RecentOnePerMinute(cs: seq<Candle>)
    requires OnePerMinute(cs)
    ensures OnePerMinute(Recent(cs))
  {
  }

  /** Two revisions of one minute count twice. */
  lemma RevisionsCountTwice(c: Candle, d: Candle)
    requires d.openTime == c.openTime
    ensures LastRevisions([c, d]) == [d]
    ensures Volume(Recent([c, d])) == c.volume + d.volume
  {
    var cs := [c, d];
    assert cs[1..] == [d] && [d][1..] == [];
    assert [d][0].openTime == c.openTime;
    assert LastRevisions([d]) == [d];
    assert Volume([d]) == d.volume;
  }
}
