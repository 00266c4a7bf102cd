/** The interval aggregator object of
    internal/services/aggregator/interval_aggregator.go: its maps, its methods,
    and the fact that every symbol and interval inside it lives as a `Stream`.

    A key record stands for its string "symbol:interval:opentime", and the prefix
    scans test that string. Calls for one symbol are taken one at a time. */
module IntervalAggregator {
  import opened Candles
  import opened TimeWindows
  import opened Folding
  import opened Streams
  import opened InOrderRuns
  import opened MapKeys

  datatype Key = Key(symbol: string, interval: Interval, openTime: int)

  datatype BuildingCandle = BuildingCandle(
    symbol: string, interval: Interval, openTime: int, closeTime: int, candles1m: map<int, Arrival>)

  type Buildings = map<Key, BuildingCandle>

  // --------------------------------------------------------------- string keys and prefix scans

  function KeyString(k: Key): string {
    EntryKey(k.symbol, IntervalName(k.interval), Decimal(k.openTime))
  }

  function ScanPrefix(ch: Channel): string {
    Prefix(ch.symbol, IntervalName(ch.interval))
  }

  /** The prefix test of the scans over one symbol and interval. */
  predicate Meets(k: Key, ch: Channel) {
    Matches(KeyString(k), ScanPrefix(ch))
  }

  predicate BelongsTo(k: Key, ch: Channel) {
    k.symbol == ch.symbol && k.interval == ch.interval
  }

  /** Different entries have different strings. */
  lemma KeyStringsDiffer(k: Key, j: Key)
    requires Derived(k.interval) && Derived(j.interval)
    ensures KeyString(k) == KeyString(j) <==> k == j
  {
    hide Decimal, IntervalName, DerivedNamed, EntryKey;
    NamesDiffer(k.interval);
    NamesDiffer(j.interval);
    DecimalShape(k.openTime);
    DecimalShape(j.openTime);
    KeysDiffer(k.symbol, IntervalName(k.interval), Decimal(k.openTime),
               j.symbol, IntervalName(j.interval), Decimal(j.openTime));
    if Decimal(k.openTime) == Decimal(j.openTime) {
      DecimalInjective(k.openTime, j.openTime);
    }
  }

  /** No entry of these symbols leads the scan of the channel astray: no symbol
      begins with its prefix, and no other symbol and interval has its prefix. */
  ghost predicate NotMisled(symbols: set<string>, ch: Channel) {
    forall s, iv :: s in symbols && Derived(iv) ==>
      !(ScanPrefix(ch) <= s + ":") && (Prefix(s, IntervalName(iv)) == ScanPrefix(ch) ==> ch == Channel(s, iv))
  }

  lemma MeetsExactly(k: Key, ch: Channel)
    requires Derived(k.interval)
    ensures Meets(k, ch) <==>
            ScanPrefix(ch) == Prefix(k.symbol, IntervalName(k.interval)) || ScanPrefix(ch) <= k.symbol + ":"
  {
    hide Decimal, IntervalName, DerivedNamed;
    NamesDiffer(k.interval);
    DecimalShape(k.openTime);
    ScanMeetsExactly(k.symbol, IntervalName(k.interval), Decimal(k.openTime), ScanPrefix(ch));
  }

  /** The scan of a channel meets its own entries and no others, among all that
      the symbols can have, exactly when it is not misled. */
  lemma ScanIsExact(symbols: set<string>, ch: Channel)
    ensures NotMisled(symbols, ch) <==>
            forall k: Key :: k.symbol in symbols && Derived(k.interval) ==> (Meets(k, ch) <==> BelongsTo(k, ch))
  {
    hide Meets, ScanPrefix, Prefix, IntervalName;
    forall k: Key | Derived(k.interval)
      ensures Meets(k, ch) <==>
              ScanPrefix(ch) == Prefix(k.symbol, IntervalName(k.interval)) || ScanPrefix(ch) <= k.symbol + ":"
      ensures BelongsTo(k, ch) ==>
              ScanPrefix(ch) == Prefix(k.symbol, IntervalName(k.interval)) && !(ScanPrefix(ch) <= k.symbol + ":")
    {
      MeetsExactly(k, ch);
      OwnPrefix(ch);
    }
    if !NotMisled(symbols, ch) {
      var s, iv :| s in symbols && Derived(iv) &&
        (ScanPrefix(ch) <= s + ":" || (Prefix(s, IntervalName(iv)) == ScanPrefix(ch) && ch != Channel(s, iv)));
      var k := Key(s, iv, 0);
      assert Meets(k, ch) && !BelongsTo(k, ch);
    }
  }

  lemma OwnPrefix(ch: Channel)
    ensures ScanPrefix(ch) == Prefix(ch.symbol, IntervalName(ch.interval)) && !(ScanPrefix(ch) <= ch.symbol + ":")
  {
  }

  /** Symbols without colons mislead no scan of a derived interval. */
  lemma ColonFreeNotMisled(symbols: set<string>, ch: Channel)
    requires Derived(ch.interval) && forall s :: s in symbols ==> ':' !in s
    ensures NotMisled(symbols, ch)
  {
    hide IntervalName, DerivedNamed, Prefix;
    forall s, iv | s in symbols && Derived(iv)
      ensures !(ScanPrefix(ch) <= s + ":") && (Prefix(s, IntervalName(iv)) == ScanPrefix(ch) ==> ch == Channel(s, iv))
    {
      NoColonNoPrefix(s, ch.symbol, IntervalName(ch.interval));
      NamesDiffer(iv);
      NamesDiffer(ch.interval);
      SamePrefix(s, IntervalName(iv), ch.symbol, IntervalName(ch.interval));
    }
  }

  lemma SamePrefix(s: string, i: string, t: string, j: string)
    requires ':' !in i && ':' !in j
    ensures Prefix(s, i) == Prefix(t, j) ==> s == t && i == j
  {
    KeysDiffer(s, i, "", t, j, "");
    assert EntryKey(s, i, "") == Prefix(s, i) && EntryKey(t, j, "") == Prefix(t, j);
  }

  /** The stored entries that the scan meets are those of the channel. */
  ghost predicate ScannedExactly(b: Buildings, ch: Channel) {
    forall k :: k in b ==> (Meets(k, ch) <==> BelongsTo(k, ch))
  }

  /** The entries stored are of symbols received and derived intervals. */
  ghost predicate EntriesOf(b: Buildings, symbols: set<string>) {
    forall k :: k in b ==> k.symbol in symbols && Derived(k.interval)
  }

  lemma EntriesScan(b: Buildings, symbols: set<string>, symbol: string)
    requires EntriesOf(b, symbols) && !Misleading(symbols, symbol)
    ensures ScansExactly(b, symbol)
  {
    hide NotMisled, EntriesOf, ScannedExactly;
    forall iv | Derived(iv) ensures ScannedExactly(b, Channel(symbol, iv)) {
      EntriesScanned(b, symbols, Channel(symbol, iv));
    }
  }

  /** Entries are added only for derived intervals of the symbol. */
  ghost predicate GrownBy(b: Buildings, b': Buildings, symbol: string) {
    forall k :: k in b' ==> k in b || (k.symbol == symbol && Derived(k.interval))
  }

  lemma GrownStep(b: Buildings, b': Buildings, b'': Buildings, k: Key)
    requires GrownBy(b, b', k.symbol) && b''.Keys == b'.Keys + {k} && Derived(k.interval)
    ensures GrownBy(b, b'', k.symbol)
  {
  }

  /** The scans of all derived intervals of the symbol meet their own entries. */
  ghost predicate ScansExactly(b: Buildings, symbol: string) {
    forall iv :: Derived(iv) ==> ScannedExactly(b, Channel(symbol, iv))
  }

  lemma ScansFewer(b: Buildings, b': Buildings, ch: Channel)
    requires Derived(ch.interval) && ScansExactly(b, ch.symbol) && b'.Keys <= b.Keys
    ensures ScannedExactly(b', ch)
  {
    hide Meets;
    assert ScannedExactly(b, Channel(ch.symbol, ch.interval));
  }

  lemma EntriesScanned(b: Buildings, symbols: set<string>, ch: Channel)
    requires EntriesOf(b, symbols) && NotMisled(symbols, ch)
    ensures ScannedExactly(b, ch)
  {
    hide Meets, NotMisled;
    ScanIsExact(symbols, ch);
  }

  // --------------------------------------------------------------- the maps seen per symbol and interval

  /** Every entry sits under its own key and closes one duration after it opens. */
  ghost predicate Consistent(b: Buildings) {
    forall k :: k in b ==>
      && b[k].symbol == k.symbol && b[k].interval == k.interval && b[k].openTime == k.openTime
      && b[k].closeTime == k.openTime + Duration(k.interval)
  }

  ghost function BuildingOf(b: Buildings, ch: Channel): map<int, map<int, Arrival>> {
    map k | k in b && k.symbol == ch.symbol && k.interval == ch.interval :: k.openTime := b[k].candles1m
  }

  ghost function DoneOf(d: map<Channel, seq<Window>>, ch: Channel): seq<Window> {
    if ch in d then d[ch] else []
  }

  ghost function StreamOf(b: Buildings, d: map<Channel, seq<Window>>, ch: Channel): Stream {
    Stream(BuildingOf(b, ch), DoneOf(d, ch))
  }

  /** The test of `closeExpiredIntervals` on one map entry. */
  predicate Closes(k: Key, b: BuildingCandle, ch: Channel, t: int) {
    k.symbol == ch.symbol && k.interval == ch.interval && t >= b.closeTime && b.candles1m != map[]
  }

  function WithoutExpired(b: Buildings, ch: Channel, t: int): Buildings {
    map k | k in b && !Closes(k, b[k], ch, t) :: b[k]
  }

  function FlatUpsert(b: Buildings, a: Arrival, iv: Interval): Buildings {
    var k := Key(a.candle.symbol, iv, WindowOf(a, iv));
    var e := if k in b then b[k] else BuildingCandle(k.symbol, iv, k.openTime, CloseOf(a, iv), map[]);
    b[k := e.(candles1m := e.candles1m[TimeOf(a) := a])]
  }

  lemma BuildingAt(b: Buildings, ch: Channel, o: int)
    ensures o in BuildingOf(b, ch) <==> Key(ch.symbol, ch.interval, o) in b
    ensures o in BuildingOf(b, ch) ==> BuildingOf(b, ch)[o] == b[Key(ch.symbol, ch.interval, o)].candles1m
  {
    var m := BuildingOf(b, ch);
    if o in m {
      var k :| k in b && k.symbol == ch.symbol && k.interval == ch.interval && k.openTime == o;
      assert k == Key(ch.symbol, ch.interval, o);
    }
    if Key(ch.symbol, ch.interval, o) in b {
      assert Key(ch.symbol, ch.interval, o).openTime in m;
    }
  }

  lemma SameView(b: Buildings, b': Buildings, ch: Channel)
    requires forall k: Key :: BelongsTo(k, ch) ==> (k in b <==> k in b') && (k in b ==> b[k] == b'[k])
    ensures BuildingOf(b', ch) == BuildingOf(b, ch)
  {
    hide BuildingOf;
    var m, m' := BuildingOf(b, ch), BuildingOf(b', ch);
    forall o ensures (o in m <==> o in m') && (o in m ==> m[o] == m'[o]) {
      BuildingAt(b, ch, o);
      BuildingAt(b', ch, o);
    }
  }

  /** Removing the expired entries is what closing does to the stream. */
  lemma CloseView(b: Buildings, d: map<Channel, seq<Window>>, ch: Channel, t: int)
    requires Consistent(b)
    ensures BuildingOf(WithoutExpired(b, ch, t), ch) == Remaining(StreamOf(b, d, ch), t, ch.interval)
    ensures forall c :: c != ch ==> BuildingOf(WithoutExpired(b, ch, t), c) == BuildingOf(b, c)
  {
    hide BuildingOf, Duration;
    var b', s := WithoutExpired(b, ch, t), StreamOf(b, d, ch);
    var m, r := BuildingOf(b', ch), Remaining(s, t, ch.interval);
    forall o ensures (o in m <==> o in r) && (o in m ==> m[o] == r[o]) {
      BuildingAt(b, ch, o);
      BuildingAt(b', ch, o);
    }
    assert m == r;
    forall c | c != ch ensures BuildingOf(b', c) == BuildingOf(b, c) {
      SameView(b, b', c);
    }
  }

  lemma UpsertView(b: Buildings, a: Arrival, iv: Interval)
    ensures BuildingOf(FlatUpsert(b, a, iv), Channel(a.candle.symbol, iv)) ==
            Upsert(BuildingOf(b, Channel(a.candle.symbol, iv)), a, iv)
    ensures forall c :: c != Channel(a.candle.symbol, iv) ==> BuildingOf(FlatUpsert(b, a, iv), c) == BuildingOf(b, c)
    ensures Consistent(b) ==> Consistent(FlatUpsert(b, a, iv))
  {
    hide BuildingOf, OpenTime, Duration;
    var ch := Channel(a.candle.symbol, iv);
    var b', k := FlatUpsert(b, a, iv), Key(ch.symbol, iv, WindowOf(a, iv));
    var m, r := BuildingOf(b', ch), Upsert(BuildingOf(b, ch), a, iv);
    BuildingAt(b, ch, WindowOf(a, iv));
    forall o ensures (o in m <==> o in r) && (o in m ==> m[o] == r[o]) {
      BuildingAt(b, ch, o);
      BuildingAt(b', ch, o);
    }
    assert m == r;
    forall c | c != ch ensures BuildingOf(b', c) == BuildingOf(b, c) {
      SameView(b, b', c);
    }
  }

  /** The update has been stored on the given intervals of its symbol. */
  ghost predicate UpdatedOn(b: Buildings, b': Buildings, a: Arrival, ivs: seq<Interval>) {
    && GrownBy(b, b', a.candle.symbol)
    && forall ch: Channel ::
         BuildingOf(b', ch) == if ch.symbol == a.candle.symbol && ch.interval in ivs
                               then Upsert(BuildingOf(b, ch), a, ch.interval) else BuildingOf(b, ch)
  }

  lemma NotUpdated(b: Buildings, a: Arrival)
    ensures UpdatedOn(b, b, a, [])
  {
    hide BuildingOf, Upsert;
  }

  lemma UpdatedStep(b: Buildings, b': Buildings, a: Arrival, ivs: seq<Interval>, iv: Interval)
    requires UpdatedOn(b, b', a, ivs) && iv !in ivs && Derived(iv)
    ensures UpdatedOn(b, FlatUpsert(b', a, iv), a, ivs + [iv])
  {
    hide BuildingOf, Upsert, OpenTime, Duration, GrownBy;
    UpsertView(b', a, iv);
    GrownStep(b, b', FlatUpsert(b', a, iv), Key(a.candle.symbol, iv, WindowOf(a, iv)));
  }

  lemma UpdatedViews(b: Buildings, b': Buildings, d: map<Channel, seq<Window>>, a: Arrival)
    requires UpdatedOn(b, b', a, INTERVALS)
    ensures GrownBy(b, b', a.candle.symbol)
    ensures forall ch: Channel ::
      StreamOf(b', d, ch) == if ch.symbol == a.candle.symbol && Derived(ch.interval)
                             then Upserted(StreamOf(b, d, ch), a, ch.interval) else StreamOf(b, d, ch)
  {
    hide BuildingOf, Upsert, OpenTime, DoneOf, GrownBy, Derived;
    IntervalList();
  }

  // --------------------------------------------------------------- what a scan removes, whatever the symbols

  /** The tests of `closeExpiredIntervals` on one map entry. */
  predicate Hits(k: Key, e: BuildingCandle, ch: Channel, t: int) {
    Meets(k, ch) && t >= e.closeTime && e.candles1m != map[]
  }

  /** What the scan of one interval leaves. */
  function Survivors(b: Buildings, ch: Channel, t: int): Buildings {
    map k | k in b && !Hits(k, b[k], ch, t) :: b[k]
  }

  /** What the scans of several intervals of a symbol leave. */
  ghost function SurvivorsOf(b: Buildings, symbol: string, t: int, ivs: seq<Interval>): Buildings {
    map k | k in b && !(exists iv :: iv in ivs && Hits(k, b[k], Channel(symbol, iv), t)) :: b[k]
  }

  lemma SurvivorsStep(b: Buildings, symbol: string, t: int, ivs: seq<Interval>, iv: Interval)
    ensures Survivors(SurvivorsOf(b, symbol, t, ivs), Channel(symbol, iv), t) == SurvivorsOf(b, symbol, t, ivs + [iv])
  {
    hide Hits;
    var x := Survivors(SurvivorsOf(b, symbol, t, ivs), Channel(symbol, iv), t);
    var y := SurvivorsOf(b, symbol, t, ivs + [iv]);
    forall k ensures k in x <==> k in y {
      assert forall j :: j in ivs + [iv] <==> j in ivs || j == iv;
    }
    assert x.Keys == y.Keys;
  }

  lemma AllSurvive(b: Buildings, symbol: string, t: int)
    ensures SurvivorsOf(b, symbol, t, []) == b
  {
    hide Hits;
  }

  lemma SurvivorsConsistent(b: Buildings, symbol: string, t: int, ivs: seq<Interval>)
    requires Consistent(b)
    ensures Consistent(SurvivorsOf(b, symbol, t, ivs)) && SurvivorsOf(b, symbol, t, ivs).Keys <= b.Keys
  {
    hide Hits, Duration;
  }

  /** The entries that a scan has removed so far. */
  ghost predicate ScanState(b0: Buildings, b: Buildings, ch: Channel, t: int, todo: set<Key>) {
    && (forall k :: k in b <==> k in b0 && (k in todo || !Hits(k, b0[k], ch, t)))
    && (forall k :: k in b ==> b[k] == b0[k])
  }

  lemma ScanStart(b0: Buildings, ch: Channel, t: int)
    ensures ScanState(b0, b0, ch, t, b0.Keys)
  {
    hide Hits;
  }

  lemma ScanPending(b0: Buildings, b: Buildings, ch: Channel, t: int, todo: set<Key>, k: Key)
    requires ScanState(b0, b, ch, t, todo) && Consistent(b0) && k in todo && k in b0
    ensures k in b && b[k] == b0[k] && Consistent(b)
  {
    hide Hits, Duration;
  }

  lemma ScanNext(b0: Buildings, b: Buildings, ch: Channel, t: int, todo: set<Key>, k: Key)
    requires ScanState(b0, b, ch, t, todo) && k in todo && k in b0
    ensures Hits(k, b0[k], ch, t) ==> ScanState(b0, b - {k}, ch, t, todo - {k})
    ensures !Hits(k, b0[k], ch, t) ==> ScanState(b0, b, ch, t, todo - {k})
  {
    hide Hits;
  }

  lemma ScanDone(b0: Buildings, b: Buildings, ch: Channel, t: int)
    requires ScanState(b0, b, ch, t, {}) && Consistent(b0)
    ensures b == Survivors(b0, ch, t) && Consistent(b)
  {
    hide Hits, Duration;
  }

  // --------------------------------------------------------------- what closing one interval does

  /** The keys that the iteration over one symbol and interval has removed so far. */
  ghost predicate ClosingProgress(b0: Buildings, b: Buildings, ch: Channel, t: int, todo: set<Key>, order: seq<int>) {
    && (forall k :: k in b <==> k in b0 && (k in todo || !Closes(k, b0[k], ch, t)))
    && (forall k :: k in b ==> b[k] == b0[k])
    && (forall i, j :: 0 <= i < j < |order| ==> order[i] != order[j])
    && (forall i :: 0 <= i < |order| ==> var k := Key(ch.symbol, ch.interval, order[i]);
          k in b0 && k !in todo && Closes(k, b0[k], ch, t))
    && (forall k :: k in b0 && k !in todo && Closes(k, b0[k], ch, t) ==> k.openTime in order)
  }

  lemma ProgressClose(b0: Buildings, b: Buildings, ch: Channel, t: int, todo: set<Key>, order: seq<int>, k: Key)
    requires ClosingProgress(b0, b, ch, t, todo, order) && k in todo && k in b0 && Closes(k, b0[k], ch, t)
    ensures ClosingProgress(b0, b - {k}, ch, t, todo - {k}, order + [k.openTime])
    ensures k == Key(ch.symbol, ch.interval, k.openTime)
    ensures forall i :: 0 <= i < |order| ==> Key(ch.symbol, ch.interval, order[i]) in b0
  {
    var order' := order + [k.openTime];
    forall x | x in b0 && x !in todo - {k} && Closes(x, b0[x], ch, t) ensures x.openTime in order' {
      assert x == k || x.openTime in order;
      assert k.openTime in order';
    }
  }

  lemma ProgressSkip(b0: Buildings, b: Buildings, ch: Channel, t: int, todo: set<Key>, order: seq<int>, k: Key)
    requires ClosingProgress(b0, b, ch, t, todo, order) && k in todo && k in b0 && !Closes(k, b0[k], ch, t)
    ensures ClosingProgress(b0, b, ch, t, todo - {k}, order)
  {
  }

  lemma ProgressStart(b0: Buildings, ch: Channel, t: int)
    ensures ClosingProgress(b0, b0, ch, t, b0.Keys, [])
  {
  }

  /** The windows of the given open times, as stored. */
  ghost function Stored(b: Buildings, ch: Channel, order: seq<int>): (ws: seq<Window>)
    requires forall i :: 0 <= i < |order| ==> Key(ch.symbol, ch.interval, order[i]) in b
    ensures |ws| == |order|
  {
    seq(|order|, i requires 0 <= i < |order| =>
      Window(order[i], b[Key(ch.symbol, ch.interval, order[i])].candles1m))
  }

  lemma StoredAppend(b: Buildings, ch: Channel, order: seq<int>, o: int)
    requires forall i :: 0 <= i < |order| ==> Key(ch.symbol, ch.interval, order[i]) in b
    requires Key(ch.symbol, ch.interval, o) in b
    ensures Stored(b, ch, order + [o]) ==
            Stored(b, ch, order) + [Window(o, b[Key(ch.symbol, ch.interval, o)].candles1m)]
  {
  }

  /** On the stored entries the scan and its tests amount to closing the channel's entries. */
  lemma TestIsCloses(b: Buildings, k: Key, ch: Channel, t: int)
    requires k in b && ScannedExactly(b, ch)
    ensures Hits(k, b[k], ch, t) <==> Closes(k, b[k], ch, t)
  {
    hide Meets;
  }

  lemma ClosingFinished(b0: Buildings, b: Buildings, d: map<Channel, seq<Window>>, ch: Channel, t: int, order: seq<int>)
    requires Consistent(b0) && ClosingProgress(b0, b, ch, t, {}, order)
    ensures b == WithoutExpired(b0, ch, t) && Consistent(b) && b.Keys <= b0.Keys
    ensures forall i :: 0 <= i < |order| ==> Key(ch.symbol, ch.interval, order[i]) in b0
    ensures ClosingOrder(StreamOf(b0, d, ch), t, ch.interval, order)
    ensures Stored(b0, ch, order) == Closed(StreamOf(b0, d, ch), order)
  {
    hide BuildingOf, Duration;
    var s := StreamOf(b0, d, ch);
    forall i | 0 <= i < |order| ensures Expired(s, order[i], t, ch.interval) {
      BuildingAt(b0, ch, order[i]);
    }
    forall o | Expired(s, o, t, ch.interval) ensures o in order {
      BuildingAt(b0, ch, o);
      var k := Key(ch.symbol, ch.interval, o);
      assert Closes(k, b0[k], ch, t);
    }
    forall i | 0 <= i < |order| ensures Stored(b0, ch, order)[i] == Closed(s, order)[i] {
      BuildingAt(b0, ch, order[i]);
    }
  }

  /** The stream of one channel after `closeExpiredIntervals`. */
  ghost predicate ClosedStream(s: Stream, t: int, iv: Interval, s': Stream) {
    && s'.building == Remaining(s, t, iv)
    && exists order :: ClosingOrder(s, t, iv, order) && s'.done == s.done + Closed(s, order)
  }

  /** What the scan has done so far: the entries removed and the windows completed. */
  ghost predicate ClosingState(b0: Buildings, b: Buildings, d0: map<Channel, seq<Window>>, d: map<Channel, seq<Window>>,
                               ch: Channel, t: int, todo: set<Key>, order: seq<int>) {
    && ClosingProgress(b0, b, ch, t, todo, order)
    && (forall i :: 0 <= i < |order| ==> Key(ch.symbol, ch.interval, order[i]) in b0)
    && DoneOf(d, ch) == DoneOf(d0, ch) + Stored(b0, ch, order)
    && (forall c :: c != ch ==> DoneOf(d, c) == DoneOf(d0, c))
  }

  lemma StartClosing(b0: Buildings, d0: map<Channel, seq<Window>>, ch: Channel, t: int)
    ensures ClosingState(b0, b0, d0, d0, ch, t, b0.Keys, [])
  {
    hide DoneOf, Closes;
    ProgressStart(b0, ch, t);
  }

  lemma CloseNext(b0: Buildings, b: Buildings, d0: map<Channel, seq<Window>>, d: map<Channel, seq<Window>>,
                  ch: Channel, t: int, todo: set<Key>, order: seq<int>, k: Key)
    requires ClosingState(b0, b, d0, d, ch, t, todo, order) && k in todo && k in b0 && Closes(k, b0[k], ch, t)
    ensures k == Key(ch.symbol, ch.interval, k.openTime)
    ensures ClosingState(b0, b - {k}, d0, d[ch := DoneOf(d, ch) + [Window(k.openTime, b0[k].candles1m)]],
                         ch, t, todo - {k}, order + [k.openTime])
  {
    hide ClosingProgress, DoneOf, Stored, Closes;
    ProgressClose(b0, b, ch, t, todo, order, k);
    StoredAppend(b0, ch, order, k.openTime);
    AppendedTo(d, ch, Window(k.openTime, b0[k].candles1m));
  }

  /** One more entry of the scan, hit or not. */
  lemma ClosingNext(b0: Buildings, b: Buildings, d0: map<Channel, seq<Window>>, d: map<Channel, seq<Window>>,
                    ch: Channel, t: int, todo: set<Key>, order: seq<int>, k: Key)
    requires ClosingState(b0, b, d0, d, ch, t, todo, order) && k in todo && k in b0
    ensures Closes(k, b0[k], ch, t) ==>
              && k == Key(ch.symbol, ch.interval, k.openTime)
              && ClosingState(b0, b - {k}, d0, d[ch := DoneOf(d, ch) + [Window(k.openTime, b0[k].candles1m)]],
                              ch, t, todo - {k}, order + [k.openTime])
    ensures !Closes(k, b0[k], ch, t) ==> ClosingState(b0, b, d0, d, ch, t, todo - {k}, order)
  {
    hide ClosingState, DoneOf, Closes;
    if Closes(k, b0[k], ch, t) {
      CloseNext(b0, b, d0, d, ch, t, todo, order, k);
    } else {
      SkipNext(b0, b, d0, d, ch, t, todo, order, k);
    }
  }

  lemma SkipNext(b0: Buildings, b: Buildings, d0: map<Channel, seq<Window>>, d: map<Channel, seq<Window>>,
                 ch: Channel, t: int, todo: set<Key>, order: seq<int>, k: Key)
    requires ClosingState(b0, b, d0, d, ch, t, todo, order) && k in todo && k in b0 && !Closes(k, b0[k], ch, t)
    ensures ClosingState(b0, b, d0, d, ch, t, todo - {k}, order)
  {
    hide ClosingProgress, DoneOf, Stored, Closes;
    ProgressSkip(b0, b, ch, t, todo, order, k);
  }

  lemma ClosingDone(b0: Buildings, b: Buildings, d0: map<Channel, seq<Window>>, d: map<Channel, seq<Window>>,
                    ch: Channel, t: int, order: seq<int>)
    requires Consistent(b0) && ClosingState(b0, b, d0, d, ch, t, {}, order)
    ensures Consistent(b) && b.Keys <= b0.Keys
    ensures ClosedStream(StreamOf(b0, d0, ch), t, ch.interval, StreamOf(b, d, ch))
    ensures forall c :: c != ch ==> StreamOf(b, d, c) == StreamOf(b0, d0, c)
  {
    hide ClosingProgress, DoneOf, Stored, BuildingOf, Consistent, ClosingOrder, WithoutExpired, Remaining;
    ClosingFinished(b0, b, d0, ch, t, order);
    CloseView(b0, d0, ch, t);
  }

  /** What the scan does when it meets the entries of its channel only. */
  ghost predicate ClosedExactly(b0: Buildings, d0: map<Channel, seq<Window>>, l0: map<Channel, Candle>,
                                b: Buildings, d: map<Channel, seq<Window>>, l: map<Channel, Candle>,
                                ch: Channel, t: int) {
    && ClosedStream(StreamOf(b0, d0, ch), t, ch.interval, StreamOf(b, d, ch))
    && (forall c :: c != ch ==> StreamOf(b, d, c) == StreamOf(b0, d0, c))
    && (LastCompletedKept(d0, l0) ==> LastCompletedKept(d, l))
  }

  /** What all scans of a symbol do when each meets the entries of its channel only. */
  ghost predicate ClosedOn(b0: Buildings, d0: map<Channel, seq<Window>>, l0: map<Channel, Candle>,
                           b: Buildings, d: map<Channel, seq<Window>>, l: map<Channel, Candle>,
                           symbol: string, t: int, ivs: seq<Interval>) {
    && (forall ch: Channel :: if ch.symbol == symbol && ch.interval in ivs
          then ClosedStream(StreamOf(b0, d0, ch), t, ch.interval, StreamOf(b, d, ch))
          else StreamOf(b, d, ch) == StreamOf(b0, d0, ch))
    && (LastCompletedKept(d0, l0) ==> LastCompletedKept(d, l))
  }

  lemma ClosedOnNext(b0: Buildings, d0: map<Channel, seq<Window>>, l0: map<Channel, Candle>,
                     b: Buildings, d: map<Channel, seq<Window>>, l: map<Channel, Candle>,
                     b': Buildings, d': map<Channel, seq<Window>>, l': map<Channel, Candle>,
                     symbol: string, t: int, ivs: seq<Interval>, iv: Interval)
    requires ClosedOn(b0, d0, l0, b, d, l, symbol, t, ivs) && iv !in ivs
    requires ClosedExactly(b, d, l, b', d', l', Channel(symbol, iv), t)
    ensures ClosedOn(b0, d0, l0, b', d', l', symbol, t, ivs + [iv])
  {
    hide ClosedStream, StreamOf, LastCompletedKept;
  }

  lemma ClosedOnStart(b: Buildings, d: map<Channel, seq<Window>>, l: map<Channel, Candle>, symbol: string, t: int)
    ensures ClosedOn(b, d, l, b, d, l, symbol, t, [])
  {
    hide ClosedStream, StreamOf, LastCompletedKept;
  }

  /** Some scan of the symbol is led astray by the symbols received. */
  ghost predicate Misleading(symbols: set<string>, symbol: string) {
    exists iv :: Derived(iv) && !NotMisled(symbols, Channel(symbol, iv))
  }

  ghost function HistoryIn(h: map<string, seq<MinuteCandle>>, symbol: string): seq<MinuteCandle> {
    if symbol in h then h[symbol] else []
  }

  /** The updates of every symbol are recorded and numbered. */
  ghost predicate Recorded(h: map<string, seq<MinuteCandle>>, received: map<string, nat>) {
    forall symbol ::
      && |HistoryIn(h, symbol)| == (if symbol in received then received[symbol] else 0)
      && OfSymbol(HistoryIn(h, symbol), symbol)
  }

  /** Every derived interval of every symbol is a state that its updates lead to,
      and the last completed candle is that of the last completed window. */
  ghost predicate Regular(h: map<string, seq<MinuteCandle>>, b: Buildings, d: map<Channel, seq<Window>>,
                          l: map<Channel, Candle>) {
    && LastCompletedKept(d, l)
    && forall ch: Channel :: Derived(ch.interval) ==> Reaches(HistoryIn(h, ch.symbol), ch.interval, StreamOf(b, d, ch))
  }

  lemma RecordedNext(h: map<string, seq<MinuteCandle>>, received: map<string, nat>, c: MinuteCandle, id: nat)
    requires Recorded(h, received) && id == if c.symbol in received then received[c.symbol] else 0
    ensures id == |HistoryIn(h, c.symbol)|
    ensures Recorded(h[c.symbol := HistoryIn(h, c.symbol) + [c]], received[c.symbol := id + 1])
  {
    hide OfSymbol;
    assert OfSymbol(HistoryIn(h, c.symbol), c.symbol);
    OfSymbolAppend(HistoryIn(h, c.symbol), c);
  }

  lemma RegularNext(h: map<string, seq<MinuteCandle>>,
                    b0: Buildings, d0: map<Channel, seq<Window>>, l0: map<Channel, Candle>,
                    b: Buildings, d: map<Channel, seq<Window>>, l: map<Channel, Candle>, a: Arrival)
    requires Regular(h, b0, d0, l0) && SteppedOn(b0, d0, l0, b, d, l, a) && a.id == |HistoryIn(h, a.candle.symbol)|
    ensures Regular(h[a.candle.symbol := HistoryIn(h, a.candle.symbol) + [a.candle]], b, d, l)
  {
    hide Reaches, StreamStepped, StreamOf, LastCompletedKept, Derived;
    var h' := h[a.candle.symbol := HistoryIn(h, a.candle.symbol) + [a.candle]];
    forall ch: Channel | Derived(ch.interval)
      ensures Reaches(HistoryIn(h', ch.symbol), ch.interval, StreamOf(b, d, ch))
    {
      StreamReaches(HistoryIn(h, ch.symbol), StreamOf(b0, d0, ch), StreamOf(b, d, ch), a, ch);
    }
  }

  class Aggregator {
    var buildingCandles: Buildings
    var lastCompletedCandles: map<Channel, Candle>
    /** How many updates of a symbol have arrived; numbers the candle pointers. */
    var received: map<string, nat>
    /** The updates of every symbol, in order of arrival. */
    ghost var history: map<string, seq<MinuteCandle>>
    /** The windows completed on every channel, in order of completion; their
        candles are what is published and queued for the database. */
    ghost var completed: map<Channel, seq<Window>>
    /** Whether some call so far had its scans led astray. */
    ghost var misled: bool

    ghost function HistoryOf(symbol: string): seq<MinuteCandle>
      reads this
    {
      HistoryIn(history, symbol)
    }

    ghost function View(ch: Channel): Stream
      reads this
    {
      StreamOf(buildingCandles, completed, ch)
    }

    /** Unless some scan was misled, each derived interval of each symbol is a
        state that its updates lead to, and the last completed candle is that of
        the last completed window. */
    ghost predicate Valid()
      reads this
    {
      && Consistent(buildingCandles)
      && Recorded(history, received)
      && EntriesOf(buildingCandles, received.Keys)
      && (!misled ==> Regular(history, buildingCandles, completed, lastCompletedCandles))
    }

    constructor ()
      ensures Valid() && !misled
      ensures history == map[] && buildingCandles == map[] && lastCompletedCandles == map[]
    {
      buildingCandles, lastCompletedCandles, received := map[], map[], map[];
      history, completed, misled := map[], map[], false;
    }

    /** `completeIntervalNow`, called by the scan of `interval`; the result is what
        is published and queued. */
    method CompleteIntervalNow(key: Key, interval: Interval) returns (agg: Candle)
      requires key in buildingCandles && Consistent(buildingCandles)
      modifies this`buildingCandles, this`lastCompletedCandles, this`completed
      ensures buildingCandles == old(buildingCandles) - {key}
      ensures var ch, w := Channel(key.symbol, key.interval), Window(key.openTime, old(buildingCandles)[key].candles1m);
              && completed == old(completed)[ch := DoneOf(old(completed), ch) + [w]]
              && agg == CompletedCandle(key.symbol, key.interval, w)
              && ReportsWindow(agg, key.symbol, key.interval, key.openTime, w.minutes, true)
      ensures lastCompletedCandles == old(lastCompletedCandles)[Channel(key.symbol, interval) := agg]
      ensures interval == key.interval && LastCompletedKept(old(completed), old(lastCompletedCandles)) ==>
                LastCompletedKept(completed, lastCompletedCandles)
    {
      hide LastCompletedKept, DoneOf, CompletedCandle, Consistent, ReportsWindow;
      var building := buildingCandles[key];
      assert building.symbol == key.symbol by { EntryOf(buildingCandles, key); }
      agg := BuildCandle(buildingCandles, key, true);
      ghost var ch, w := Channel(key.symbol, key.interval), Window(key.openTime, building.candles1m);
      if LastCompletedKept(completed, lastCompletedCandles) {
        LastCompletedAppend(completed, lastCompletedCandles, ch, w);
      }
      lastCompletedCandles := lastCompletedCandles[Channel(building.symbol, interval) := agg];
      completed := completed[ch := DoneOf(completed, ch) + [w]];
      buildingCandles := buildingCandles - {key};
    }

    /** `closeExpiredIntervals` for one interval: the map is visited in an
        unspecified order, and every expired entry that the scan meets is completed. */
    method CloseExpired(ch: Channel, t: int)
      requires Consistent(buildingCandles)
      modifies this`buildingCandles, this`lastCompletedCandles, this`completed
      ensures Consistent(buildingCandles) && buildingCandles == Survivors(old(buildingCandles), ch, t)
      ensures ScannedExactly(old(buildingCandles), ch) ==>
                ClosedExactly(old(buildingCandles), old(completed), old(lastCompletedCandles),
                              buildingCandles, completed, lastCompletedCandles, ch, t)
    {
      hide LastCompletedKept, Duration, ClosingState, ScanState, Hits, Closes, ScannedExactly, Consistent, BuildingOf,
           DoneOf, ClosedStream, Survivors, CompletedCandle;
      ghost var b0, d0, l0 := buildingCandles, completed, lastCompletedCandles;
      ghost var exact := ScannedExactly(b0, ch);
      ghost var order: seq<int> := [];
      var todo := buildingCandles.Keys;
      ScanStart(b0, ch, t);
      StartClosing(b0, d0, ch, t);
      while todo != {}
        invariant todo <= b0.Keys && ScanState(b0, buildingCandles, ch, t, todo)
        invariant exact ==> ClosingState(b0, buildingCandles, d0, completed, ch, t, todo, order)
        invariant exact && LastCompletedKept(d0, l0) ==> LastCompletedKept(completed, lastCompletedCandles)
        decreases |todo|
      {
        var key := NextKey(todo);
        ScanPending(b0, buildingCandles, ch, t, todo, key);
        ScanNext(b0, buildingCandles, ch, t, todo, key);
        if exact {
          TestIsCloses(b0, key, ch, t);
          ClosingNext(b0, buildingCandles, d0, completed, ch, t, todo, order, key);
        }
        if Hits(key, buildingCandles[key], ch, t) {
          var agg := CompleteIntervalNow(key, ch.interval);
          order := order + [key.openTime];
        }
        todo := todo - {key};
      }
      ScanDone(b0, buildingCandles, ch, t);
      if exact {
        ClosingDone(b0, buildingCandles, d0, completed, ch, t, order);
      }
    }

    /** `closeExpiredIntervals`: every derived interval of the symbol in turn. */
    method CloseExpiredIntervals(symbol: string, t: int)
      requires Consistent(buildingCandles)
      modifies this`buildingCandles, this`lastCompletedCandles, this`completed
      ensures Consistent(buildingCandles) && buildingCandles == SurvivorsOf(old(buildingCandles), symbol, t, INTERVALS)
      ensures ScansExactly(old(buildingCandles), symbol) ==>
                ClosedOn(old(buildingCandles), old(completed), old(lastCompletedCandles),
                         buildingCandles, completed, lastCompletedCandles, symbol, t, INTERVALS)
    {
      hide Consistent, ClosedExactly, ClosedOn, Survivors, SurvivorsOf, ScansExactly, ScannedExactly;
      ghost var b0, d0, l0 := buildingCandles, completed, lastCompletedCandles;
      AllSurvive(b0, symbol, t);
      ClosedOnStart(b0, d0, l0, symbol, t);
      for i := 0 to |INTERVALS|
        invariant Consistent(buildingCandles) && buildingCandles == SurvivorsOf(b0, symbol, t, INTERVALS[..i])
        invariant ScansExactly(b0, symbol) ==>
                    ClosedOn(b0, d0, l0, buildingCandles, completed, lastCompletedCandles, symbol, t, INTERVALS[..i])
      {
        var ch := Channel(symbol, INTERVALS[i]);
        NextInterval(i);
        SurvivorsStep(b0, symbol, t, INTERVALS[..i], INTERVALS[i]);
        SurvivorsConsistent(b0, symbol, t, INTERVALS[..i]);
        ghost var b, d, l := buildingCandles, completed, lastCompletedCandles;
        CloseExpired(ch, t);
        if ScansExactly(b0, symbol) {
          ScansFewer(b0, b, ch);
          ClosedOnNext(b0, d0, l0, b, d, l, buildingCandles, completed, lastCompletedCandles, symbol, t,
                       INTERVALS[..i], INTERVALS[i]);
        }
      }
      assert INTERVALS[..|INTERVALS|] == INTERVALS;
    }

    /** `updateIntervalCandle`: store the update and publish the building candle. */
    method UpdateIntervalCandle(a: Arrival, iv: Interval) returns (published: Candle)
      requires Consistent(buildingCandles)
      modifies this`buildingCandles
      ensures Consistent(buildingCandles)
      ensures View(Channel(a.candle.symbol, iv)) ==
              Upserted(old(View(Channel(a.candle.symbol, iv))), a, iv)
      ensures forall c :: c != Channel(a.candle.symbol, iv) ==> View(c) == old(View(c))
      ensures WindowOf(a, iv) in View(Channel(a.candle.symbol, iv)).building
      ensures buildingCandles == FlatUpsert(old(buildingCandles), a, iv)
      ensures published == AggregateCandle(a.candle.symbol, iv, WindowOf(a, iv),
                StreamBar(InOrder(View(Channel(a.candle.symbol, iv)).building[WindowOf(a, iv)])), false)
      ensures ReportsWindow(published, a.candle.symbol, iv, WindowOf(a, iv),
                View(Channel(a.candle.symbol, iv)).building[WindowOf(a, iv)], false)
    {
      hide ReportsWindow, Consistent, Duration, OpenTime, BuildingOf, StreamBar, InOrder, AggregateCandle;
      var k := Key(a.candle.symbol, iv, WindowOf(a, iv));
      UpsertView(buildingCandles, a, iv);
      var e := if k in buildingCandles then buildingCandles[k]
               else BuildingCandle(k.symbol, iv, k.openTime, k.openTime + Duration(iv), map[]);
      buildingCandles := buildingCandles[k := e.(candles1m := e.candles1m[TimeOf(a) := a])];
      BuildingAt(buildingCandles, Channel(a.candle.symbol, iv), WindowOf(a, iv));
      published := BuildCandle(buildingCandles, k, false);
    }

    /** The second loop of `Process1mCandle`. */
    method UpdateIntervals(a: Arrival)
      requires Consistent(buildingCandles)
      modifies this`buildingCandles
      ensures Consistent(buildingCandles)
      ensures forall ch: Channel ::
        View(ch) == if ch.symbol == a.candle.symbol && Derived(ch.interval)
                    then Upserted(old(View(ch)), a, ch.interval) else old(View(ch))
      ensures UpdatedOn(old(buildingCandles), buildingCandles, a, INTERVALS)
    {
      hide Consistent, StreamOf, Duration, OpenTime, Upsert, Upserted, GrownBy, UpdatedOn, FlatUpsert;
      NotUpdated(buildingCandles, a);
      for i := 0 to |INTERVALS|
        invariant Consistent(buildingCandles)
        invariant UpdatedOn(old(buildingCandles), buildingCandles, a, INTERVALS[..i])
      {
        var iv := INTERVALS[i];
        NextInterval(i);
        UpdatedStep(old(buildingCandles), buildingCandles, a, INTERVALS[..i], iv);
        var published := UpdateIntervalCandle(a, iv);
      }
      assert INTERVALS[..|INTERVALS|] == INTERVALS;
      UpdatedViews(old(buildingCandles), buildingCandles, completed, a);
    }

    /** Both loops of `Process1mCandle`. */
    method StepIntervals(a: Arrival)
      requires Consistent(buildingCandles)
      modifies this`buildingCandles, this`lastCompletedCandles, this`completed
      ensures Consistent(buildingCandles)
      ensures UpdatedOn(SurvivorsOf(old(buildingCandles), a.candle.symbol, a.candle.openTime, INTERVALS),
                        buildingCandles, a, INTERVALS)
      ensures ScansExactly(old(buildingCandles), a.candle.symbol) ==>
                SteppedOn(old(buildingCandles), old(completed), old(lastCompletedCandles),
                          buildingCandles, completed, lastCompletedCandles, a)
    {
      hide Consistent, ClosedOn, StreamOf, Upserted, SteppedOn, UpdatedOn, ScansExactly, SurvivorsOf;
      ghost var b0, d0, l0 := buildingCandles, completed, lastCompletedCandles;
      CloseExpiredIntervals(a.candle.symbol, a.candle.openTime);
      ghost var b := buildingCandles;
      UpdateIntervals(a);
      if ScansExactly(b0, a.candle.symbol) {
        StepFromLoops(b0, d0, l0, b, completed, lastCompletedCandles, buildingCandles, a);
      }
    }

    /** `Process1mCandle`. Whatever the symbols, exactly the entries that the scans
        of its symbol hit are completed and the candle is then stored on every
        derived interval. When no symbol received misleads the scans, every
        derived interval of the symbol takes one step and nothing else changes. */
    method Process1mCandle(c: MinuteCandle)
      requires Valid()
      modifies this
      ensures Valid()
      ensures misled <==> old(misled) || Misleading(old(received).Keys, c.symbol)
      ensures HistoryOf(c.symbol) == old(HistoryOf(c.symbol)) + [c]
      ensures forall symbol :: symbol != c.symbol ==> HistoryOf(symbol) == old(HistoryOf(symbol))
      ensures UpdatedOn(SurvivorsOf(old(buildingCandles), c.symbol, c.openTime, INTERVALS), buildingCandles,
                        Arrival(|old(HistoryOf(c.symbol))|, c), INTERVALS)
      ensures !Misleading(old(received).Keys, c.symbol) ==>
                SteppedOn(old(buildingCandles), old(completed), old(lastCompletedCandles),
                          buildingCandles, completed, lastCompletedCandles, Arrival(|old(HistoryOf(c.symbol))|, c))
    {
      hide Regular, Recorded, Consistent, NotMisled, Misleading, ScansExactly, EntriesOf, UpdatedOn, SurvivorsOf,
           SteppedOn;
      ghost var b0, d0, l0 := buildingCandles, completed, lastCompletedCandles;
      ghost var clear := !Misleading(received.Keys, c.symbol);
      if clear {
        EntriesScan(b0, received.Keys, c.symbol);
      }
      var a := Arrival(if c.symbol in received then received[c.symbol] else 0, c);
      RecordedNext(history, received, c, a.id);
      StepIntervals(a);
      EntriesAfter(b0, buildingCandles, received.Keys, a);
      if clear && !misled {
        RegularNext(history, b0, d0, l0, buildingCandles, completed, lastCompletedCandles, a);
      }
      misled := misled || !clear;
      received := received[c.symbol := a.id + 1];
      assert received.Keys == old(received).Keys + {c.symbol};
      history := history[c.symbol := HistoryIn(history, c.symbol) + [c]];
    }

    /** `GetLastCompletedCandle`: memory first, else the database row, which is then kept. */
    method GetLastCompletedCandle(ch: Channel, fromDb: Option<Candle>) returns (c: Option<Candle>)
      requires Valid()
      modifies this`lastCompletedCandles
      ensures Valid()
      ensures c == if ch in old(lastCompletedCandles) then Some(old(lastCompletedCandles)[ch]) else fromDb
      ensures lastCompletedCandles ==
              if c.Some? then old(lastCompletedCandles)[ch := c.value] else old(lastCompletedCandles)
      ensures !misled && |View(ch).done| > 0 ==>
                var w := Last(View(ch).done);
                && c == Some(CompletedCandle(ch.symbol, ch.interval, w))
                && ReportsWindow(c.value, ch.symbol, ch.interval, w.openTime, w.minutes, true)
    {
      hide ReportsWindow, CompletedCandle, Consistent, Reaches, BuildingOf, Recorded, EntriesOf;
      if |View(ch).done| > 0 {
        CompletedReports(ch.symbol, ch.interval, Last(View(ch).done));
      }
      if ch in lastCompletedCandles {
        c := Some(lastCompletedCandles[ch]);
        assert lastCompletedCandles[ch := c.value] == lastCompletedCandles;
      } else {
        c := fromDb;
        if c.Some? {
          lastCompletedCandles := lastCompletedCandles[ch := c.value];
        }
      }
    }

    /** `GetLatestCandle`: whatever order the map is scanned in, the fold of an
        entry met with the latest open time, else the last completed candle. When
        no symbol received misleads the scan, that is the building window of the
        symbol and interval with the latest open time. The scan starts from
        timestamp 0, so a window that opens at or before 1970-01-01 00:00 is never
        shown. */
    method GetLatestCandle(ch: Channel, fromDb: Option<Candle>) returns (c: Option<Candle>)
      requires Valid()
      modifies this`lastCompletedCandles
      ensures Valid()
      ensures var fallback := if ch in old(lastCompletedCandles) then Some(old(lastCompletedCandles)[ch]) else fromDb;
              && ShowsMet(buildingCandles, ch, c, fallback)
              && (NotMisled(received.Keys, ch) ==> ShowsLatest(View(ch).building, ch, c, fallback))
    {
      hide NotMisled, ScannedExactly, ShowsLatest, LatestMet, ShownMet, StreamOf;
      var building := LatestBuilding(buildingCandles, ch);
      var lastCompleted := GetLastCompletedCandle(ch, fromDb);
      c := if building.Some? then building else lastCompleted;
      if NotMisled(received.Keys, ch) {
        EntriesScanned(buildingCandles, received.Keys, ch);
        MetIsLatest(buildingCandles, completed, ch, c, lastCompleted);
      }
    }
  }

  /** A window that the scan of `GetLatestCandle` can return. */
  ghost predicate Shown(b: map<int, map<int, Arrival>>, o: int) {
    o in b && o > 0 && b[o] != map[]
  }

  ghost predicate IsLatest(b: map<int, map<int, Arrival>>, o: int) {
    Shown(b, o) && forall p :: Shown(b, p) ==> p <= o
  }

  /** The result is the fold of the latest window shown, or the fallback if none is. */
  ghost predicate ShowsLatest(b: map<int, map<int, Arrival>>, ch: Channel,
                              c: Option<Candle>, fallback: Option<Candle>) {
    && (forall o :: IsLatest(b, o) ==>
          && c == Some(AggregateCandle(ch.symbol, ch.interval, o, StreamBar(InOrder(b[o])), false))
          && ReportsWindow(c.value, ch.symbol, ch.interval, o, b[o], false))
    && ((forall o :: !Shown(b, o)) ==> c == fallback)
    && ((exists o :: Shown(b, o)) <==> (exists o :: IsLatest(b, o)))
  }

  /** An entry that the scan meets and can return. */
  ghost predicate ShownMet(b: Buildings, k: Key, ch: Channel) {
    k in b && Meets(k, ch) && k.openTime > 0 && b[k].candles1m != map[]
  }

  /** An entry met with the latest open time, and its fold. */
  ghost predicate LatestMet(b: Buildings, k: Key, ch: Channel, c: Candle) {
    && ShownMet(b, k, ch) && (forall j :: ShownMet(b, j, ch) ==> j.openTime <= k.openTime)
    && c == AggregateCandle(k.symbol, k.interval, k.openTime, StreamBar(InOrder(b[k].candles1m)), false)
    && ReportsWindow(c, k.symbol, k.interval, k.openTime, b[k].candles1m, false)
  }

  ghost predicate ShowsMet(b: Buildings, ch: Channel, c: Option<Candle>, fallback: Option<Candle>) {
    if forall k :: !ShownMet(b, k, ch) then c == fallback
    else c.Some? && exists k :: LatestMet(b, k, ch, c.value)
  }

  /** The scan over the building candles. */
  method LatestBuilding(b: Buildings, ch: Channel) returns (c: Option<Candle>)
    requires Consistent(b)
    ensures c.None? <==> forall k :: !ShownMet(b, k, ch)
    ensures c.Some? ==> exists k :: LatestMet(b, k, ch, c.value)
  {
    hide Consistent, AggregateCandle, StreamBar, InOrder, Meets, ReportsWindow;
    var latest := 0;
    c := None;
    ghost var best := Key(ch.symbol, ch.interval, 0);
    var todo := b.Keys;
    while todo != {}
      invariant todo <= b.Keys && latest >= 0
      invariant forall k :: ShownMet(b, k, ch) && k !in todo ==> k.openTime <= latest
      invariant c.None? <==> latest == 0
      invariant latest > 0 ==>
                  && ShownMet(b, best, ch) && best.openTime == latest && c == Some(FoldOf(b, best))
                  && ReportsWindow(c.value, best.symbol, best.interval, best.openTime, b[best].candles1m, false)
      decreases |todo|
    {
      var key := NextKey(todo);
      if Meets(key, ch) && key.openTime > latest && b[key].candles1m != map[] {
        var current := BuildCandle(b, key, false);
        c := Some(current);
        latest := key.openTime;
        best := key;
      }
      todo := todo - {key};
    }
    if latest > 0 {
      assert LatestMet(b, best, ch, c.value);
    }
  }

  ghost function FoldOf(b: Buildings, k: Key): Candle
    requires k in b
  {
    AggregateCandle(k.symbol, k.interval, k.openTime, StreamBar(InOrder(b[k].candles1m)), false)
  }

  /** When the scan meets the entries of its channel only, the latest met is the channel's latest window. */
  lemma MetIsLatest(b: Buildings, d: map<Channel, seq<Window>>, ch: Channel,
                    c: Option<Candle>, fallback: Option<Candle>)
    requires ScannedExactly(b, ch) && ShowsMet(b, ch, c, fallback)
    ensures ShowsLatest(StreamOf(b, d, ch).building, ch, c, fallback)
  {
    hide Meets, BuildingOf, AggregateCandle, StreamBar, InOrder, ReportsWindow;
    var m := BuildingOf(b, ch);
    forall k ensures ShownMet(b, k, ch) <==> BelongsTo(k, ch) && Shown(m, k.openTime) {
      BuildingAt(b, ch, k.openTime);
    }
    forall o ensures Shown(m, o) <==> ShownMet(b, Key(ch.symbol, ch.interval, o), ch) {
    }
    if k :| ShownMet(b, k, ch) {
      var best :| LatestMet(b, best, ch, c.value);
      BuildingAt(b, ch, best.openTime);
      assert best == Key(ch.symbol, ch.interval, best.openTime);
      assert IsLatest(m, best.openTime);
    }
  }

  function Upserted(s: Stream, a: Arrival, iv: Interval): Stream {
    s.(building := Upsert(s.building, a, iv))
  }

  lemma StepFromParts(s: Stream, mid: Stream, a: Arrival, iv: Interval)
    requires ClosedStream(s, TimeOf(a), iv, mid)
    ensures Step(s, a, iv, Upserted(mid, a, iv))
  {
    hide OpenTime, Duration, Upsert, Remaining, Closed;
  }

  /** One update of a symbol, seen on every channel. */
  ghost predicate SteppedOn(b0: Buildings, d0: map<Channel, seq<Window>>, l0: map<Channel, Candle>,
                            b: Buildings, d: map<Channel, seq<Window>>, l: map<Channel, Candle>, a: Arrival) {
    && (forall ch: Channel :: StreamStepped(StreamOf(b0, d0, ch), StreamOf(b, d, ch), a, ch))
    && (LastCompletedKept(d0, l0) ==> LastCompletedKept(d, l))
  }

  /** The derived intervals of the update's symbol take one step, the others stay. */
  ghost predicate StreamStepped(s: Stream, s': Stream, a: Arrival, ch: Channel) {
    if ch.symbol == a.candle.symbol && Derived(ch.interval) then Step(s, a, ch.interval, s') else s' == s
  }

  lemma StepFromLoops(b0: Buildings, d0: map<Channel, seq<Window>>, l0: map<Channel, Candle>,
                      b: Buildings, d: map<Channel, seq<Window>>, l: map<Channel, Candle>, b': Buildings, a: Arrival)
    requires ClosedOn(b0, d0, l0, b, d, l, a.candle.symbol, TimeOf(a), INTERVALS) && UpdatedOn(b, b', a, INTERVALS)
    ensures SteppedOn(b0, d0, l0, b', d, l, a)
  {
    hide ClosedStream, StreamOf, Upserted, Step, UpdatedOn, LastCompletedKept;
    UpdatedViews(b, b', d, a);
    IntervalList();
    forall ch: Channel ensures StreamStepped(StreamOf(b0, d0, ch), StreamOf(b', d, ch), a, ch) {
      if ch.symbol == a.candle.symbol && Derived(ch.interval) {
        StepFromParts(StreamOf(b0, d0, ch), StreamOf(b, d, ch), a, ch.interval);
      }
    }
  }

  lemma StreamReaches(us: seq<MinuteCandle>, s: Stream, s': Stream, a: Arrival, ch: Channel)
    requires Reaches(us, ch.interval, s) && StreamStepped(s, s', a, ch) && Derived(ch.interval)
    requires ch.symbol == a.candle.symbol ==> a.id == |us|
    ensures Reaches(if ch.symbol == a.candle.symbol then us + [a.candle] else us, ch.interval, s')
  {
    hide Step, Reaches;
    if ch.symbol == a.candle.symbol {
      ReachesNext(us, a.candle, ch.interval, s, s');
    }
  }

  lemma EntriesAfter(b0: Buildings, b: Buildings, symbols: set<string>, a: Arrival)
    requires EntriesOf(b0, symbols) && Consistent(b0)
    requires UpdatedOn(SurvivorsOf(b0, a.candle.symbol, a.candle.openTime, INTERVALS), b, a, INTERVALS)
    ensures EntriesOf(b, symbols + {a.candle.symbol})
  {
    hide Consistent, SurvivorsOf, BuildingOf, Upsert, Derived;
    SurvivorsConsistent(b0, a.candle.symbol, a.candle.openTime, INTERVALS);
  }

  lemma ReachesNext(us: seq<MinuteCandle>, c: MinuteCandle, iv: Interval, s: Stream, s': Stream)
    requires Reaches(us, iv, s) && Step(s, Arrival(|us|, c), iv, s')
    ensures Reaches(us + [c], iv, s')
  {
    hide Step;
    assert Init(us + [c]) == us;
  }

  lemma OfSymbolAppend(us: seq<MinuteCandle>, c: MinuteCandle)
    requires OfSymbol(us, c.symbol)
    ensures OfSymbol(us + [c], c.symbol)
  {
  }

  lemma AppendedTo(d: map<Channel, seq<Window>>, ch: Channel, w: Window)
    ensures var d' := d[ch := DoneOf(d, ch) + [w]];
            DoneOf(d', ch) == DoneOf(d, ch) + [w] && forall c :: c != ch ==> DoneOf(d', c) == DoneOf(d, c)
  {
  }

  lemma EntryOf(b: Buildings, key: Key)
    requires key in b && Consistent(b)
    ensures b[key].symbol == key.symbol && b[key].interval == key.interval && b[key].openTime == key.openTime
    ensures b[key].closeTime == key.openTime + Duration(key.interval)
  {
  }

  /** The candle built from a map entry, complete or still building. */
  method BuildCandle(b: Buildings, key: Key, isClosed: bool) returns (c: Candle)
    requires key in b && Consistent(b)
    ensures c == AggregateCandle(key.symbol, key.interval, key.openTime, StreamBar(InOrder(b[key].candles1m)), isClosed)
    ensures isClosed ==> c == CompletedCandle(key.symbol, key.interval, Window(key.openTime, b[key].candles1m))
    ensures ReportsWindow(c, key.symbol, key.interval, key.openTime, b[key].candles1m, isClosed)
  {
    hide StreamBar, InOrder, Duration, Consistent, ReportsWindow;
    EntryOf(b, key);
    StreamedReports(key.symbol, key.interval, key.openTime, b[key].candles1m, isClosed);
    var bar := BuildBar(b[key].candles1m);
    c := Candle(b[key].symbol, b[key].interval, b[key].openTime, b[key].closeTime,
                bar.open, bar.high, bar.low, bar.close, bar.volume, bar.quoteVolume, bar.tradeCount,
                Aggregated, isClosed);
  }

  lemma LastCompletedAppend(completed: map<Channel, seq<Window>>, last: map<Channel, Candle>, ch: Channel, w: Window)
    requires LastCompletedKept(completed, last)
    ensures LastCompletedKept(completed[ch := DoneOf(completed, ch) + [w]],
                              last[ch := CompletedCandle(ch.symbol, ch.interval, w)])
  {
    hide CompletedCandle;
  }

  /** The stored last candle of a channel is the one built from its last completed window. */
  ghost predicate LastCompletedKept(completed: map<Channel, seq<Window>>, last: map<Channel, Candle>) {
    forall ch :: ch in completed && |completed[ch]| > 0 ==>
      ch in last && last[ch] == CompletedCandle(ch.symbol, ch.interval, Last(completed[ch]))
  }
}
