/** Subscription reference counts of
    internal/services/aggregator/exchange_aggregator.go: the counts per symbol and
    interval and the count per 1m stream live in two maps under two locks, and
    every subscribe and unsubscribe takes the locks one after the other. Symbols
    are upper-cased before use; here they are given in that form. */
module Subscriptions {
  import opened Candles
  import opened MapSums

  datatype Symbol = Symbol(name: string)

  type Intervals = map<Symbol, map<Interval, int>>

  type Streams = map<Symbol, int>

  function CountsOf(subs: Intervals, sym: Symbol): map<Interval, int> {
    if sym in subs then subs[sym] else map[]
  }

  /** `subscriptions[symbol][interval]`, zero when missing. */
  function RefCount(subs: Intervals, sym: Symbol, iv: Interval): int {
    if iv in CountsOf(subs, sym) then CountsOf(subs, sym)[iv] else 0
  }

  function StreamCount(streams: Streams, sym: Symbol): int {
    if sym in streams then streams[sym] else 0
  }

  // --------------------------------------------------------------- the four critical sections

  function AddInterval(subs: Intervals, sym: Symbol, iv: Interval): Intervals {
    subs[sym := CountsOf(subs, sym)[iv := RefCount(subs, sym, iv) + 1]]
  }

  function AddStream(streams: Streams, sym: Symbol): Streams {
    streams[sym := StreamCount(streams, sym) + 1]
  }

  function RemoveInterval(subs: Intervals, sym: Symbol, iv: Interval): Intervals {
    var n := RefCount(subs, sym, iv);
    if n <= 0 then subs
    else if n > 1 then subs[sym := subs[sym][iv := n - 1]]
    else if subs[sym] - {iv} == map[] then subs - {sym}
    else subs[sym := subs[sym] - {iv}]
  }

  function RemoveStream(streams: Streams, sym: Symbol): Streams {
    if sym !in streams then streams
    else if streams[sym] - 1 <= 0 then streams - {sym}
    else streams[sym := streams[sym] - 1]
  }

  class SubscriptionTable {
    var subscriptions: Intervals
    var activeStreams: Streams

    constructor ()
      ensures subscriptions == map[] && activeStreams == map[]
    {
      subscriptions, activeStreams := map[], map[];
    }

    /** First half of `SubscribeToInterval`. */
    method TrackInterval(sym: Symbol, iv: Interval) returns (refCount: int)
      modifies this`subscriptions
      ensures subscriptions == AddInterval(old(subscriptions), sym, iv)
      ensures refCount == RefCount(subscriptions, sym, iv)
    {
      if sym !in subscriptions {
        subscriptions := subscriptions[sym := map[]];
      }
      var counts := subscriptions[sym];
      refCount := (if iv in counts then counts[iv] else 0) + 1;
      subscriptions := subscriptions[sym := counts[iv := refCount]];
    }

    /** Second half of `SubscribeToInterval`. */
    method TrackStream(sym: Symbol) returns (wasNew: bool)
      modifies this`activeStreams
      ensures activeStreams == AddStream(old(activeStreams), sym)
      ensures wasNew == (sym !in old(activeStreams))
    {
      wasNew := sym !in activeStreams;
      if wasNew {
        activeStreams := activeStreams[sym := 1];
      } else {
        activeStreams := activeStreams[sym := activeStreams[sym] + 1];
      }
    }

    /** First half of `UnsubscribeFromInterval`. */
    method UntrackInterval(sym: Symbol, iv: Interval)
      modifies this`subscriptions
      ensures subscriptions == RemoveInterval(old(subscriptions), sym, iv)
    {
      if sym in subscriptions && iv in subscriptions[sym] && subscriptions[sym][iv] > 0 {
        var counts := subscriptions[sym];
        counts := counts[iv := counts[iv] - 1];
        if counts[iv] == 0 {
          counts := counts - {iv};
          assert counts == subscriptions[sym] - {iv};
          if counts == map[] {
            subscriptions := subscriptions - {sym};
            return;
          }
        }
        subscriptions := subscriptions[sym := counts];
      }
    }

    /** Second half of `UnsubscribeFromInterval`. */
    method UntrackStream(sym: Symbol)
      modifies this`activeStreams
      ensures activeStreams == RemoveStream(old(activeStreams), sym)
    {
      if sym in activeStreams {
        var count := activeStreams[sym] - 1;
        if count <= 0 {
          activeStreams := activeStreams - {sym};
        } else {
          activeStreams := activeStreams[sym := count];
        }
      }
    }
  }

  // --------------------------------------------------------------- clients

  /** A client between the critical sections of its calls. A client that is
      not in the state holds nothing; each unsubscribes what it subscribed. */
  datatype Client =
    | HalfIn(sym: Symbol, iv: Interval)
    | In(sym: Symbol, iv: Interval)
    | HalfOut(sym: Symbol, iv: Interval)

  datatype State = State(subs: Intervals, streams: Streams, clients: map<nat, Client>)

  const INITIAL := State(map[], map[], map[])

  datatype Action = BeginSubscribe(sym: Symbol, iv: Interval) | EndSubscribe | BeginUnsubscribe | EndUnsubscribe

  /** One critical section executed by client c. */
  ghost predicate Step(s: State, c: nat, act: Action, s': State) {
    match act
    case BeginSubscribe(sym, iv) =>
      && c !in s.clients
      && s' == State(AddInterval(s.subs, sym, iv), s.streams, s.clients[c := HalfIn(sym, iv)])
    case EndSubscribe =>
      && c in s.clients && s.clients[c].HalfIn?
      && var sym, iv := s.clients[c].sym, s.clients[c].iv;
         s' == State(s.subs, AddStream(s.streams, sym), s.clients[c := In(sym, iv)])
    case BeginUnsubscribe =>
      && c in s.clients && s.clients[c].In?
      && var sym, iv := s.clients[c].sym, s.clients[c].iv;
         s' == State(RemoveInterval(s.subs, sym, iv), s.streams, s.clients[c := HalfOut(sym, iv)])
    case EndUnsubscribe =>
      && c in s.clients && s.clients[c].HalfOut?
      && s' == State(s.subs, RemoveStream(s.streams, s.clients[c].sym), s.clients - {c})
  }

  /** The states reachable by any interleaving of the clients' critical sections. */
  ghost predicate Reachable(s: State, n: nat)
    decreases n
  {
    if n == 0 then s == INITIAL
    else exists p, c, act :: Reachable(p, n - 1) && Step(p, c, act, s)
  }

  /** Past the stream increment and not past the stream decrement. */
  ghost function OnStream(clients: map<nat, Client>, sym: Symbol): set<nat> {
    set c | c in clients && clients[c].sym == sym && !clients[c].HalfIn?
  }

  /** Past the interval increment and not past the interval decrement. */
  ghost function OnInterval(clients: map<nat, Client>, sym: Symbol, iv: Interval): set<nat> {
    set c | c in clients && clients[c].sym == sym && clients[c].iv == iv && !clients[c].HalfOut?
  }

  ghost function OnSymbol(clients: map<nat, Client>, sym: Symbol): set<nat> {
    set c | c in clients && clients[c].sym == sym && !clients[c].HalfOut?
  }

  /** A stream's count is the number of clients on it, and the stream exists exactly when there is one. */
  ghost predicate StreamCounted(s: State, sym: Symbol) {
    && StreamCount(s.streams, sym) == |OnStream(s.clients, sym)|
    && (sym in s.streams <==> |OnStream(s.clients, sym)| > 0)
  }

  ghost predicate IntervalCounted(s: State, sym: Symbol, iv: Interval) {
    RefCount(s.subs, sym, iv) == |OnInterval(s.clients, sym, iv)|
  }

  ghost predicate TotalCounted(s: State, sym: Symbol) {
    SumOver(CountsOf(s.subs, sym)) == |OnSymbol(s.clients, sym)|
  }

  /** No zero count and no empty symbol is kept. */
  ghost predicate NoIdleEntries(subs: Intervals) {
    && (forall sym, iv :: iv in CountsOf(subs, sym) ==> RefCount(subs, sym, iv) > 0)
    && (forall sym :: sym in subs ==> subs[sym] != map[])
  }

  ghost predicate Counted(s: State) {
    && (forall sym :: StreamCounted(s, sym))
    && (forall sym, iv :: IntervalCounted(s, sym, iv))
    && (forall sym :: TotalCounted(s, sym))
    && NoIdleEntries(s.subs)
  }

  // --------------------------------------------------------------- how the groups of clients change

  function Now(clients: map<nat, Client>, c: nat): Option<Client> {
    if c in clients then Some(clients[c]) else None
  }

  function Put(clients: map<nat, Client>, c: nat, x: Option<Client>): map<nat, Client> {
    if x.Some? then clients[c := x.value] else clients - {c}
  }

  function StreamWeight(x: Option<Client>, sym: Symbol): int {
    if x.Some? && x.value.sym == sym && !x.value.HalfIn? then 1 else 0
  }

  function IntervalWeight(x: Option<Client>, sym: Symbol, iv: Interval): int {
    if x.Some? && x.value.sym == sym && x.value.iv == iv && !x.value.HalfOut? then 1 else 0
  }

  function SymbolWeight(x: Option<Client>, sym: Symbol): int {
    if x.Some? && x.value.sym == sym && !x.value.HalfOut? then 1 else 0
  }

  /** A group loses the client's old weight and gains its new one. */
  lemma GroupSize(g: set<nat>, g': set<nat>, c: nat)
    requires g - {c} == g' - {c}
    ensures |g'| == |g| - (if c in g then 1 else 0) + (if c in g' then 1 else 0)
  {
    SizeWithout(g, c);
    SizeWithout(g', c);
  }

  lemma SizeWithout(g: set<nat>, c: nat)
    ensures |g - {c}| == if c in g then |g| - 1 else |g|
  {
    if c !in g {
      assert g - {c} == g;
    }
  }

  lemma StreamSize(clients: map<nat, Client>, c: nat, x: Option<Client>, sym: Symbol)
    ensures |OnStream(Put(clients, c, x), sym)| ==
            |OnStream(clients, sym)| - StreamWeight(Now(clients, c), sym) + StreamWeight(x, sym)
  {
    var g, g' := OnStream(clients, sym), OnStream(Put(clients, c, x), sym);
    assert g - {c} == g' - {c};
    GroupSize(g, g', c);
  }

  lemma IntervalSize(clients: map<nat, Client>, c: nat, x: Option<Client>, sym: Symbol, iv: Interval)
    ensures |OnInterval(Put(clients, c, x), sym, iv)| ==
            |OnInterval(clients, sym, iv)| - IntervalWeight(Now(clients, c), sym, iv) + IntervalWeight(x, sym, iv)
  {
    var g, g' := OnInterval(clients, sym, iv), OnInterval(Put(clients, c, x), sym, iv);
    assert g - {c} == g' - {c};
    GroupSize(g, g', c);
  }

  lemma SymbolSize(clients: map<nat, Client>, c: nat, x: Option<Client>, sym: Symbol)
    ensures |OnSymbol(Put(clients, c, x), sym)| ==
            |OnSymbol(clients, sym)| - SymbolWeight(Now(clients, c), sym) + SymbolWeight(x, sym)
  {
    var g, g' := OnSymbol(clients, sym), OnSymbol(Put(clients, c, x), sym);
    assert g - {c} == g' - {c};
    GroupSize(g, g', c);
  }

  // --------------------------------------------------------------- how the counts change

  lemma CountsAfterAdd(subs: Intervals, sym: Symbol, iv: Interval, x: Symbol, y: Interval)
    ensures RefCount(AddInterval(subs, sym, iv), x, y) == RefCount(subs, x, y) + (if x == sym && y == iv then 1 else 0)
    ensures SumOver(CountsOf(AddInterval(subs, sym, iv), x)) == SumOver(CountsOf(subs, x)) + (if x == sym then 1 else 0)
  {
    hide SumOver;
    SumUpdate(CountsOf(subs, sym), iv, RefCount(subs, sym, iv) + 1);
  }

  lemma CountsAfterRemove(subs: Intervals, sym: Symbol, iv: Interval, x: Symbol, y: Interval)
    requires RefCount(subs, sym, iv) > 0
    ensures RefCount(RemoveInterval(subs, sym, iv), x, y) ==
            RefCount(subs, x, y) - (if x == sym && y == iv then 1 else 0)
    ensures SumOver(CountsOf(RemoveInterval(subs, sym, iv), x)) ==
            SumOver(CountsOf(subs, x)) - (if x == sym then 1 else 0)
  {
    hide SumOver;
    SumUpdate(subs[sym], iv, RefCount(subs, sym, iv) - 1);
    SumWithout(subs[sym], iv);
    if subs[sym] - {iv} == map[] {
      assert CountsOf(subs - {sym}, sym) == map[];
    }
  }

  lemma EntriesAfterAdd(subs: Intervals, sym: Symbol, iv: Interval)
    requires NoIdleEntries(subs)
    ensures NoIdleEntries(AddInterval(subs, sym, iv))
  {
    var subs' := AddInterval(subs, sym, iv);
    forall x, y | y in CountsOf(subs', x) ensures RefCount(subs', x, y) > 0 {
      if x == sym && y == iv {
        assert iv in CountsOf(subs, sym) ==> RefCount(subs, sym, iv) > 0;
      } else {
        assert y in CountsOf(subs, x);
      }
    }
    assert iv in subs'[sym];
  }

  lemma EntriesAfterRemove(subs: Intervals, sym: Symbol, iv: Interval)
    requires NoIdleEntries(subs)
    ensures NoIdleEntries(RemoveInterval(subs, sym, iv))
  {
    var subs' := RemoveInterval(subs, sym, iv);
    forall x, y | y in CountsOf(subs', x) ensures RefCount(subs', x, y) > 0 {
      assert y in CountsOf(subs, x);
    }
    if RefCount(subs, sym, iv) > 1 {
      assert iv in subs'[sym];
    }
  }

  // --------------------------------------------------------------- every step keeps the counts

  /** The client's state after the action. */
  function After(client: Option<Client>, act: Action): Option<Client> {
    match act
    case BeginSubscribe(sym, iv) => Some(HalfIn(sym, iv))
    case EndSubscribe => if client.Some? then Some(In(client.value.sym, client.value.iv)) else None
    case BeginUnsubscribe => if client.Some? then Some(HalfOut(client.value.sym, client.value.iv)) else None
    case EndUnsubscribe => None
  }

  lemma StreamKept(s: State, c: nat, act: Action, s': State, sym: Symbol)
    requires Step(s, c, act, s') && StreamCounted(s, sym)
    ensures StreamCounted(s', sym)
  {
    hide OnStream, AddInterval, RemoveInterval;
    assert s'.clients == Put(s.clients, c, After(Now(s.clients, c), act));
    StreamSize(s.clients, c, After(Now(s.clients, c), act), sym);
    if act == EndUnsubscribe && s.clients[c].sym == sym {
      Member(s.clients, c, sym);
    }
  }

  lemma Member(clients: map<nat, Client>, c: nat, sym: Symbol)
    requires c in clients && clients[c].sym == sym && clients[c].HalfOut?
    ensures |OnStream(clients, sym)| > 0
  {
    assert c in OnStream(clients, sym);
  }

  /** The counts of one symbol and interval match the clients, and the sum of the symbol does. */
  ghost predicate PairCounted(s: State, sym: Symbol, iv: Interval) {
    IntervalCounted(s, sym, iv) && TotalCounted(s, sym)
  }

  lemma SubscribeKept(s: State, c: nat, act: Action, s': State, sym: Symbol, iv: Interval)
    requires Step(s, c, act, s') && act.BeginSubscribe? && PairCounted(s, sym, iv)
    ensures PairCounted(s', sym, iv)
  {
    hide OnInterval, OnSymbol, AddInterval, SumOver;
    var x := Some(HalfIn(act.sym, act.iv));
    assert s'.clients == Put(s.clients, c, x);
    IntervalSize(s.clients, c, x, sym, iv);
    SymbolSize(s.clients, c, x, sym);
    CountsAfterAdd(s.subs, act.sym, act.iv, sym, iv);
  }

  lemma UnsubscribeKept(s: State, c: nat, act: Action, s': State, sym: Symbol, iv: Interval)
    requires Step(s, c, act, s') && act.BeginUnsubscribe? && PairCounted(s, sym, iv)
    requires RefCount(s.subs, s.clients[c].sym, s.clients[c].iv) > 0
    ensures PairCounted(s', sym, iv)
  {
    hide OnInterval, OnSymbol, RemoveInterval, RefCount, SumOver;
    var y, j := s.clients[c].sym, s.clients[c].iv;
    assert s'.clients == Put(s.clients, c, Some(HalfOut(y, j)));
    IntervalSize(s.clients, c, Some(HalfOut(y, j)), sym, iv);
    SymbolSize(s.clients, c, Some(HalfOut(y, j)), sym);
    CountsAfterRemove(s.subs, y, j, sym, iv);
  }

  lemma StreamStepKept(s: State, c: nat, act: Action, s': State, sym: Symbol, iv: Interval)
    requires Step(s, c, act, s') && (act.EndSubscribe? || act.EndUnsubscribe?) && PairCounted(s, sym, iv)
    ensures PairCounted(s', sym, iv)
  {
    hide OnInterval, OnSymbol, AddStream, RemoveStream, SumOver;
    var x := After(Now(s.clients, c), act);
    assert s'.clients == Put(s.clients, c, x);
    IntervalSize(s.clients, c, x, sym, iv);
    SymbolSize(s.clients, c, x, sym);
  }

  lemma UnsubscriberCounted(s: State, c: nat)
    requires Counted(s) && c in s.clients && s.clients[c].In?
    ensures RefCount(s.subs, s.clients[c].sym, s.clients[c].iv) > 0
  {
    hide OnInterval, RefCount;
    assert IntervalCounted(s, s.clients[c].sym, s.clients[c].iv);
    Subscribed(s.clients, c);
  }

  lemma EntriesKept(s: State, c: nat, act: Action, s': State)
    requires Step(s, c, act, s') && NoIdleEntries(s.subs)
    ensures NoIdleEntries(s'.subs)
  {
    hide AddInterval, RemoveInterval, AddStream, RemoveStream, NoIdleEntries;
    match act {
      case BeginSubscribe(y, j) => EntriesAfterAdd(s.subs, y, j);
      case BeginUnsubscribe => EntriesAfterRemove(s.subs, s.clients[c].sym, s.clients[c].iv);
      case _ =>
    }
  }

  lemma IntervalKept(s: State, c: nat, act: Action, s': State, sym: Symbol, iv: Interval)
    requires Step(s, c, act, s') && Counted(s)
    ensures PairCounted(s', sym, iv)
  {
    hide IntervalCounted, TotalCounted, RefCount;
    assert IntervalCounted(s, sym, iv) && TotalCounted(s, sym);
    if act.BeginSubscribe? {
      SubscribeKept(s, c, act, s', sym, iv);
    } else if act.BeginUnsubscribe? {
      UnsubscriberCounted(s, c);
      UnsubscribeKept(s, c, act, s', sym, iv);
    } else {
      StreamStepKept(s, c, act, s', sym, iv);
    }
  }

  lemma Subscribed(clients: map<nat, Client>, c: nat)
    requires c in clients && clients[c].In?
    ensures |OnInterval(clients, clients[c].sym, clients[c].iv)| > 0
  {
    assert c in OnInterval(clients, clients[c].sym, clients[c].iv);
  }

  lemma StepKeepsCounts(s: State, c: nat, act: Action, s': State)
    requires Counted(s) && Step(s, c, act, s')
    ensures Counted(s')
  {
    hide StreamCounted, IntervalCounted, TotalCounted, NoIdleEntries, Step;
    forall sym ensures StreamCounted(s', sym) {
      StreamKept(s, c, act, s', sym);
    }
    forall sym, iv ensures IntervalCounted(s', sym, iv) {
      IntervalKept(s, c, act, s', sym, iv);
    }
    forall sym ensures TotalCounted(s', sym) {
      IntervalKept(s, c, act, s', sym, M1);
    }
    EntriesKept(s, c, act, s');
  }

  /** Under every interleaving the counts are the numbers of clients past the
      corresponding increment and not past the corresponding decrement. */
  lemma {:induction false} CountsAreClients(s: State, n: nat)
    requires Reachable(s, n)
    ensures Counted(s)
    decreases n
  {
    hide Counted, Step;
    if n == 0 {
      NobodyCounted(s);
    } else {
      var p, c, act :| Reachable(p, n - 1) && Step(p, c, act, s);
      CountsAreClients(p, n - 1);
      StepKeepsCounts(p, c, act, s);
    }
  }

  lemma NobodyCounted(s: State)
    requires s.subs == map[] && s.streams == map[] && s.clients == map[]
    ensures Counted(s)
  {
    assert forall sym :: OnStream(s.clients, sym) == {} && OnSymbol(s.clients, sym) == {};
    assert forall sym, iv :: OnInterval(s.clients, sym, iv) == {};
  }

  /** No call is half-way. */
  ghost predicate Quiescent(s: State) {
    forall c :: c in s.clients ==> s.clients[c].In?
  }

  /** The two maps agree: a stream's count is the sum of its symbol's interval
      counts, and the stream exists exactly when that sum is positive. */
  ghost predicate Agree(subs: Intervals, streams: Streams) {
    forall sym ::
      && StreamCount(streams, sym) == SumOver(CountsOf(subs, sym))
      && (sym in streams <==> SumOver(CountsOf(subs, sym)) > 0)
  }

  /** Whenever no call is half-way, the two maps agree. */
  lemma QuiescentMapsAgree(s: State, n: nat)
    requires Reachable(s, n) && Quiescent(s)
    ensures Agree(s.subs, s.streams)
  {
    hide SumOver, Reachable;
    CountsAreClients(s, n);
    forall sym ensures OnStream(s.clients, sym) == OnSymbol(s.clients, sym) {
    }
    forall sym
      ensures StreamCount(s.streams, sym) == SumOver(CountsOf(s.subs, sym))
      ensures sym in s.streams <==> SumOver(CountsOf(s.subs, sym)) > 0
    {
      assert StreamCounted(s, sym) && TotalCounted(s, sym);
    }
  }

  lemma {:induction false} PositiveSum<K>(m: map<K, int>)
    requires forall k :: k in m ==> m[k] > 0
    ensures SumOver(m) >= |m|
    decreases |m|
  {
    if m != map[] {
      var k := Pick(m.Keys);
      PositiveSum(m - {k});
      assert m.Keys == (m - {k}).Keys + {k};
      SumWithout(m, k);
    }
  }

  /** A subscribed interval makes its symbol's sum positive. */
  lemma SubscribedSum(subs: Intervals, sym: Symbol, iv: Interval)
    requires NoIdleEntries(subs) && RefCount(subs, sym, iv) > 0
    ensures SumOver(CountsOf(subs, sym)) > 0
  {
    var m := CountsOf(subs, sym);
    forall k | k in m ensures m[k] > 0 {
      assert RefCount(subs, sym, k) == m[k];
    }
    PositiveSum(m);
    assert iv in m.Keys;
  }

  /** An unsubscribe of a subscribed interval keeps the maps in agreement. */
  lemma MatchedUnsubscribe(subs: Intervals, streams: Streams, sym: Symbol, iv: Interval)
    requires Agree(subs, streams) && NoIdleEntries(subs) && RefCount(subs, sym, iv) > 0
    ensures Agree(RemoveInterval(subs, sym, iv), RemoveStream(streams, sym))
  {
    hide SumOver, RemoveInterval, NoIdleEntries, CountsOf, RefCount;
    SubscribedSum(subs, sym, iv);
    var subs', streams' := RemoveInterval(subs, sym, iv), RemoveStream(streams, sym);
    forall x
      ensures StreamCount(streams', x) == SumOver(CountsOf(subs', x))
      ensures x in streams' <==> SumOver(CountsOf(subs', x)) > 0
    {
      CountsAfterRemove(subs, sym, iv, x, iv);
      assert StreamCount(streams, x) == SumOver(CountsOf(subs, x));
      assert x in streams <==> SumOver(CountsOf(subs, x)) > 0;
    }
  }

  /** An unsubscribe that nobody subscribed for leaves the intervals alone. */
  lemma UnmatchedUnsubscribe(subs: Intervals, streams: Streams, sym: Symbol, iv: Interval)
    requires Agree(subs, streams) && RefCount(subs, sym, iv) <= 0
    ensures Agree(RemoveInterval(subs, sym, iv), RemoveStream(streams, sym)) <==> sym !in streams
  {
    hide SumOver, CountsOf;
    var streams' := RemoveStream(streams, sym);
    assert StreamCount(streams, sym) == SumOver(CountsOf(subs, sym));
    assert sym in streams ==> StreamCount(streams', sym) == streams[sym] - 1;
    if sym in streams {
      assert StreamCount(streams', sym) != SumOver(CountsOf(subs, sym));
    }
  }

  /** From agreeing maps, an unsubscribe of any symbol and interval keeps them
      agreeing exactly when that interval was subscribed or the symbol has no
      stream: an unsubscribe that nobody subscribed for takes a reference that
      belongs to another interval. */
  lemma UnsubscribeExactly(subs: Intervals, streams: Streams, sym: Symbol, iv: Interval)
    requires Agree(subs, streams) && NoIdleEntries(subs)
    ensures Agree(RemoveInterval(subs, sym, iv), RemoveStream(streams, sym)) <==>
            RefCount(subs, sym, iv) > 0 || sym !in streams
  {
    hide Agree, NoIdleEntries, RemoveInterval, RemoveStream, RefCount;
    if RefCount(subs, sym, iv) > 0 {
      MatchedUnsubscribe(subs, streams, sym, iv);
    } else {
      UnmatchedUnsubscribe(subs, streams, sym, iv);
    }
  }

  /** One client watches iv; a stray unsubscribe of another interval of the same
      symbol removes the stream from under it. */
  lemma StrayUnsubscribe(sym: Symbol, iv: Interval, other: Interval, s: State)
    requires other != iv
    requires s == State(map[sym := map[iv := 1]], map[sym := 1], map[0 := In(sym, iv)])
    ensures Reachable(s, 2) && Quiescent(s)
    ensures RefCount(RemoveInterval(s.subs, sym, other), sym, iv) == 1
    ensures sym !in RemoveStream(s.streams, sym)
  {
    var s0 := INITIAL;
    var s1 := State(map[sym := map[iv := 1]], map[], map[0 := HalfIn(sym, iv)]);
    assert s1.subs == AddInterval(s0.subs, sym, iv);
    assert Reachable(s0, 0);
    assert Step(s0, 0, BeginSubscribe(sym, iv), s1);
    assert Reachable(s1, 1);
    assert Step(s1, 0, EndSubscribe, s);
  }
}
