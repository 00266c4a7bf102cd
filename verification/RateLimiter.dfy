/** Adaptive backoff and subscription batching of
    internal/services/aggregator/rate_limiter.go. Durations and times are in
    nanoseconds; the clock reading is a parameter. */
module RateLimiter {
  import opened Candles

  const SECOND := 1_000_000_000
  const MAX_BACKOFF := 300 * SECOND

  // --------------------------------------------------------------- backoff

  /** float64(d) * 1.5, truncated and capped. */
  function Raised(d: nat): nat {
    if d == 0 then SECOND else Min(d * 3 / 2, MAX_BACKOFF)
  }

  /** float64(d) * 0.9, truncated, and zero below a second. */
  function Lowered(d: nat): nat {
    var e := d * 9 / 10;
    if e < SECOND then 0 else e
  }

  predicate InRange(d: nat) {
    d == 0 || SECOND <= d <= MAX_BACKOFF
  }

  /** Whether backoff d after the last hit refuses a request: from that hit until d later. */
  predicate Refuses(d: nat, lastHit: int, now: int) {
    d > 0 && now < lastHit + d
  }

  class ExchangeRateLimiter {
    var backoffDuration: nat
    var lastRateLimitHit: int
    var rateLimitHits: nat
    var requestCount: nat

    ghost predicate Valid()
      reads this
    {
      InRange(backoffDuration)
    }

    constructor (never: int)
      ensures Valid() && backoffDuration == 0 && lastRateLimitHit == never
      ensures rateLimitHits == 0 && requestCount == 0
    {
      backoffDuration, lastRateLimitHit, rateLimitHits, requestCount := 0, never, 0, 0;
    }

    /** `Allow`; `token` is the answer of the token bucket. Backoff never refuses
        later than five minutes after the last hit. */
    method Allow(now: int, token: bool) returns (allowed: bool)
      requires Valid()
      ensures allowed <==> token && !Refuses(backoffDuration, lastRateLimitHit, now)
      ensures now - lastRateLimitHit >= MAX_BACKOFF ==> allowed == token
    {
      if backoffDuration > 0 && now - lastRateLimitHit < backoffDuration {
        return false;
      }
      return token;
    }

    /** `RecordRateLimitHit`: a second at first, then half as much again, rounded
        down, up to five minutes. Until that much later every request is refused. */
    method RecordRateLimitHit(now: int)
      requires Valid()
      modifies this
      ensures Valid()
      ensures lastRateLimitHit == now
      ensures old(backoffDuration) == 0 ==> backoffDuration == 1_000_000_000
      ensures old(backoffDuration) > 0 ==>
                if 3 * old(backoffDuration) >= 2 * 300_000_000_000 then backoffDuration == 300_000_000_000
                else 2 * backoffDuration <= 3 * old(backoffDuration) < 2 * backoffDuration + 2
      ensures forall later :: later < now + backoffDuration ==> Refuses(backoffDuration, lastRateLimitHit, later)
      ensures backoffDuration == AfterEvent(old(backoffDuration), old(lastRateLimitHit), Hit(now))
      ensures lastRateLimitHit == LastHit(old(lastRateLimitHit), Hit(now))
      ensures rateLimitHits == old(rateLimitHits) + 1 && requestCount == old(requestCount)
    {
      rateLimitHits := rateLimitHits + 1;
      lastRateLimitHit := now;
      if backoffDuration == 0 {
        backoffDuration := SECOND;
      } else {
        backoffDuration := backoffDuration * 3 / 2;
        if backoffDuration > MAX_BACKOFF {
          backoffDuration := MAX_BACKOFF;
        }
      }
    }

    /** `RecordSuccess`: no backoff later than five minutes after the last hit,
        before that a tenth less, rounded down, and none below a second. */
    method RecordSuccess(now: int)
      requires Valid()
      modifies this
      ensures Valid()
      ensures now - old(lastRateLimitHit) > 300_000_000_000 ==> backoffDuration == 0
      ensures now - old(lastRateLimitHit) <= 300_000_000_000 ==>
                if 9 * old(backoffDuration) < 10 * 1_000_000_000 then backoffDuration == 0
                else 10 * backoffDuration <= 9 * old(backoffDuration) < 10 * backoffDuration + 10
      ensures lastRateLimitHit == old(lastRateLimitHit)
      ensures backoffDuration == AfterEvent(old(backoffDuration), old(lastRateLimitHit), Success(now))
      ensures lastRateLimitHit == LastHit(old(lastRateLimitHit), Success(now))
      ensures requestCount == old(requestCount) + 1 && rateLimitHits == old(rateLimitHits)
    {
      requestCount := requestCount + 1;
      if backoffDuration > 0 {
        if now - lastRateLimitHit > 300 * SECOND {
          backoffDuration := 0;
        } else {
          backoffDuration := backoffDuration * 9 / 10;
          if backoffDuration < SECOND {
            backoffDuration := 0;
          }
        }
      }
    }
  }

  datatype Event = Hit(now: int) | Success(now: int)

  function AfterEvent(d: nat, lastHit: int, e: Event): nat {
    match e
    case Hit(_) => Raised(d)
    case Success(now) => if now - lastHit > 300 * SECOND then 0 else Lowered(d)
  }

  function LastHit(lastHit: int, e: Event): int {
    if e.Hit? then e.now else lastHit
  }

  /** After a hit every request is refused until the new backoff, at least a
      second, has passed, and no request later. */
  lemma HitIsFollowedByRefusal(d: nat, lastHit: int, t: int, now: int)
    requires InRange(d)
    ensures var d' := AfterEvent(d, lastHit, Hit(t));
            && 1_000_000_000 <= d' <= 300_000_000_000
            && (Refuses(d', LastHit(lastHit, Hit(t)), now) <==> now < t + d')
  {
  }

  /** The backoff after a run of events, starting from d. */
  function Backoff(d: nat, lastHit: int, events: seq<Event>): nat
    decreases |events|
  {
    if events == [] then d
    else Backoff(AfterEvent(d, lastHit, events[0]), LastHit(lastHit, events[0]), events[1..])
  }

  /** After every run the backoff is zero or between a second and five minutes. */
  lemma {:induction false} BackoffInRange(d: nat, lastHit: int, events: seq<Event>)
    requires InRange(d)
    ensures InRange(Backoff(d, lastHit, events))
    decreases |events|
  {
    if events != [] {
      BackoffInRange(AfterEvent(d, lastHit, events[0]), LastHit(lastHit, events[0]), events[1..]);
    }
  }

  /** k successes in a row without the five-minute reset. */
  function Decay(d: nat, k: nat): nat
    decreases k
  {
    if k == 0 then d else Decay(Lowered(d), k - 1)
  }

  lemma {:induction false} DecayMonotone(d: nat, e: nat, k: nat)
    requires d <= e
    ensures Decay(d, k) <= Decay(e, k)
    decreases k
  {
    if k > 0 {
      DecayMonotone(Lowered(d), Lowered(e), k - 1);
    }
  }

  ghost predicate AllSuccesses(events: seq<Event>) {
    forall i :: 0 <= i < |events| ==> events[i].Success?
  }

  /** Successes lower the backoff at least as fast as decay alone. */
  lemma {:induction false} SuccessesDecay(d: nat, lastHit: int, events: seq<Event>)
    requires AllSuccesses(events)
    ensures Backoff(d, lastHit, events) <= Decay(d, |events|)
    decreases |events|
  {
    if events != [] {
      var next := AfterEvent(d, lastHit, events[0]);
      SuccessesDecay(next, lastHit, events[1..]);
      DecayMonotone(next, Lowered(d), |events| - 1);
    }
  }

  lemma {:induction false} DecayLonger(d: nat, j: nat, k: nat)
    requires Decay(d, j) == 0
    ensures Decay(d, j + k) == 0
    decreases j, k
  {
    if j > 0 {
      DecayLonger(Lowered(d), j - 1, k);
    } else if k > 0 {
      DecayLonger(0, 0, k - 1);
    }
  }

  lemma {:induction false} DecaySplit(d: nat, j: nat, k: nat)
    ensures Decay(d, j + k) == Decay(Decay(d, j), k)
    decreases j
  {
    if j > 0 {
      DecaySplit(Lowered(d), j - 1, k);
    }
  }

  /** Five successes scale the backoff by 0.9^5, up to truncation. */
  lemma FiveSuccesses(d: nat)
    requires d >= 2 * SECOND
    ensures d * 59049 - 500000 <= Decay(d, 5) * 100000 <= d * 59049
  {
    hide Decay, Lowered;
    var d1 := DecayOnce(d, 5);
    var d2 := DecayOnce(d1, 4);
    var d3 := DecayOnce(d2, 3);
    var d4 := DecayOnce(d3, 2);
    var d5 := DecayOnce(d4, 1);
    NoDecay(d5);
  }

  lemma NoDecay(d: nat)
    ensures Decay(d, 0) == d
  {
  }

  lemma DecayOnce(d: nat, k: nat) returns (e: nat)
    requires k > 0
    ensures Decay(d, k) == Decay(e, k - 1)
    ensures if d * 9 < 10 * SECOND then e == 0 else d * 9 - 10 < e * 10 <= d * 9
  {
    e := Lowered(d);
  }

  lemma FiveMore(d: nat, k: nat)
    requires Decay(d, k) >= 2 * SECOND
    ensures Decay(d, k) * 59049 - 500000 <= Decay(d, k + 5) * 100000 <= Decay(d, k) * 59049
  {
    hide Decay;
    DecaySplit(d, k, 5);
    FiveSuccesses(Decay(d, k));
  }

  lemma LastFive(d: nat)
    requires 1_546_000_000 <= d <= 1_547_000_000
    ensures Decay(d, 4) > 0 && Decay(d, 5) == 0
  {
    hide Decay, Lowered;
    var d1 := DecayOnce(d, 5);
    var d2 := DecayOnce(d1, 4);
    var d3 := DecayOnce(d2, 3);
    var d4 := DecayOnce(d3, 2);
    var d5 := DecayOnce(d4, 1);
    NoDecay(d5);
    var e1 := DecayOnce(d, 4);
    var e2 := DecayOnce(e1, 3);
    var e3 := DecayOnce(e2, 2);
    var e4 := DecayOnce(e3, 1);
    NoDecay(e4);
  }

  /** From five minutes, decay takes 55 successes and not fewer. */
  lemma DecayOfMaximum(d: nat)
    requires d == MAX_BACKOFF
    ensures Decay(d, 55) == 0
    ensures Decay(d, 54) > 0
  {
    hide Decay;
    NoDecay(d);
    FiveMore(d, 0);
    FiveMore(d, 5);
    FiveMore(d, 10);
    FiveMore(d, 15);
    FiveMore(d, 20);
    FiveMore(d, 25);
    FiveMore(d, 30);
    FiveMore(d, 35);
    FiveMore(d, 40);
    FiveMore(d, 45);
    LastFive(Decay(d, 50));
    DecaySplit(d, 50, 4);
    DecaySplit(d, 50, 5);
  }

  /** From any state that occurs, 55 successes in a row, at whatever times, end the backoff. */
  lemma SuccessesEndBackoff(d: nat, lastHit: int, events: seq<Event>)
    requires InRange(d) && AllSuccesses(events) && |events| >= 55
    ensures Backoff(d, lastHit, events) == 0
  {
    hide Backoff, Decay;
    var top := MAX_BACKOFF;
    SuccessesDecay(d, lastHit, events);
    DecayMonotone(d, top, |events|);
    DecayOfMaximum(top);
    DecayLonger(top, 55, |events| - 55);
  }

  lemma {:induction false} PromptSuccesses(d: nat, lastHit: int, events: seq<Event>)
    requires AllSuccesses(events)
    requires forall i :: 0 <= i < |events| ==> events[i].now - lastHit <= 300 * SECOND
    ensures Backoff(d, lastHit, events) == Decay(d, |events|)
    decreases |events|
  {
    if events != [] {
      PromptSuccesses(Lowered(d), lastHit, events[1..]);
    }
  }

  /** Fewer successes do not always suffice: 54 within five minutes of the hit leave some backoff. */
  lemma FewerDoNot(lastHit: int, events: seq<Event>)
    requires AllSuccesses(events) && |events| <= 54
    requires forall i :: 0 <= i < |events| ==> events[i].now - lastHit <= 300 * SECOND
    ensures Backoff(MAX_BACKOFF, lastHit, events) > 0
  {
    hide Backoff, Decay;
    var top, k := MAX_BACKOFF, |events|;
    PromptSuccesses(top, lastHit, events);
    DecayOfMaximum(top);
    if Decay(top, k) == 0 {
      DecayLonger(top, k, 54 - k);
      assert false;
    }
  }

  // --------------------------------------------------------------- the subscription batcher

  datatype Request = Request(exchange: string, symbol: string, interval: string, priority: int)

  function Key(r: Request): string { r.symbol + "@" + r.interval }

  function KeysOf(rs: seq<Request>): set<string> {
    set i | 0 <= i < |rs| :: Key(rs[i])
  }

  /** r is the first of the requests with key k that has the highest priority among them. */
  ghost predicate IsFirstBest(rs: seq<Request>, k: string, r: Request) {
    exists i ::
      && 0 <= i < |rs| && rs[i] == r && Key(r) == k
      && (forall j :: 0 <= j < i && Key(rs[j]) == k ==> rs[j].priority < r.priority)
      && (forall j :: i < j < |rs| && Key(rs[j]) == k ==> rs[j].priority <= r.priority)
  }

  /** There is at most one such request. */
  lemma FirstBestIsUnique(rs: seq<Request>, k: string, r: Request, r': Request)
    requires IsFirstBest(rs, k, r) && IsFirstBest(rs, k, r')
    ensures r == r'
  {
  }

  /** The pending map holds, for each key requested, the first request of highest priority. */
  ghost predicate Holds(requests: map<string, Request>, added: seq<Request>) {
    && requests.Keys == KeysOf(added)
    && forall k :: k in requests ==> IsFirstBest(added, k, requests[k])
  }

  /** The batch has one request per key in some order, the first of highest priority. */
  ghost predicate Dedupes(batch: seq<Request>, added: seq<Request>) {
    && (forall i, j :: 0 <= i < j < |batch| ==> Key(batch[i]) != Key(batch[j]))
    && KeysOf(batch) == KeysOf(added)
    && (forall i :: 0 <= i < |batch| ==> IsFirstBest(added, Key(batch[i]), batch[i]))
  }

  /** Two requests have the same key exactly when they name the same symbol and
      interval, for intervals without an at sign. */
  lemma KeysByPair(r: Request, q: Request)
    requires '@' !in r.interval && '@' !in q.interval
    ensures Key(r) == Key(q) <==> r.symbol == q.symbol && r.interval == q.interval
  {
    var x, y := Key(r), Key(q);
    if x == y {
      assert x[|r.symbol|] == '@' && y[|q.symbol|] == '@';
      assert forall i :: |r.symbol| < i < |x| ==> x[i] == r.interval[i - |r.symbol| - 1];
      assert forall i :: |q.symbol| < i < |y| ==> y[i] == q.interval[i - |q.symbol| - 1];
      assert |r.symbol| == |q.symbol|;
      assert r.symbol == x[..|r.symbol|] && q.symbol == y[..|q.symbol|];
      assert r.interval == x[|r.symbol| + 1..] && q.interval == y[|q.symbol| + 1..];
    }
  }

  ghost predicate SamePair(r: Request, q: Request) {
    r.symbol == q.symbol && r.interval == q.interval
  }

  ghost predicate PlainIntervals(rs: seq<Request>) {
    forall i :: 0 <= i < |rs| ==> '@' !in rs[i].interval
  }

  /** r is the first request of highest priority among those for its symbol and interval. */
  ghost predicate IsFirstBestOfPair(rs: seq<Request>, r: Request) {
    exists i ::
      && 0 <= i < |rs| && rs[i] == r
      && (forall j :: 0 <= j < i && SamePair(rs[j], r) ==> rs[j].priority < r.priority)
      && (forall j :: i < j < |rs| && SamePair(rs[j], r) ==> rs[j].priority <= r.priority)
  }

  ghost predicate HasPair(rs: seq<Request>, r: Request) {
    exists j :: 0 <= j < |rs| && SamePair(rs[j], r)
  }

  /** The batch has exactly one request per symbol and interval requested, the
      first of highest priority. */
  ghost predicate DedupesPairs(batch: seq<Request>, added: seq<Request>) {
    && (forall i, j :: 0 <= i < j < |batch| ==> !SamePair(batch[i], batch[j]))
    && (forall i :: 0 <= i < |added| ==> HasPair(batch, added[i]))
    && (forall i :: 0 <= i < |batch| ==> IsFirstBestOfPair(added, batch[i]))
  }

  lemma FirstBestOfPair(rs: seq<Request>, r: Request)
    requires IsFirstBest(rs, Key(r), r) && PlainIntervals(rs)
    ensures IsFirstBestOfPair(rs, r) && '@' !in r.interval
  {
    var i :| 0 <= i < |rs| && rs[i] == r
      && (forall j :: 0 <= j < i && Key(rs[j]) == Key(r) ==> rs[j].priority < r.priority)
      && (forall j :: i < j < |rs| && Key(rs[j]) == Key(r) ==> rs[j].priority <= r.priority);
    hide Key;
    forall j | 0 <= j < |rs| ensures Key(rs[j]) == Key(r) <==> SamePair(rs[j], r) {
      KeysByPair(rs[j], r);
    }
  }

  lemma RequestedPair(batch: seq<Request>, added: seq<Request>, i: int)
    requires KeysOf(batch) == KeysOf(added) && PlainIntervals(added) && PlainIntervals(batch) && 0 <= i < |added|
    ensures HasPair(batch, added[i])
  {
    hide Key;
    var k := Key(added[i]);
    assert k in KeysOf(added);
    assert k in KeysOf(batch);
    var j :| 0 <= j < |batch| && Key(batch[j]) == k;
    KeysByPair(batch[j], added[i]);
    assert SamePair(batch[j], added[i]);
  }

  /** Deduplicating by key is deduplicating by symbol and interval. */
  lemma DedupesByPair(batch: seq<Request>, added: seq<Request>)
    requires Dedupes(batch, added) && PlainIntervals(added)
    ensures DedupesPairs(batch, added)
  {
    hide Key, KeysOf, IsFirstBest, IsFirstBestOfPair;
    forall i | 0 <= i < |batch| ensures IsFirstBestOfPair(added, batch[i]) && '@' !in batch[i].interval {
      FirstBestOfPair(added, batch[i]);
    }
    forall i, j | 0 <= i < j < |batch| ensures !SamePair(batch[i], batch[j]) {
      KeysByPair(batch[i], batch[j]);
    }
    forall i | 0 <= i < |added| ensures HasPair(batch, added[i]) {
      RequestedPair(batch, added, i);
    }
  }

  class SubscriptionBatcher {
    var requests: map<string, Request>
    const maxBatchSize: int
    /** The requests added since the last flush. */
    ghost var added: seq<Request>

    ghost predicate Valid()
      reads this
    {
      && Holds(requests, added)
      && |requests| < Max(1, maxBatchSize)
    }

    constructor (maxSize: int)
      ensures Valid() && added == [] && maxBatchSize == maxSize
    {
      requests, maxBatchSize, added := map[], maxSize, [];
    }

    /** `Add`; the batch, if any, is what is given to the callback. */
    method Add(req: Request) returns (batch: Option<seq<Request>>)
      requires Valid()
      modifies this
      ensures Valid()
      ensures batch.Some? <==> Key(req) !in KeysOf(old(added)) && |KeysOf(old(added))| + 1 >= maxBatchSize
      ensures batch.Some? ==> Dedupes(batch.value, old(added) + [req]) && added == []
      ensures batch.Some? && PlainIntervals(old(added) + [req]) ==> DedupesPairs(batch.value, old(added) + [req])
      ensures batch.None? ==> added == old(added) + [req]
    {
      hide IsFirstBest, KeysOf, DedupesPairs, PlainIntervals;
      var key := Key(req);
      HoldsAppend(requests, added, req);
      if key in requests {
        var existing := requests[key];
        if req.priority > existing.priority {
          requests := requests[key := req];
        }
        added := added + [req];
        return None;
      }
      requests := requests[key := req];
      added := added + [req];
      if |requests| >= maxBatchSize {
        batch := FlushLocked();
      } else {
        batch := None;
      }
    }

    method FlushLocked() returns (batch: Option<seq<Request>>)
      requires Holds(requests, added)
      modifies this
      ensures Valid()
      ensures added == []
      ensures batch.Some? <==> old(added) != []
      ensures batch.Some? ==> Dedupes(batch.value, old(added))
      ensures batch.Some? && PlainIntervals(old(added)) ==> DedupesPairs(batch.value, old(added))
    {
      hide IsFirstBest, KeysOf, DedupesPairs, PlainIntervals;
      NoKeys(added);
      if |requests| == 0 {
        return None;
      }
      var out := Values(requests, added);
      if PlainIntervals(added) {
        DedupesByPair(out, added);
      }
      requests, added := map[], [];
      NoKeys(added);
      batch := Some(out);
    }
  }

  /** The loop of `flushLocked` over the pending map, in any order. */
  method Values(requests: map<string, Request>, ghost added: seq<Request>) returns (batch: seq<Request>)
    requires Holds(requests, added)
    ensures Dedupes(batch, added)
  {
    hide IsFirstBest, KeysOf;
    batch := [];
    NoKeys(batch);
    var keys := requests.Keys;
    while keys != {}
      invariant keys <= requests.Keys
      invariant KeysOf(batch) == requests.Keys - keys
      invariant forall i :: 0 <= i < |batch| ==> Key(batch[i]) in KeysOf(batch)
      invariant forall i :: 0 <= i < |batch| ==> IsFirstBest(added, Key(batch[i]), batch[i])
      invariant forall i, j :: 0 <= i < j < |batch| ==> Key(batch[i]) != Key(batch[j])
      decreases |keys|
    {
      var k := NextKey(keys);
      assert Key(requests[k]) == k by { KeyOfBest(added, k, requests[k]); }
      KeysAppend(batch, requests[k]);
      batch := batch + [requests[k]];
      keys := keys - {k};
    }
  }

  lemma KeyOfBest(rs: seq<Request>, k: string, r: Request)
    requires IsFirstBest(rs, k, r)
    ensures Key(r) == k
  {
  }

  lemma NoKeys(rs: seq<Request>)
    ensures KeysOf(rs) == {} <==> rs == []
  {
    if rs != [] {
      assert Key(rs[0]) in KeysOf(rs);
    }
  }

  lemma KeysAppend(rs: seq<Request>, r: Request)
    ensures KeysOf(rs + [r]) == KeysOf(rs) + {Key(r)}
  {
    forall k | k in KeysOf(rs) + {Key(r)} ensures k in KeysOf(rs + [r]) {
      if k == Key(r) {
        assert (rs + [r])[|rs|] == r;
      } else {
        var i :| 0 <= i < |rs| && k == Key(rs[i]);
        assert (rs + [r])[i] == rs[i];
      }
    }
  }

  /** A request with another key changes nothing for k. */
  lemma OtherKey(rs: seq<Request>, k: string, r: Request, x: Request)
    requires IsFirstBest(rs, k, x) && Key(r) != k
    ensures IsFirstBest(rs + [r], k, x)
  {
    var i :| 0 <= i < |rs| && rs[i] == x && Key(x) == k
      && (forall j :: 0 <= j < i && Key(rs[j]) == k ==> rs[j].priority < x.priority)
      && (forall j :: i < j < |rs| && Key(rs[j]) == k ==> rs[j].priority <= x.priority);
    var rs' := rs + [r];
    assert rs'[i] == x;
  }

  /** A request with key k replaces the best so far exactly when its priority is higher. */
  lemma SameKey(rs: seq<Request>, r: Request, x: Request)
    requires IsFirstBest(rs, Key(r), x)
    ensures IsFirstBest(rs + [r], Key(r), if r.priority > x.priority then r else x)
  {
    var k := Key(r);
    var i :| 0 <= i < |rs| && rs[i] == x && Key(x) == k
      && (forall j :: 0 <= j < i && Key(rs[j]) == k ==> rs[j].priority < x.priority)
      && (forall j :: i < j < |rs| && Key(rs[j]) == k ==> rs[j].priority <= x.priority);
    var rs' := rs + [r];
    assert rs'[i] == x && rs'[|rs|] == r;
  }

  lemma NewKey(rs: seq<Request>, r: Request)
    requires Key(r) !in KeysOf(rs)
    ensures IsFirstBest(rs + [r], Key(r), r)
  {
    var rs' := rs + [r];
    assert rs'[|rs|] == r;
    forall j | 0 <= j < |rs| ensures Key(rs'[j]) != Key(r) {
      assert Key(rs[j]) in KeysOf(rs);
    }
  }

  /** The map after `Add`: a new key is entered, and a known key is replaced only
      by a strictly higher priority. */
  function Put(requests: map<string, Request>, r: Request): map<string, Request> {
    if Key(r) in requests && r.priority <= requests[Key(r)].priority then requests
    else requests[Key(r) := r]
  }

  lemma HoldsAppend(requests: map<string, Request>, added: seq<Request>, r: Request)
    requires Holds(requests, added)
    ensures Holds(Put(requests, r), added + [r])
  {
    hide IsFirstBest, KeysOf;
    var requests' := Put(requests, r);
    KeysAppend(added, r);
    assert requests'.Keys == requests.Keys + {Key(r)};
    forall k | k in requests' ensures IsFirstBest(added + [r], k, requests'[k]) {
      if k != Key(r) {
        OtherKey(added, k, r, requests[k]);
      } else if k in requests {
        SameKey(added, r, requests[k]);
      } else {
        NewKey(added, r);
      }
    }
  }
}
