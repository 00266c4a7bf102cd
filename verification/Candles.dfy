/** The candle record shared by every component (internal/models/candle.go), its
    decimal arithmetic, and the interval names.

    A decimal is an `int` counting units of 10^-16, the precision at which the
    decimal library rounds a quotient; addition, subtraction and comparison are
    exact on that grid. A time is a number of seconds since 1970-01-01 UTC. */
module Candles {

  datatype Option<+T> = None | Some(value: T)

  /** The interval names the program recognises. `Other` holds any further
      name, which the `switch` statements send to their default case. */
  datatype Interval =
    | S1 | M1 | M3 | M5 | M15 | M30
    | H1 | H2 | H4 | H6 | H8 | H12
    | D1 | D3 | W1 | Mo1
    | Other(name: string)

  datatype Source = Aggregated | FromExchange(name: string)

  datatype Candle = Candle(
    symbol: string,
    interval: Interval,
    openTime: int,
    closeTime: int,
    open: int,
    high: int,
    low: int,
    close: int,
    volume: int,
    quoteVolume: int,
    tradeCount: int,
    source: Source,
    isClosed: bool)

  /** A 1m candle as the exchanges deliver it, opening in 1970 or later. */
  type MinuteCandle = c: Candle | c.openTime >= 0
    witness Candle("", M1, 0, 60, 0, 0, 0, 0, 0, 0, 0, Aggregated, false)

  /** A symbol and interval, under which candles are published. */
  datatype Channel = Channel(symbol: string, interval: Interval)

  /** A candle pointer: its arrival number stands for its identity. */
  datatype Arrival = Arrival(id: nat, candle: MinuteCandle)

  /** Some element of a nonempty set. */
  ghost function Pick<T>(s: set<T>): (x: T)
    requires s != {}
    ensures x in s
  {
    var x :| x in s;
    x
  }

  /** The next key of a map iteration, whose order Go leaves unspecified. */
  method NextKey<T(==)>(keys: set<T>) returns (k: T)
    requires keys != {}
    ensures k in keys
  {
    k :| k in keys;
  }

  function Max(x: int, y: int): int { if x > y then x else y }

  function Min(x: int, y: int): int { if x < y then x else y }

  /** Multiples of d are at least d apart. */
  lemma GridOrder(p: int, q: int, d: int)
    requires d > 0
    ensures p < q ==> p * d + d <= q * d
  {
    if p < q {
      var k := q - p - 1;
      assert q * d == (p + 1 + k) * d == p * d + d + k * d;
    }
  }
}
