/** The string keys of the aggregator's maps,
    internal/services/aggregator/interval_aggregator.go: entries are stored under
    "symbol:interval:opentime" and found by the prefix "symbol:interval:". */
module MapKeys {
  import opened Candles
  import opened TimeWindows

  // --------------------------------------------------------------- names and numbers as strings

  function IntervalName(iv: Interval): string {
    match iv
    case S1 => "1s"
    case M1 => "1m"
    case M3 => "3m"
    case M5 => "5m"
    case M15 => "15m"
    case M30 => "30m"
    case H1 => "1h"
    case H2 => "2h"
    case H4 => "4h"
    case H6 => "6h"
    case H8 => "8h"
    case H12 => "12h"
    case D1 => "1d"
    case D3 => "3d"
    case W1 => "1w"
    case Mo1 => "1M"
    case Other(name) => name
  }

  /** The derived interval that a name stands for. */
  function DerivedNamed(name: string): Option<Interval> {
    if |name| == 2 then
      if name[1] == 'm' then (if name[0] == '3' then Some(M3) else if name[0] == '5' then Some(M5) else None)
      else if name[1] == 'h' then
        (if name[0] == '1' then Some(H1) else if name[0] == '2' then Some(H2) else if name[0] == '4' then Some(H4)
         else if name[0] == '6' then Some(H6) else if name[0] == '8' then Some(H8) else None)
      else if name[1] == 'd' then (if name[0] == '1' then Some(D1) else if name[0] == '3' then Some(D3) else None)
      else if name == "1w" then Some(W1)
      else if name == "1M" then Some(Mo1)
      else None
    else if name == "15m" then Some(M15)
    else if name == "30m" then Some(M30)
    else if name == "12h" then Some(H12)
    else None
  }

  /** Derived intervals have different names, without colons. */
  lemma NamesDiffer(iv: Interval)
    requires Derived(iv)
    ensures DerivedNamed(IntervalName(iv)) == Some(iv) && ':' !in IntervalName(iv)
  {
  }

  function Digit(n: nat): char
    requires n < 10
  {
    '0' + n as char
  }

  function Digits(n: nat): string {
    if n < 10 then [Digit(n)] else Digits(n / 10) + [Digit(n % 10)]
  }

  /** The `%d` format. */
  function Decimal(n: int): string {
    if n < 0 then "-" + Digits(-n) else Digits(n)
  }

  /** The number that a string of digits stands for. */
  function Number(s: string): int {
    if s == "" then 0 else 10 * Number(s[..|s| - 1]) + (s[|s| - 1] as int - '0' as int)
  }

  predicate IsDigit(c: char) { '0' <= c <= '9' }

  lemma {:induction false} DigitsShape(n: nat)
    ensures Digits(n) != "" && forall i :: 0 <= i < |Digits(n)| ==> IsDigit(Digits(n)[i])
  {
    if n >= 10 {
      DigitsShape(n / 10);
    }
  }

  /** The digits of a number stand for it. */
  lemma {:induction false} NumberOfDigits(n: nat)
    ensures Number(Digits(n)) == n
  {
    var s := Digits(n);
    if n >= 10 {
      NumberOfDigits(n / 10);
      assert s[..|s| - 1] == Digits(n / 10);
    }
  }

  lemma DecimalShape(n: int)
    ensures Decimal(n) != "" && ':' !in Decimal(n)
    ensures Decimal(n)[0] == '-' <==> n < 0
  {
    hide Digits;
    DigitsShape(if n < 0 then -n else n);
  }

  lemma DecimalInjective(a: int, b: int)
    requires Decimal(a) == Decimal(b)
    ensures a == b
  {
    hide Digits;
    DecimalShape(a);
    DecimalShape(b);
    if a < 0 {
      assert Decimal(a)[1..] == Digits(-a) && Decimal(b)[1..] == Digits(-b);
    }
    NumberOfDigits(if a < 0 then -a else a);
    NumberOfDigits(if b < 0 then -b else b);
  }

  /** The seconds that the name of an interval stands for: a number and a unit. */
  function NamedLength(name: string): int
    requires name != ""
  {
    var unit := name[|name| - 1];
    Number(name[..|name| - 1]) *
    (if unit == 's' then 1 else if unit == 'm' then 60 else if unit == 'h' then 3600
     else if unit == 'd' then 86400 else if unit == 'w' then 604800 else 30 * 86400)
  }

  lemma TwoLetters(name: string)
    requires |name| == 2
    ensures Number(name[..1]) == name[0] as int - '0' as int
  {
    assert name[..1][..0] == "";
  }

  lemma ThreeLetters(name: string)
    requires |name| == 3
    ensures Number(name[..2]) == 10 * (name[0] as int - '0' as int) + (name[1] as int - '0' as int)
  {
    TwoLetters(name[..2]);
    assert name[..2][..1] == name[..1];
  }

  /** Both duration tables give every named interval the length its name says; a
      month counts 30 days, and an unknown name a minute. */
  lemma LengthsAsNamed(iv: Interval)
    ensures !iv.Other? ==> IntervalName(iv) != "" && ModelDuration(iv) == NamedLength(IntervalName(iv))
    ensures iv.Other? ==> ModelDuration(iv) == 60
    ensures Duration(iv) == if iv == S1 then 60 else ModelDuration(iv)
  {
    hide Number;
    if !iv.Other? {
      if |IntervalName(iv)| == 2 {
        TwoLetters(IntervalName(iv));
      } else {
        ThreeLetters(IntervalName(iv));
      }
    }
  }

  // --------------------------------------------------------------- keys and prefixes

  function Prefix(symbol: string, interval: string): string {
    symbol + ":" + interval + ":"
  }

  function EntryKey(symbol: string, interval: string, openTime: string): string {
    Prefix(symbol, interval) + openTime
  }

  /** The test of the scans. */
  predicate Matches(key: string, prefix: string) {
    |key| > |prefix| && key[..|prefix|] == prefix
  }

  /** A word without a colon after a colon is determined by the string. */
  lemma LastWord(a: string, s: string, b: string, t: string)
    requires ':' !in s && ':' !in t
    requires a + ":" + s == b + ":" + t
    ensures a == b && s == t
  {
    var x, y := a + ":" + s, b + ":" + t;
    assert x[|a|] == ':' && y[|b|] == ':';
    assert forall i :: |a| < i < |x| ==> x[i] == s[i - |a| - 1];
    assert forall i :: |b| < i < |y| ==> y[i] == t[i - |b| - 1];
    assert |a| == |b|;
    assert a == x[..|a|] && b == y[..|b|];
    assert s == x[|a| + 1..] && t == y[|b| + 1..];
  }

  /** Entries share a key only when they are the same entry, whatever the symbols. */
  lemma KeysDiffer(symbol: string, interval: string, openTime: string,
                   symbol': string, interval': string, openTime': string)
    requires ':' !in interval && ':' !in openTime && ':' !in interval' && ':' !in openTime'
    ensures EntryKey(symbol, interval, openTime) == EntryKey(symbol', interval', openTime') <==>
            symbol == symbol' && interval == interval' && openTime == openTime'
  {
    if EntryKey(symbol, interval, openTime) == EntryKey(symbol', interval', openTime') {
      assert EntryKey(symbol, interval, openTime) == (symbol + ":" + interval) + ":" + openTime;
      assert EntryKey(symbol', interval', openTime') == (symbol' + ":" + interval') + ":" + openTime';
      LastWord(symbol + ":" + interval, openTime, symbol' + ":" + interval', openTime');
      LastWord(symbol, interval, symbol', interval');
    }
  }

  /** Exactly which entries a scan meets, whatever the symbols: those with the
      same prefix, and those whose symbol begins with the prefix or is the prefix
      without its last colon. */
  lemma ScanMeetsExactly(symbol: string, interval: string, openTime: string, prefix: string)
    requires ':' !in interval && ':' !in openTime && openTime != ""
    requires prefix != "" && prefix[|prefix| - 1] == ':'
    ensures Matches(EntryKey(symbol, interval, openTime), prefix) <==>
            prefix == Prefix(symbol, interval) || prefix <= symbol + ":"
  {
    var key, n, k, q := EntryKey(symbol, interval, openTime), |symbol|, |interval|, |prefix| - 1;
    assert key[..n + 1] == symbol + ":";
    assert key[..n + k + 2] == Prefix(symbol, interval);
    assert forall i :: n < i <= n + k ==> key[i] == interval[i - n - 1];
    assert forall i :: n + k + 1 < i < |key| ==> key[i] == openTime[i - n - k - 2];
    if Matches(key, prefix) {
      assert key[q] == prefix[q] == ':';
      assert q <= n || q == n + k + 1;
      if q <= n {
        assert prefix == key[..n + 1][..q + 1];
      }
    }
  }

  /** The same with the symbol and interval that are looked for. */
  lemma ScanSelects(symbol: string, interval: string, openTime: string, wantSymbol: string, wantInterval: string)
    requires ':' !in interval && ':' !in wantInterval && ':' !in openTime && openTime != ""
    ensures Matches(EntryKey(symbol, interval, openTime), Prefix(wantSymbol, wantInterval)) <==>
            (symbol == wantSymbol && interval == wantInterval) || Prefix(wantSymbol, wantInterval) <= symbol + ":"
    ensures ':' !in symbol ==> !(Prefix(wantSymbol, wantInterval) <= symbol + ":")
  {
    ScanMeetsExactly(symbol, interval, openTime, Prefix(wantSymbol, wantInterval));
    KeysDiffer(symbol, interval, "", wantSymbol, wantInterval, "");
    assert EntryKey(symbol, interval, "") == Prefix(symbol, interval);
    assert EntryKey(wantSymbol, wantInterval, "") == Prefix(wantSymbol, wantInterval);
    if ':' !in symbol {
      NoColonNoPrefix(symbol, wantSymbol, wantInterval);
    }
  }

  lemma NoColonNoPrefix(symbol: string, wantSymbol: string, wantInterval: string)
    requires ':' !in symbol
    ensures !(Prefix(wantSymbol, wantInterval) <= symbol + ":")
  {
    var p, s := Prefix(wantSymbol, wantInterval), symbol + ":";
    assert p[|wantSymbol|] == ':';
    assert forall i :: 0 <= i < |symbol| ==> s[i] == symbol[i];
  }

  /** A colon in a symbol misleads the scan. */
  lemma ColonMisleads(symbol: string, interval: string, other: string, openTime: string)
    requires openTime != ""
    ensures Matches(EntryKey(symbol + ":" + interval, other, openTime), Prefix(symbol, interval))
  {
    assert EntryKey(symbol + ":" + interval, other, openTime) == Prefix(symbol, interval) + (other + ":" + openTime);
  }
}
