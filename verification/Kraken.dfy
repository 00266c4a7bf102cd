/** Symbol conversion to Kraken's form and back
    (internal/services/aggregator/exchange_handlers.go). */
module Kraken {

  /** Go's `strings.ReplaceAll`: the leftmost occurrence first, without overlap. */
  function ReplaceAll(s: string, old_: string, new_: string): string
    requires old_ != ""
    decreases |s|
  {
    if s == "" then ""
    else if old_ <= s then new_ + ReplaceAll(s[|old_|..], old_, new_)
    else [s[0]] + ReplaceAll(s[1..], old_, new_)
  }

  /** BTCUSDT becomes BTC/USD. */
  function ToKraken(symbol: string): string {
    var k := ReplaceAll(symbol, "USDT", "USD");
    if |k| > 3 then k[..|k| - 3] + "/" + k[|k| - 3..] else k
  }

  /** BTC/USD becomes BTCUSDT. */
  function FromKraken(symbol: string): string {
    ReplaceAll(ReplaceAll(symbol, "/", ""), "USD", "USDT")
  }

  predicate OccursAt(s: string, i: int, word: string) {
    0 <= i && i + |word| <= |s| && s[i..i + |word|] == word
  }

  /** Every USD in s is the beginning of a USDT. */
  ghost predicate OnlyTether(s: string) {
    forall i :: OccursAt(s, i, "USD") ==> i + 3 < |s| && s[i + 3] == 'T'
  }

  // --------------------------------------------------------------- the slash

  lemma {:induction false} NoSlashLeft(s: string)
    ensures '/' !in ReplaceAll(s, "/", "")
    decreases |s|
  {
    if s != "" {
      NoSlashLeft(s[1..]);
    }
  }

  lemma {:induction false} NoSlashKept(s: string, t: string)
    requires '/' !in s
    ensures ReplaceAll(s + t, "/", "") == s + ReplaceAll(t, "/", "")
    decreases |s|
  {
    if s == "" {
      assert s + t == t;
    } else {
      NoSlashKept(s[1..], t);
      assert (s + t)[0] == s[0] && (s + t)[1..] == s[1..] + t;
      assert !("/" <= s + t);
    }
  }

  lemma SlashTaken(t: string)
    ensures ReplaceAll("/" + t, "/", "") == ReplaceAll(t, "/", "")
  {
    var s := "/" + t;
    assert s[1..] == t;
  }

  lemma NothingReplaced()
    ensures ReplaceAll("", "/", "") == ""
  {
  }

  lemma Unslashed(k: string)
    requires '/' !in k
    ensures ReplaceAll(k, "/", "") == k
    ensures |k| > 3 ==> ReplaceAll(k[..|k| - 3] + "/" + k[|k| - 3..], "/", "") == k
  {
    hide ReplaceAll;
    NothingReplaced();
    NoSlashKept(k, "");
    assert k + "" == k;
    if |k| > 3 {
      var a, b := k[..|k| - 3], k[|k| - 3..];
      assert a + "/" + b == a + ("/" + b);
      NoSlashKept(a, "/" + b);
      SlashTaken(b);
      NoSlashKept(b, "");
      assert b + "" == b && a + b == k;
    }
  }

  /** Replacing introduces no character beyond those of the replacement. */
  lemma {:induction false} NoNewCharacter(s: string, old_: string, new_: string, c: char)
    requires old_ != "" && c !in s && c !in new_
    ensures c !in ReplaceAll(s, old_, new_)
    decreases |s|
  {
    if s != "" {
      if old_ <= s {
        NoNewCharacter(s[|old_|..], old_, new_, c);
      } else {
        NoNewCharacter(s[1..], old_, new_, c);
      }
    }
  }

  // --------------------------------------------------------------- USD and USDT

  function Shorten(s: string): string { ReplaceAll(s, "USDT", "USD") }

  function Lengthen(s: string): string { ReplaceAll(s, "USD", "USDT") }

  /** Neither replacement changes the first character. */
  lemma FirstKept(s: string, old_: string, new_: string)
    requires old_ != "" && new_ != "" && old_[0] == new_[0] && s != ""
    ensures ReplaceAll(s, old_, new_) != "" && ReplaceAll(s, old_, new_)[0] == s[0]
  {
  }

  /** A USD at the start of the result was at the start of the input. */
  lemma UsdWasThere(s: string, old_: string, new_: string)
    requires old_ != "" && new_ != "" && old_[0] == new_[0] == 'U'
    requires !(old_ <= s) && "USD" <= ReplaceAll(s, old_, new_)
    ensures "USD" <= s
  {
    var r := ReplaceAll(s, old_, new_);
    assert s != "" && r == [s[0]] + ReplaceAll(s[1..], old_, new_);
    var s1 := s[1..];
    var r1 := ReplaceAll(s1, old_, new_);
    assert r[1] == r1[0] == 'S' && r[2] == r1[1] == 'D' && r[0] == 'U';
    assert s1 != "";
    FirstKept(s1, old_, new_);
    assert r1 == [s1[0]] + ReplaceAll(s1[1..], old_, new_);
    var s2 := s1[1..];
    assert s2 != "";
    FirstKept(s2, old_, new_);
    assert s[0] == 'U' && s[1] == 'S' && s[2] == 'D';
  }

  lemma TetherTail(s: string, n: nat)
    requires OnlyTether(s) && n <= |s|
    ensures OnlyTether(s[n..])
  {
    forall i | OccursAt(s[n..], i, "USD") ensures i + 3 < |s[n..]| && s[n..][i + 3] == 'T' {
      assert s[n..][i..i + 3] == s[n + i..n + i + 3];
      assert OccursAt(s, n + i, "USD");
    }
  }

  lemma TetherHead(s: string)
    requires OnlyTether(s) && "USD" <= s
    ensures "USDT" <= s
  {
    assert s[0..3] == s[..3] == "USD";
    assert OccursAt(s, 0, "USD");
  }

  /** Where USD stands only for USDT, lengthening undoes shortening. */
  lemma {:induction false} LengthenShorten(s: string)
    requires OnlyTether(s)
    ensures Lengthen(Shorten(s)) == s
    decreases |s|
  {
    if s == "" {
    } else if "USDT" <= s {
      var rest := s[4..];
      TetherTail(s, 4);
      LengthenShorten(rest);
      LengthenWord(Shorten(rest));
      assert s == "USDT" + rest;
    } else {
      var rest := s[1..];
      TetherTail(s, 1);
      LengthenShorten(rest);
      if "USD" <= Shorten(s) {
        UsdWasThere(s, "USDT", "USD");
        TetherHead(s);
        assert false;
      }
      assert Shorten(s) == [s[0]] + Shorten(rest);
      assert Shorten(s)[1..] == Shorten(rest);
      assert s == [s[0]] + rest;
    }
  }

  lemma LengthenWord(t: string)
    ensures Lengthen("USD" + t) == "USDT" + Lengthen(t)
  {
    var s := "USD" + t;
    assert "USD" <= s && s[3..] == t;
  }

  /** After lengthening, USD stands only for USDT. */
  lemma {:induction false} LengthenedIsTether(s: string)
    ensures OnlyTether(Lengthen(s))
    decreases |s|
  {
    if s == "" {
    } else if "USD" <= s {
      LengthenedIsTether(s[3..]);
      TetherPrefixed(Lengthen(s[3..]));
    } else {
      LengthenedIsTether(s[1..]);
      var r, r1 := Lengthen(s), Lengthen(s[1..]);
      assert r == [s[0]] + r1;
      forall i | OccursAt(r, i, "USD") ensures i + 3 < |r| && r[i + 3] == 'T' {
        if i == 0 {
          assert r[..3] == r[0..3];
          UsdWasThere(s, "USD", "USDT");
          assert false;
        } else {
          assert r[i..i + 3] == r1[i - 1..i + 2];
          assert OccursAt(r1, i - 1, "USD");
        }
      }
    }
  }

  lemma TetherPrefixed(t: string)
    requires OnlyTether(t)
    ensures OnlyTether("USDT" + t)
  {
    var r := "USDT" + t;
    forall i | OccursAt(r, i, "USD") ensures i + 3 < |r| && r[i + 3] == 'T' {
      assert r[i..i + 3][0] == r[i] == 'U';
      if i >= 4 {
        assert r[i..i + 3] == t[i - 4..i - 1];
        assert OccursAt(t, i - 4, "USD");
      } else {
        assert i == 0;
      }
    }
  }

  // --------------------------------------------------------------- round trip

  /** For every string: the conversion to Kraken's form and back returns the
      symbol exactly when it has no slash and each USD in it begins a USDT. */
  lemma RoundTripExactly(symbol: string)
    ensures FromKraken(ToKraken(symbol)) == symbol <==> '/' !in symbol && OnlyTether(symbol)
  {
    hide OnlyTether;
    var back := ReplaceAll(ToKraken(symbol), "/", "");
    LengthenedIsTether(back);
    NoSlashLeft(ToKraken(symbol));
    NoNewCharacter(back, "USD", "USDT", '/');
    if '/' !in symbol {
      NoNewCharacter(symbol, "USDT", "USD", '/');
      Unslashed(Shorten(symbol));
      assert back == Shorten(symbol);
      if OnlyTether(symbol) {
        LengthenShorten(symbol);
      }
    }
  }

  ghost predicate Without(s: string, word: string) {
    forall i :: !OccursAt(s, i, word)
  }

  lemma WithoutTail(s: string, word: string)
    requires s != "" && Without(s, word)
    ensures Without(s[1..], word)
  {
    forall i ensures !OccursAt(s[1..], i, word) {
      assert !OccursAt(s, i + 1, word);
      if 0 <= i <= |s[1..]| - |word| {
        assert s[1..][i..i + |word|] == s[i + 1..i + 1 + |word|];
      }
    }
  }

  lemma WithoutHead(s: string, word: string)
    requires Without(s, word)
    ensures !(word <= s)
  {
    assert !OccursAt(s, 0, word);
    assert |word| <= |s| ==> s[0..|word|] == s[..|word|];
  }

  lemma NotAtStart(s: string, old_: string, new_: string)
    requires old_ != "" && s != "" && !(old_ <= s)
    ensures ReplaceAll(s, old_, new_) == [s[0]] + ReplaceAll(s[1..], old_, new_)
  {
  }

  /** A string without the word stays as it is. */
  lemma {:induction false} NothingToReplace(s: string, old_: string, new_: string)
    requires old_ != "" && Without(s, old_)
    ensures ReplaceAll(s, old_, new_) == s
    decreases |s|
  {
    if s != "" {
      WithoutTail(s, old_);
      WithoutHead(s, old_);
      NothingToReplace(s[1..], old_, new_);
      NotAtStart(s, old_, new_);
    }
  }

  /** A word whose first letter does not return in it. */
  predicate StartsOnce(word: string) {
    word != "" && forall i :: 0 < i < |word| ==> word[i] != word[0]
  }

  lemma NoWordAtStart(base: string, word: string)
    requires StartsOnce(word) && Without(base, word) && base != ""
    ensures !(word <= base + word)
  {
    var s := base + word;
    assert s[|base|] == word[0];
    assert !OccursAt(base, 0, word);
    if |base| >= |word| {
      assert s[..|word|] == base[0..|word|];
    }
  }

  /** Only the word at the end is replaced. */
  lemma {:induction false} ReplaceAtEnd(base: string, old_: string, new_: string)
    requires StartsOnce(old_) && Without(base, old_)
    ensures ReplaceAll(base + old_, old_, new_) == base + new_
    decreases |base|
  {
    hide ReplaceAll;
    var s := base + old_;
    if base == "" {
      assert s == old_;
      ReplaceWord(old_, new_);
    } else {
      assert s[1..] == base[1..] + old_ && s[0] == base[0];
      WithoutTail(base, old_);
      ReplaceAtEnd(base[1..], old_, new_);
      NoWordAtStart(base, old_);
      NotAtStart(s, old_, new_);
      assert base == [base[0]] + base[1..];
    }
  }

  lemma ReplaceWord(old_: string, new_: string)
    requires old_ != ""
    ensures ReplaceAll(old_, old_, new_) == new_
  {
    assert old_[|old_|..] == "";
  }

  // --------------------------------------------------------------- what is sent and what is understood

  /** A symbol without USDT is sent with a slash before its last three letters. */
  lemma PairWithSlash(base: string, quote: string)
    requires base != "" && |quote| == 3 && Without(base + quote, "USDT")
    ensures ToKraken(base + quote) == base + "/" + quote
  {
    hide ReplaceAll;
    var s := base + quote;
    NothingToReplace(s, "USDT", "USD");
    assert s[..|s| - 3] == base && s[|s| - 3..] == quote;
  }

  /** A symbol of at most three letters is sent as it is. */
  lemma ShortAsIs(s: string)
    requires |s| <= 3
    ensures ToKraken(s) == s
  {
    hide ReplaceAll;
    NothingToReplace(s, "USDT", "USD");
  }

  /** A tether pair is subscribed as base/USD. */
  lemma TetherPair(base: string)
    requires Without(base, "USDT") && base != ""
    ensures ToKraken(base + "USDT") == base + "/USD"
  {
    hide ReplaceAll;
    ReplaceAtEnd(base, "USDT", "USD");
    var k := base + "USD";
    assert k[..|k| - 3] == base && k[|k| - 3..] == "USD";
  }

  /** Tether itself against another currency is subscribed as USD against it. */
  lemma TetherBase(quote: string)
    requires |quote| == 3
    ensures ToKraken("USDT" + quote) == "USD/" + quote
  {
    hide ReplaceAll;
    ShortenFirst(quote);
    NothingToReplace(quote, "USDT", "USD");
    var k := "USD" + quote;
    assert k[..|k| - 3] == "USD" && k[|k| - 3..] == quote;
  }

  lemma ShortenFirst(t: string)
    ensures Shorten("USDT" + t) == "USD" + Shorten(t)
  {
    var s := "USDT" + t;
    assert "USDT" <= s && s[4..] == t;
  }

  /** A slash in a received symbol makes no difference. */
  lemma SlashIgnored(a: string, b: string)
    requires '/' !in a && '/' !in b
    ensures FromKraken(a + "/" + b) == FromKraken(a + b)
  {
    hide ReplaceAll;
    NothingReplaced();
    assert a + "/" + b == a + ("/" + b);
    NoSlashKept(a, "/" + b);
    SlashTaken(b);
    NoSlashKept(a + b, "");
    NoSlashKept(b, "");
    assert a + b + "" == a + b && b + "" == b;
  }

  /** A received symbol is understood as it is, without its slash, unless it
      contains USD; a dollar pair is understood as a tether pair. */
  lemma Understood(base: string, quote: string)
    requires '/' !in base && '/' !in quote
    ensures Without(base + quote, "USD") ==> FromKraken(base + "/" + quote) == base + quote
    ensures Without(base, "USD") ==> FromKraken(base + "/USD") == base + "USDT"
  {
    hide ReplaceAll;
    NothingReplaced();
    SlashIgnored(base, quote);
    NoSlashKept(base + quote, "");
    assert base + quote + "" == base + quote;
    if Without(base + quote, "USD") {
      NothingToReplace(base + quote, "USD", "USDT");
    }
    SlashIgnored(base, "USD");
    assert base + "/" + "USD" == base + "/USD";
    NoSlashKept(base + "USD", "");
    assert base + "USD" + "" == base + "USD";
    if Without(base, "USD") {
      ReplaceAtEnd(base, "USD", "USDT");
    }
  }

  /** A plain dollar pair does not come back. */
  lemma DollarPairBreaks()
    ensures FromKraken(ToKraken("BTCUSD")) != "BTCUSD"
  {
    var s := "BTCUSD";
    RoundTripExactly(s);
    assert s[3..6] == "USD";
    assert OccursAt(s, 3, "USD");
  }
}
