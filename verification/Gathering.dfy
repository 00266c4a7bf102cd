/** What a group of goroutines holds together, and how it changes when one moves. */
module Gathering {

  /** The contents of all hands. */
  ghost function Gathered<W, T>(ws: seq<W>, hand: W -> multiset<T>): multiset<T> {
    if ws == [] then multiset{} else Gathered(ws[..|ws| - 1], hand) + hand(ws[|ws| - 1])
  }

  /** When one hand changes, the whole loses its old and gains its new contents. */
  lemma {:induction false} GatheredUpdate<W, T>(ws: seq<W>, hand: W -> multiset<T>, w: nat, x: W)
    requires w < |ws|
    ensures Gathered(ws[w := x], hand) + hand(ws[w]) == Gathered(ws, hand) + hand(x)
    decreases |ws|
  {
    var n := |ws| - 1;
    var ws' := ws[w := x];
    if w == n {
      assert ws'[..n] == ws[..n];
    } else {
      assert ws'[..n] == ws[..n][w := x];
      GatheredUpdate(ws[..n], hand, w, x);
      Exchange(Gathered(ws'[..n], hand), hand(ws[w]), Gathered(ws[..n], hand), hand(x), hand(ws[n]));
    }
  }

  lemma {:induction false} NothingGathered<W, T>(ws: seq<W>, hand: W -> multiset<T>)
    requires forall w :: 0 <= w < |ws| ==> hand(ws[w]) == multiset{}
    ensures Gathered(ws, hand) == multiset{}
    decreases |ws|
  {
    if ws != [] {
      NothingGathered(ws[..|ws| - 1], hand);
    }
  }

  lemma Exchange<T>(a: multiset<T>, b: multiset<T>, c: multiset<T>, d: multiset<T>, e: multiset<T>)
    requires a + b == c + d
    ensures a + e + b == c + e + d
  {
    assert a + e + b == (a + b) + e;
    assert c + e + d == (c + d) + e;
  }

  /** What one place loses the other gains. */
  lemma Shifted<T>(a: multiset<T>, a': multiset<T>, b: multiset<T>, b': multiset<T>, m: multiset<T>)
    requires a == a' + m
    requires b' == b + m
    ensures a + b == a' + b'
  {
  }

  lemma Cancel<T>(a: multiset<T>, b: multiset<T>, m: multiset<T>)
    requires a + m == b + m
    ensures a == b
  {
    assert (a + m) - m == a;
    assert (b + m) - m == b;
  }
}
