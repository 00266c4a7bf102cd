/** Merging bars: candles in time order, split into consecutive groups, each
    group folded into a bar by the streaming loop, and the bars merged; against
    the streaming fold of all the candles. */
module MergedBars {
  import opened Candles
  import opened Folding

  type Groups = seq<seq<Candle>>

  ghost predicate AllNonEmpty(gs: Groups) {
    forall i :: 0 <= i < |gs| ==> gs[i] != []
  }

  /** The candles of all groups, in order. */
  function Whole(gs: Groups): seq<Candle> {
    if gs == [] then [] else Whole(gs[..|gs| - 1]) + gs[|gs| - 1]
  }

  /** The bars of the groups joined left to right: first open, last close,
      highest high, lowest low, summed volumes and trades. */
  function Merge(gs: Groups): Bar
    requires |gs| > 0
  {
    var b := StreamBar(gs[|gs| - 1]);
    if |gs| == 1 then b else Join(Merge(gs[..|gs| - 1]), b)
  }

  function GroupLow(g: seq<Candle>): int { StreamBar(g).low }

  ghost predicate HasZero(g: seq<Candle>) {
    exists i :: 0 <= i < |g| && g[i].low == 0
  }

  ghost predicate HasNegative(g: seq<Candle>) {
    exists i :: 0 <= i < |g| && g[i].low < 0
  }

  /** Group j is the last that contains a low of zero. */
  ghost predicate IsLastZero(gs: Groups, j: int) {
    0 <= j < |gs| && HasZero(gs[j]) && forall k :: j < k < |gs| ==> !HasZero(gs[k])
  }

  /** The merged low is not disturbed by group j, the last with a zero: its own
      bar has a zero low only when it is the last group, and no earlier bar has a
      low below the lowest from j on. */
  ghost predicate Undisturbed(gs: Groups, j: int)
    requires 0 <= j < |gs|
  {
    && (GroupLow(gs[j]) == 0 ==> j == |gs| - 1)
    && forall i :: 0 <= i < j ==> Merge(gs[j..]).low <= GroupLow(gs[i])
  }

  /** When the merged low is the low of the whole: some low is negative, or none
      is zero, or the last group with a zero leaves it undisturbed. */
  ghost predicate LowsMerge(gs: Groups) {
    || (exists i :: 0 <= i < |gs| && HasNegative(gs[i]))
    || (forall i :: 0 <= i < |gs| ==> !HasZero(gs[i]))
    || (exists j :: IsLastZero(gs, j) && Undisturbed(gs, j))
  }

  // --------------------------------------------------------------- two parts

  /** The streaming low of a concatenation: what follows a zero, or contains one
      after positive lows, decides alone. */
  lemma {:induction false} StreamLowConcat(a: seq<Candle>, b: seq<Candle>)
    requires |a| > 0 && |b| > 0
    ensures StreamBar(a + b).low ==
            if StreamBar(a).low == 0 || (StreamBar(a).low > 0 && BatchBar(b).low <= 0) then StreamBar(b).low
            else Min(StreamBar(a).low, StreamBar(b).low)
    decreases |b|
  {
    var init := b[..|b| - 1];
    assert (a + b)[..|a + b| - 1] == a + init;
    if |b| == 1 {
      assert a + init == a;
    } else {
      StreamLowConcat(a, init);
      StreamLow(init);
    }
  }

  lemma {:induction false} WholeConcat(gs: Groups, hs: Groups)
    ensures Whole(gs + hs) == Whole(gs) + Whole(hs)
    decreases |hs|
  {
    if hs == [] {
      assert gs + hs == gs;
    } else {
      var init := hs[..|hs| - 1];
      assert (gs + hs)[..|gs + hs| - 1] == gs + init;
      WholeConcat(gs, init);
    }
  }

  lemma WholeOne(gs: Groups)
    requires |gs| == 1
    ensures Whole(gs) == gs[0] && Merge(gs) == StreamBar(gs[0])
  {
    assert gs[..0] == [];
  }

  lemma {:induction false} MergeConcat(gs: Groups, hs: Groups)
    requires |gs| > 0 && |hs| > 0
    ensures Merge(gs + hs).low == Min(Merge(gs).low, Merge(hs).low)
    decreases |hs|
  {
    var init := hs[..|hs| - 1];
    assert (gs + hs)[..|gs + hs| - 1] == gs + init;
    if |hs| == 1 {
      assert gs + init == gs;
    } else {
      MergeConcat(gs, init);
    }
  }

  /** The merged low is the lowest of the groups' lows. */
  lemma {:induction false} MergeLowest(gs: Groups, x: int)
    requires |gs| > 0
    ensures x <= Merge(gs).low <==> forall i :: 0 <= i < |gs| ==> x <= GroupLow(gs[i])
    decreases |gs|
  {
    hide StreamBar;
    if |gs| > 1 {
      var init := gs[..|gs| - 1];
      MergeLowest(init, x);
      assert forall i :: 0 <= i < |init| ==> init[i] == gs[i];
    }
  }

  // --------------------------------------------------------------- the true lows

  /** The sign of the lowest low, told by the groups. */
  lemma {:induction false} WholeLow(gs: Groups)
    requires |gs| > 0 && AllNonEmpty(gs)
    ensures |Whole(gs)| > 0
    ensures BatchBar(Whole(gs)).low < 0 <==> exists i :: 0 <= i < |gs| && HasNegative(gs[i])
    ensures BatchBar(Whole(gs)).low > 0 ==> forall i :: 0 <= i < |gs| ==> !HasZero(gs[i])
    ensures BatchBar(Whole(gs)).low == 0 ==> exists i :: 0 <= i < |gs| && HasZero(gs[i])
    decreases |gs|
  {
    hide BatchBar, HasZero, HasNegative;
    var init, g := gs[..|gs| - 1], gs[|gs| - 1];
    GroupSign(g);
    if |gs| == 1 {
      WholeOne(gs);
    } else {
      WholeLow(init);
      BatchBarConcat(Whole(init), g);
      assert forall i :: 0 <= i < |init| ==> init[i] == gs[i];
    }
  }

  lemma GroupSign(g: seq<Candle>)
    requires |g| > 0
    ensures BatchBar(g).low < 0 <==> HasNegative(g)
    ensures BatchBar(g).low > 0 ==> !HasZero(g)
    ensures BatchBar(g).low == 0 ==> HasZero(g)
  {
    hide BatchBar;
    BatchBarSummarises(g);
  }

  /** The streamed bar of the whole and the merged bar differ in the low alone,
      and both lows are the true one when that is not zero. */
  lemma {:induction false} SameButLow(gs: Groups)
    requires |gs| > 0 && AllNonEmpty(gs)
    ensures |Whole(gs)| > 0
    ensures Merge(gs) == BatchBar(Whole(gs)).(low := Merge(gs).low)
    ensures BatchBar(Whole(gs)).low <= Merge(gs).low
    ensures BatchBar(Whole(gs)).low != 0 ==> Merge(gs).low == BatchBar(Whole(gs)).low
    decreases |gs|
  {
    hide BatchBar, StreamBar;
    var init, g := gs[..|gs| - 1], gs[|gs| - 1];
    StreamLow(g);
    if |gs| == 1 {
      WholeOne(gs);
    } else {
      SameButLow(init);
      BatchBarConcat(Whole(init), g);
    }
  }

  // --------------------------------------------------------------- after the last zero

  lemma {:induction false} LastZeroExists(gs: Groups, i: int) returns (j: int)
    requires 0 <= i < |gs| && HasZero(gs[i])
    ensures IsLastZero(gs, j)
    decreases |gs| - i
  {
    hide HasZero;
    if k :| i < k < |gs| && HasZero(gs[k]) {
      j := LastZeroExists(gs, k);
    } else {
      j := i;
    }
  }

  lemma NoNegativePart(gs: Groups, i: int, j: int)
    requires 0 <= i <= j <= |gs| && AllNonEmpty(gs)
    requires forall i :: 0 <= i < |gs| ==> !HasNegative(gs[i])
    ensures AllNonEmpty(gs[i..j])
    ensures i < j ==> |Whole(gs[i..j])| > 0 && BatchBar(Whole(gs[i..j])).low >= 0
  {
    hide BatchBar, HasNegative;
    var part := gs[i..j];
    assert forall k :: 0 <= k < |part| ==> part[k] == gs[i + k];
    if i < j {
      WholeLow(part);
    }
  }

  /** Groups whose only zeros are in the first: a zero at the end of that one is
      forgotten by the next group, any other is not seen. */
  lemma ZeroInFirst(gs: Groups)
    requires |gs| > 0 && AllNonEmpty(gs) && IsLastZero(gs, 0)
    requires forall i :: 0 <= i < |gs| ==> !HasNegative(gs[i])
    ensures |gs| == 1 || GroupLow(gs[0]) != 0 ==> StreamBar(Whole(gs)).low == Merge(gs).low
    ensures |gs| > 1 && GroupLow(gs[0]) == 0 ==> StreamBar(Whole(gs)).low > 0 && Merge(gs).low <= 0
  {
    hide BatchBar, StreamBar, HasZero, HasNegative, Merge, Whole;
    var first, rest := gs[..1], gs[1..];
    assert gs == first + rest;
    WholeOne(first);
    if |gs| == 1 {
      assert gs == first;
    } else {
      NoNegativePart(gs, 0, 1);
      NoNegativePart(gs, 1, |gs|);
      assert gs[0..1] == first && gs[1..|gs|] == rest;
      WholeLow(rest);
      assert forall i :: 0 <= i < |rest| ==> rest[i] == gs[i + 1];
      StreamLow(gs[0]);
      StreamLow(Whole(rest));
      SameButLow(rest);
      WholeConcat(first, rest);
      MergeConcat(first, rest);
      StreamLowConcat(Whole(first), Whole(rest));
    }
  }

  /** From the last group with a zero on, what came before does not matter. */
  lemma ForgetsEarlier(gs: Groups, j: int)
    requires AllNonEmpty(gs) && IsLastZero(gs, j)
    requires forall i :: 0 <= i < |gs| ==> !HasNegative(gs[i])
    ensures StreamBar(Whole(gs)).low == StreamBar(Whole(gs[j..])).low
  {
    hide BatchBar, StreamBar, HasZero, HasNegative, Merge, Whole;
    var before, rest := gs[..j], gs[j..];
    assert gs == before + rest;
    if j == 0 {
      assert rest == gs;
    } else {
      NoNegativePart(gs, 0, j);
      NoNegativePart(gs, j, |gs|);
      assert gs[0..j] == before && gs[j..|gs|] == rest;
      WholeLow(rest);
      assert rest[0] == gs[j];
      StreamLow(Whole(before));
      WholeConcat(before, rest);
      StreamLowConcat(Whole(before), Whole(rest));
    }
  }

  lemma ZeroCase(gs: Groups, j: int)
    requires AllNonEmpty(gs) && IsLastZero(gs, j)
    requires forall i :: 0 <= i < |gs| ==> !HasNegative(gs[i])
    ensures StreamBar(Whole(gs)).low == Merge(gs).low <==> Undisturbed(gs, j)
  {
    hide StreamBar, HasZero, HasNegative, Merge, Whole;
    var before, rest := gs[..j], gs[j..];
    assert gs == before + rest;
    assert forall i :: 0 <= i < |rest| ==> rest[i] == gs[i + j];
    ForgetsEarlier(gs, j);
    ZeroInFirst(rest);
    if j == 0 {
      assert rest == gs;
    } else {
      MergeConcat(before, rest);
      MergeLowest(before, Merge(rest).low);
      assert forall i :: 0 <= i < j ==> before[i] == gs[i];
    }
  }

  // --------------------------------------------------------------- the whole

  /** The streaming fold of the whole is the merge of the groups' bars in every
      field but the low, and in the low exactly under the condition on the groups. */
  lemma MergeExactly(gs: Groups)
    requires |gs| > 0 && AllNonEmpty(gs)
    ensures |Whole(gs)| > 0
    ensures StreamBar(Whole(gs)) == Merge(gs).(low := StreamBar(Whole(gs)).low)
    ensures StreamBar(Whole(gs)) == Merge(gs) <==> LowsMerge(gs)
  {
    hide BatchBar, StreamBar, HasZero, HasNegative, Merge, Whole, Undisturbed;
    SameButLow(gs);
    StreamLow(Whole(gs));
    WholeLow(gs);
    if BatchBar(Whole(gs)).low == 0 {
      var i :| 0 <= i < |gs| && HasZero(gs[i]);
      var j := LastZeroExists(gs, i);
      ZeroCase(gs, j);
      assert forall k :: IsLastZero(gs, k) ==> k == j;
    }
  }

  /** Sound lows merge. */
  lemma SoundLowsMerge(gs: Groups)
    requires |gs| > 0 && AllNonEmpty(gs) && |Whole(gs)| > 0 && LowsSound(Whole(gs))
    ensures LowsMerge(gs)
  {
    hide BatchBar, StreamBar, LowsMerge, Merge, Whole;
    MergeExactly(gs);
    SameButLow(gs);
    StreamBarExactly(Whole(gs));
    LastLow(gs);
  }

  /** A low of zero at the very end shows in the merge. */
  lemma LastLow(gs: Groups)
    requires |gs| > 0 && AllNonEmpty(gs)
    ensures |Whole(gs)| > 0
    ensures BatchBar(Whole(gs)).low == 0 && Whole(gs)[|Whole(gs)| - 1].low == 0 ==> Merge(gs).low == 0
  {
    hide BatchBar, StreamBar;
    var g := gs[|gs| - 1];
    StreamLow(g);
    StreamLow(Whole(gs));
    SameButLow(gs);
    BatchBarSummarises(Whole(gs));
    BatchBarSummarises(g);
  }

  /** Groups with the single lows 0 and 5: the whole has the low 5, the merge the low 0. */
  lemma ZeroThenFive(c: Candle, d: Candle)
    requires c.low == 0 && d.low == 5
    ensures StreamBar(Whole([[c], [d]])).low == 5 && Merge([[c], [d]]).low == 0
    ensures !LowsMerge([[c], [d]])
  {
    var gs: Groups := [[c], [d]];
    var first: Groups := [[c]];
    assert gs[..1] == first;
    WholeOne(first);
    assert Whole(gs) == [c, d];
    ZeroLowIsLost(c, d);
    MergeExactly(gs);
  }
}
