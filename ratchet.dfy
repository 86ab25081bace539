/** The stop-loss over many refreshes of the portfolio tab: repeated passes
    of the exit engine over one trade, each with that cycle's quotes. */
module Ratchet {
  import opened Rounding
  import opened ExitEngine

  /** The trade after a run of refresh cycles, one quote table per cycle. */
  function Cycles(t: Trade, qs: seq<map<string, real>>): Trade
    decreases |qs|
  {
    if |qs| == 0 then t else Cycles(Apply(t, qs[0]), qs[1..])
  }

  /** Running cycles on a prefix and then on the rest is running them all. */
  lemma {:induction false} CyclesSplit(t: Trade, qs: seq<map<string, real>>, j: nat)
    requires j <= |qs|
    ensures Cycles(t, qs) == Cycles(Cycles(t, qs[..j]), qs[j..])
    decreases j
  {
    if j > 0 {
      assert qs[..j][0] == qs[0];
      assert qs[..j][1..] == qs[1..][..j - 1];
      assert qs[j..] == qs[1..][j - 1..];
      CyclesSplit(Apply(t, qs[0]), qs[1..], j - 1);
    }
  }

  /** Over any run of cycles the stop of a trade whose stored stop is a whole
      number of paise never goes down, stays a whole number of paise, and
      nothing but the stop changes. */
  lemma {:induction false} CyclesRatchet(t: Trade, qs: seq<map<string, real>>)
    requires Aligned(t.stopPrice)
    ensures Cycles(t, qs).stopPrice >= t.stopPrice
    ensures Aligned(Cycles(t, qs).stopPrice)
    ensures Cycles(t, qs).(stopPrice := t.stopPrice) == t
    decreases |qs|
  {
    if |qs| > 0 {
      var t1 := Apply(t, qs[0]);
      assert Aligned(t1.stopPrice) by {
        if Assess(t, qs[0]).None? { assert t1 == t; }
      }
      CyclesRatchet(t1, qs[1..]);
    }
  }

  /** The stop is non-decreasing along the run: after j cycles it is at most
      what it is after k >= j cycles. */
  lemma StopNonDecreasing(t: Trade, qs: seq<map<string, real>>, j: nat, k: nat)
    requires Aligned(t.stopPrice)
    requires j <= k <= |qs|
    ensures Cycles(t, qs[..j]).stopPrice <= Cycles(t, qs[..k]).stopPrice
  {
    var p := qs[..k];
    CyclesSplit(t, p, j);
    assert p[..j] == qs[..j];
    CyclesRatchet(t, qs[..j]);
    CyclesRatchet(Cycles(t, qs[..j]), p[j..]);
  }

  /** While the trade cannot be priced (its ticker is missing from every
      cycle's quotes), the trade, and so its stop, stays frozen. */
  lemma {:induction false} FrozenWhileUnpriced(t: Trade, qs: seq<map<string, real>>)
    requires forall i :: 0 <= i < |qs| ==> t.ticker !in qs[i]
    ensures Cycles(t, qs) == t
    decreases |qs|
  {
    if |qs| > 0 {
      assert Apply(t, qs[0]) == t;
      FrozenWhileUnpriced(t, qs[1..]);
    }
  }

  /** A trade with entry price zero is skipped on every cycle. */
  lemma {:induction false} ZeroEntryNeverChanges(t: Trade, qs: seq<map<string, real>>)
    requires t.buyPrice == 0.0
    ensures Cycles(t, qs) == t
    decreases |qs|
  {
    if |qs| > 0 {
      assert Apply(t, qs[0]) == t;
      ZeroEntryNeverChanges(t, qs[1..]);
    }
  }

  /** Rounding is what needs the stored stop to be aligned: a stop of
      100.004 with the price flat is stored back as 100.00, below itself. */
  lemma UnalignedStopCanDrop()
    ensures var t := Trade("X", "X.NS", 1, 100.0, 100.004);
            Apply(t, map["X.NS" := 100.0]).stopPrice == 100.0 < t.stopPrice
  {
    var t := Trade("X", "X.NS", 1, 100.0, 100.004);
    assert NewStop(t, 100.0) == 100.004;
    assert Paise(100.004) == 10000;
  }

  /** Entry 100, stop 98: at 104 (4% up) the stop moves to entry; at 106
      (6% up) it trails to 103.88 and is labelled "Trailing Up"; at 103 the
      label is "STOP LOSS HIT" and the P&L is 3 per share. */
  lemma BreakevenTrailStopScenario(qty: int)
    ensures var t0 := Trade("X", "X.NS", qty, 100.0, 98.0);
            var t1 := Apply(t0, map["X.NS" := 104.0]);
            var t2 := Apply(t1, map["X.NS" := 106.0]);
            t1.stopPrice == 100.0 && t2.stopPrice == 103.88 &&
            StatusOf(t1, 106.0) == TrailingUp &&
            StatusOf(t2, 103.0) == StopLossHit &&
            PnL(t2, 103.0) == 3.0 * qty as real
  {
    var t0 := Trade("X", "X.NS", qty, 100.0, 98.0);
    assert ProfitPct(100.0, 104.0) == 4.0;
    assert NewStop(t0, 104.0) == 100.0;
    assert Paise(100.0) == 10000;
    var t1 := t0.(stopPrice := 100.0);
    assert ProfitPct(100.0, 106.0) == 6.0;
    assert NewStop(t1, 106.0) == 103.88;
    assert Paise(103.88) == 10388;
  }
}
