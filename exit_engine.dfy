/** The smart exit engine of the active-portfolio tab: on every refresh it
    walks the open trades, prices each one, applies the breakeven rule and
    the 2% trailing rule to its stop-loss, labels it, and writes the rounded
    stop back into the trade in place. */
module ExitEngine {
  import opened Rounding

  datatype Option<T> = None | Some(value: T)

  /** One row of the in-memory portfolio (the fields the engine uses). */
  datatype Trade = Trade(symbol: string, ticker: string, qty: int, buyPrice: real, stopPrice: real)

  /** The label shown on the close button: "Holding", "Trailing Up" or
      "STOP LOSS HIT". */
  datatype Status = Holding | TrailingUp | StopLossHit

  /** What one successful pass over a trade computes: the price, percent,
      stop and label feed the display row; the P&L is computed but not shown. */
  datatype Assessment = Assessment(
    price: real,        // the last traded price `cv`
    profitPct: real,    // unrealised profit in percent
    newStop: real,      // the stop before rounding (also what is displayed)
    status: Status,
    riskFree: bool,     // the breakeven notification fired
    pnl: real)          // computed, never displayed

  /** Profit above this percent moves the stop to the entry price. */
  const BreakevenPct: real := 3.0
  /** Profit above this percent lets the stop trail the price. */
  const TrailPct: real := 5.0
  /** The trailing stop sits 2% under the price. */
  const TrailFactor: real := 0.98

  function Max(a: real, b: real): real { if a < b then b else a }

  /** Unrealised profit in percent of the entry price. */
  function ProfitPct(buy: real, cv: real): real
    requires buy != 0.0
  {
    (cv - buy) / buy * 100.0
  }

  /** For a positive entry price the percent test needs no division. */
  lemma ProfitPctAbove(buy: real, cv: real, p: real)
    requires buy > 0.0
    ensures ProfitPct(buy, cv) > p <==> 100.0 * (cv - buy) > p * buy
  {
    var q := (cv - buy) / buy;
    assert q * buy == cv - buy;
    if q * 100.0 > p {
      assert (q * 100.0) * buy > p * buy;
    }
    if 100.0 * (cv - buy) > p * buy {
      assert (q * 100.0) * buy > p * buy;
    }
  }

  /** Profit and loss of the trade at price `cv`: price move times quantity.
      The loop computes it for each priced trade but does not display it. */
  function PnL(t: Trade, cv: real): real {
    (cv - t.buyPrice) * t.qty as real
  }

  /** A long position of positive size shows a profit exactly when the price
      is above entry, and its P&L is the percent profit applied to the
      invested amount. */
  lemma PnLSign(t: Trade, cv: real)
    requires t.qty > 0 && t.buyPrice != 0.0
    ensures PnL(t, cv) > 0.0 <==> cv > t.buyPrice
    ensures PnL(t, cv) == ProfitPct(t.buyPrice, cv) / 100.0 * t.buyPrice * t.qty as real
  {
    var d := cv - t.buyPrice;
    var n := t.qty as real;
    assert ProfitPct(t.buyPrice, cv) / 100.0 * t.buyPrice == d;
    if d > 0.0 { assert d * n > 0.0; }
    if d <= 0.0 { assert d * n <= 0.0; }
  }

  /** The stop after the breakeven rule: once profit exceeds 3%, the stop is
      at least the entry price. */
  function BreakevenStop(t: Trade, cv: real): real
    requires t.buyPrice != 0.0
  {
    if ProfitPct(t.buyPrice, cv) > BreakevenPct then Max(t.stopPrice, t.buyPrice) else t.stopPrice
  }

  /** The stop after both rules, stated as maxima of the candidate levels. */
  function NewStop(t: Trade, cv: real): (r: real)
    requires t.buyPrice != 0.0
    ensures r >= t.stopPrice
    ensures ProfitPct(t.buyPrice, cv) <= BreakevenPct ==> r == t.stopPrice
    ensures ProfitPct(t.buyPrice, cv) > BreakevenPct ==> r >= t.buyPrice
    ensures ProfitPct(t.buyPrice, cv) > TrailPct ==> r >= TrailFactor * cv
    ensures ProfitPct(t.buyPrice, cv) <= TrailPct ==> r == BreakevenStop(t, cv)
    ensures r == t.stopPrice || r == t.buyPrice || r == TrailFactor * cv
  {
    var be := BreakevenStop(t, cv);
    if ProfitPct(t.buyPrice, cv) > TrailPct then Max(be, TrailFactor * cv) else be
  }

  /** The label: a stop hit overrides everything; otherwise "Trailing Up"
      exactly when profit is above 5% and the trail price beats the stop left
      by the breakeven rule. */
  function StatusOf(t: Trade, cv: real): (s: Status)
    requires t.buyPrice != 0.0
    ensures s == StopLossHit <==> cv < NewStop(t, cv)
    ensures s == TrailingUp ==> NewStop(t, cv) == TrailFactor * cv > BreakevenStop(t, cv)
    ensures s == TrailingUp <==> (!(cv < NewStop(t, cv)) && ProfitPct(t.buyPrice, cv) > TrailPct &&
                                  TrailFactor * cv > BreakevenStop(t, cv))
  {
    if cv < NewStop(t, cv) then StopLossHit
    else if ProfitPct(t.buyPrice, cv) > TrailPct && TrailFactor * cv > BreakevenStop(t, cv) then TrailingUp
    else Holding
  }

  /** For a positive entry price, a raise always leaves the stop under the
      current price: both candidate levels (entry and 98% of the price) lie
      below a price that is more than 3% in profit. */
  lemma RaisedStopBelowPrice(t: Trade, cv: real)
    requires t.buyPrice > 0.0
    ensures NewStop(t, cv) > t.stopPrice ==> NewStop(t, cv) < cv
  {
    ProfitPctAbove(t.buyPrice, cv, BreakevenPct);
    ProfitPctAbove(t.buyPrice, cv, TrailPct);
  }

  /** For a positive entry price the rules never cause a stop hit by
      themselves: the label is "STOP LOSS HIT" exactly when the price is
      under the stored stop. */
  lemma StopHitIffBelowStoredStop(t: Trade, cv: real)
    requires t.buyPrice > 0.0
    ensures StatusOf(t, cv) == StopLossHit <==> cv < t.stopPrice
  {
    RaisedStopBelowPrice(t, cv);
  }

  /** One trade's evaluation, step by step: start from the stored stop,
      apply the breakeven rule, then the trailing rule, then the hard-stop
      check. */
  method EvaluateTrade(t: Trade, cv: real) returns (newSl: real, status: Status, riskFree: bool)
    requires t.buyPrice != 0.0
    ensures newSl == NewStop(t, cv)
    ensures status == StatusOf(t, cv)
    ensures riskFree <==> ProfitPct(t.buyPrice, cv) > BreakevenPct && t.stopPrice < t.buyPrice
  {
    var pct := (cv - t.buyPrice) / t.buyPrice * 100.0;
    newSl := t.stopPrice;
    status := Holding;
    riskFree := false;
    if pct > BreakevenPct && t.stopPrice < t.buyPrice {
      newSl := t.buyPrice;
      riskFree := true;
    }
    if pct > TrailPct {
      var trailPrice := cv * TrailFactor;
      if trailPrice > newSl {
        newSl := trailPrice;
        status := TrailingUp;
      }
    }
    if cv < newSl {
      status := StopLossHit;
    }
  }

  /** The outcome of one pass over a trade: nothing when the price fetch
      fails or the entry price is zero (the division raises), both of which
      the loop swallows. */
  function Assess(t: Trade, quotes: map<string, real>): (a: Option<Assessment>)
    ensures a.None? <==> t.ticker !in quotes || t.buyPrice == 0.0
    ensures a.Some? ==> a.value.price == quotes[t.ticker] && a.value.newStop >= t.stopPrice
    ensures a.Some? ==> (a.value.status == StopLossHit <==> a.value.price < a.value.newStop)
  {
    if t.ticker !in quotes || t.buyPrice == 0.0 then None
    else
      var cv := quotes[t.ticker];
      Some(Assessment(cv, ProfitPct(t.buyPrice, cv), NewStop(t, cv), StatusOf(t, cv),
                      ProfitPct(t.buyPrice, cv) > BreakevenPct && t.stopPrice < t.buyPrice,
                      PnL(t, cv)))
  }

  /** The trade as stored after one pass: only the stop can change, a failed
      pass leaves the trade alone, a successful one stores a whole number of
      paise, an aligned stop never moves down, and at a gain of at most 3%
      (or any loss) an aligned stop is stored back unchanged. */
  function Apply(t: Trade, quotes: map<string, real>): (r: Trade)
    ensures r.(stopPrice := t.stopPrice) == t
    ensures Assess(t, quotes).None? ==> r == t
    ensures Assess(t, quotes).Some? ==> Aligned(r.stopPrice)
    ensures Aligned(t.stopPrice) ==> r.stopPrice >= t.stopPrice
    ensures (t.ticker in quotes && t.buyPrice != 0.0 && Aligned(t.stopPrice) &&
             ProfitPct(t.buyPrice, quotes[t.ticker]) <= BreakevenPct) ==> r == t
  {
    match Assess(t, quotes)
    case None => t
    case Some(a) =>
      assert Aligned(t.stopPrice) ==> t.stopPrice <= Round2(a.newStop) by {
        if Aligned(t.stopPrice) { Round2AtLeast(t.stopPrice, a.newStop); }
      }
      t.(stopPrice := Round2(a.newStop))
  }

  /** The whole portfolio after one refresh. */
  function Refresh(ps: seq<Trade>, quotes: map<string, real>): (r: seq<Trade>)
    ensures |r| == |ps|
    ensures forall i :: 0 <= i < |ps| ==> r[i].(stopPrice := ps[i].stopPrice) == ps[i]
    ensures forall i :: 0 <= i < |ps| && Aligned(ps[i].stopPrice) ==> r[i].stopPrice >= ps[i].stopPrice
  {
    seq(|ps|, i requires 0 <= i < |ps| => Apply(ps[i], quotes))
  }

  /** The body of the loop's `try` block for one trade: price it, evaluate
      it, and give back the trade to store and what the pass computed. A failed
      fetch or a zero entry price gives the trade back untouched and no row. */
  method PassOne(t: Trade, quotes: map<string, real>) returns (updated: Trade, row: Option<Assessment>)
    ensures updated == Apply(t, quotes)
    ensures row == Assess(t, quotes)
  {
    if t.ticker !in quotes || t.buyPrice == 0.0 {
      return t, None;
    }
    var cv := quotes[t.ticker];
    var pct := (cv - t.buyPrice) / t.buyPrice * 100.0;
    var newSl, status, riskFree := EvaluateTrade(t, cv);
    var pl := (cv - t.buyPrice) * t.qty as real;
    updated := t.(stopPrice := Round2(newSl));
    row := Some(Assessment(cv, pct, newSl, status, riskFree, pl));
    assert pct == ProfitPct(t.buyPrice, cv) && pl == PnL(t, cv);
  }

  /** The refresh loop: each trade is priced and evaluated; on success its
      rounded stop is written back at the same index; a failure skips the
      trade. The returned rows are what each pass computed (the display
      shows their price, percent, stop and label). */
  method RunExitEngine(portfolio: array<Trade>, quotes: map<string, real>) returns (rows: seq<Option<Assessment>>)
    modifies portfolio
    ensures portfolio[..] == Refresh(old(portfolio[..]), quotes)
    ensures |rows| == portfolio.Length
    ensures forall i :: 0 <= i < |rows| ==> rows[i] == Assess(old(portfolio[i]), quotes)
    ensures forall i :: 0 <= i < portfolio.Length && Aligned(old(portfolio[i].stopPrice)) ==>
              portfolio[i].stopPrice >= old(portfolio[i].stopPrice)
  {
    rows := [];
    for i := 0 to portfolio.Length
      invariant |rows| == i
      invariant forall k :: 0 <= k < i ==> portfolio[k] == Apply(old(portfolio[k]), quotes)
      invariant forall k :: 0 <= k < i ==> rows[k] == Assess(old(portfolio[k]), quotes)
      invariant forall k :: i <= k < portfolio.Length ==> portfolio[k] == old(portfolio[k])
    {
      var updated, row := PassOne(portfolio[i], quotes);
      portfolio[i] := updated;
      rows := rows + [row];
    }
  }
}
