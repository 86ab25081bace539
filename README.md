# Smart exit engine of the swing-trading terminal

This project models the trailing-stop exit engine of the swing-trading
terminal's "Active Portfolio" tab. On each refresh the engine walks the
in-memory portfolio, a list of trade records with `Symbol`, `Ticker`, `Qty`,
`BuyPrice` and `StopPrice`. For each trade it:

1. fetches the last traded price;
2. computes the unrealised profit percent;
3. moves the stop up to the entry price once profit exceeds 3% (breakeven);
4. trails the stop at 98% of the price once profit exceeds 5%;
5. labels the trade "STOP LOSS HIT" when the price is under the new stop;
6. writes the new stop, rounded to two decimals, back into the same record.

A failed price fetch, or a zero entry price (the percent division raises),
is swallowed by the loop, and that trade is skipped.

Modules:

- `Rounding` (`rounding.dfy`): `round(x, 2)` on exact reals. It rounds to the
  nearest paisa, with ties going to the even paisa. It also defines
  `Aligned`: the amount is a whole number of paise.
- `ExitEngine` (`exit_engine.dfy`): the trade record and the two rules as
  declarative maxima (`NewStop`, `StatusOf`). `EvaluateTrade` applies the
  rules step by step, in the code's order. `Assess` and `Apply` cover one
  trade, including the skip path, and `Refresh` covers the whole list.
  `PassOne` is the body of the loop's `try` block for one trade, and
  `RunExitEngine` is the in-place loop over an `array<Trade>`.
- `Ratchet` (`ratchet.dfy`): many refresh cycles. The stop never goes down
  and other fields never change. A trade that cannot be priced stays frozen.
  One lemma shows that the ratchet needs a cent-aligned stored stop, and
  another works through the breakeven, trail and stop-hit scenario.

Prices are Dafny `real`. The price source is a parameter: `quotes`, a map
from ticker to price for the current cycle. A ticker missing from the map
stands for a fetch that raised.

Points where the code's behaviour is easy to misread, and which the model
follows exactly:

- The hard-stop test is strict (`cv < new_sl`), so a price equal to the new
  stop is not a hit; a rule of the form "price ≤ stop" would differ at
  equality.
- The engine only sets the label. It does not close the position. The close
  button's handler is a placeholder.
- The P&L is computed for each priced trade (line 41) but never displayed;
  the display shows the rounded price, the profit percent and the stop.
- The thresholds are fixed in the code: 3% for breakeven, 5% for trailing,
  and a 2% trail. The model uses the same constants.

## Model

| member | source | states |
|---|---|---|
| `Rounding.Paise` | swing_app.py:33 | the stored stop is the nearest whole number of paise, with ties to the even paisa; an aligned amount is kept exactly |
| `Rounding.Round2` | swing_app.py:33 | `round(new_sl, 2)` is aligned, within half a paisa of `new_sl`, and the identity on aligned amounts |
| `Rounding.Round2Monotone` | swing_app.py:33 | rounding to two decimals preserves order |
| `Rounding.Round2AtLeast` | swing_app.py:33 | rounding a stop that is at least an aligned old stop stays at least that old stop |
| `ExitEngine.ProfitPctAbove` | swing_app.py:9 | for a positive entry price, "profit % > p" is `100*(cv-buy) > p*buy`, with no division |
| `ExitEngine.PnLSign` | swing_app.py:41 | P&L `(cv - BuyPrice) * Qty` is positive exactly when the price is above entry (qty > 0), and equals profit % × entry × qty / 100 |
| `ExitEngine.NewStop` | swing_app.py:12-25 | the new stop is never below the old one; at profit ≤ 3% (any loss included) it equals the old stop; above 3% it is at least the entry price; above 5% it is at least 98% of the price, and at or below 5% it is exactly the post-breakeven stop (no trailing); it is one of old stop, entry, or 98% of the price |
| `ExitEngine.StatusOf` | swing_app.py:26-30 | "STOP LOSS HIT" exactly when `cv < new_sl` (equality is not a hit) and it overrides "Trailing Up"; "Trailing Up" exactly when there is no hit, profit is above 5% and the trail price beats the post-breakeven stop, in which case the trail price is the new stop |
| `ExitEngine.RaisedStopBelowPrice` | swing_app.py:16-25 | for a positive entry price, whenever the rules raise the stop, the raised stop is below the current price |
| `ExitEngine.StopHitIffBelowStoredStop` | swing_app.py:12-30 | for a positive entry price, the stop-hit label appears exactly when the price is under the stop stored before this pass |
| `ExitEngine.EvaluateTrade` | swing_app.py:9-30 | the step-by-step rules (breakeven on the stored stop, then trail against the candidate, then the hard-stop check) compute the declarative `NewStop` and `StatusOf`; the breakeven notification fires exactly when profit > 3% and the stored stop is below entry |
| `ExitEngine.Assess` | swing_app.py:7-9 | a pass fails exactly when the price fetch fails or the entry price is 0; otherwise it uses the fetched price, its new stop is at least the stored stop, and it is labelled a stop hit exactly when the price is below the new stop |
| `ExitEngine.Apply` | swing_app.py:12-33 | only `StopPrice` of the trade changes; a failed pass leaves the trade unchanged; a successful pass stores an aligned stop; an aligned stored stop never moves down; a priced trade at profit ≤ 3% (any loss included) with an aligned stop is stored back unchanged |
| `ExitEngine.Refresh` | swing_app.py:6-33 | after one refresh the portfolio keeps its length, every trade keeps all fields but the stop, and every aligned stop is at least its old value |
| `ExitEngine.PassOne` | swing_app.py:7-33 | one trade's pass stores exactly `Apply` of the trade and yields exactly `Assess` of it: untouched and no row on a failed fetch or zero entry, otherwise the rounded stop and the evaluated row |
| `ExitEngine.RunExitEngine` | swing_app.py:6-50 | the in-place loop leaves the array equal to `Refresh` of its old contents, returns one computed row per trade (none for a skipped trade), and no aligned stop moves down |
| `Ratchet.CyclesSplit` | swing_app.py:6-33 | running the refresh over a run of cycles is running it over a prefix and then over the rest |
| `Ratchet.CyclesRatchet` | swing_app.py:12-33 | over any run of cycles an aligned stop never goes down and stays aligned, and no other field of the trade changes |
| `Ratchet.StopNonDecreasing` | swing_app.py:12-33 | the stop after j cycles is at most the stop after k ≥ j cycles |
| `Ratchet.FrozenWhileUnpriced` | swing_app.py:7-8 | while every fetch for a trade's ticker fails, the trade and its stop stay unchanged |
| `Ratchet.ZeroEntryNeverChanges` | swing_app.py:9 | a trade with entry price 0 is skipped on every cycle and never changes |
| `Ratchet.UnalignedStopCanDrop` | swing_app.py:33 | without the alignment assumption the ratchet fails: a stored stop of 100.004 with a flat price is written back as 100.00 |
| `Ratchet.BreakevenTrailStopScenario` | swing_app.py:15-41 | entry 100, stop 98: at 104 the stop moves to 100; at 106 it trails to 103.88, labelled "Trailing Up"; at 103 the label is "STOP LOSS HIT" and P&L is 3 × qty |

## Left out

- `get_price` is a market-data network call. It becomes the `quotes` parameter. The model assumes one price per ticker per cycle, so two trades on the same ticker see the same price.
- Binary floating point is not modelled. `cv * 0.98`, the percent and `round(x, 2)` are computed on exact reals. Python rounds the binary double, so on values near a half-paisa tie the result can differ from exact decimal rounding.
- The model keeps the stop-hit label. It does not add a stop-hit exit: the engine only labels the trade, and the close button's handler is a placeholder with no logic.
- `st.toast` at the breakeven rule becomes the `riskFree` flag of the assessment. Its message text is not modelled.
- The row each pass computes is returned as data: price, profit %, the unrounded stop, the label, and the P&L (computed at line 41 but not shown by the display code). The symbol and entry columns are not repeated in it. The Streamlit columns, metrics and colours are not modelled.
- An exception raised by the display calls after the write-back is not modelled. It would not undo the write, and the model returns the row as computed.
- Missing dictionary keys and non-numeric field values (other ways the `try` block can raise) are not modelled. Every record has the five fields, with numeric prices.
- `analysis.py` is not part of this model. It is presentation and pandas aggregation over the journal.
- `Ratchet.CyclesRatchet`, `Ratchet.StopNonDecreasing`, `ExitEngine.Apply`, `ExitEngine.Refresh`, `ExitEngine.RunExitEngine`: the ratchet is stated only for a stored stop that is a whole number of paise (see `Ratchet.UnalignedStopCanDrop`). After one successful pass every stored stop is aligned.
