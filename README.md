# EMA crossover alert: a Dafny model

The repository polls candle data for a few trading symbols and computes two exponential moving averages (EMA) of the closing prices: EMA(9) and EMA(15). It detects when the fast EMA crosses the slow one between the previous candle and the current one, and sends at most one alert per symbol per polling interval. This project models the part of `app.py` that decides what to send:

- `EmaCalculator` (ema.dfy) models `calculate_ema`. The seed is the simple mean of the first `period` prices, folded with the factor `2 / (period + 1)`; the result is undefined for short series. `CalculateEma` is the loop, proved equal to the recursive specification `Ema`, whose properties are proved as lemmas.
- `Crossover` (crossover.dfy) models `check_ema_crossover` as the function `CheckCrossover`. It keeps every guard of the source and uses Python's slice semantics for negative bounds (`PySlice`, `PyIndex`). The periods are parameters with `0 < fast < slow`, and `FastPeriod = 9` and `SlowPeriod = 15` are the source's values. A guard-free reference formulation (`CurrentWindow`, `PreviousWindow`, `CurrentEmas`, `PreviousEmas`) is proved equal to it, and the listed properties are proved from there.
- `Throttle` (throttle.dfy) models the check-and-record block of `main`'s per-symbol loop as the class `AlertGate`. It holds the interval in seconds and a `map<string, int>` from symbol to the time of the last alert.
- `Wrappers` (wrappers.dfy) defines `Option`, which plays the role of Python's `None`.

Prices are exact `real`s. Time is whole seconds, and the clock reading `now` is a parameter.

## Model

| member | source | states |
|---|---|---|
| EmaCalculator.Ema | app.py:45-54 | the EMA is undefined exactly when there are fewer prices than the period |
| EmaCalculator.Multiplier | app.py:48 | the smoothing factor 2/(period+1) lies in (0, 1] for every positive period |
| EmaCalculator.CalculateEma | app.py:39-54 | the loop returns None exactly when the series is shorter than the period; otherwise it returns the mean of the first `period` prices folded left to right over the rest |
| EmaCalculator.MeanBounds | app.py:49 | the SMA seed lies between any lower and upper bound of the prices it averages |
| EmaCalculator.StepBounded | app.py:52 | one update never leaves the interval that holds both the old average and the new price |
| EmaCalculator.FoldBounded | app.py:51-52 | the loop keeps the running average within any bounds that hold for the seed and every later price |
| EmaCalculator.FoldConstant | app.py:51-52 | folding copies of v into seed v leaves v |
| EmaCalculator.EmaOfExactPeriod | app.py:49-54 | with exactly `period` prices the EMA is their simple mean |
| EmaCalculator.EmaOfConstant | app.py:45-54 | a constant series of value v, once long enough, has EMA exactly v |
| EmaCalculator.EmaBounded | app.py:45-54 | the EMA lies between the minimum and maximum of the prices (any bounds on every price bound it) |
| EmaCalculator.FoldExtend | app.py:51-52 | extending the folded prefix by one price is one more update step, which is what each loop iteration does |
| EmaCalculator.EmaAppend | app.py:51-52 | appending one price to a long-enough series updates the EMA by exactly one step (the incremental form) |
| Crossover.PyIndex | app.py:151 | a Python slice bound normalises into [0, n] |
| Crossover.InsufficientData | app.py:147-148 | fewer than slow + 5 prices gives (None, None, None) |
| Crossover.WindowsAreTrailingSlices | app.py:151-160 | `prices[-(slow+5):]` is exactly the last slow + 5 prices; `prices[-(slow+6):-1]` is the window one back, of length min(n, slow+6) - 1 >= slow |
| Crossover.AllEmasDefined | app.py:151-167 | with enough prices all four EMAs are defined, so the early return and the undefined-previous branch never fire, and the result equals the guard-free reference |
| Crossover.ClassifiedByEmas | app.py:169-179 | with enough prices the crossover is the classification of the previous and current EMA pairs |
| Crossover.ReturnsCurrentEmas | app.py:191 | the second and third components are always the current fast and slow EMAs, defined exactly when there are enough prices, whatever the classification |
| Crossover.BullishIff | app.py:173-175 | bullish if and only if previous fast <= previous slow and current fast > current slow |
| Crossover.BearishIff | app.py:177-179 | bearish if and only if previous fast >= previous slow and current fast < current slow |
| Crossover.CurrentTieNeverCrosses | app.py:170-179 | equal current EMAs never give a crossover; a bullish (bearish) result has the current fast EMA strictly above (below) the slow one |
| Crossover.PrependUnchanged | app.py:151-160 | prepending any prices to a series of at least slow + 6 prices leaves the whole result unchanged |
| Crossover.DependsOnlyOnTail | app.py:151-160 | the result depends only on the last slow + 6 prices |
| Crossover.PreviousIsLastCurrent | app.py:151-160 | one close later, the previous EMA pair is the pair that was current |
| Crossover.NoRepeatedCrossover | app.py:170-179 | after a bullish (bearish) result, appending one close never gives bullish (bearish) again |
| Crossover.ConstantSeriesNoCrossover | app.py:142-191 | a constant series never crosses, and once long enough both current EMAs equal the constant |
| Crossover.FlatHundredScenario | app.py:142-191 | twenty closes at 100 with periods 9 and 15 give (None, 100, 100) |
| Crossover.EmaAfterStep | app.py:51-52 | one close w after a constant run of v moves the EMA to v + (w - v)·k |
| Crossover.StepChangeWindows | app.py:151-160 | after a flat run of at least 19 closes at v and one close w, the current window is 19 closes at v then w, and the previous window is flat at v |
| Crossover.FastEmaAfterStep | app.py:45-54 | EMA(9) of 19 closes at v then w is v + (w - v)·2/10 |
| Crossover.SlowEmaAfterStep | app.py:45-54 | EMA(15) of 19 closes at v then w is v + (w - v)·2/16 |
| Crossover.StepChangeEmas | app.py:151-167 | with periods 9 and 15, for a flat run then one close, the previous EMAs are both v and the current ones are v + (w - v)·2/10 and v + (w - v)·2/16 |
| Crossover.StepChangeCrosses | app.py:142-191 | with periods 9 and 15, a flat run then one higher close is bullish, one lower close bearish, one equal close no crossover |
| Throttle.AlertGate.constructor | app.py:211-212 | the gate starts with the configured interval and no recorded alerts |
| Throttle.AlertGate.Gate | app.py:229-235 | sends exactly when there is a crossover with both EMAs defined and (no record, or now - last > interval strictly); sending sets only that symbol's entry to now, whatever the notifier reports; a rejection leaves the map unchanged |
| Throttle.AlertGate.Observe | app.py:226-235 | one symbol's turn: the signal is the detector's output with periods 9 and 15, then the gate as above |
| Throttle.FirstAlertAllowed | app.py:230-231 | a symbol with no recorded alert passes the time rule |
| Throttle.RecordedAlertBlocksWindow | app.py:231-235 | after an alert at t0 the symbol passes again exactly when now - t0 > interval (so at t0 + interval it is still blocked) |
| Throttle.OtherSymbolsUnaffected | app.py:235 | recording for one symbol leaves every other symbol's entry and gate decision unchanged |
| Throttle.NoCrossoverNoAlert | app.py:229 | no crossover, or an undefined EMA, means no alert |
| Throttle.AtMostOneAlertPerWindow | app.py:229-235 | two alerts for one symbol at most `interval` seconds apart never both pass |

The definitions that the contracts above are stated over carry no row of their own: `Crossover.CheckCrossover` models `check_ema_crossover` (app.py:142-191), `Crossover.PySlice` the two negative slices (app.py:151, app.py:160) and `Crossover.Classify` the comparison of the EMA pairs (app.py:170-179); `EmaCalculator.Step` and `EmaCalculator.Fold` model the update and the loop over the remaining prices (app.py:51-52); `Throttle.Allowed`, `Throttle.ShouldAlert` and `Throttle.Record` model the test and the update of the last-alert map (app.py:229-235). `Throttle.TwoCrossoversInOneWindow` is an example client of `AlertGate` showing a second alert for the same symbol suppressed and another symbol's alert passing.

## Left out

- Market-data fetch (`fetch_btc_ohlc_data`, with its commented-out duplicate): HTTP and JSON I/O. The model starts from the list of closing prices. The skip of a symbol whose fetch returned nothing is not modelled.
- Notification (`send_email_alert`): the HTTP call and the message text. Its boolean result is the `delivered` parameter of `Gate` and `Observe`, which the model ignores, as the source does.
- The endless polling loop, `time.sleep`, `datetime.now()`, and all printing and debug output (including the debug block of `check_ema_crossover`). `now` is a parameter, the same for every symbol of one cycle.
- Loading configuration from the environment and `.env`: the interval is a constructor argument, and the periods are constants or parameters.
- Floating-point rounding: arithmetic is exact over the reals. Python's `datetime` differences in fractional seconds are modelled as whole seconds.
- EmaCalculator.Ema: requires a positive period. A period of 0 raises a division by zero in the source, and negative periods are excluded by the `nat` type. The source only ever passes 9 and 15.
- Crossover.CheckCrossover: requires 0 < fast < slow. The source has the fixed configuration 9 and 15.
- Gate: the result of `send_email_alert` is discarded (app.py:234) and the timestamp is written at app.py:235 either way, so a failed notification still uses up the throttle window; `Gate` ignores `delivered`, as the code does.
- StepChangeCrosses: proves only the flat-then-one-step case for the periods 9 and 15. A series that rises over several closes is not covered: once the rise has started, the previous window already holds part of it, so whether the last close shows a crossover depends on the exact values. `NoRepeatedCrossover` proves that a crossover is never reported again on the next close.
